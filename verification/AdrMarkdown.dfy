// ADR files: front matter, heading and body (scripts/adr_common.py). YAML is a
// pair of functions, `isspace` a predicate on characters.
module AdrMarkdown {
  import opened Basics
  import opened JsonValues

  datatype Yaml = Yaml(dump: Record -> string, load: string -> Json)

  // A dump is a block of lines none of which is `---`, with carriage returns
  // escaped, and reads back.
  ghost predicate Lawful(yaml: Yaml) {
    forall f: Record ::
      var text := yaml.dump(f);
      && text != "" && text[|text| - 1] == '\n' && '\r' !in text
      && (forall i :: 0 <= i < |text| - 1 ==> !MatchesAt(text + "---\n", FENCE, i))
      && yaml.load(text[..|text| - 1]) == Obj(f)
  }

  ghost predicate LawfulSpace(space: char -> bool) {
    && space('\n') && !space('\U{2014}')
    && forall c :: ' ' < c <= '~' ==> !space(c)
  }

  const FENCE := "\n---\n"

  // DEC- and at least four digits.
  predicate DecId(id: string) {
    8 <= |id| && id[..4] == "DEC-" && forall c :: c in id[4..] ==> IsDigit(c)
  }

  // --- str.strip() -------------------------------------------------------------

  function Lstrip(space: char -> bool, s: string): string
    decreases |s|
  {
    if s == "" || !space(s[0]) then s else Lstrip(space, s[1..])
  }

  function Rstrip(space: char -> bool, s: string): string
    decreases |s|
  {
    if s == "" || !space(s[|s| - 1]) then s else Rstrip(space, s[..|s| - 1])
  }

  function Strip(space: char -> bool, s: string): string {
    Rstrip(space, Lstrip(space, s))
  }

  ghost predicate Stripped(space: char -> bool, s: string) {
    s != "" ==> !space(s[0]) && !space(s[|s| - 1])
  }

  ghost predicate Blank(space: char -> bool, s: string) {
    forall c :: c in s ==> space(c)
  }

  lemma {:induction false} LstripDrops(space: char -> bool, pad: string, s: string)
    requires Blank(space, pad)
    ensures Lstrip(space, pad + s) == Lstrip(space, s)
    decreases |pad|
  {
    if pad == "" {
      assert pad + s == s;
    } else {
      assert pad[0] in pad && (pad + s)[1..] == pad[1..] + s;
      LstripDrops(space, pad[1..], s);
    }
  }

  lemma {:induction false} RstripDrops(space: char -> bool, s: string, pad: string)
    requires Blank(space, pad)
    ensures Rstrip(space, s + pad) == Rstrip(space, s)
    decreases |pad|
  {
    if pad == "" {
      assert s + pad == s;
    } else {
      var t := s + pad;
      assert t[|t| - 1] == pad[|pad| - 1] && pad[|pad| - 1] in pad;
      assert t[..|t| - 1] == s + pad[..|pad| - 1];
      RstripDrops(space, s, pad[..|pad| - 1]);
    }
  }

  lemma {:induction false} LstripSplits(space: char -> bool, s: string) returns (k: nat)
    ensures k <= |s| && Lstrip(space, s) == s[k..] && Blank(space, s[..k])
    ensures k < |s| ==> !space(s[k])
    decreases |s|
  {
    k := 0;
    if s != "" && space(s[0]) {
      var j := LstripSplits(space, s[1..]);
      k := j + 1;
      assert s[..k] == [s[0]] + s[1..][..j];
      assert s[k..] == s[1..][j..];
    }
  }

  lemma {:induction false} RstripSplits(space: char -> bool, s: string)
    ensures Prefix(Rstrip(space, s), s) && Blank(space, s[|Rstrip(space, s)|..])
    ensures Rstrip(space, s) != "" ==> !space(Rstrip(space, s)[|Rstrip(space, s)| - 1])
    decreases |s|
  {
    if s != "" && space(s[|s| - 1]) {
      var r := Rstrip(space, s[..|s| - 1]);
      RstripSplits(space, s[..|s| - 1]);
      assert s[..|r|] == s[..|s| - 1][..|r|];
      assert s[|r|..] == s[..|s| - 1][|r|..] + [s[|s| - 1]];
    }
  }

  lemma StripTrims(space: char -> bool, s: string)
    ensures Stripped(space, Strip(space, s))
    ensures Strip(space, s) == s <==> Stripped(space, s)
  {
    var k := LstripSplits(space, s);
    RstripSplits(space, s[k..]);
  }

  lemma StripIsEmpty(space: char -> bool, s: string)
    ensures Strip(space, s) == "" <==> Blank(space, s)
  {
    var k := LstripSplits(space, s);
    RstripSplits(space, s[k..]);
    assert s == s[..k] + s[k..];
    assert k < |s| ==> s[k] in s;
  }

  // Padding a stripped text does not change what stripping returns.
  lemma StripUnpads(space: char -> bool, pad: string, core: string, end: string)
    requires Blank(space, pad) && Blank(space, end) && Stripped(space, core)
    ensures Strip(space, pad + core + end) == core
  {
    assert pad + core + end == pad + (core + end);
    LstripDrops(space, pad, core + end);
    if core == "" {
      assert core + end == end + "";
      LstripDrops(space, end, "");
    } else {
      assert (core + end)[0] == core[0];
      RstripDrops(space, core, end);
    }
  }

  // --- front matter --------------------------------------------------------------

  predicate MatchesAt(text: string, pattern: string, i: int) {
    0 <= i && i + |pattern| <= |text| && text[i..i + |pattern|] == pattern
  }

  predicate StartsWith(s: string, prefix: string) {
    MatchesAt(s, prefix, 0)
  }

  predicate EndsWith(s: string, suffix: string) {
    MatchesAt(s, suffix, |s| - |suffix|)
  }

  // The first place at or after `from` where the pattern stands.
  function FirstAt(text: string, pattern: string, from: nat): (at: Option<nat>)
    ensures at.Some? ==> from <= at.value && MatchesAt(text, pattern, at.value)
    ensures at.Some? ==> forall i :: from <= i < at.value ==> !MatchesAt(text, pattern, i)
    ensures at.None? ==> forall i :: from <= i ==> !MatchesAt(text, pattern, i)
    decreases |text| - from
  {
    if |text| < from + |pattern| then None
    else if MatchesAt(text, pattern, from) then Some(from)
    else FirstAt(text, pattern, from + 1)
  }

  datatype Parts = Parts(front: string, rest: string)

  function SplitFrontMatter(text: string): Option<Parts> {
    if !MatchesAt(text, "---\n", 0) then None
    else
      var at := FirstAt(text, FENCE, 4);
      if at.None? then None else Some(Parts(text[4..at.value], text[at.value + 5..]))
  }

  // Drops `# ...` with its line end and one blank line.
  function DropHeading(text: string): string {
    if !MatchesAt(text, "# ", 0) then text
    else
      var end := FirstAt(text, "\n", 2);
      if end.None? || end.value == 2 then text
      else if end.value + 1 < |text| && text[end.value + 1] == '\n' then text[end.value + 2..]
      else text[end.value + 1..]
  }

  datatype ParsedAdr = ParsedAdr(fields: Json, body: string)

  predicate Falsy(v: Json) {
    match v
    case Null => true
    case Bool(b) => !b
    case Num(n) => n.Some? && n.value.numerator == 0
    case Str(s) => s == ""
    case Arr(items) => items == []
    case Obj(fields) => fields == map[]
  }

  function ParseAdr(yaml: Yaml, space: char -> bool, text: string): Option<ParsedAdr> {
    var parts := SplitFrontMatter(text);
    if parts.None? then None
    else
      var fields := yaml.load(parts.value.front);
      var body := DropHeading(Strip(space, parts.value.rest));
      Some(ParsedAdr(if Falsy(fields) then Obj(map[]) else fields, Strip(space, body)))
  }

  const ADR_FIELDS: set<string> := {
    "id", "title", "status", "date", "author", "supersedes", "superseded_by", "source", "sync_hash",
    "graphify_entities"}

  function Known(fields: Record): Record {
    map k | k in fields && k in ADR_FIELDS :: fields[k]
  }

  function Heading(id: string, title: string): string {
    "# " + id + " \U{2014} " + title
  }

  function RenderAdr(yaml: Yaml, fields: Record, body: string): string
    requires Get(fields, "id").Str? && Get(fields, "title").Str?
  {
    "---\n" + yaml.dump(Known(fields)) + "---\n\n"
    + Heading(fields["id"].s, fields["title"].s) + "\n\n" + body + "\n"
  }

  lemma RenderSplits(yaml: Yaml, fields: Record, rest: string)
    requires Lawful(yaml)
    ensures var text := "---\n" + yaml.dump(fields) + "---\n" + rest;
            && SplitFrontMatter(text).Some?
            && yaml.load(SplitFrontMatter(text).value.front) == Obj(fields)
            && SplitFrontMatter(text).value.rest == rest
  {
    var dump := yaml.dump(fields);
    var fenced := dump + "---\n";
    var text := "---\n" + dump + "---\n" + rest;
    var end := |dump| + 3;
    assert text[..4] == "---\n";
    assert text[4..] == fenced + rest;
    forall i | 4 <= i < end
      ensures !MatchesAt(text, FENCE, i)
    {
      assert !MatchesAt(fenced, FENCE, i - 4);
      assert text[i..i + 5] == fenced[i - 4..i + 1];
    }
    assert text[end..end + 5] == FENCE;
    assert MatchesAt(text, FENCE, end);
    assert text[4..end] == dump[..|dump| - 1];
    assert text[end + 5..] == rest;
  }

  lemma SplitParts(text: string, front: string, rest: string)
    requires SplitFrontMatter(text) == Some(Parts(front, rest))
    ensures text == "---\n" + front + FENCE + rest
    ensures forall i :: 4 <= i < 4 + |front| ==> !MatchesAt(text, FENCE, i)
  {
    var at := FirstAt(text, FENCE, 4).value;
    assert text == text[..4] + text[4..at] + text[at..at + 5] + text[at + 5..];
  }

  lemma PartsSplit(text: string, front: string, rest: string)
    requires text == "---\n" + front + FENCE + rest
    requires forall i :: 4 <= i < 4 + |front| ==> !MatchesAt(text, FENCE, i)
    ensures SplitFrontMatter(text) == Some(Parts(front, rest))
  {
    var at := 4 + |front|;
    assert text[..4] == "---\n" && text[4..at] == front && text[at..at + 5] == FENCE && text[at + 5..] == rest;
    assert MatchesAt(text, FENCE, at);
    assert FirstAt(text, FENCE, 4) == Some(at);
  }

  // Front matter is what stands between the opening line and the first closing
  // one, and the rest is what follows.
  lemma SplitExactly(text: string, front: string, rest: string)
    ensures SplitFrontMatter(text) == Some(Parts(front, rest))
            <==> && text == "---\n" + front + FENCE + rest
                 && forall i :: 4 <= i < 4 + |front| ==> !MatchesAt(text, FENCE, i)
  {
    hide SplitFrontMatter;
    if SplitFrontMatter(text) == Some(Parts(front, rest)) {
      SplitParts(text, front, rest);
    }
    if text == "---\n" + front + FENCE + rest && forall i :: 4 <= i < 4 + |front| ==> !MatchesAt(text, FENCE, i) {
      PartsSplit(text, front, rest);
    }
  }

  // Only a heading goes.
  lemma OtherTextStays(text: string)
    requires !MatchesAt(text, "# ", 0)
    ensures DropHeading(text) == text
  {
  }

  // What Python takes for false.
  lemma FalsyExactly(v: Json)
    ensures Falsy(v) <==>
              v in {Null, Bool(false), Str(""), Arr([]), Obj(map[])} || (v.Num? && v.n.Some? && v.n.value.numerator == 0)
  {
  }

  // The fields an ADR file has room for.
  lemma KnownExactly(fields: Record, k: string)
    ensures k in Known(fields) <==>
              && k in fields
              && k in ["id", "title", "status", "date", "author", "supersedes", "superseded_by", "source", "sync_hash",
                       "graphify_entities"]
    ensures k in Known(fields) ==> Known(fields)[k] == fields[k]
  {
    assert k in ADR_FIELDS <==>
             k in ["id", "title", "status", "date", "author", "supersedes", "superseded_by", "source", "sync_hash", "graphify_entities"];
  }

  lemma DecIdExactly(prefix: string, digits: string)
    requires |prefix| == 4
    ensures DecId(prefix + digits) <==> prefix == "DEC-" && |digits| >= 4 && forall c :: c in digits ==> '0' <= c <= '9'
  {
    var id := prefix + digits;
    assert id[..4] == prefix && id[4..] == digits;
  }

  lemma NewlineAt(text: string, i: int)
    ensures MatchesAt(text, "\n", i) <==> 0 <= i < |text| && text[i] == '\n'
  {
  }

  // The heading goes, and with it the newline before a body.
  lemma HeadingDrops(heading: string, text: string)
    requires MatchesAt(heading, "# ", 0) && 2 < |heading| && '\n' !in heading
    ensures DropHeading(heading) == heading
    ensures DropHeading(heading + "\n" + text) == if MatchesAt(text, "\n", 0) then text[1..] else text
  {
    var whole := heading + "\n" + text;
    forall i | 0 <= i < |heading|
      ensures !MatchesAt(whole, "\n", i) && !MatchesAt(heading, "\n", i)
    {
      assert heading[i] in heading && whole[i] == heading[i];
      NewlineAt(whole, i);
      NewlineAt(heading, i);
    }
    assert whole[..2] == heading[..2];
    NewlineAt(whole, |heading|);
    NewlineAt(text, 0);
    assert FirstAt(whole, "\n", 2) == Some(|heading|);
    assert whole[|heading| + 1..] == text;
    assert text != "" ==> whole[|heading| + 2..] == text[1..];
  }

  // What parsing makes of the text after the front matter.
  function ReadBody(space: char -> bool, rest: string): string {
    Strip(space, DropHeading(Strip(space, rest)))
  }

  // Stripping keeps a first line before a text that is not blank.
  lemma StripKeepsLine(space: char -> bool, line: string, text: string)
    requires LawfulSpace(space) && !Blank(space, text) && line != "" && !space(line[0])
    ensures Strip(space, "\n" + line + "\n" + text) == line + "\n" + Rstrip(space, text)
  {
    var core := Rstrip(space, text);
    TrimmedEnd(space, text);
    RstripSplits(space, text);
    var pad := text[|core|..];
    var stripped := line + "\n" + core;
    assert text == core + pad;
    assert "\n" + line + "\n" + text == "\n" + stripped + pad;
    assert stripped[0] == line[0] && stripped[|stripped| - 1] == core[|core| - 1];
    hide Strip, Rstrip;
    StripUnpads(space, "\n", stripped, pad);
  }

  // A first line that is a heading goes; alone it stays.
  lemma FirstLineGoes(space: char -> bool, line: string, text: string)
    requires LawfulSpace(space)
    requires MatchesAt(line, "# ", 0) && 2 < |line| && '\n' !in line
    ensures !Blank(space, text) ==> ReadBody(space, "\n" + line + "\n" + text) == Strip(space, text)
    ensures Blank(space, text) ==> ReadBody(space, "\n" + line + "\n" + text) != ""
  {
    hide Strip, Rstrip, DropHeading;
    if Blank(space, text) {
      HeadingStays(space, line, "\n" + text);
      assert "\n" + line + "\n" + text == "\n" + line + ("\n" + text);
    } else {
      assert line[..2][0] == '#';
      StripKeepsLine(space, line, text);
      HeadingDrops(line, Rstrip(space, text));
      TrimmedEnd(space, text);
      StripSkipsNewline(space, Rstrip(space, text));
    }
  }

  lemma StripSkipsNewline(space: char -> bool, core: string)
    requires LawfulSpace(space)
    ensures MatchesAt(core, "\n", 0) ==> Strip(space, core[1..]) == Strip(space, core)
  {
    if MatchesAt(core, "\n", 0) {
      assert core == "\n" + core[1..];
      LstripDrops(space, "\n", core[1..]);
    }
  }

  // Trimming the end first does not change what stripping returns.
  lemma TrimmedEnd(space: char -> bool, text: string)
    requires !Blank(space, text)
    ensures Rstrip(space, text) != "" && Strip(space, Rstrip(space, text)) == Strip(space, text)
  {
    hide Strip, Rstrip, Stripped;
    var core := Rstrip(space, text);
    RstripSplits(space, text);
    var pad := text[|core|..];
    assert text == core + pad;
    assert core == "" ==> text == pad;
    var k := StripIsSuffix(space, core);
    assert text == core[..k] + core[k..] + pad;
    StripUnpads(space, core[..k], core[k..], pad);
  }

  lemma StripIsSuffix(space: char -> bool, s: string) returns (k: nat)
    requires s != "" && !space(s[|s| - 1])
    ensures k < |s| && Blank(space, s[..k]) && Stripped(space, s[k..]) && Strip(space, s) == s[k..]
  {
    k := LstripSplits(space, s);
    RstripIsSame(space, s[k..]);
  }

  lemma RstripIsSame(space: char -> bool, s: string)
    requires s != "" && !space(s[|s| - 1])
    ensures Rstrip(space, s) == s
  {
  }

  // A heading followed by blanks reads back as itself.
  lemma HeadingStays(space: char -> bool, heading: string, blank: string)
    requires LawfulSpace(space) && Blank(space, blank)
    requires MatchesAt(heading, "# ", 0) && '\n' !in heading
    ensures ReadBody(space, "\n" + heading + blank) != ""
  {
    assert heading[..2] == "# ";
    assert heading[0] in heading;
    var core := Rstrip(space, heading);
    TrimmedEnd(space, heading);
    RstripSplits(space, heading);
    var pad := heading[|core|..];
    assert heading == core + pad;
    assert "\n" + heading + blank == "\n" + core + (pad + blank);
    assert core[0] == '#';
    StripUnpads(space, "\n", core, pad + blank);
    if MatchesAt(core, "# ", 0) {
      assert core[1] == ' ';
      if |core| == 2 {
        assert core == "# ";
        assert DropHeading(core) == core;
      } else {
        assert '\n' !in core;
        HeadingDrops(core, "");
      }
    }
    StripIsEmpty(space, core);
    assert core[0] in core;
  }

  // Stripping returns the body exactly when everything around it is blank.
  lemma PadDecides(space: char -> bool, pad: string, body: string)
    requires LawfulSpace(space)
    ensures var text := pad + body + "\n";
            !Blank(space, text) && Strip(space, text) == body <==> body != "" && Stripped(space, body) && Blank(space, pad)
  {
    var text := pad + body + "\n";
    StripTrims(space, text);
    StripIsEmpty(space, text);
    if body != "" && Stripped(space, body) {
      assert body[0] == text[|pad|];
      if Blank(space, pad) {
        StripUnpads(space, pad, body, "\n");
      } else {
        PadStays(space, pad, body);
      }
    }
  }

  lemma PadStays(space: char -> bool, pad: string, body: string)
    requires LawfulSpace(space) && !Blank(space, pad) && body != "" && !space(body[|body| - 1])
    ensures |Strip(space, pad + body + "\n")| > |body|
  {
    var text := pad + body + "\n";
    var k := LstripSplits(space, text);
    var i :| 0 <= i < |pad| && !space(pad[i]);
    assert text[i] == pad[i];
    var core := pad[k..] + body;
    assert text[k..] == core + "\n";
    RstripDrops(space, core, "\n");
    RstripIsSame(space, core);
  }

  // A first line without text is no heading.
  lemma BareLineStays(space: char -> bool, text: string)
    requires LawfulSpace(space) && !Blank(space, text)
    ensures ReadBody(space, "\n# \n" + text) == "# \n" + Rstrip(space, text)
  {
    var core := Rstrip(space, text);
    var stripped := "# \n" + core;
    assert "\n# \n" + text == "\n" + "# " + "\n" + text;
    assert stripped == "# " + "\n" + core;
    StripKeepsLine(space, "# ", text);
    hide Strip, Rstrip;
    NewlineAt(stripped, 2);
    assert FirstAt(stripped, "\n", 2) == Some(2);
    StripTrims(space, "\n# \n" + text);
    StripTrims(space, stripped);
  }

  // The body after a heading of several lines, the first of which is `line`.
  lemma LinesReadBack(space: char -> bool, line: string, tail: string, body: string)
    requires LawfulSpace(space)
    requires MatchesAt(line, "# ", 0) && '\n' !in line && (|line| == 2 ==> !Blank(space, tail))
    ensures ReadBody(space, "\n" + line + "\n" + tail + "\n\n" + body + "\n") == body
            <==> body != "" && Stripped(space, body) && Blank(space, tail)
  {
    hide *;
    var rest := "\n" + line + "\n" + tail + "\n\n" + body + "\n";
    var pad := tail + "\n\n";
    var text := pad + body + "\n";
    assert rest == "\n" + line + "\n" + text;
    PadIsBlank(space, tail, pad);
    PadDecides(space, pad, body);
    BlankText(space, pad, body);
    ReadIsStripped(space, rest);
    if |line| > 2 {
      FirstLineGoes(space, line, text);
    } else {
      assert line == "# " by { HashSpace(line); }
      assert "\n" + "# " + "\n" == "\n# \n";
      BareLineStays(space, text);
      BareIsLonger(space, pad, body);
    }
  }

  lemma PadIsBlank(space: char -> bool, tail: string, pad: string)
    requires LawfulSpace(space) && pad == tail + "\n\n"
    ensures Blank(space, pad) <==> Blank(space, tail)
  {
    assert forall c :: c in pad <==> c in tail || c == '\n';
  }

  lemma BlankText(space: char -> bool, pad: string, body: string)
    requires LawfulSpace(space)
    ensures Blank(space, pad + body + "\n") ==> Blank(space, pad) && Blank(space, body)
    ensures Blank(space, body) && Stripped(space, body) ==> body == ""
  {
    assert forall c :: c in pad || c in body ==> c in pad + body + "\n";
  }

  lemma ReadIsStripped(space: char -> bool, rest: string)
    ensures Stripped(space, ReadBody(space, rest))
  {
    StripTrims(space, DropHeading(Strip(space, rest)));
  }

  lemma HashSpace(line: string)
    requires MatchesAt(line, "# ", 0) && |line| <= 2
    ensures line == "# "
  {
  }

  lemma BareIsLonger(space: char -> bool, pad: string, body: string)
    requires LawfulSpace(space)
    ensures body != "" && Stripped(space, body) ==> "# \n" + Rstrip(space, pad + body + "\n") != body
  {
    if body != "" && Stripped(space, body) {
      RstripDrops(space, pad + body, "\n");
      RstripIsSame(space, pad + body);
    }
  }

  lemma LineReadsBack(space: char -> bool, line: string, body: string)
    requires LawfulSpace(space)
    requires MatchesAt(line, "# ", 0) && '\n' !in line && 2 < |line|
    ensures ReadBody(space, "\n" + line + "\n\n" + body + "\n") == body <==> body != "" && Stripped(space, body)
  {
    var text := "\n" + body + "\n";
    assert "\n" + line + "\n\n" + body + "\n" == "\n" + line + "\n" + text;
    PadDecides(space, "\n", body);
    FirstLineGoes(space, line, text);
    StripTrims(space, DropHeading(Strip(space, "\n" + line + "\n" + text)));
    if Blank(space, text) && body != "" {
      assert body[0] == text[1];
    }
  }

  // Whatever follows a line feed is blank.
  ghost predicate OneLine(space: char -> bool, title: string) {
    forall i :: 0 <= i < |title| && title[i] == '\n' ==> Blank(space, title[i + 1..])
  }

  // The first line feed, if there is one.
  ghost predicate EndsLine(s: string, at: nat) {
    at < |s| && s[at] == '\n' && forall j :: 0 <= j < at ==> s[j] != '\n'
  }

  lemma LineEnds(s: string, from: nat) returns (at: nat)
    requires '\n' in s && from <= |s| && forall j :: 0 <= j < from ==> s[j] != '\n'
    ensures EndsLine(s, at)
    decreases |s| - from
  {
    if s[from] == '\n' { at := from; } else { at := LineEnds(s, from + 1); }
  }

  // It stands in the id, or in the title when the id has none, and the dash
  // between the two.
  lemma LineEndsInId(space: char -> bool, id: string, title: string, at: nat)
    requires LawfulSpace(space) && EndsLine(Heading(id, title), at) && '\n' in id
    ensures 2 <= at && MatchesAt(Heading(id, title)[..at], "# ", 0)
    ensures !Blank(space, Heading(id, title)[at + 1..])
  {
    var heading := Heading(id, title);
    assert heading[0] == '#' && heading[1] == ' ' && heading[|id| + 3] == '\U{2014}';
    var i :| 0 <= i < |id| && id[i] == '\n';
    assert heading[2 + i] == '\n';
    assert heading[at + 1..][|id| + 2 - at] == '\U{2014}';
    assert heading[..at][..2] == "# ";
  }

  lemma LineEndsInTitle(space: char -> bool, id: string, title: string, at: nat)
    requires EndsLine(Heading(id, title), at) && '\n' !in id
    ensures 2 < at && MatchesAt(Heading(id, title)[..at], "# ", 0)
    ensures Blank(space, Heading(id, title)[at + 1..]) <==> OneLine(space, title)
  {
    NotInId(id, title, at);
    HeadingParts(id, title);
    hide Heading, Blank, OneLine;
    var heading, start := Heading(id, title), |id| + 5;
    assert EndsLine(title, at - start) by {
      assert forall j :: 0 <= j < |title| ==> heading[start..][j] == heading[start + j];
    }
    assert heading[at + 1..] == heading[start..][at - start + 1..];
    OneLineExactly(space, title, at - start);
    assert heading[..at][..2] == heading[..2];
  }

  lemma HeadingParts(id: string, title: string)
    ensures |Heading(id, title)| == |id| + 5 + |title|
    ensures Heading(id, title)[..2] == "# " && Heading(id, title)[|id| + 5..] == title
  {
  }

  lemma NotInId(id: string, title: string, at: nat)
    requires EndsLine(Heading(id, title), at) && '\n' !in id
    ensures |id| + 5 <= at
  {
    var heading := Heading(id, title);
    assert heading == "# " + (id + " \U{2014} ") + title;
    var front := id + " \U{2014} ";
    assert '\n' !in front;
    forall j | 2 <= j < |id| + 5
      ensures heading[j] != '\n'
    {
      assert heading[j] == front[j - 2] && front[j - 2] in front;
    }
  }

  lemma OneLineExactly(space: char -> bool, title: string, k: nat)
    requires EndsLine(title, k)
    ensures OneLine(space, title) <==> Blank(space, title[k + 1..])
  {
    forall i | 0 <= i < |title| && title[i] == '\n'
      ensures Blank(space, title[k + 1..]) ==> Blank(space, title[i + 1..])
    {
      assert k <= i;
      assert title[i + 1..] == title[k + 1..][i - k..];
    }
  }

  lemma HeadingReadsBack(space: char -> bool, id: string, title: string, body: string)
    requires LawfulSpace(space)
    ensures ReadBody(space, "\n" + Heading(id, title) + "\n\n" + body + "\n") == body
            <==> body != "" && Stripped(space, body) && '\n' !in id && OneLine(space, title)
  {
    hide *;
    var heading := Heading(id, title);
    if '\n' in heading {
      var at := LineEnds(heading, 0);
      if '\n' in id { LineEndsInId(space, id, title, at); } else { LineEndsInTitle(space, id, title, at); }
      LineSplits(heading, at);
      var line, tail := heading[..at], heading[at + 1..];
      assert "\n" + heading + "\n\n" + body + "\n" == "\n" + line + "\n" + tail + "\n\n" + body + "\n";
      LinesReadBack(space, line, tail, body);
    } else {
      HeadingIsLine(space, id, title);
      LineReadsBack(space, heading, body);
    }
  }

  lemma LineSplits(s: string, at: nat)
    requires EndsLine(s, at)
    ensures at < |s| && '\n' !in s[..at] && s == s[..at] + "\n" + s[at + 1..]
  {
  }

  lemma HeadingIsLine(space: char -> bool, id: string, title: string)
    requires LawfulSpace(space) && '\n' !in Heading(id, title)
    ensures MatchesAt(Heading(id, title), "# ", 0) && 2 < |Heading(id, title)|
    ensures '\n' !in id && OneLine(space, title)
  {
    var heading := Heading(id, title);
    assert heading[..2] == "# ";
    assert forall i :: 0 <= i < |id| ==> heading[2 + i] == id[i];
    assert forall i :: 0 <= i < |title| ==> heading[|id| + 5 + i] == title[i];
  }

  // Parsing undoes rendering exactly when the body is stripped and not empty, the
  // id holds no line feed, and nothing of the title follows one: the heading is
  // dropped up to its first line end, and an empty body reads back as the heading.
  lemma RoundTripsExactly(yaml: Yaml, space: char -> bool, fields: Record, body: string)
    requires Lawful(yaml) && LawfulSpace(space)
    requires Get(fields, "id").Str? && Get(fields, "title").Str?
    ensures var read := ParseAdr(yaml, space, RenderAdr(yaml, fields, body));
            && read.Some? && read.value.fields == Obj(Known(fields))
            && (read.value.body == body <==>
                  body != "" && Stripped(space, body) && '\n' !in fields["id"].s && OneLine(space, fields["title"].s))
  {
    var heading := Heading(fields["id"].s, fields["title"].s);
    var rest := "\n" + heading + "\n\n" + body + "\n";
    assert RenderAdr(yaml, fields, body) == "---\n" + yaml.dump(Known(fields)) + "---\n" + rest;
    RenderSplits(yaml, Known(fields), rest);
    HeadingReadsBack(space, fields["id"].s, fields["title"].s, body);
  }
}
