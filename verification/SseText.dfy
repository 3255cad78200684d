// What a server writes on the event stream (`_format_sse` and the keep-alive of
// services/api/src/studio_api/routers/events.py) and what SseParser reads back.
module SseText {
  import opened Basics
  import opened SseParser
  import opened SseDelivery

  function Digits(n: nat): (s: string)
    ensures s != "" && forall c :: c in s ==> IsDigit(c)
  {
    var last := [('0' as int + n % 10) as char];
    if n < 10 then last else Digits(n / 10) + last
  }

  function PrintInt(n: int): string {
    if n < 0 then "-" + Digits(-n) else Digits(n)
  }

  function IdLine(n: int): string {
    "id: " + PrintInt(n)
  }

  function DataLine(l: string): string {
    "data: " + l
  }

  function DataLines(data: seq<string>): seq<string>
    decreases |data|
  {
    if data == [] then [] else [DataLine(data[0])] + DataLines(data[1..])
  }

  // The lines of one frame: an optional `id:` line, one `data:` line per line of data.
  function FrameLines(m: Message): seq<string> {
    var data := Lines(m.data);
    (if m.id.Some? then [IdLine(m.id.value)] else []) + DataLines(data)
  }

  datatype Chunk = Event(message: Message) | KeepAlive

  function ChunkLines(c: Chunk): seq<string> {
    match c
    case Event(m) => FrameLines(m)
    case KeepAlive => [": keep-alive"]
  }

  function WriteChunk(c: Chunk): string {
    JoinLines(ChunkLines(c)) + "\n\n"
  }

  function Text(cs: seq<Chunk>): string {
    FlatMap(WriteChunk, cs)
  }

  // --- numbers -------------------------------------------------------------

  lemma {:induction false} DigitsValue(n: nat)
    ensures DecimalValue(Digits(n)) == n
  {
    var s := Digits(n);
    if n >= 10 {
      DigitsValue(n / 10);
      assert s[..|s| - 1] == Digits(n / 10);
    } else {
      assert s[..|s| - 1] == "";
    }
  }

  lemma {:induction false} DigitRunWhole(s: string)
    requires forall c :: c in s ==> IsDigit(c)
    ensures DigitRun(s) == s
  {
    if s != "" {
      assert s[0] in s;
      DigitRunWhole(s[1..]);
    }
  }

  lemma ParsePrintedInt(n: int)
    ensures ParseInt(PrintInt(n)) == Some(n)
  {
    var digits := Digits(if n < 0 then -n else n);
    DigitsValue(if n < 0 then -n else n);
    DigitRunWhole(digits);
    assert digits[0] in digits;
    assert PrintInt(n)[0] == '-' || IsDigit(PrintInt(n)[0]);
    assert TrimStart(PrintInt(n)) == PrintInt(n);
    if n < 0 {
      assert PrintInt(n)[1..] == digits;
    }
  }

  // --- lines ---------------------------------------------------------------

  predicate OneLine(s: string) {
    '\n' !in s
  }

  lemma IndexOfUnique(s: string, c: char, i: nat)
    requires i < |s| && s[i] == c && forall j :: 0 <= j < i ==> s[j] != c
    ensures IndexOf(s, c) == i
  {
    assert IndexOf(s, c) != -1;
  }

  lemma {:induction false} SplitJoin(ls: seq<string>)
    requires ls != [] && forall l :: l in ls ==> OneLine(l)
    ensures Lines(JoinLines(ls)) == ls
    decreases |ls|
  {
    var s := JoinLines(ls);
    assert ls[0] in ls;
    if |ls| == 1 {
      assert s == ls[0] && IndexOf(s, '\n') == -1;
    } else {
      IndexOfUnique(s, '\n', |ls[0]|);
      assert s[..|ls[0]|] == ls[0] && s[|ls[0]| + 1..] == JoinLines(ls[1..]);
      SplitJoin(ls[1..]);
    }
  }

  lemma {:induction false} JoinSplit(s: string)
    ensures JoinLines(Lines(s)) == s
    ensures forall l :: l in Lines(s) ==> OneLine(l)
    decreases |s|
  {
    var i := IndexOf(s, '\n');
    if i != -1 {
      JoinSplit(s[i + 1..]);
      assert Lines(s)[1..] == Lines(s[i + 1..]);
      assert s == s[..i] + "\n" + s[i + 1..];
    }
  }

  // --- one frame -----------------------------------------------------------

  // Data as it arrives: a carriage return at the end of a line is dropped.
  function StripLines(ls: seq<string>): seq<string>
    decreases |ls|
  {
    if ls == [] then [] else [StripCr(ls[0])] + StripLines(ls[1..])
  }

  function Received(m: Message): Message {
    Message(m.id, JoinLines(StripLines(Lines(m.data))))
  }

  predicate EndsCr(l: string) {
    l != "" && l[|l| - 1] == '\r'
  }

  predicate NoTrailingCr(data: string) {
    forall i :: 0 <= i < |Lines(data)| ==> !EndsCr(Lines(data)[i])
  }

  lemma StripField(name: string, value: string)
    ensures StripCr(name + ": " + value) == name + ": " + StripCr(value)
  {
    var raw := name + ": " + value;
    assert raw[|raw| - 1] == if value == "" then ' ' else value[|value| - 1];
  }

  lemma ReadStripped(acc: Fields, raw: string, name: string, value: string)
    requires name != "" && ':' !in name && StripCr(raw) == name + ": " + value
    ensures ReadLine(acc, raw) == Assign(acc, name, value)
  {
    hide StripCr, Assign, IndexOf;
    var line := name + ": " + value;
    assert forall j :: 0 <= j < |name| ==> line[j] == name[j] && name[j] in name;
    IndexOfUnique(line, ':', |name|);
    assert line[..|name|] == name && line[|name| + 1..] == " " + value;
    assert (" " + value)[1..] == value;
  }

  // A field line reads as its name and its value, less a final carriage return.
  lemma ReadField(acc: Fields, name: string, value: string)
    requires name != "" && ':' !in name
    ensures ReadLine(acc, name + ": " + value) == Assign(acc, name, StripCr(value))
  {
    hide *;
    StripField(name, value);
    ReadStripped(acc, name + ": " + value, name, StripCr(value));
  }

  lemma PrintedIntHasNoCr(n: int)
    ensures StripCr(PrintInt(n)) == PrintInt(n)
  {
    var text := PrintInt(n);
    var digits := Digits(if n < 0 then -n else n);
    assert digits[|digits| - 1] in digits && text[|text| - 1] == digits[|digits| - 1];
  }

  lemma ReadIdLine(n: int)
    ensures ReadLine(Fields(None, []), IdLine(n)) == Fields(Some(n), [])
  {
    var text := PrintInt(n);
    PrintedIntHasNoCr(n);
    hide PrintInt, Digits, ReadLine, StripCr;
    ReadField(Fields(None, []), "id", text);
    assert "id" + ": " + text == IdLine(n);
    ParsePrintedInt(n);
  }

  lemma ReadDataLine(acc: Fields, l: string)
    ensures ReadLine(acc, DataLine(l)) == acc.(data := acc.data + [StripCr(l)])
  {
    ReadField(acc, "data", l);
    assert "data" + ": " + l == DataLine(l);
  }

  ghost predicate Collects(step: (Fields, string) -> Fields) {
    forall acc, l :: step(acc, DataLine(l)) == acc.(data := acc.data + [StripCr(l)])
  }

  lemma {:induction false} CollectDataLines(step: (Fields, string) -> Fields, acc: Fields, data: seq<string>)
    requires Collects(step)
    ensures FoldLines(step, acc, DataLines(data)) == acc.(data := acc.data + StripLines(data))
    decreases |data|
  {
    if data == [] {
      assert acc.data + StripLines(data) == acc.data;
    } else {
      var lines := DataLines(data);
      assert lines[0] == DataLine(data[0]) && lines[1..] == DataLines(data[1..]);
      var next := step(acc, lines[0]);
      CollectDataLines(step, next, data[1..]);
      ConcatAssoc(acc.data, [StripCr(data[0])], StripLines(data[1..]));
    }
  }

  lemma ReadDataLines(acc: Fields, data: seq<string>)
    ensures ReadLines(acc, DataLines(data)) == acc.(data := acc.data + StripLines(data))
  {
    forall acc, l
      ensures ReadLine(acc, DataLine(l)) == acc.(data := acc.data + [StripCr(l)])
    {
      ReadDataLine(acc, l);
    }
    CollectDataLines(ReadLine, acc, data);
  }

  lemma {:induction false} PrintedDataLines(data: seq<string>)
    requires forall l :: l in data ==> OneLine(l)
    ensures |DataLines(data)| == |data|
    ensures forall l :: l in DataLines(data) ==> l != "" && OneLine(l)
    decreases |data|
  {
    if data != [] {
      assert OneLine(data[0]);
      PrintedDataLines(data[1..]);
    }
  }

  lemma PrintedIdLine(n: int)
    ensures IdLine(n) != "" && OneLine(IdLine(n))
  {
    assert OneLine(Digits(if n < 0 then -n else n));
    assert OneLine(PrintInt(n));
  }

  lemma PrintedLines(c: Chunk)
    ensures ChunkLines(c) != []
    ensures forall l :: l in ChunkLines(c) ==> l != "" && OneLine(l)
  {
    if c.Event? {
      JoinSplit(c.message.data);
      PrintedDataLines(Lines(c.message.data));
      if c.message.id.Some? {
        PrintedIdLine(c.message.id.value);
      }
    }
  }

  function Arrives(c: Chunk): seq<Message> {
    match c
    case Event(m) => [Received(m)]
    case KeepAlive => []
  }

  lemma ReadPrintedChunk(c: Chunk)
    ensures Present(Frame(JoinLines(ChunkLines(c)))) == Arrives(c)
  {
    PrintedLines(c);
    SplitJoin(ChunkLines(c));
    match c
    case KeepAlive =>
    case Event(m) =>
      var data := Lines(m.data);
      var start := Fields(m.id, []);
      ReadDataLines(start, data);
      assert [] + StripLines(data) == StripLines(data);
      if m.id.Some? {
        ReadIdLine(m.id.value);
        assert ChunkLines(c)[1..] == DataLines(data);
      } else {
        assert ChunkLines(c) == DataLines(data);
      }
  }

  // --- a whole text --------------------------------------------------------

  lemma {:induction false} BoundaryAfterLines(ls: seq<string>, rest: string)
    requires ls != [] && forall l :: l in ls ==> l != "" && OneLine(l)
    ensures Boundary(JoinLines(ls) + "\n\n" + rest) == |JoinLines(ls)|
    decreases |ls|
  {
    var body := JoinLines(ls);
    var s := body + "\n\n" + rest;
    assert BlankAt(s, |body|);
    forall j | 0 <= j < |body|
      ensures !BlankAt(s, j)
    {
      NoBlankInside(ls, j);
      assert s[j] == (body + "\n")[j] && s[j + 1] == (body + "\n")[j + 1];
    }
  }

  lemma {:induction false} NoBlankInside(ls: seq<string>, j: nat)
    requires ls != [] && forall l :: l in ls ==> l != "" && OneLine(l)
    requires j < |JoinLines(ls)|
    ensures !BlankAt(JoinLines(ls) + "\n", j)
    decreases |ls|
  {
    var s := JoinLines(ls) + "\n";
    var n := |ls[0]|;
    assert ls[0] in ls && forall l :: l in ls[1..] ==> l in ls;
    if j < n {
      assert s[j] == ls[0][j];
    } else {
      var tail := JoinLines(ls[1..]);
      assert ls[1] in ls && |tail| > 0 && tail[0] == ls[1][0];
      assert s == ls[0] + "\n" + (tail + "\n");
      if j > n {
        NoBlankInside(ls[1..], j - n - 1);
        assert s[j] == (tail + "\n")[j - n - 1] && s[j + 1] == (tail + "\n")[j - n];
      } else {
        assert s[j + 1] == tail[0];
      }
    }
  }

  function AllArrive(cs: seq<Chunk>): seq<Message> {
    FlatMap(Arrives, cs)
  }

  lemma {:induction false} ReadWritten(cs: seq<Chunk>)
    ensures Messages(Frame, Text(cs)) == AllArrive(cs)
    ensures Residue(Text(cs)) == ""
    decreases |cs|
  {
    if cs != [] {
      var body := JoinLines(ChunkLines(cs[0]));
      var rest := Text(cs[1..]);
      PrintedLines(cs[0]);
      BoundaryAfterLines(ChunkLines(cs[0]), rest);
      assert Text(cs) == body + "\n\n" + rest;
      assert (body + "\n\n" + rest)[..|body|] == body && (body + "\n\n" + rest)[|body| + 2..] == rest;
      ReadPrintedChunk(cs[0]);
      ReadWritten(cs[1..]);
    }
  }

  lemma {:induction false} StripShortens(ls: seq<string>)
    ensures |JoinLines(StripLines(ls))| <= |JoinLines(ls)|
    ensures |JoinLines(StripLines(ls))| == |JoinLines(ls)| ==> StripLines(ls) == ls
    decreases |ls|
  {
    if |ls| > 1 {
      StripShortens(ls[1..]);
      assert StripLines(ls)[1..] == StripLines(ls[1..]);
      assert ls == [ls[0]] + ls[1..];
    } else if |ls| == 1 {
      assert StripLines(ls) == [StripCr(ls[0])] && ls == [ls[0]];
    }
  }

  lemma {:induction false} StripAt(ls: seq<string>)
    ensures |StripLines(ls)| == |ls|
    ensures forall i :: 0 <= i < |ls| ==> StripLines(ls)[i] == StripCr(ls[i])
    decreases |ls|
  {
    if ls != [] {
      StripAt(ls[1..]);
    }
  }

  lemma ReceivedUnchanged(m: Message)
    ensures Received(m) == m <==> NoTrailingCr(m.data)
  {
    var ls := Lines(m.data);
    StripShortens(ls);
    StripIsIdentity(ls);
    JoinSplit(m.data);
    hide StripLines, Lines, StripCr;
    if StripLines(ls) == ls {
      assert Received(m) == m;
    } else {
      assert |JoinLines(StripLines(ls))| != |m.data|;
    }
  }

  lemma StripIsIdentity(ls: seq<string>)
    ensures StripLines(ls) == ls <==> forall i :: 0 <= i < |ls| ==> !EndsCr(ls[i])
  {
    StripAt(ls);
    forall i | 0 <= i < |ls|
      ensures StripLines(ls)[i] == ls[i] <==> !EndsCr(ls[i])
    {
    }
    hide StripLines, StripCr, EndsCr;
  }

  function Payload(cs: seq<Chunk>): seq<Message> {
    if cs == [] then []
    else
      var init := Payload(cs[..|cs| - 1]);
      match cs[|cs| - 1]
      case Event(m) => init + [m]
      case KeepAlive => init
  }

  // What arrives is what was written, message by message, exactly when every
  // message survives.
  lemma {:induction false} ArriveUnchanged(cs: seq<Chunk>)
    ensures |AllArrive(cs)| == |Payload(cs)|
    ensures AllArrive(cs) == Payload(cs) <==> forall m :: m in Payload(cs) ==> NoTrailingCr(m.data)
    decreases |cs|
  {
    if cs != [] {
      var init, last := cs[..|cs| - 1], cs[|cs| - 1];
      ArriveUnchanged(init);
      assert cs == init + [last];
      FlatMapAppend(Arrives, init, last);
      if last.Event? {
        ReceivedUnchanged(last.message);
        AppendEqual(AllArrive(init), Received(last.message), Payload(init), last.message);
        assert Payload(cs) == Payload(init) + [last.message];
      }
    }
  }

  lemma AppendEqual<T>(a: seq<T>, x: T, b: seq<T>, y: T)
    requires |a| == |b|
    ensures a + [x] == b + [y] <==> a == b && x == y
  {
    if a + [x] == b + [y] {
      assert a == (a + [x])[..|a|] && b == (b + [y])[..|b|];
      assert x == (a + [x])[|a|];
    }
  }

  // Printing a list of messages, keep-alives in between, and parsing the text
  // gives the messages back exactly when no line of data ends in a carriage
  // return.
  lemma RoundTripExactly(cs: seq<Chunk>)
    ensures Messages(Frame, Text(cs)) == Payload(cs) <==> forall m :: m in Payload(cs) ==> NoTrailingCr(m.data)
    ensures Residue(Text(cs)) == ""
  {
    ReadWritten(cs);
    ArriveUnchanged(cs);
  }

  // --- the stream of the program -------------------------------------------

  function WriteEvent(m: Message): string {
    WriteChunk(Event(m))
  }

  function ReadAll(s: string): seq<Message> {
    Messages(Frame, s)
  }

  predicate Survives(m: Message) {
    NoTrailingCr(m.data)
  }

  const SSE: Wire := Wire(WriteEvent, ": keep-alive\n\n", ReadAll, Residue, Survives)

  lemma ReadOne(c: Chunk)
    ensures Messages(Frame, WriteChunk(c)) == Arrives(c) && Residue(WriteChunk(c)) == ""
  {
    ReadWritten([c]);
    FlatMapOne(WriteChunk, c);
    FlatMapOne(Arrives, c);
  }

  lemma NoBreakNoFrame(buffer: string, flush: string)
    requires Boundary(buffer) == -1 && '\n' !in flush
    ensures Boundary(buffer + flush) == -1
  {
    var s := buffer + flush;
    forall j | 0 <= j < |s| - 1
      ensures !BlankAt(s, j)
    {
      if j + 1 < |buffer| {
        assert !BlankAt(buffer, j);
        assert s[j] == buffer[j] && s[j + 1] == buffer[j + 1];
      } else {
        assert s[j + 1] == flush[j + 1 - |buffer|];
      }
    }
  }

  lemma SseIsLawful()
    ensures Lawful(SSE)
  {
    forall a, b
      ensures SplitLaw(SSE, a, b)
    {
      SplitInvariance(Frame, a, b);
    }
    forall m | Survives(m)
      ensures EventLaw(SSE, m)
    {
      ReadOne(Event(m));
      ReceivedUnchanged(m);
    }
    forall a, flush | '\n' !in flush
      ensures FlushLaw(SSE, a, flush)
    {
      NoBreakNoFrame(Residue(a), flush);
    }
    ReadOne(KeepAlive);
    assert WriteChunk(KeepAlive) == ": keep-alive\n\n";
  }

  // Feeding a parser chunk by chunk gives the messages and the buffer of feeding
  // it the whole text, whatever it held before.
  lemma SplitFeedsAgree(before: string, chunks: seq<string>)
    ensures FeedAll(SSE, Residue(before), chunks)
            == (Messages(Frame, Residue(before) + Concat(chunks)), Residue(Residue(before) + Concat(chunks)))
  {
    SseIsLawful();
    ChunkingIsInvisible(SSE, before, chunks);
  }

  // --- lines the server does not send ---------------------------------------------------

  // Comments, empty lines, lines without a colon and unknown fields change nothing.
  lemma OtherLinesAreSkipped(acc: Fields, line: string)
    requires ':' !in line && '\r' !in line
    ensures ReadLine(acc, "") == acc && ReadLine(acc, line) == acc && ReadLine(acc, ":" + line) == acc
    ensures line != "" && line != "id" && line != "data" ==> forall value :: ReadLine(acc, line + ":" + value) == acc
  {
    assert line != "" ==> line[|line| - 1] in line;
    assert (":" + line)[0] == ':';
    CommentIsSkipped(acc, line);
    NoColon(acc, line);
    if line != "" && line != "id" && line != "data" {
      forall value
        ensures ReadLine(acc, line + ":" + value) == acc
      {
        UnknownField(acc, line, value);
      }
    }
  }

  lemma CommentIsSkipped(acc: Fields, line: string)
    requires '\r' !in line
    ensures ReadLine(acc, ":" + line) == acc
  {
    var raw := ":" + line;
    assert raw[0] == ':' && raw[|raw| - 1] != '\r' by {
      assert line != "" ==> raw[|raw| - 1] == line[|line| - 1] && line[|line| - 1] in line;
    }
  }

  lemma NoColon(acc: Fields, line: string)
    requires ':' !in line && '\r' !in line
    ensures ReadLine(acc, line) == acc
  {
    assert line != "" ==> line[|line| - 1] in line && line[0] in line;
    assert IndexOf(line, ':') == -1;
  }

  lemma UnknownField(acc: Fields, name: string, value: string)
    requires ':' !in name && '\r' !in name && name != "" && name != "id" && name != "data"
    ensures ReadLine(acc, name + ":" + value) == acc
  {
    var raw := name + ":" + value;
    var line := StripCr(raw);
    assert raw[|name|] == ':' && |line| > |name| && line[..|name|] == name && line[|name|] == ':';
    assert forall j :: 0 <= j < |name| ==> line[j] == name[j] && name[j] in name;
    hide StripCr;
    IndexOfUnique(line, ':', |name|);
  }

  // A value may follow the colon at once.
  lemma TightField(acc: Fields, name: string, value: string)
    requires name != "" && ':' !in name && '\r' !in value && (value != "" ==> value[0] != ' ')
    ensures ReadLine(acc, name + ":" + value) == Assign(acc, name, value)
  {
    var line := name + ":" + value;
    assert line[|line| - 1] == if value == "" then ':' else value[|value| - 1];
    assert value != "" ==> value[|value| - 1] in value;
    assert StripCr(line) == line;
    assert forall j :: 0 <= j < |name| ==> line[j] == name[j] && name[j] in name;
    hide StripCr, Assign;
    IndexOfUnique(line, ':', |name|);
    assert line[..|name|] == name && line[|name| + 1..] == value;
  }

  // `Number.parseInt`: leading white space, one sign, then digits up to the first
  // character that is none.
  lemma {:induction false} ParseIntExactly(space: string, sign: string, digits: string, rest: string)
    requires forall c :: c in space ==> IsJsSpace(c)
    requires sign in ["", "+", "-"] && (forall c :: c in digits ==> IsDigit(c))
    requires rest != "" ==> !IsDigit(rest[0]) && (digits == "" && sign == "" ==> !IsJsSpace(rest[0]) && rest[0] !in {'+', '-'})
    ensures ParseInt(space + sign + digits + rest)
            == if digits == "" then None
               else if sign == "-" then Some(-(DecimalValue(digits) as int)) else Some(DecimalValue(digits) as int)
    decreases |space|
  {
    var value := space + sign + digits + rest;
    if space != "" {
      assert value[0] == space[0] && space[0] in space;
      assert value[1..] == space[1..] + sign + digits + rest;
      hide ParseInt;
      ParseIntExactly(space[1..], sign, digits, rest);
      SpaceIsSkipped(value);
    } else {
      assert digits != "" ==> digits[0] in digits;
      TrimNothing(value);
      DigitsRun(digits, rest);
      assert value == sign + (digits + rest);
      assert sign != "" ==> value[1..] == digits + rest;
      assert sign == "" ==> value == digits + rest;
    }
  }

  lemma SpaceIsSkipped(value: string)
    requires value != "" && IsJsSpace(value[0])
    ensures ParseInt(value) == ParseInt(value[1..])
  {
  }

  lemma TrimNothing(value: string)
    requires value != "" ==> !IsJsSpace(value[0])
    ensures TrimStart(value) == value
  {
  }

  lemma {:induction false} DigitsRun(digits: string, rest: string)
    requires (forall c :: c in digits ==> IsDigit(c)) && (rest != "" ==> !IsDigit(rest[0]))
    ensures DigitRun(digits + rest) == digits
    decreases |digits|
  {
    if digits == "" {
      assert digits + rest == rest;
    } else {
      assert digits[0] in digits && (digits + rest)[1..] == digits[1..] + rest;
      DigitsRun(digits[1..], rest);
    }
  }

  // A minus sign stands before the negative numbers only.
  lemma SignIsPrinted(n: int)
    ensures PrintInt(n)[0] == '-' <==> n < 0
  {
    var digits := Digits(if n < 0 then -n else n);
    assert digits[0] in digits;
  }

  lemma SpacesExactly(c: char)
    ensures IsJsSpace(c) <==>
              c in "\t\n\U{000b}\U{000c}\r \U{00a0}\U{1680}\U{2000}\U{2001}\U{2002}\U{2003}\U{2004}\U{2005}\U{2006}"
              || c in "\U{2007}\U{2008}\U{2009}\U{200a}\U{2028}\U{2029}\U{202f}\U{205f}\U{3000}\U{feff}"
  {
  }

  // A frame without data is no message.
  lemma NoDataIsNoMessage(f: Fields)
    ensures ToMessage(f).None? <==> f.data == []
    ensures f.data != [] ==> ToMessage(f).value.id == f.id
  {
  }

  // The chunks of a body fed one by one to one parser: messages, buffer and
  // lastSeq are what `Feed` promises for a single feed of the whole text.
  method FeedChunks(parser: SseParser, chunks: seq<string>) returns (out: seq<Message>)
    requires Boundary(parser.buffer) == -1
    modifies parser
    ensures out == Messages(Frame, old(parser.buffer) + Concat(chunks))
    ensures parser.buffer == Residue(old(parser.buffer) + Concat(chunks)) && Boundary(parser.buffer) == -1
    ensures parser.lastSeq == LastSeq(old(parser.lastSeq), out)
  {
    out := [];
    ghost var fed := parser.buffer;
    assert Messages(Frame, fed) == [] && Residue(fed) == fed && LastSeq(parser.lastSeq, []) == parser.lastSeq;
    assert chunks[0..] == chunks;
    hide *;
    for i := 0 to |chunks|
      invariant fed + Concat(chunks[i..]) == old(parser.buffer) + Concat(chunks)
      invariant out == Messages(Frame, fed) && parser.buffer == Residue(fed) && Boundary(parser.buffer) == -1
      invariant parser.lastSeq == LastSeq(old(parser.lastSeq), out)
    {
      var messages := parser.Feed(chunks[i]);
      SplitInvariance(Frame, fed, chunks[i]);
      LastSeqConcat(old(parser.lastSeq), out, messages);
      ConcatStep(fed, chunks, i);
      out, fed := out + messages, fed + chunks[i];
    }
    ConcatEnd(fed, chunks);
  }

  lemma ConcatStep(fed: string, chunks: seq<string>, i: nat)
    requires i < |chunks|
    ensures fed + Concat(chunks[i..]) == (fed + chunks[i]) + Concat(chunks[i + 1..])
  {
    assert chunks[i..][1..] == chunks[i + 1..];
  }

  lemma ConcatEnd(fed: string, chunks: seq<string>)
    ensures fed + Concat(chunks[|chunks|..]) == fed
  {
  }

  // No message is lost, repeated or reordered by reconnecting.
  lemma StreamDeliversAnInterval(log: seq<Message>, since: Option<int>, steps: seq<Step>)
    requires ValidLog(SSE, log) && Run(SSE, Initial(log, since), steps)
    ensures exists base: nat, end: nat ::
              && Outcome(Final(SSE, Initial(log, since), steps), since, base, end)
              && (since.None? ==> |log| <= base)
  {
    SseIsLawful();
    DeliveryIsAnInterval(SSE, log, since, steps);
  }
}
