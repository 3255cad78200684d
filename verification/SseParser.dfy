// Incremental frame parser of the event stream (SseParser in
// dashboard/src/sse.ts), a subset of sections 9.2.5 and 9.2.6 of the WHATWG HTML
// Living Standard.
module SseParser {
  import opened Basics

  datatype Message = Message(id: Option<int>, data: string)

  // --- text primitives -----------------------------------------------------

  predicate BlankAt(s: string, j: int) {
    0 <= j < |s| - 1 && s[j] == '\n' && s[j + 1] == '\n'
  }

  function BoundaryFrom(s: string, k: nat): (r: int)
    ensures r == -1 || (k <= r && BlankAt(s, r))
    ensures forall j :: k <= j && BlankAt(s, j) ==> r != -1 && r <= j
    decreases |s| - k
  {
    if k + 1 >= |s| then -1 else if BlankAt(s, k) then k else BoundaryFrom(s, k + 1)
  }

  // `indexOf("\n\n")`
  function Boundary(s: string): (r: int)
    ensures r == -1 || BlankAt(s, r)
    ensures forall j :: BlankAt(s, j) ==> r != -1 && r <= j
  {
    BoundaryFrom(s, 0)
  }

  // `indexOf(c)`
  function IndexOf(s: string, c: char): (r: int)
    ensures r == -1 || 0 <= r < |s|
    ensures r >= 0 ==> s[r] == c
    ensures forall j :: 0 <= j < |s| && (r == -1 || j < r) ==> s[j] != c
  {
    if s == "" then -1
    else if s[0] == c then 0
    else
      var r := IndexOf(s[1..], c);
      if r == -1 then -1 else r + 1
  }

  // `split("\n")`
  function Lines(s: string): (ls: seq<string>)
    ensures ls != []
  {
    var i := IndexOf(s, '\n');
    if i == -1 then [s] else [s[..i]] + Lines(s[i + 1..])
  }

  // `join("\n")`
  function JoinLines(ls: seq<string>): string {
    if ls == [] then ""
    else if |ls| == 1 then ls[0]
    else ls[0] + "\n" + JoinLines(ls[1..])
  }

  function StripCr(line: string): string {
    if line != "" && line[|line| - 1] == '\r' then line[..|line| - 1] else line
  }

  // White space skipped by `parseInt`.
  predicate IsJsSpace(c: char) {
    || '\t' <= c <= '\r' || c == ' ' || c == '\U{00a0}' || c == '\U{1680}' || '\U{2000}' <= c <= '\U{200a}'
    || c == '\U{2028}' || c == '\U{2029}' || c == '\U{202f}' || c == '\U{205f}' || c == '\U{3000}' || c == '\U{feff}'
  }

  function TrimStart(s: string): string {
    if s != "" && IsJsSpace(s[0]) then TrimStart(s[1..]) else s
  }

  function DigitRun(s: string): string {
    if s != "" && IsDigit(s[0]) then [s[0]] + DigitRun(s[1..]) else ""
  }

  lemma {:induction false} DigitRunDigits(s: string)
    ensures forall c :: c in DigitRun(s) ==> IsDigit(c)
    decreases |s|
  {
    if s != "" && IsDigit(s[0]) {
      DigitRunDigits(s[1..]);
    }
  }

  // `Number.parseInt(value, 10)`; None for NaN.
  function ParseInt(value: string): Option<int> {
    var s := TrimStart(value);
    var negative := s != "" && s[0] == '-';
    var digits := DigitRun(if s != "" && (s[0] == '-' || s[0] == '+') then s[1..] else s);
    DigitRunDigits(if s != "" && (s[0] == '-' || s[0] == '+') then s[1..] else s);
    if digits == "" then None
    else if negative then Some(-(DecimalValue(digits) as int))
    else Some(DecimalValue(digits))
  }

  // --- one frame -----------------------------------------------------------

  datatype Fields = Fields(id: Option<int>, data: seq<string>)

  function ReadLine(acc: Fields, raw: string): Fields {
    var line := StripCr(raw);
    if line == "" || line[0] == ':' then acc
    else
      var colon := IndexOf(line, ':');
      if colon == -1 then acc
      else
        var field := line[..colon];
        var tail := line[colon + 1..];
        var value := if tail != "" && tail[0] == ' ' then tail[1..] else tail;
        Assign(acc, field, value)
  }

  function Assign(acc: Fields, field: string, value: string): Fields {
    if field == "id" then (if ParseInt(value).Some? then acc.(id := ParseInt(value)) else acc)
    else if field == "data" then acc.(data := acc.data + [value])
    else acc
  }

  function FoldLines<A>(step: (A, string) -> A, acc: A, lines: seq<string>): A
    decreases |lines|
  {
    if lines == [] then acc else FoldLines(step, step(acc, lines[0]), lines[1..])
  }

  function ReadLines(acc: Fields, lines: seq<string>): Fields {
    FoldLines(ReadLine, acc, lines)
  }

  function ToMessage(f: Fields): Option<Message> {
    if f.data == [] then None else Some(Message(f.id, JoinLines(f.data)))
  }

  function Frame(frame: string): Option<Message> {
    ToMessage(ReadLines(Fields(None, []), Lines(frame)))
  }

  // --- a text --------------------------------------------------------------

  function Present<M>(m: Option<M>): seq<M> {
    if m.Some? then [m.value] else []
  }

  // The messages of the complete frames of a text, and what is left after them,
  // for any way to read one frame.
  function Messages<M>(read: string -> Option<M>, s: string): seq<M>
    decreases |s|
  {
    var b := Boundary(s);
    if b == -1 then [] else Present(read(s[..b])) + Messages(read, s[b + 2..])
  }

  function Residue(s: string): (r: string)
    ensures Boundary(r) == -1
  {
    var b := Boundary(s);
    if b == -1 then s else Residue(s[b + 2..])
  }

  // The last sequence number carried by a list of messages.
  function LastSeq(before: Option<int>, ms: seq<Message>): Option<int> {
    if ms == [] then before
    else if ms[|ms| - 1].id.Some? then ms[|ms| - 1].id
    else LastSeq(before, ms[..|ms| - 1])
  }

  lemma LastSeqAppend(before: Option<int>, ms: seq<Message>, m: Message)
    ensures LastSeq(before, ms + [m]) == if m.id.Some? then m.id else LastSeq(before, ms)
  {
    assert (ms + [m])[..|ms|] == ms;
  }

  lemma {:induction false} LastSeqConcat(before: Option<int>, a: seq<Message>, b: seq<Message>)
    ensures LastSeq(before, a + b) == LastSeq(LastSeq(before, a), b)
    decreases |b|
  {
    if b == [] {
      assert a + b == a;
    } else {
      LastSeqConcat(before, a, b[..|b| - 1]);
      assert (a + b)[..|a + b| - 1] == a + b[..|b| - 1];
    }
  }

  // The same, front to back with an accumulator, as the parser computes it.
  function Drain<M>(read: string -> Option<M>, acc: seq<M>, s: string): (seq<M>, string)
    decreases |s|
  {
    var b := Boundary(s);
    if b == -1 then (acc, s) else Drain(read, acc + Present(read(s[..b])), s[b + 2..])
  }

  lemma {:induction false} DrainCollects<M>(read: string -> Option<M>, acc: seq<M>, s: string)
    ensures Drain(read, acc, s) == (acc + Messages(read, s), Residue(s))
    decreases |s|
  {
    var b := Boundary(s);
    if b == -1 {
      assert acc + [] == acc;
    } else {
      var first := Present(read(s[..b]));
      DrainCollects(read, acc + first, s[b + 2..]);
      assert (acc + first) + Messages(read, s[b + 2..]) == acc + Messages(read, s);
    }
  }

  class SseParser {
    var buffer: string
    var lastSeq: Option<int>

    constructor ()
      ensures buffer == "" && lastSeq == None && Boundary(buffer) == -1
    {
      buffer, lastSeq := "", None;
    }

    method Feed(chunk: string) returns (out: seq<Message>)
      modifies this
      ensures out == Messages(Frame, old(buffer) + chunk)
      ensures buffer == Residue(old(buffer) + chunk)
      ensures Boundary(buffer) == -1
      ensures lastSeq == LastSeq(old(lastSeq), out)
    {
      ghost var text := buffer + chunk;
      buffer := buffer + chunk;
      out := [];
      var boundary := Boundary(buffer);
      while boundary != -1
        invariant boundary == Boundary(buffer)
        invariant Drain(Frame, [], text) == Drain(Frame, out, buffer)
        invariant lastSeq == LastSeq(old(lastSeq), out)
        decreases |buffer|
      {
        var frame := buffer[..boundary];
        buffer := buffer[boundary + 2..];
        var parsed := ParseFrame(frame);
        if parsed.Some? {
          if parsed.value.id.Some? {
            lastSeq := parsed.value.id;
          }
          LastSeqAppend(old(lastSeq), out, parsed.value);
          out := out + [parsed.value];
        } else {
          assert out + Present(parsed) == out;
        }
        boundary := Boundary(buffer);
      }
      DrainCollects(Frame, [], text);
    }

    static method ParseFrame(frame: string) returns (message: Option<Message>)
      ensures message == Frame(frame)
    {
      var id: Option<int> := None;
      var dataLines: seq<string> := [];
      var lines := Lines(frame);
      for i := 0 to |lines|
        invariant ReadLines(Fields(None, []), lines) == ReadLines(Fields(id, dataLines), lines[i..])
      {
        var line := StripCr(lines[i]);
        if line == "" || line[0] == ':' {
          continue;
        }
        var colon := IndexOf(line, ':');
        if colon == -1 {
          continue;
        }
        var field := line[..colon];
        var tail := line[colon + 1..];
        var value := if tail != "" && tail[0] == ' ' then tail[1..] else tail;
        if field == "id" {
          var parsed := ParseInt(value);
          if parsed.Some? {
            id := parsed;
          }
        } else if field == "data" {
          dataLines := dataLines + [value];
        }
      }
      if dataLines == [] {
        return None;
      }
      return Some(Message(id, JoinLines(dataLines)));
    }
  }

  // --- splitting the text into chunks --------------------------------------

  lemma BoundaryStable(a: string, b: string)
    requires Boundary(a) != -1
    ensures Boundary(a + b) == Boundary(a)
  {
    assert BlankAt(a + b, Boundary(a));
    assert BlankAt(a, Boundary(a + b));
  }

  lemma {:induction false} SplitInvariance<M>(read: string -> Option<M>, a: string, b: string)
    ensures Messages(read, a + b) == Messages(read, a) + Messages(read, Residue(a) + b)
    ensures Residue(a + b) == Residue(Residue(a) + b)
    decreases |a|
  {
    var i := Boundary(a);
    if i != -1 {
      BoundaryStable(a, b);
      assert (a + b)[..i] == a[..i];
      assert (a + b)[i + 2..] == a[i + 2..] + b;
      SplitInvariance(read, a[i + 2..], b);
    }
  }
}
