// Delivery across reconnections (connectEventStream and openLiveProjectStream in
// dashboard/src/sse.ts) against a server log, over a network that may cut any
// connection after any character. Stated for any framing that reads back what it
// writes; SseText fixes the framing of the program.
module SseDelivery {
  import opened Basics
  import opened SseParser

  // How the server writes an event and a comment, what a parser reads from a
  // text and keeps of it, and which messages survive the trip.
  datatype Wire = Wire(
    event: Message -> string,
    keepAlive: string,
    messages: string -> seq<Message>,
    residue: string -> string,
    survives: Message -> bool)

  ghost predicate SplitLaw(wire: Wire, a: string, b: string) {
    && wire.messages(a + b) == wire.messages(a) + wire.messages(wire.residue(a) + b)
    && wire.residue(a + b) == wire.residue(wire.residue(a) + b)
  }

  ghost predicate EventLaw(wire: Wire, m: Message) {
    wire.messages(wire.event(m)) == [m] && wire.residue(wire.event(m)) == ""
  }

  // A text without a line break completes no frame.
  ghost predicate FlushLaw(wire: Wire, a: string, flush: string) {
    wire.messages(wire.residue(a) + flush) == []
  }

  ghost predicate Lawful(wire: Wire) {
    && wire.messages("") == [] && wire.residue("") == ""
    && wire.messages(wire.keepAlive) == [] && wire.residue(wire.keepAlive) == ""
    && (forall a, b :: SplitLaw(wire, a, b))
    && (forall m :: wire.survives(m) ==> EventLaw(wire, m))
    && (forall a, flush :: '\n' !in flush ==> FlushLaw(wire, a, flush))
  }

  // --- chunks ---------------------------------------------------------------

  function Concat(chunks: seq<string>): string
    decreases |chunks|
  {
    if chunks == [] then "" else chunks[0] + Concat(chunks[1..])
  }

  // What a parser holding `buffer` emits and keeps when fed chunk by chunk.
  function FeedAll(wire: Wire, buffer: string, chunks: seq<string>): (seq<Message>, string)
    decreases |chunks|
  {
    if chunks == [] then ([], buffer)
    else
      var text := buffer + chunks[0];
      var rest := FeedAll(wire, wire.residue(text), chunks[1..]);
      (wire.messages(text) + rest.0, rest.1)
  }

  lemma {:induction false} ChunkingIsInvisible(wire: Wire, text: string, chunks: seq<string>)
    requires Lawful(wire)
    ensures var buffer := wire.residue(text);
            FeedAll(wire, buffer, chunks)
            == (wire.messages(buffer + Concat(chunks)), wire.residue(buffer + Concat(chunks)))
    decreases |chunks|
  {
    var buffer := wire.residue(text);
    if chunks == [] {
      assert FlushLaw(wire, text, "");
      assert SplitLaw(wire, text, "") && text + "" == text && buffer + "" == buffer;
    } else {
      var first, rest := buffer + chunks[0], Concat(chunks[1..]);
      ChunkingIsInvisible(wire, first, chunks[1..]);
      assert SplitLaw(wire, first, rest);
      assert buffer + Concat(chunks) == first + rest;
    }
  }

  // --- the system ----------------------------------------------------------

  // One connection: the log index the server looks at next, its `last_seq`, the
  // messages and the text it has written, how much of the text was read, and the
  // buffer of the parser.
  datatype Connection = Connection(
    next: nat, floor: Option<int>, sent: seq<Message>, written: string, read: string, buffer: string)

  // The server log, the cursor of the loop, and the calls of `onMessage` so far.
  datatype World = World(
    log: seq<Message>,
    cursor: Option<int>,
    delivered: seq<Message>,
    connection: Option<Connection>)

  datatype Step =
    | Publish(message: Message)    // the project gets a new event
    | Connect                      // a request with the cursor as Last-Event-ID
    | WriteEvent                   // the server takes its next log entry
    | WriteKeepAlive               // or writes a comment
    | Read(text: string)           // a chunk arrives and is fed to the parser
    | Cut(flush: string)           // the connection ends; the decoder may flush a mark

  // The log index of the first entry above a cursor.
  function After(log: seq<Message>, cursor: int): (k: nat)
    ensures k <= |log|
  {
    if log == [] || log[0].id.None? || log[0].id.value > cursor then 0
    else 1 + After(log[1..], cursor)
  }

  ghost predicate Ordered(log: seq<Message>) {
    && (forall i :: 0 <= i < |log| ==> log[i].id.Some?)
    && (forall i, j :: 0 <= i < j < |log| ==> log[i].id.value < log[j].id.value)
  }

  ghost predicate ValidLog(wire: Wire, log: seq<Message>) {
    Ordered(log) && forall m :: m in log ==> wire.survives(m)
  }

  // Without a cursor the server sends only what is published from now on.
  function StartOf(log: seq<Message>, cursor: Option<int>): nat {
    if cursor.Some? then After(log, cursor.value) else |log|
  }

  ghost predicate Enabled(wire: Wire, w: World, s: Step) {
    match s
    case Publish(m) => ValidLog(wire, w.log + [m])
    case Connect => w.connection.None?
    case WriteEvent => w.connection.Some? && w.connection.value.next < |w.log|
    case WriteKeepAlive => w.connection.Some?
    case Read(text) =>
      && w.connection.Some?
      && Prefix(w.connection.value.read + text, w.connection.value.written)
    case Cut(flush) => w.connection.Some? && '\n' !in flush
  }

  // An entry that is not above `last_seq` is passed over.
  function Write(wire: Wire, c: Connection, m: Message): Connection {
    if c.floor.Some? && m.id.Some? && m.id.value <= c.floor.value then c.(next := c.next + 1)
    else c.(next := c.next + 1, floor := m.id, sent := c.sent + [m], written := c.written + wire.event(m))
  }

  // Messages passed on, cursor moved.
  function Deliver(w: World, out: seq<Message>): World {
    w.(delivered := w.delivered + out, cursor := LastSeq(w.cursor, out))
  }

  function Next(wire: Wire, w: World, s: Step): World
    requires Enabled(wire, w, s)
  {
    match s
    case Publish(m) => w.(log := w.log + [m])
    case Connect => w.(connection := Some(Connection(StartOf(w.log, w.cursor), w.cursor, [], "", "", "")))
    case WriteEvent =>
      w.(connection := Some(Write(wire, w.connection.value, w.log[w.connection.value.next])))
    case WriteKeepAlive =>
      var c := w.connection.value;
      w.(connection := Some(c.(written := c.written + wire.keepAlive)))
    case Read(text) =>
      var c := w.connection.value;
      Deliver(w, wire.messages(c.buffer + text)).(connection := Some(
        c.(read := c.read + text, buffer := wire.residue(c.buffer + text))))
    case Cut(flush) =>
      Deliver(w, wire.messages(w.connection.value.buffer + flush)).(connection := None)
  }

  function Initial(log: seq<Message>, since: Option<int>): World {
    World(log, since, [], None)
  }

  ghost predicate Run(wire: Wire, w: World, steps: seq<Step>)
    decreases |steps|
  {
    steps == [] || (Enabled(wire, w, steps[0]) && Run(wire, Next(wire, w, steps[0]), steps[1..]))
  }

  ghost function Final(wire: Wire, w: World, steps: seq<Step>): World
    requires Run(wire, w, steps)
    decreases |steps|
  {
    if steps == [] then w else Final(wire, Next(wire, w, steps[0]), steps[1..])
  }

  // --- the order of the log ------------------------------------------------

  lemma {:induction false} AfterBounds(log: seq<Message>, cursor: int)
    requires Ordered(log)
    ensures forall i :: 0 <= i < |log| ==> (i < After(log, cursor) <==> log[i].id.value <= cursor)
  {
    if log != [] {
      if log[0].id.value <= cursor {
        AfterBounds(log[1..], cursor);
        assert forall i :: 1 <= i < |log| ==> log[i] == log[1..][i - 1];
      }
    }
  }

  lemma AfterIs(log: seq<Message>, cursor: int, k: nat)
    requires Ordered(log) && k <= |log|
    requires k > 0 ==> log[k - 1].id.value <= cursor
    requires k < |log| ==> log[k].id.value > cursor
    ensures After(log, cursor) == k
  {
    AfterBounds(log, cursor);
  }

  // --- the invariant -------------------------------------------------------

  // The delivered messages are log[base..end], the cursor stands exactly behind
  // them, and `base` is where an initial cursor points.
  ghost predicate Contiguous(log: seq<Message>, cursor: Option<int>, delivered: seq<Message>,
                             since: Option<int>, base: nat, end: nat) {
    && base <= end <= |log|
    && delivered == log[base..end]
    && cursor == (if base == end then since else log[end - 1].id)
    && (since.Some? ==> base == After(log, since.value))
  }

  // The connection was sent log[next - k..next]; the first `taken` of these are
  // delivered. As long as nothing was sent, what lies between `next` and the
  // cursor is about to be passed over.
  ghost predicate InStep(log: seq<Message>, cursor: Option<int>, base: nat, end: nat,
                         next: nat, floor: Option<int>, sent: seq<Message>, taken: nat) {
    && |sent| <= next <= |log|
    && sent == log[next - |sent|..next]
    && taken <= |sent|
    && (if sent != [] then
          && base <= next - |sent|
          && floor == log[next - 1].id
          && end == next - |sent| + taken
        else
          && floor == cursor
          && (if cursor.Some? then next <= end else next == end))
  }

  // The text read is a beginning of the text written, which says what was sent.
  ghost predicate Wired(wire: Wire, c: Connection) {
    && Prefix(c.read, c.written)
    && wire.messages(c.written) == c.sent
    && wire.residue(c.written) == ""
    && c.buffer == wire.residue(c.read)
  }

  ghost predicate Following(wire: Wire, c: Connection, log: seq<Message>, cursor: Option<int>, base: nat, end: nat) {
    && Wired(wire, c)
    && InStep(log, cursor, base, end, c.next, c.floor, c.sent, |wire.messages(c.read)|)
  }

  ghost predicate Inv(wire: Wire, w: World, since: Option<int>, base: nat, end: nat) {
    && ValidLog(wire, w.log)
    && Contiguous(w.log, w.cursor, w.delivered, since, base, end)
    && (w.connection.Some? ==> Following(wire, w.connection.value, w.log, w.cursor, base, end))
  }

  // --- publishing ----------------------------------------------------------

  lemma {:induction false} AfterExtended(log: seq<Message>, m: Message, cursor: int)
    requires m.id.Some?
    ensures After(log + [m], cursor)
            == After(log, cursor) + if After(log, cursor) == |log| && m.id.value <= cursor then 1 else 0
  {
    if log == [] {
      assert [m][1..] == [];
    } else {
      AfterExtended(log[1..], m, cursor);
      assert (log + [m])[1..] == log[1..] + [m];
    }
  }

  // A new entry moves the interval only while an initial cursor points beyond
  // the log; the interval is empty then.
  lemma PublishMovesEmptyInterval(
    log: seq<Message>, cursor: Option<int>, delivered: seq<Message>, since: Option<int>, base: nat, end: nat,
    m: Message)
    returns (shift: nat)
    requires m.id.Some? && Contiguous(log, cursor, delivered, since, base, end)
    ensures Contiguous(log + [m], cursor, delivered, since, base + shift, end + shift)
    ensures shift > 0 ==> base == end == |log| && since.Some?
  {
    shift := 0;
    if since.Some? {
      AfterExtended(log, m, since.value);
      shift := After(log + [m], since.value) - base;
    }
    if shift == 0 {
      assert (log + [m])[base..end] == log[base..end];
    } else {
      assert (log + [m])[base + shift..end + shift] == [];
    }
  }

  lemma PublishKeepsPlace(
    log: seq<Message>, cursor: Option<int>, base: nat, end: nat,
    next: nat, floor: Option<int>, sent: seq<Message>, taken: nat, m: Message, shift: nat)
    requires InStep(log, cursor, base, end, next, floor, sent, taken)
    requires shift > 0 ==> base == end == |log| && cursor.Some?
    ensures InStep(log + [m], cursor, base + shift, end + shift, next, floor, sent, taken)
  {
    var longer := log + [m];
    assert longer[next - |sent|..next] == log[next - |sent|..next];
    assert sent != [] ==> longer[next - 1] == log[next - 1];
  }

  lemma PublishStep(wire: Wire, w: World, since: Option<int>, base: nat, end: nat, m: Message) returns (shift: nat)
    requires Inv(wire, w, since, base, end) && Enabled(wire, w, Publish(m))
    ensures Inv(wire, Next(wire, w, Publish(m)), since, base + shift, end + shift)
  {
    assert (w.log + [m])[|w.log|] == m;
    shift := PublishMovesEmptyInterval(w.log, w.cursor, w.delivered, since, base, end, m);
    if w.connection.Some? {
      var c := w.connection.value;
      PublishKeepsPlace(w.log, w.cursor, base, end, c.next, c.floor, c.sent,
                        |wire.messages(c.read)|, m, shift);
    }
  }

  // --- connecting and writing ----------------------------------------------

  lemma CursorPosition(
    log: seq<Message>, cursor: Option<int>, delivered: seq<Message>, since: Option<int>, base: nat, end: nat)
    requires Ordered(log) && Contiguous(log, cursor, delivered, since, base, end) && cursor.Some?
    ensures After(log, cursor.value) == end
  {
    if base < end {
      AfterIs(log, cursor.value, end);
    }
  }

  lemma ConnectStep(wire: Wire, w: World, since: Option<int>, base: nat, end: nat) returns (base': nat, end': nat)
    requires Lawful(wire) && Inv(wire, w, since, base, end) && Enabled(wire, w, Connect)
    ensures Inv(wire, Next(wire, w, Connect), since, base', end') && base <= base'
  {
    base', end' := base, end;
    var start := StartOf(w.log, w.cursor);
    if w.cursor.Some? {
      CursorPosition(w.log, w.cursor, w.delivered, since, base, end);
    } else {
      assert base == end;
      base', end' := |w.log|, |w.log|;
    }
    assert w.log[start..start] == [] && w.log[base'..end'] == w.delivered;
  }

  // Writing an entry: it is passed over, or it is the next one of the interval.
  lemma WriteKeepsPlace(
    log: seq<Message>, cursor: Option<int>, delivered: seq<Message>, since: Option<int>, base: nat, end: nat,
    next: nat, floor: Option<int>, sent: seq<Message>, taken: nat)
    requires Ordered(log) && next < |log|
    requires Contiguous(log, cursor, delivered, since, base, end)
    requires InStep(log, cursor, base, end, next, floor, sent, taken)
    ensures if floor.Some? && log[next].id.value <= floor.value
            then InStep(log, cursor, base, end, next + 1, floor, sent, taken)
            else InStep(log, cursor, base, end, next + 1, log[next].id, sent + [log[next]], taken)
  {
    if cursor.Some? {
      CursorPosition(log, cursor, delivered, since, base, end);
      AfterBounds(log, cursor.value);
    }
    var first := next - |sent|;
    assert sent == [] ==> log[next + 1..next + 1] == [];
    assert log[first..next + 1] == log[first..next] + [log[next]];
  }

  lemma WriteIsWired(wire: Wire, c: Connection, text: string, ms: seq<Message>)
    requires Lawful(wire) && Wired(wire, c)
    requires wire.messages(text) == ms && wire.residue(text) == ""
    ensures Wired(wire, c.(sent := c.sent + ms, written := c.written + text))
  {
    assert SplitLaw(wire, c.written, text);
    assert "" + text == text;
  }

  lemma WriteStep(wire: Wire, w: World, since: Option<int>, base: nat, end: nat)
    requires Lawful(wire) && Inv(wire, w, since, base, end) && Enabled(wire, w, WriteEvent)
    ensures Inv(wire, Next(wire, w, WriteEvent), since, base, end)
  {
    var c := w.connection.value;
    var m := w.log[c.next];
    WriteKeepsPlace(w.log, w.cursor, w.delivered, since, base, end, c.next, c.floor, c.sent, |wire.messages(c.read)|);
    assert EventLaw(wire, m);
    WriteIsWired(wire, c, wire.event(m), [m]);
  }

  lemma KeepAliveStep(wire: Wire, w: World, since: Option<int>, base: nat, end: nat)
    requires Lawful(wire) && Inv(wire, w, since, base, end) && Enabled(wire, w, WriteKeepAlive)
    ensures Inv(wire, Next(wire, w, WriteKeepAlive), since, base, end)
  {
    var c := w.connection.value;
    WriteIsWired(wire, c, wire.keepAlive, []);
    assert c.sent + [] == c.sent;
  }

  // --- reading and cutting -------------------------------------------------

  // Passing on `out`, the next messages of what was sent.
  lemma TakeKeepsPlace(
    log: seq<Message>, cursor: Option<int>, delivered: seq<Message>, since: Option<int>, base: nat, end: nat,
    next: nat, floor: Option<int>, sent: seq<Message>, taken: nat, out: seq<Message>)
    requires Contiguous(log, cursor, delivered, since, base, end)
    requires InStep(log, cursor, base, end, next, floor, sent, taken)
    requires taken + |out| <= |sent| && out == sent[taken..taken + |out|]
    ensures var cursor' := if out == [] then cursor else out[|out| - 1].id;
            && Contiguous(log, cursor', delivered + out, since, base, end + |out|)
            && InStep(log, cursor', base, end + |out|, next, floor, sent, taken + |out|)
  {
    if out == [] {
      assert delivered + out == delivered;
    } else {
      assert out == log[end..end + |out|];
      assert log[base..end + |out|] == log[base..end] + log[end..end + |out|];
      assert out[|out| - 1] == log[end + |out| - 1];
    }
  }

  lemma CursorIsLastId(log: seq<Message>, cursor: Option<int>, next: nat, sent: seq<Message>, out: seq<Message>, k: nat)
    requires Ordered(log) && |sent| <= next <= |log| && sent == log[next - |sent|..next]
    requires k + |out| <= |sent| && out == sent[k..k + |out|]
    ensures LastSeq(cursor, out) == if out == [] then cursor else out[|out| - 1].id
  {
    if out != [] {
      assert out[|out| - 1] == log[next - |sent| + k + |out| - 1];
    }
  }

  // However the text is cut into chunks, what a chunk completes is the next part
  // of what was sent.
  lemma ReadIsNext(wire: Wire, c: Connection, text: string, k: nat, out: seq<Message>)
    requires Lawful(wire) && Wired(wire, c) && Prefix(c.read + text, c.written)
    requires k == |wire.messages(c.read)| && out == wire.messages(c.buffer + text)
    ensures |wire.messages(c.read + text)| == k + |out| <= |c.sent|
    ensures out == c.sent[k..k + |out|]
    ensures wire.residue(c.buffer + text) == wire.residue(c.read + text)
  {
    var head := c.read + text;
    var tail := c.written[|head|..];
    assert c.written == head + tail;
    assert SplitLaw(wire, head, tail);
    assert SplitLaw(wire, c.read, text);
  }

  lemma ReadKeepsPlace(
    wire: Wire, c: Connection, log: seq<Message>, cursor: Option<int>, delivered: seq<Message>,
    since: Option<int>, base: nat, end: nat, text: string, out: seq<Message>)
    requires Lawful(wire) && Ordered(log)
    requires Contiguous(log, cursor, delivered, since, base, end)
    requires Following(wire, c, log, cursor, base, end)
    requires Prefix(c.read + text, c.written) && out == wire.messages(c.buffer + text)
    ensures Contiguous(log, LastSeq(cursor, out), delivered + out, since, base, end + |out|)
    ensures InStep(log, LastSeq(cursor, out), base, end + |out|, c.next, c.floor, c.sent,
                   |wire.messages(c.read + text)|)
    ensures wire.residue(c.buffer + text) == wire.residue(c.read + text)
  {
    var taken := |wire.messages(c.read)|;
    ReadIsNext(wire, c, text, taken, out);
    CursorIsLastId(log, cursor, c.next, c.sent, out, taken);
    TakeKeepsPlace(log, cursor, delivered, since, base, end, c.next, c.floor, c.sent, taken, out);
  }

  lemma ReadStep(wire: Wire, w: World, since: Option<int>, base: nat, end: nat, text: string) returns (end': nat)
    requires Lawful(wire)
    requires Inv(wire, w, since, base, end) && Enabled(wire, w, Read(text))
    ensures Inv(wire, Next(wire, w, Read(text)), since, base, end')
  {
    var c := w.connection.value;
    var out := wire.messages(c.buffer + text);
    ReadKeepsPlace(wire, c, w.log, w.cursor, w.delivered, since, base, end, text, out);
    end' := end + |out|;
  }

  lemma CutStep(wire: Wire, w: World, since: Option<int>, base: nat, end: nat, flush: string)
    requires Lawful(wire)
    requires Inv(wire, w, since, base, end) && Enabled(wire, w, Cut(flush))
    ensures Inv(wire, Next(wire, w, Cut(flush)), since, base, end)
  {
    assert FlushLaw(wire, w.connection.value.read, flush);
    assert w.delivered + [] == w.delivered;
  }

  // --- runs ----------------------------------------------------------------

  lemma StepKeepsInv(wire: Wire, w: World, since: Option<int>, base: nat, end: nat, s: Step)
    returns (base': nat, end': nat)
    requires Lawful(wire) && Inv(wire, w, since, base, end) && Enabled(wire, w, s)
    ensures Inv(wire, Next(wire, w, s), since, base', end') && base <= base'
  {
    base', end' := base, end;
    match s
    case Publish(m) =>
      var shift := PublishStep(wire, w, since, base, end, m);
      base', end' := base + shift, end + shift;
    case Connect => base', end' := ConnectStep(wire, w, since, base, end);
    case WriteEvent => WriteStep(wire, w, since, base, end);
    case WriteKeepAlive => KeepAliveStep(wire, w, since, base, end);
    case Read(text) => end' := ReadStep(wire, w, since, base, end, text);
    case Cut(flush) => CutStep(wire, w, since, base, end, flush);
  }

  lemma {:induction false} RunKeepsInv(
    wire: Wire, w: World, since: Option<int>, base: nat, end: nat, steps: seq<Step>)
    returns (base': nat, end': nat)
    requires Lawful(wire) && Inv(wire, w, since, base, end) && Run(wire, w, steps)
    ensures Inv(wire, Final(wire, w, steps), since, base', end') && base <= base'
    decreases |steps|
  {
    if steps == [] {
      base', end' := base, end;
    } else {
      var b, e := StepKeepsInv(wire, w, since, base, end, steps[0]);
      base', end' := RunKeepsInv(wire, Next(wire, w, steps[0]), since, b, e, steps[1..]);
    }
  }

  ghost predicate CaughtUp(w: World) {
    && w.connection.Some?
    && w.connection.value.next == |w.log|
    && w.connection.value.read == w.connection.value.written
  }

  // The delivered messages are log[base..end]; with an initial cursor `base` is
  // right above it; and nothing is lost for good: once a connection has been sent
  // the whole log and its text has been read, the interval reaches the end.
  ghost predicate Outcome(w: World, since: Option<int>, base: nat, end: nat) {
    && base <= end <= |w.log|
    && w.delivered == w.log[base..end]
    && (since.Some? ==> base == After(w.log, since.value))
    && (CaughtUp(w) ==> end == |w.log|)
  }

  lemma StartInv(wire: Wire, log: seq<Message>, since: Option<int>) returns (base: nat)
    requires ValidLog(wire, log)
    ensures Inv(wire, Initial(log, since), since, base, base) && (since.None? ==> base == |log|)
  {
    base := if since.Some? then After(log, since.value) else |log|;
    assert log[base..base] == [];
  }

  lemma InvMeansOutcome(wire: Wire, w: World, since: Option<int>, base: nat, end: nat)
    requires Inv(wire, w, since, base, end)
    ensures Outcome(w, since, base, end)
  {
  }

  // Over any number of connections, each cut anywhere, the delivered messages
  // are an interval of the server log, in order and without repetition; without an
  // initial cursor nothing that was in the log at the start is delivered.
  lemma DeliveryIsAnInterval(wire: Wire, log: seq<Message>, since: Option<int>, steps: seq<Step>)
    requires Lawful(wire) && ValidLog(wire, log) && Run(wire, Initial(log, since), steps)
    ensures exists base: nat, end: nat ::
              && Outcome(Final(wire, Initial(log, since), steps), since, base, end)
              && (since.None? ==> |log| <= base)
  {
    var w0 := Initial(log, since);
    var base := StartInv(wire, log, since);
    var b, e := RunKeepsInv(wire, w0, since, base, base, steps);
    InvMeansOutcome(wire, Final(wire, w0, steps), since, b, e);
  }

  // --- what each step does -------------------------------------------------------------

  // The server takes its log entry by entry and writes what it does not pass over.
  lemma ServerAdvances(wire: Wire, w: World, s: Step)
    requires Enabled(wire, w, s)
    ensures s.Publish? ==> Next(wire, w, s).log == w.log + [s.message]
    ensures s.WriteEvent? || s.WriteKeepAlive? ==>
              var c, t := w.connection.value, Next(wire, w, s);
              && t.connection.Some?
              && t.connection.value.next == c.next + (if s.WriteEvent? then 1 else 0)
              && (s.WriteKeepAlive? ==> t.connection.value.written == c.written + wire.keepAlive)
              && t.log == w.log && t.delivered == w.delivered
  {
  }

  lemma {:induction false} WritesToTheEnd(wire: Wire, w: World) returns (steps: seq<Step>)
    requires w.connection.Some? && w.connection.value.next <= |w.log|
    requires Prefix(w.connection.value.read, w.connection.value.written)
    ensures Run(wire, w, steps)
    ensures var t := Final(wire, w, steps);
            && t.log == w.log && t.connection.Some? && t.connection.value.next == |t.log|
            && Prefix(t.connection.value.read, t.connection.value.written)
    decreases |w.log| - w.connection.value.next
  {
    if w.connection.value.next == |w.log| {
      steps := [];
    } else {
      var t := Next(wire, w, WriteEvent);
      var rest := WritesToTheEnd(wire, t);
      steps := [WriteEvent] + rest;
      assert steps[0] == WriteEvent && steps[1..] == rest;
    }
  }

  // From every connection the client can catch up: the server writes what is left
  // of the log, the text arrives, and everything has been delivered.
  lemma CanCatchUp(wire: Wire, w: World, since: Option<int>, base: nat, end: nat) returns (steps: seq<Step>)
    requires Lawful(wire) && Inv(wire, w, since, base, end) && w.connection.Some?
    ensures Run(wire, w, steps) && CaughtUp(Final(wire, w, steps))
    ensures exists base': nat :: Outcome(Final(wire, w, steps), since, base', |w.log|) && Final(wire, w, steps).log == w.log
  {
    var writes := WritesToTheEnd(wire, w);
    var t := Final(wire, w, writes);
    var c := t.connection.value;
    var read := Read(c.written[|c.read|..]);
    assert c.read + read.text == c.written;
    steps := writes + [read];
    RunAppend(wire, w, writes, read);
    var b, e := RunKeepsInv(wire, w, since, base, end, steps);
    InvMeansOutcome(wire, Final(wire, w, steps), since, b, e);
  }

  lemma {:induction false} RunAppend(wire: Wire, w: World, steps: seq<Step>, s: Step)
    requires Run(wire, w, steps) && Enabled(wire, Final(wire, w, steps), s)
    ensures Run(wire, w, steps + [s]) && Final(wire, w, steps + [s]) == Next(wire, Final(wire, w, steps), s)
    decreases |steps|
  {
    var all := steps + [s];
    if steps == [] {
      assert all[0] == s && all[1..] == [];
    } else {
      assert all[0] == steps[0] && all[1..] == steps[1..] + [s];
      RunAppend(wire, Next(wire, w, steps[0]), steps[1..], s);
    }
  }
}
