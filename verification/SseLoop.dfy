// The reconnection loop of openLiveProjectStream (dashboard/src/sse.ts): one
// transition per await point, and what holds over every run of it.
module SseLoop {
  import opened Basics
  import opened SseParser

  // Where the loop stands: about to test `stopped`, inside connectEventStream,
  // waiting out the backoff, or returned.
  datatype Phase = Ready | Connected | Backoff | Returned

  // How connectEventStream returned: onError may have run, with a status when the
  // server answered with one.
  datatype Ending = Clean | Failed | Refused(status: int)

  // What an observer sees.
  datatype Output =
    | Request                      // connectEventStream is called
    | Ended(ending: Ending)        // a connection is over and the loop goes on to judge it
    | LiveChange(live: bool)       // onLiveChange
    | Denied(status: int)          // onDenied
    | Wait(ms: real)               // the backoff timer is armed
    | Closed                       // close() is called

  // The backoff delay after a number of consecutive errors.
  datatype Config = Config(delay: nat -> real)

  // `Math.min(backoffMaxMs, backoffInitialMs * 2 ** attempt)`
  function Exponential(initialMs: real, maxMs: real): Config {
    Config((attempt: nat) =>
      var grown := initialMs * Pow2(attempt) as real;
      if maxMs <= grown then maxMs else grown)
  }

  datatype Loop = Loop(
    phase: Phase, stopped: bool, attempt: nat, live: Option<bool>, trace: seq<Output>)

  datatype Event =
    | Begin
    | Open
    // closing: the listener told of the change calls close()
    | End(ending: Ending, closing: bool, ms: real)
    | Elapse
    | Close

  function Jittered(delay: real, jitter: real): real {
    delay * jitter
  }

  predicate WithinAFifth(delay: real, ms: real) {
    Jittered(delay, 0.8) <= ms <= Jittered(delay, 1.2)
  }

  function Counted(attempt: nat, ending: Ending): nat {
    if ending.Clean? then 0 else attempt + 1
  }

  predicate IsFinal(status: int) {
    status == 401 || status == 403
  }

  predicate Denies(ending: Ending) {
    ending.Refused? && IsFinal(ending.status)
  }

  ghost predicate Enabled(c: Config, s: Loop, e: Event) {
    match e
    case Begin => s.phase == Ready
    case Open => s.phase == Connected
    case End(ending, _, ms) => s.phase == Connected && WithinAFifth(c.delay(Counted(s.attempt, ending)), ms)
    case Elapse => s.phase == Backoff
    case Close => true
  }

  function WithLive(s: Loop, next: bool): Loop {
    if s.live == Some(next) then s
    else s.(live := Some(next), trace := s.trace + [LiveChange(next)])
  }

  function Stop(s: Loop): Loop {
    s.(stopped := true, trace := s.trace + [Closed])
  }

  // The end of a connection as the listener of onLiveChange sees it; `closing`
  // when told of a change it calls close().
  function Told(s: Loop, ending: Ending, closing: bool): Loop {
    var judged := s.(trace := s.trace + [Ended(ending)]);
    var down := WithLive(judged, false);
    if closing && down != judged then Stop(down) else down
  }

  function AfterEnd(s: Loop, ending: Ending, ms: real): Loop {
    if Denies(ending) then
      s.(phase := Returned, stopped := true, trace := s.trace + [Denied(ending.status)])
    else
      s.(phase := Backoff, attempt := Counted(s.attempt, ending), trace := s.trace + [Wait(ms)])
  }

  function Step(c: Config, s: Loop, e: Event): Loop
    requires Enabled(c, s, e)
  {
    match e
    case Begin =>
      if s.stopped then s.(phase := Returned)
      else s.(phase := Connected, trace := s.trace + [Request])
    case Open => WithLive(s, true)
    case End(ending, closing, ms) =>
      if s.stopped then s.(phase := Returned)
      else
        AfterEnd(Told(s, ending, closing), ending, ms)
    case Elapse => s.(phase := Ready)
    // A close() during the wait resolves it.
    case Close => Stop(s).(phase := if s.phase == Backoff then Ready else s.phase)
  }

  const START: Loop := Loop(Ready, false, 0, None, [])

  ghost predicate Run(c: Config, s: Loop, es: seq<Event>)
    decreases |es|
  {
    es == [] || (Enabled(c, s, es[0]) && Run(c, Step(c, s, es[0]), es[1..]))
  }

  ghost function Final(c: Config, s: Loop, es: seq<Event>): Loop
    requires Run(c, s, es)
    decreases |es|
  {
    if es == [] then s else Final(c, Step(c, s, es[0]), es[1..])
  }

  // --- what a trace must satisfy --------------------------------------------

  // The values passed to onLiveChange.
  function Lives(t: seq<Output>): seq<bool> {
    if t == [] then []
    else
      var rest := Lives(t[..|t| - 1]);
      if t[|t| - 1].LiveChange? then rest + [t[|t| - 1].live] else rest
  }

  ghost predicate DiffersAt(bs: seq<bool>, i: int)
    requires 0 < i < |bs|
  {
    bs[i - 1] != bs[i]
  }

  ghost predicate Alternates(bs: seq<bool>) {
    forall i :: 0 < i < |bs| ==> DiffersAt(bs, i)
  }

  lemma AlternatesAppend(bs: seq<bool>, b: bool)
    requires Alternates(bs) && (bs != [] ==> bs[|bs| - 1] != b)
    ensures Alternates(bs + [b])
  {
    var more := bs + [b];
    forall i | 0 < i < |more|
      ensures DiffersAt(more, i)
    {
      assert i < |bs| ==> DiffersAt(bs, i);
    }
  }

  predicate Ends(o: Output) {
    o.Closed? || o.Denied?
  }

  ghost predicate Unended(t: seq<Output>) {
    forall i :: 0 <= i < |t| ==> !Ends(t[i])
  }

  ghost predicate Undenied(t: seq<Output>) {
    forall i :: 0 <= i < |t| ==> !t[i].Denied?
  }

  // No request and no second denial after close() or a denial.
  ghost predicate QuietAfterStop(t: seq<Output>) {
    forall i, j :: 0 <= i < j < |t| && Ends(t[i]) ==> !t[j].Request? && !(t[i].Denied? && t[j].Denied?)
  }

  // How many connections in a row ended with an error, at the end of a trace.
  function ErrorStreak(t: seq<Output>): nat {
    if t == [] then 0
    else
      match t[|t| - 1]
      case Ended(ending) => if ending.Clean? then 0 else ErrorStreak(t[..|t| - 1]) + 1
      case _ => ErrorStreak(t[..|t| - 1])
  }

  // Every wait lies within a fifth of the exponential delay of its error streak.
  ghost predicate WaitsFollowStreak(c: Config, t: seq<Output>) {
    forall i :: 0 <= i < |t| && t[i].Wait? ==>
      WithinAFifth(c.delay(ErrorStreak(t[..i])), t[i].ms)
  }

  // The listener's values alternate and end with the present one.
  ghost predicate HeardOf(t: seq<Output>, live: Option<bool>) {
    var lives := Lives(t);
    Alternates(lives) && live == if lives == [] then None else Some(lives[|lives| - 1])
  }

  ghost predicate Inv(c: Config, s: Loop) {
    && HeardOf(s.trace, s.live)
    && QuietAfterStop(s.trace)
    && (!s.stopped ==> Unended(s.trace))
    && (s.phase != Returned ==> Undenied(s.trace))
    && (s.phase != Returned ==> s.attempt == ErrorStreak(s.trace))
    && WaitsFollowStreak(c, s.trace)
  }

  // --- one more output -------------------------------------------------------

  lemma Extend(c: Config, s: Loop, o: Output)
    requires Inv(c, s)
    requires o.LiveChange? ==> s.live != Some(o.live)
    requires o.Request? || o.Denied? ==> !s.stopped || (o.Denied? && s.phase != Returned)
    requires o.Wait? ==> WithinAFifth(c.delay(ErrorStreak(s.trace)), o.ms)
    ensures var t := s.trace + [o];
            && HeardOf(t, if o.LiveChange? then Some(o.live) else s.live)
            && QuietAfterStop(t)
            && (Unended(t) <==> Unended(s.trace) && !Ends(o))
            && (Undenied(t) <==> Undenied(s.trace) && !o.Denied?)
            && WaitsFollowStreak(c, t)
            && ErrorStreak(t) == (if o.Ended? then Counted(ErrorStreak(s.trace), o.ending)
                                  else ErrorStreak(s.trace))
  {
    var t := s.trace + [o];
    assert t[..|t| - 1] == s.trace;
    assert forall i :: 0 <= i < |s.trace| ==> t[..i] == s.trace[..i];
    if o.LiveChange? {
      AlternatesAppend(Lives(s.trace), o.live);
    }
    hide DiffersAt;
  }

  // --- every step keeps the invariant ----------------------------------------

  lemma LiveKeepsInv(c: Config, s: Loop, next: bool)
    requires Inv(c, s)
    ensures Inv(c, WithLive(s, next))
  {
    if s.live != Some(next) {
      hide HeardOf, QuietAfterStop, WaitsFollowStreak, ErrorStreak, Unended, Undenied;
      Extend(c, s, LiveChange(next));
    }
  }

  lemma StopKeepsInv(c: Config, s: Loop)
    requires Inv(c, s)
    ensures Inv(c, Stop(s))
  {
    hide HeardOf, QuietAfterStop, WaitsFollowStreak, ErrorStreak, Unended, Undenied;
    Extend(c, s, Closed);
  }

  // Between the end of a connection and the update of `attempt` the streak is
  // ahead of the counter.
  ghost predicate Judging(c: Config, s: Loop, attempt: nat) {
    s.phase == Connected && Inv(c, s.(attempt := attempt))
  }

  lemma RequestKeepsInv(c: Config, s: Loop)
    requires Inv(c, s) && !s.stopped && s.phase == Ready
    ensures Inv(c, s.(phase := Connected, trace := s.trace + [Request]))
  {
    hide HeardOf, QuietAfterStop, WaitsFollowStreak, ErrorStreak, Unended, Undenied;
    Extend(c, s, Request);
  }

  lemma EndedIsJudged(c: Config, s: Loop, ending: Ending)
    requires Inv(c, s) && !s.stopped && s.phase == Connected
    ensures Judging(c, s.(trace := s.trace + [Ended(ending)]), Counted(s.attempt, ending))
    ensures Inv(c, s.(trace := s.trace + [Ended(ending)], attempt := Counted(s.attempt, ending)))
  {
    hide HeardOf, QuietAfterStop, WaitsFollowStreak, ErrorStreak, Unended, Undenied;
    Extend(c, s, Ended(ending));
  }

  lemma ToldIsJudged(c: Config, s: Loop, attempt: nat)
    requires Judging(c, s, attempt)
    ensures Judging(c, WithLive(s, false), attempt)
    ensures Judging(c, Stop(s), attempt)
  {
    LiveKeepsInv(c, s.(attempt := attempt), false);
    StopKeepsInv(c, s.(attempt := attempt));
    hide Inv;
    assert WithLive(s, false).(attempt := attempt) == WithLive(s.(attempt := attempt), false);
    assert Stop(s).(attempt := attempt) == Stop(s.(attempt := attempt));
  }

  lemma DeniedKeepsInv(c: Config, s: Loop, status: int, attempt: nat)
    requires Judging(c, s, attempt)
    ensures Inv(c, s.(phase := Returned, stopped := true, trace := s.trace + [Denied(status)]))
  {
    hide HeardOf, QuietAfterStop, WaitsFollowStreak, ErrorStreak, Unended, Undenied;
    Extend(c, s.(attempt := attempt), Denied(status));
  }

  lemma WaitKeepsInv(c: Config, s: Loop, attempt: nat, ms: real)
    requires Judging(c, s, attempt) && WithinAFifth(c.delay(attempt), ms)
    ensures Inv(c, s.(phase := Backoff, attempt := attempt, trace := s.trace + [Wait(ms)]))
  {
    hide HeardOf, QuietAfterStop, WaitsFollowStreak, ErrorStreak, Unended, Undenied;
    Extend(c, s.(attempt := attempt), Wait(ms));
  }

  lemma EndKeepsInv(c: Config, s: Loop, ending: Ending, closing: bool, ms: real)
    requires Inv(c, s) && !s.stopped && Enabled(c, s, End(ending, closing, ms))
    ensures Inv(c, Step(c, s, End(ending, closing, ms)))
  {
    hide Inv, Judging, Told, WithinAFifth, Counted;
    var count := Counted(s.attempt, ending);
    ToldKeepsJudging(c, s, ending, closing);
    if Denies(ending) {
      DeniedKeepsInv(c, Told(s, ending, closing), ending.status, count);
    } else {
      WaitKeepsInv(c, Told(s, ending, closing), count, ms);
    }
  }

  lemma ToldIsJust(s: Loop, ending: Ending, closing: bool)
    ensures Told(s, ending, closing).attempt == s.attempt
  {
  }

  lemma ToldKeepsJudging(c: Config, s: Loop, ending: Ending, closing: bool)
    requires Inv(c, s) && !s.stopped && s.phase == Connected
    ensures Judging(c, Told(s, ending, closing), Counted(s.attempt, ending))
    ensures Told(s, ending, closing).attempt == s.attempt
  {
    ToldIsJust(s, ending, closing);
    hide Inv, Judging, WithLive, Stop, Counted;
    var count := Counted(s.attempt, ending);
    var judged := s.(trace := s.trace + [Ended(ending)]);
    EndedIsJudged(c, s, ending);
    ToldIsJudged(c, judged, count);
    ToldIsJudged(c, WithLive(judged, false), count);
  }

  lemma StepKeepsInv(c: Config, s: Loop, e: Event)
    requires Inv(c, s) && Enabled(c, s, e)
    ensures Inv(c, Step(c, s, e))
  {
    match e
    case Begin =>
      if !s.stopped {
        RequestKeepsInv(c, s);
      }
    case Open => LiveKeepsInv(c, s, true);
    case End(ending, closing, ms) =>
      if !s.stopped {
        EndKeepsInv(c, s, ending, closing, ms);
      }
    case Elapse =>
    case Close => StopKeepsInv(c, s);
  }

  // Over every run: onLiveChange alternates, onDenied fires at most once, a 401 or
  // 403 is told and nothing is requested after it or after close(), and every wait
  // is the exponential delay of the current error streak within a fifth.
  lemma {:induction false} EveryRunBehaves(c: Config, s: Loop, es: seq<Event>)
    requires Inv(c, s) && Run(c, s, es)
    ensures Inv(c, Final(c, s, es))
    decreases |es|
  {
    if es != [] {
      StepKeepsInv(c, s, es[0]);
      EveryRunBehaves(c, Step(c, s, es[0]), es[1..]);
    }
  }

  lemma RunsFromStart(c: Config, es: seq<Event>)
    requires Run(c, START, es)
    ensures var t := Final(c, START, es).trace;
            Alternates(Lives(t)) && QuietAfterStop(t) && WaitsFollowStreak(c, t) && DenialsAreTold(t)
  {
    RunKeepsDenials(c, START, es);
    hide DenialsAreTold;
    EveryRunBehaves(c, START, es);
  }

  // A run goes on where it ended.
  lemma {:induction false} RunGoesOn(c: Config, s: Loop, es: seq<Event>, e: Event)
    requires Run(c, s, es) && Enabled(c, Final(c, s, es), e)
    ensures Run(c, s, es + [e]) && Final(c, s, es + [e]) == Step(c, Final(c, s, es), e)
    decreases |es|
  {
    var all := es + [e];
    if es == [] {
      assert all[0] == e && all[1..] == [];
    } else {
      assert all[0] == es[0] && all[1..] == es[1..] + [e];
      RunGoesOn(c, Step(c, s, es[0]), es[1..], e);
    }
  }

  // --- denials -----------------------------------------------------------------

  // The answers after which nothing is requested any more.
  predicate Unauthorized(o: Output) {
    o == Ended(Refused(401)) || o == Ended(Refused(403))
  }

  ghost predicate ToldAfter(o: Output, later: seq<Output>) {
    Unauthorized(o) ==> Denied(o.ending.status) in later && Request !in later
  }

  ghost predicate DueBefore(o: Output, earlier: seq<Output>) {
    o.Denied? ==> Ended(Refused(o.status)) in earlier && IsFinal(o.status)
  }

  // Each of them is told as a denial and followed by no request, and nothing else
  // is told as one.
  ghost predicate DenialsAreTold(t: seq<Output>) {
    && (forall i :: 0 <= i < |t| ==> ToldAfter(t[i], t[i + 1..]))
    && (forall i :: 0 <= i < |t| ==> DueBefore(t[i], t[..i]))
  }

  ghost predicate Answered(t: seq<Output>) {
    exists i :: 0 <= i < |t| && Unauthorized(t[i])
  }

  // A 401 or 403 is told, stops the loop and ends it; any other end of a
  // connection goes on to a wait.
  lemma EndIsJudged(c: Config, s: Loop, ending: Ending, closing: bool, ms: real)
    requires Enabled(c, s, End(ending, closing, ms)) && !s.stopped
    ensures var t := Step(c, s, End(ending, closing, ms));
            && Prefix(s.trace + [Ended(ending)], t.trace) && Request !in t.trace[|s.trace|..]
            && t.live == Some(false)
            && (if Unauthorized(Ended(ending)) then
                  t.phase == Returned && t.stopped && t.trace[|t.trace| - 1] == Denied(ending.status)
                else
                  && t.phase == Backoff && t.trace[|t.trace| - 1] == Wait(ms)
                  && (forall o :: o in t.trace[|s.trace|..] ==> !o.Denied?)
                  && (t.stopped <==> closing && s.live != Some(false)))
  {
  }

  // An unstopped loop goes on: after any such end, the wait, and the next test of
  // the loop, it requests again.
  lemma RequestsAgain(c: Config, s: Loop, ending: Ending, ms: real)
    requires Enabled(c, s, End(ending, false, ms)) && !s.stopped && !Unauthorized(Ended(ending))
    ensures var waiting := Step(c, s, End(ending, false, ms));
            && Enabled(c, waiting, Elapse)
            && var ready := Step(c, waiting, Elapse);
               && Enabled(c, ready, Begin)
               && Step(c, ready, Begin).phase == Connected
               && Step(c, ready, Begin).trace == waiting.trace + [Request]
  {
  }

  // close() ends a wait at once, and the loop then returns without a request.
  lemma ClosedReturns(c: Config, s: Loop)
    requires s.phase == Backoff || s.phase == Ready
    ensures var closed := Step(c, s, Close);
            && Enabled(c, closed, Begin)
            && Step(c, closed, Begin).phase == Returned
            && Step(c, closed, Begin).trace == s.trace + [Closed]
  {
  }

  // An answered connection is told to the listener, once.
  lemma OpeningIsTold(c: Config, s: Loop)
    requires Enabled(c, s, Open)
    ensures var t := Step(c, s, Open);
            && t.live == Some(true) && t.phase == Connected
            && t.trace == if s.live == Some(true) then s.trace else s.trace + [LiveChange(true)]
  {
  }

  ghost predicate DenialInv(s: Loop) {
    DenialsAreTold(s.trace) && (Answered(s.trace) ==> s.stopped && s.phase == Returned)
  }

  // An output that is neither an answer nor a denial.
  predicate Neutral(o: Output) {
    !Unauthorized(o) && !o.Denied?
  }

  lemma AnsweredAppend(t: seq<Output>, more: seq<Output>)
    ensures Answered(t + more) <==> Answered(t) || Answered(more)
  {
    hide Unauthorized;
    var u := t + more;
    if i :| 0 <= i < |t| && Unauthorized(t[i]) {
      assert u[i] == t[i];
    }
    if i :| 0 <= i < |more| && Unauthorized(more[i]) {
      assert u[|t| + i] == more[i];
    }
  }

  lemma NeutralsAnswerNothing(more: seq<Output>)
    requires forall o :: o in more ==> Neutral(o)
    ensures !Answered(more)
  {
    assert forall i :: 0 <= i < |more| ==> more[i] in more;
  }

  lemma QuietOutputsKeepDenials(t: seq<Output>, more: seq<Output>)
    requires DenialsAreTold(t) && forall o :: o in more ==> Neutral(o)
    requires Answered(t) ==> Request !in more
    ensures DenialsAreTold(t + more) && (Answered(t + more) <==> Answered(t))
  {
    hide DueBefore, ToldAfter, Answered, Neutral;
    AnsweredAppend(t, more);
    NeutralsAnswerNothing(more);
    var u := t + more;
    forall i | 0 <= i < |u|
      ensures ToldAfter(u[i], u[i + 1..]) && DueBefore(u[i], u[..i])
    {
      if i < |t| {
        assert u[i + 1..] == t[i + 1..] + more && u[..i] == t[..i];
        StillTold(t, i, more);
      } else {
        assert u[i] in more;
        NeutralIsFine(u[i], u[i + 1..], u[..i]);
      }
    }
  }

  lemma StillTold(t: seq<Output>, i: nat, more: seq<Output>)
    requires i < |t| && ToldAfter(t[i], t[i + 1..]) && (Answered(t) ==> Request !in more)
    ensures ToldAfter(t[i], t[i + 1..] + more)
  {
    assert Unauthorized(t[i]) ==> Answered(t);
  }

  lemma NeutralIsFine(o: Output, later: seq<Output>, earlier: seq<Output>)
    requires Neutral(o)
    ensures ToldAfter(o, later) && DueBefore(o, earlier)
  {
  }

  lemma DenialKeepsDenials(t: seq<Output>, status: int, between: seq<Output>)
    requires DenialsAreTold(t) && !Answered(t) && IsFinal(status)
    requires forall o :: o in between ==> Neutral(o) && !o.Request?
    ensures DenialsAreTold(t + [Ended(Refused(status))] + between + [Denied(status)])
  {
    var answer := Ended(Refused(status));
    var tail := between + [Denied(status)];
    var u := t + [answer] + tail;
    assert u == t + [answer] + between + [Denied(status)];
    assert tail[|between|] == Denied(status) && Request !in tail;
    hide DueBefore, ToldAfter;
    forall i | 0 <= i < |u|
      ensures ToldAfter(u[i], u[i + 1..]) && DueBefore(u[i], u[..i])
    {
      if i < |t| {
        assert u[i + 1..] == t[i + 1..] + ([answer] + tail) && u[..i] == t[..i];
        StillTold(t, i, [answer] + tail);
      } else if i == |t| {
        assert u[i + 1..] == tail && u[i] == answer;
        AnswerIsTold(status, tail, u[..i]);
      } else {
        assert u[..i][|t|] == answer && answer in u[..i];
        assert u[i] == tail[i - |t| - 1] && u[i] in tail;
        LaterIsFine(u[i], status, u[i + 1..], u[..i]);
      }
    }
  }

  lemma AnswerIsTold(status: int, later: seq<Output>, earlier: seq<Output>)
    requires Denied(status) in later && Request !in later
    ensures ToldAfter(Ended(Refused(status)), later) && DueBefore(Ended(Refused(status)), earlier)
  {
  }

  lemma LaterIsFine(o: Output, status: int, later: seq<Output>, earlier: seq<Output>)
    requires Neutral(o) || o == Denied(status)
    requires Ended(Refused(status)) in earlier && IsFinal(status)
    ensures ToldAfter(o, later) && DueBefore(o, earlier)
  {
  }

  // What an end appends before its last output.
  lemma ToldAppends(s: Loop, ending: Ending, closing: bool) returns (between: seq<Output>)
    ensures Told(s, ending, closing).trace == s.trace + [Ended(ending)] + between
    ensures forall o :: o in between ==> o == LiveChange(false) || o == Closed
  {
    between := Told(s, ending, closing).trace[|s.trace| + 1..];
  }

  lemma StepKeepsDenials(c: Config, s: Loop, e: Event)
    requires DenialInv(s) && Enabled(c, s, e)
    ensures DenialInv(Step(c, s, e))
  {
    var t := Step(c, s, e);
    if e.End? && !s.stopped {
      var between := ToldAppends(s, e.ending, e.closing);
      hide DenialsAreTold, Answered, Told;
      if Denies(e.ending) {
        DenialKeepsDenials(s.trace, e.ending.status, between);
      } else {
        var more := [Ended(e.ending)] + between + [Wait(e.ms)];
        assert t.trace == s.trace + more;
        QuietOutputsKeepDenials(s.trace, more);
      }
    } else {
      var more := t.trace[|s.trace|..];
      assert t.trace == s.trace + more;
      hide DenialsAreTold, Answered;
      QuietOutputsKeepDenials(s.trace, more);
    }
  }

  lemma {:induction false} RunKeepsDenials(c: Config, s: Loop, es: seq<Event>)
    requires DenialInv(s) && Run(c, s, es)
    ensures DenialInv(Final(c, s, es))
    decreases |es|
  {
    if es != [] {
      StepKeepsDenials(c, s, es[0]);
      RunKeepsDenials(c, Step(c, s, es[0]), es[1..]);
    }
  }

  // With the program's delays: after k errors in a row the wait lies within a
  // fifth of min(max, initial * 2^k).
  lemma WaitsAreExponential(initialMs: real, maxMs: real, es: seq<Event>, i: nat)
    requires Run(Exponential(initialMs, maxMs), START, es)
    requires var t := Final(Exponential(initialMs, maxMs), START, es).trace; i < |t| && t[i].Wait?
    ensures var t := Final(Exponential(initialMs, maxMs), START, es).trace;
            var grown := initialMs * Pow2(ErrorStreak(t[..i])) as real;
            WithinAFifth(if maxMs <= grown then maxMs else grown, t[i].ms)
  {
    hide Alternates, Lives, QuietAfterStop, ErrorStreak, Pow2, Final, Run, WithinAFifth;
    RunsFromStart(Exponential(initialMs, maxMs), es);
  }

  // The jitter of the program, a factor between 0.8 and 1.2.
  lemma JitterStaysNear(delay: real, jitter: real)
    requires delay >= 0.0 && 0.8 <= jitter <= 1.2
    ensures WithinAFifth(delay, Jittered(delay, jitter))
  {
    JitteredGrows(delay, 0.8, jitter);
    JitteredGrows(delay, jitter, 1.2);
    hide Jittered;
  }

  lemma JitteredGrows(delay: real, lo: real, hi: real)
    requires delay >= 0.0 && lo <= hi
    ensures Jittered(delay, lo) <= Jittered(delay, hi)
  {
  }

  lemma EndIs(c: Config, s: Loop, ending: Ending, closing: bool, ms: real)
    requires Enabled(c, s, End(ending, closing, ms))
    ensures Step(c, s, End(ending, closing, ms))
            == if s.stopped then s.(phase := Returned) else AfterEnd(Told(s, ending, closing), ending, ms)
  {
    hide Told, AfterEnd;
  }

  lemma StreakIsCounted(c: Config)
    ensures forall s :: Inv(c, s) && s.phase != Returned ==> s.attempt == ErrorStreak(s.trace)
  {
    hide HeardOf, QuietAfterStop, WaitsFollowStreak, ErrorStreak, Unended, Undenied;
  }

  // --- the closure -------------------------------------------------------------

  // The variables of the closure. `trace` and `delivered` record the calls it
  // makes; `phase` is the await it is suspended at.
  class LiveStream {
    const config: Config
    var lastSeq: Option<int>
    var stopped: bool
    var attempt: nat
    var live: Option<bool>
    var phase: Phase
    var parser: SseParser
    ghost var trace: seq<Output>
    ghost var delivered: seq<Message>

    ghost function View(): Loop
      reads this
    {
      Loop(phase, stopped, attempt, live, trace)
    }

    constructor (config: Config, sinceSeq: Option<int>)
      ensures fresh(parser) && View() == START && Inv(config, View())
      ensures this.config == config && lastSeq == sinceSeq && delivered == []
    {
      this.config := config;
      lastSeq, stopped, attempt, live := sinceSeq, false, 0, None;
      phase, trace, delivered := Ready, [], [];
      parser := new SseParser();
    }

    // `streak` is the error streak of the trace, ahead of `attempt` while a
    // finished connection is judged. The listener hears of changes only, so what
    // it has heard keeps alternating and ends with the present value.
    method SetLive(next: bool, ghost streak: nat)
      requires Inv(config, View().(attempt := streak))
      modifies this`live, this`trace
      ensures View() == WithLive(old(View()), next)
      ensures Inv(config, View().(attempt := streak))
      ensures live == Some(next) && HeardOf(trace, live)
    {
      hide HeardOf, QuietAfterStop, WaitsFollowStreak, ErrorStreak, Unended, Undenied;
      LiveKeepsInv(config, View().(attempt := streak), next);
      if live == Some(next) {
        return;
      }
      live := Some(next);
      trace := trace + [LiveChange(next)];
    }

    // onOpen
    method Opened()
      requires phase == Connected && Inv(config, View())
      modifies this`live, this`trace
      ensures View() == Step(config, old(View()), Event.Open) && Inv(config, View()) && live == Some(true)
    {
      SetLive(true, attempt);
    }

    // Once closed the stream requests nothing more.
    method Close(ghost streak: nat)
      requires Inv(config, View().(attempt := streak))
      modifies this`stopped, this`phase, this`trace
      ensures View() == Step(config, old(View()), Event.Close)
      ensures Inv(config, View().(attempt := streak)) && stopped && phase != Backoff
    {
      StepKeepsInv(config, View().(attempt := streak), Event.Close);
      stopped := true;
      trace := trace + [Closed];
      if phase == Backoff {
        phase := Ready;
      }
    }

    // The loop test and the call of connectEventStream, whose parser starts at
    // the cursor of the loop.
    method Begin()
      requires phase == Ready && Inv(config, View())
      modifies this`phase, this`trace, this`parser
      ensures View() == Step(config, old(View()), Event.Begin) && Inv(config, View())
      ensures trace != old(trace) ==> Unended(trace)
      ensures phase == Connected ==> fresh(parser) && parser.buffer == "" && parser.lastSeq == lastSeq
      ensures phase != Connected ==> parser == old(parser)
    {
      StepKeepsInv(config, View(), Event.Begin);
      if stopped {
        phase := Returned;
        return;
      }
      parser := new SseParser();
      parser.lastSeq := lastSeq;
      trace := trace + [Request];
      phase := Connected;
    }

    // onMessage for each message: pass it on and move the cursor.
    method Forward(messages: seq<Message>)
      modifies this`lastSeq, this`delivered
      ensures delivered == old(delivered) + messages
      ensures lastSeq == LastSeq(old(lastSeq), messages)
    {
      for i := 0 to |messages|
        invariant delivered == old(delivered) + messages[..i]
        invariant lastSeq == LastSeq(old(lastSeq), messages[..i])
      {
        LastSeqAppend(old(lastSeq), messages[..i], messages[i]);
        assert messages[..i + 1] == messages[..i] + [messages[i]];
        if messages[i].id.Some? {
          lastSeq := messages[i].id;
        }
        delivered := delivered + [messages[i]];
      }
      assert messages[..|messages|] == messages;
    }

    // One chunk of the body.
    method Receive(chunk: string)
      requires phase == Connected && parser.lastSeq == lastSeq
      modifies this`lastSeq, this`delivered, parser
      ensures parser.lastSeq == lastSeq
      ensures var out := Messages(Frame, old(parser.buffer) + chunk);
              && delivered == old(delivered) + out
              && lastSeq == LastSeq(old(lastSeq), out)
              && parser.buffer == Residue(old(parser.buffer) + chunk)
    {
      var messages := parser.Feed(chunk);
      Forward(messages);
    }

    // setLive(false) after a connection; `closing`: the listener told of the
    // change calls close().
    method TellEnd(ending: Ending, closing: bool)
      requires phase == Connected && !stopped && Inv(config, View())
      modifies this`stopped, this`live, this`phase, this`trace
      ensures View() == Told(old(View()), ending, closing)
      ensures Judging(config, View(), Counted(attempt, ending)) && live == Some(false)
    {
      ghost var streak := Counted(attempt, ending);
      hide Inv, Lives, Alternates, Judging, Counted;
      EndedIsJudged(config, View(), ending);
      ToldKeepsJudging(config, View(), ending, closing);
      trace := trace + [Ended(ending)];
      var was := live;
      SetLive(false, streak);
      if closing && was != Some(false) {
        Close(streak);
      }
    }

    // connectEventStream has returned: judge the connection and arm the backoff.
    method End(ending: Ending, closing: bool, jitter: real)
      requires phase == Connected && 0.8 <= jitter <= 1.2 && config.delay(Counted(attempt, ending)) >= 0.0
      requires parser.lastSeq == lastSeq && Inv(config, View())
      modifies this`stopped, this`attempt, this`live, this`phase, this`trace, this`lastSeq
      ensures var e := Event.End(ending, closing, Jittered(config.delay(Counted(old(attempt), ending)), jitter));
              Enabled(config, old(View()), e) && View() == Step(config, old(View()), e)
      ensures lastSeq == old(lastSeq) && Inv(config, View())
      ensures old(stopped) ==> phase == Returned && trace == old(trace)
      ensures !old(stopped) && ending in {Refused(401), Refused(403)} ==>
                phase == Returned && stopped && trace[|trace| - 1] == Denied(ending.status)
      ensures !old(stopped) && ending !in {Refused(401), Refused(403)} ==>
                phase == Backoff && trace[|trace| - 1].Wait? && attempt == ErrorStreak(trace)
    {
      hide Inv, ErrorStreak, Told, Judging, WithinAFifth, Jittered;
      ghost var streak := Counted(attempt, ending);
      JitterStaysNear(config.delay(streak), jitter);
      ghost var ms := Jittered(config.delay(streak), jitter);
      ghost var e := Event.End(ending, closing, ms);
      StepKeepsInv(config, View(), e);
      StreakIsCounted(config);
      EndIs(config, View(), ending, closing, ms);
      hide Step, Enabled;
      if parser.lastSeq.Some? {
        lastSeq := parser.lastSeq;
      }
      if stopped {
        phase := Returned;
        return;
      }
      TellEnd(ending, closing);
      if ending.Refused? && IsFinal(ending.status) {
        stopped := true;
        trace := trace + [Denied(ending.status)];
        phase := Returned;
        return;
      }
      attempt := if ending.Clean? then 0 else attempt + 1;
      trace := trace + [Wait(Jittered(config.delay(attempt), jitter))];
      phase := Backoff;
    }

    method Elapse()
      requires phase == Backoff && Inv(config, View())
      modifies this`phase
      ensures View() == Step(config, old(View()), Event.Elapse) && Inv(config, View())
    {
      phase := Ready;
    }
  }
}
