// The server connection monitor (createConnectionMonitor in
// dashboard/src/connection.ts) as a state machine, and the closure that
// implements it.
module ConnectionMonitor {
  import opened Basics

  datatype Phase = Unknown | Connecting | Connected | Unreachable | AuthExpired

  datatype Detail = Network | Http(status: int)

  datatype Snapshot = Snapshot(phase: Phase, detail: Option<Detail>)

  // `retry` is the delay of the pending timer; `delays` records the delays
  // scheduled since an answer last reset the backoff, `told` what the listeners
  // were passed.
  datatype State = State(
    current: Snapshot,
    retry: Option<nat>,
    attempt: nat,
    stopped: bool,
    checking: bool,
    delays: seq<nat>,
    told: seq<Snapshot>)

  datatype Event =
    | Check
    | ProbeAnswers(status: int)
    | ProbeFails
    | RetryFires
    | ReportReachable
    | ReportNetworkError
    | ReportUnauthorized
    | ClearAuthExpired
    | Stop

  const RETRY_DELAYS: seq<nat> := [3000, 6000, 12000, 24000, 30000]

  function DelayAt(attempt: nat): nat {
    RETRY_DELAYS[if attempt < 4 then attempt else 4]
  }

  const START: State := State(Snapshot(Unknown, None), None, 0, false, false, [], [])

  ghost predicate Enabled(s: State, e: Event) {
    match e
    case ProbeAnswers(_) => s.checking
    case ProbeFails => s.checking
    case RetryFires => s.retry.Some?
    case _ => true
  }

  // Listeners are dropped by stop().
  function Set(s: State, next: Snapshot): State {
    if next == s.current then s
    else s.(current := next, told := if s.stopped then s.told else s.told + [next])
  }

  function ScheduleRetry(s: State): State {
    if s.stopped then s.(retry := None)
    else
      var delay := DelayAt(s.attempt);
      s.(retry := Some(delay), attempt := s.attempt + 1, delays := s.delays + [delay])
  }

  function MarkReachable(s: State): State {
    var reset := s.(attempt := 0, retry := None, delays := []);
    if s.current.phase == AuthExpired then reset else Set(reset, Snapshot(Connected, None))
  }

  function MarkUnreachable(s: State, detail: Detail): State {
    if s.current.phase == AuthExpired then s
    else ScheduleRetry(Set(s, Snapshot(Unreachable, Some(detail))))
  }

  function StartCheck(s: State): State {
    if s.checking then s
    else
      var shown := if s.current.phase == Unknown then Set(s, Snapshot(Connecting, None)) else s;
      shown.(checking := true)
  }

  function Step(s: State, e: Event): State {
    match e
    case Check => StartCheck(s)
    case ProbeAnswers(status) =>
      (if 200 <= status < 300 then MarkReachable(s) else MarkUnreachable(s, Http(status))).(checking := false)
    case ProbeFails => MarkUnreachable(s, Network).(checking := false)
    case RetryFires => StartCheck(s.(retry := None))
    case ReportReachable => MarkReachable(s)
    case ReportNetworkError => MarkUnreachable(s, Network)
    case ReportUnauthorized => Set(s.(retry := None), Snapshot(AuthExpired, None))
    case ClearAuthExpired => if s.current.phase == AuthExpired then Set(s, Snapshot(Unknown, None)) else s
    case Stop => s.(stopped := true, retry := None)
  }

  // --- what every reachable state satisfies ------------------------------------

  ghost predicate RetryOnlyWhenUnreachable(s: State) {
    s.retry.Some? ==> s.current.phase == Unreachable && !s.stopped
  }

  ghost predicate NeverAbandoned(s: State) {
    s.current.phase == Unreachable && !s.stopped ==> s.retry.Some? || s.checking
  }

  // The delays scheduled since the last reset climb the ladder from its foot.
  ghost predicate Climbs(delays: seq<nat>) {
    forall i :: 0 <= i < |delays| ==> delays[i] == DelayAt(i)
  }

  // The delays since the last reset never shrink and stay within 3 and 30 s.
  ghost predicate BackoffGrows(s: State) {
    && (forall i :: 0 <= i < |s.delays| ==> 3000 <= s.delays[i] <= 30000)
    && (forall i, j :: 0 <= i < j < |s.delays| ==> s.delays[i] <= s.delays[j])
    && (s.retry.Some? ==> s.delays != [] && s.retry.value == s.delays[|s.delays| - 1])
  }

  ghost predicate ChangesAt(told: seq<Snapshot>, i: int)
    requires 0 < i < |told|
  {
    told[i - 1] != told[i]
  }

  // Listeners hear of changes only, and the last one they heard of is current.
  ghost predicate TellsChanges(s: State) {
    && (forall i :: 0 < i < |s.told| ==> ChangesAt(s.told, i))
    && (!s.stopped ==> s.current == if s.told == [] then Snapshot(Unknown, None) else s.told[|s.told| - 1])
  }

  ghost predicate Inv(s: State) {
    && RetryOnlyWhenUnreachable(s)
    && NeverAbandoned(s)
    && TellsChanges(s)
    && Climbs(s.delays) && |s.delays| == s.attempt
    && (s.retry.Some? ==> s.delays != [] && s.retry.value == s.delays[|s.delays| - 1])
    && (s.current.phase == Connecting ==> s.checking)
    && (s.current.detail.Some? <==> s.current.phase == Unreachable)
  }

  lemma DelaysGrow(i: nat, j: nat)
    requires i <= j
    ensures 3000 <= DelayAt(i) <= DelayAt(j) <= 30000
  {
  }

  lemma ClimbingGrows(s: State)
    requires Inv(s)
    ensures BackoffGrows(s)
  {
    hide DelayAt, TellsChanges;
    forall i, j | 0 <= i <= j < |s.delays|
      ensures 3000 <= s.delays[i] <= s.delays[j] <= 30000
    {
      DelaysGrow(i, j);
    }
  }

  lemma SetKeepsTelling(s: State, next: Snapshot)
    requires TellsChanges(s)
    ensures TellsChanges(Set(s, next))
  {
    if next != s.current && !s.stopped {
      var told := s.told + [next];
      forall i | 0 < i < |told|
        ensures ChangesAt(told, i)
      {
        if i < |s.told| {
          assert ChangesAt(s.told, i);
        }
      }
    }
  }

  lemma ReachableKeepsInv(s: State)
    requires Inv(s)
    ensures Inv(MarkReachable(s)) && Inv(MarkReachable(s).(checking := false))
  {
    SetKeepsTelling(s, Snapshot(Connected, None));
    hide ChangesAt;
  }

  lemma UnreachableKeepsInv(s: State, detail: Detail)
    requires Inv(s)
    ensures Inv(MarkUnreachable(s, detail)) && Inv(MarkUnreachable(s, detail).(checking := false))
  {
    SetKeepsTelling(s, Snapshot(Unreachable, Some(detail)));
    hide DelayAt, ChangesAt;
  }

  lemma StepKeepsInv(s: State, e: Event)
    requires Inv(s) && Enabled(s, e)
    ensures Inv(Step(s, e))
  {
    hide ChangesAt, ScheduleRetry, DelayAt, MarkReachable, MarkUnreachable;
    match e
    case Check | RetryFires => SetKeepsTelling(s, Snapshot(Connecting, None));
    case ProbeAnswers(status) =>
      ReachableKeepsInv(s);
      UnreachableKeepsInv(s, Http(status));
    case ProbeFails | ReportNetworkError => UnreachableKeepsInv(s, Network);
    case ReportReachable => ReachableKeepsInv(s);
    case ReportUnauthorized => SetKeepsTelling(s, Snapshot(AuthExpired, None));
    case ClearAuthExpired => SetKeepsTelling(s, Snapshot(Unknown, None));
    case Stop =>
  }

  // An expired session is left only by signing in or out, and any other answer
  // that arrives outside it shows as connected with the backoff reset.
  lemma AuthExpiredIsSticky(s: State, e: Event)
    requires Inv(s) && Enabled(s, e)
    ensures s.current.phase == AuthExpired && Step(s, e).current.phase != AuthExpired ==> e.ClearAuthExpired?
    ensures (e.ReportReachable? || (e.ProbeAnswers? && 200 <= e.status < 300)) ==>
              Step(s, e).attempt == 0 && Step(s, e).retry == None
              && (Step(s, e).current.phase == Connected <==> s.current.phase != AuthExpired)
    ensures e.ReportUnauthorized? ==> Step(s, e).current == Snapshot(AuthExpired, None) && Step(s, e).retry == None
    ensures e.ClearAuthExpired? && s.current.phase == AuthExpired ==> Step(s, e).current == Snapshot(Unknown, None)
    ensures s.stopped ==> Step(s, e).stopped && Step(s, e).retry == None
  {
  }

  ghost predicate Run(s: State, es: seq<Event>)
    decreases |es|
  {
    es == [] || (Enabled(s, es[0]) && Run(Step(s, es[0]), es[1..]))
  }

  function Final(s: State, es: seq<Event>): State
    decreases |es|
  {
    if es == [] then s else Final(Step(s, es[0]), es[1..])
  }

  lemma {:induction false} EveryReachableState(s: State, es: seq<Event>)
    requires Inv(s) && Run(s, es)
    ensures Inv(Final(s, es)) && BackoffGrows(Final(s, es))
    decreases |es|
  {
    if es == [] {
      ClimbingGrows(s);
    } else {
      StepKeepsInv(s, es[0]);
      EveryReachableState(Step(s, es[0]), es[1..]);
    }
  }

  lemma RunsFromStart(es: seq<Event>)
    requires Run(START, es)
    ensures Inv(Final(START, es)) && BackoffGrows(Final(START, es))
  {
    EveryReachableState(START, es);
  }

  // --- listeners that call back ------------------------------------------------

  // What a listener can call while it is being told.
  predicate Synchronous(e: Event) {
    e.Check? || e.ReportReachable? || e.ReportNetworkError? || e.ReportUnauthorized? || e.ClearAuthExpired? || e.Stop?
  }

  ghost predicate Calls(calls: seq<Event>) {
    forall e :: e in calls ==> Synchronous(e)
  }

  // A listener told of `unreachable` that makes some calls before the retry is
  // scheduled.
  function MarkUnreachableCallingBack(s: State, detail: Detail, calls: seq<Event>): State {
    if s.current.phase == AuthExpired then s
    else
      var shown := Set(s, Snapshot(Unreachable, Some(detail)));
      ScheduleRetry(if shown == s then shown else Final(shown, calls))
  }

  // Where calls take the monitor: to `unreachable`, away from it, or to an
  // expired session.
  datatype Place = There | Away | Expired

  function PlaceOf(phase: Phase): Place {
    match phase
    case Unreachable => There
    case AuthExpired => Expired
    case _ => Away
  }

  function Moved(p: Place, e: Event): Place {
    match e
    case ReportReachable => if p.Expired? then p else Away
    case ReportNetworkError => if p.Expired? then p else There
    case ReportUnauthorized => Expired
    case ClearAuthExpired => if p.Expired? then Away else p
    case _ => p
  }

  function PlaceAfter(p: Place, calls: seq<Event>): Place
    decreases |calls|
  {
    if calls == [] then p else PlaceAfter(Moved(p, calls[0]), calls[1..])
  }

  lemma OneCallMoves(s: State, e: Event)
    requires Synchronous(e)
    ensures PlaceOf(Step(s, e).current.phase) == Moved(PlaceOf(s.current.phase), e)
    ensures Step(s, e).stopped <==> s.stopped || e == Stop
  {
    hide DelayAt;
  }

  lemma {:induction false} CallsMove(s: State, calls: seq<Event>)
    requires Calls(calls)
    ensures var t := Final(s, calls);
            PlaceOf(t.current.phase) == PlaceAfter(PlaceOf(s.current.phase), calls) && (t.stopped <==> s.stopped || Stop in calls)
    decreases |calls|
  {
    if calls != [] {
      hide Step, PlaceOf, Moved;
      assert calls[0] in calls;
      OneCallMoves(s, calls[0]);
      CallsMove(Step(s, calls[0]), calls[1..]);
    }
  }

  // The timer is then pending outside `unreachable` unless nothing was told, or the
  // calls stop the monitor or lead back there.
  lemma CallingBackBreaksTheTimer(s: State, detail: Detail, calls: seq<Event>)
    requires Inv(s) && Calls(calls) && !s.stopped
    ensures RetryOnlyWhenUnreachable(MarkUnreachableCallingBack(s, detail, calls))
            <==> || s.current.phase == AuthExpired || s.current == Snapshot(Unreachable, Some(detail))
                 || Stop in calls || PlaceAfter(There, calls) == There
  {
    CallsMove(Set(s, Snapshot(Unreachable, Some(detail))), calls);
  }

  // How many probes some calls start.
  function Probes(s: State, calls: seq<Event>): nat
    decreases |calls|
  {
    if calls == [] then 0
    else (if calls[0].Check? && !s.checking then 1 else 0) + Probes(Step(s, calls[0]), calls[1..])
  }

  // `check()` when the listener told of `connecting` makes some calls: the probe
  // starts after it has been told.
  function ProbesOfCheck(s: State, calls: seq<Event>): nat {
    if s.checking then 0
    else (if s.current.phase == Unknown && !s.stopped then Probes(Set(s, Snapshot(Connecting, None)), calls) else 0) + 1
  }

  lemma {:induction false} CallsProbeOnce(s: State, calls: seq<Event>)
    requires Calls(calls)
    ensures Probes(s, calls) == if !s.checking && Check in calls then 1 else 0
    decreases |calls|
  {
    if calls != [] {
      assert calls[0] in calls;
      CallsProbeOnce(Step(s, calls[0]), calls[1..]);
    }
  }

  // A second probe runs beside the first exactly when the listener told of the
  // first `connecting` checks in its turn.
  lemma SecondProbeExactly(s: State, calls: seq<Event>)
    requires Inv(s) && Calls(calls)
    ensures ProbesOfCheck(s, calls) > 1 <==> !s.checking && !s.stopped && s.current.phase == Unknown && Check in calls
    ensures ProbesOfCheck(s, calls) <= 2
  {
    CallsProbeOnce(Set(s, Snapshot(Connecting, None)), calls);
  }

  // --- what is shown, and when it is tried again -------------------------------------

  // Outside an expired session: a good answer shows as connected, any other status
  // and a failed probe as unreachable for that reason, a 401 as expired.
  lemma WhatShows(s: State, e: Event)
    requires Inv(s) && Enabled(s, e) && s.current.phase != AuthExpired
    ensures Step(s, e).current ==
            match e
            case ProbeAnswers(status) =>
              if 200 <= status <= 299 then Snapshot(Connected, None) else Snapshot(Unreachable, Some(Http(status)))
            case ProbeFails => Snapshot(Unreachable, Some(Network))
            case ReportNetworkError => Snapshot(Unreachable, Some(Network))
            case ReportReachable => Snapshot(Connected, None)
            case ReportUnauthorized => Snapshot(AuthExpired, None)
            case _ =>
              if (e.Check? || e.RetryFires?) && s.current.phase == Unknown && !s.checking then Snapshot(Connecting, None)
              else s.current
  {
  }

  // An expired session hides what the probes say, and nothing is retried in it.
  lemma ExpiredHides(s: State, e: Event)
    requires Inv(s) && Enabled(s, e) && s.current.phase == AuthExpired
    ensures Step(s, e).current == (if e.ClearAuthExpired? then Snapshot(Unknown, None) else s.current)
    ensures Step(s, e).retry == None
  {
  }

  // Probes run one at a time: a check or a fired retry starts one, its answer ends it.
  lemma ProbesAreStarted(s: State, e: Event)
    requires Enabled(s, e)
    ensures Step(s, e).checking <==>
              e.Check? || e.RetryFires? || (s.checking && !e.ProbeAnswers? && !e.ProbeFails?)
    ensures e.RetryFires? ==> Step(s, e).retry == None
    ensures Step(s, e).stopped <==> s.stopped || e.Stop?
  {
  }

  predicate Fails(e: Event) {
    e.ProbeFails? || e.ReportNetworkError? || (e.ProbeAnswers? && !(200 <= e.status <= 299))
  }

  // 3, 6, 12, 24 and then 30 seconds.
  function Seconds(failures: nat): nat {
    if failures == 0 then 3 else if failures == 1 then 6 else if failures == 2 then 12 else if failures == 3 then 24 else 30
  }

  // Each failure waits for its place on the ladder; an answer starts it again.
  lemma FailureWaits(s: State, e: Event)
    requires Inv(s) && Enabled(s, e) && s.current.phase != AuthExpired && !s.stopped
    ensures Fails(e) ==> Step(s, e).retry == Some(1000 * Seconds(s.attempt)) && Step(s, e).attempt == s.attempt + 1
    ensures e.ReportReachable? || (e.ProbeAnswers? && !Fails(e)) ==> Step(s, e).retry == None && Step(s, e).attempt == 0
    ensures !Fails(e) && !e.ReportReachable? && !e.ProbeAnswers? ==> Step(s, e).attempt == s.attempt
  {
  }

  // After k failures in a row since an answer the retry is Seconds(k - 1) away.
  lemma {:induction false} FailuresClimb(s: State, es: seq<Event>)
    requires Inv(s) && s.current.phase != AuthExpired && !s.stopped
    requires Run(s, es) && forall e :: e in es ==> Fails(e)
    ensures var t := Final(s, es);
            && t.attempt == s.attempt + |es| && t.current.phase != AuthExpired && !t.stopped
            && (es != [] ==> t.retry == Some(1000 * Seconds(t.attempt - 1)))
    decreases |es|
  {
    if es != [] {
      assert es[0] in es;
      StepKeepsInv(s, es[0]);
      FailureWaits(s, es[0]);
      WhatShows(s, es[0]);
      ProbesAreStarted(s, es[0]);
      hide Step, Inv, Enabled, Seconds;
      FailuresClimb(Step(s, es[0]), es[1..]);
    }
  }

  // --- the closure ---------------------------------------------------------------

  class Monitor {
    var current: Snapshot
    var cancelRetry: Option<nat>
    var attempt: nat
    var stopped: bool
    var checking: bool
    ghost var delays: seq<nat>
    ghost var told: seq<Snapshot>

    ghost function View(): State
      reads this
    {
      State(current, cancelRetry, attempt, stopped, checking, delays, told)
    }

    constructor ()
      ensures View() == START && Inv(View())
    {
      current, cancelRetry, attempt := Snapshot(Unknown, None), None, 0;
      stopped, checking, delays, told := false, false, [], [];
    }

    // Listeners are told of a change, and of changes only.
    method SetCurrent(next: Snapshot)
      requires TellsChanges(View())
      modifies this`current, this`told
      ensures View() == Set(old(View()), next)
      ensures current == next && TellsChanges(View())
      ensures told == old(told) || (old(current) != next && !stopped && told == old(told) + [next])
    {
      SetKeepsTelling(View(), next);
      if next.phase == current.phase && next.detail == current.detail {
        return;
      }
      current := next;
      if !stopped {
        told := told + [next];
      }
    }

    // The next retry waits at least as long as every one since the last answer,
    // between 3 and 30 seconds; a stopped monitor has none.
    method Schedule()
      requires Climbs(delays) && |delays| == attempt
      modifies this`cancelRetry, this`attempt, this`delays
      ensures View() == ScheduleRetry(old(View()))
      ensures Climbs(delays) && |delays| == attempt
      ensures cancelRetry.None? <==> stopped
      ensures cancelRetry.Some? ==> 3000 <= cancelRetry.value <= 30000
      ensures cancelRetry.Some? ==> forall i :: 0 <= i < |delays| ==> delays[i] <= cancelRetry.value
    {
      cancelRetry := None;
      if stopped {
        return;
      }
      forall i | 0 <= i <= attempt
        ensures 3000 <= DelayAt(i) <= DelayAt(attempt) <= 30000
      {
        DelaysGrow(i, attempt);
      }
      var delay := RETRY_DELAYS[if attempt < |RETRY_DELAYS| - 1 then attempt else |RETRY_DELAYS| - 1];
      attempt := attempt + 1;
      cancelRetry := Some(delay);
      delays := delays + [delay];
    }

    method Reachable()
      requires Inv(View())
      modifies this
      ensures View() == MarkReachable(old(View())) && Inv(View())
      ensures cancelRetry == None && current.phase != Unreachable
    {
      ReachableKeepsInv(View());
      attempt, cancelRetry, delays := 0, None, [];
      if current.phase != AuthExpired {
        SetCurrent(Snapshot(Connected, None));
      }
    }

    method NotReachable(detail: Detail)
      requires Inv(View())
      modifies this
      ensures View() == MarkUnreachable(old(View()), detail) && Inv(View())
      ensures !stopped && current.phase != AuthExpired ==> cancelRetry.Some?
    {
      UnreachableKeepsInv(View(), detail);
      if current.phase == AuthExpired {
        return;
      }
      SetCurrent(Snapshot(Unreachable, Some(detail)));
      Schedule();
    }

    // `check()` up to its await; also called by a retry that is no longer pending.
    method BeginCheck()
      requires TellsChanges(View())
      modifies this
      ensures View() == Step(old(View()), Check) && TellsChanges(View()) && checking
      ensures Inv(old(View())) ==> Inv(View())
    {
      if Inv(View()) {
        StepKeepsInv(View(), Check);
      }
      if checking {
        return;
      }
      if current.phase == Unknown {
        SetCurrent(Snapshot(Connecting, None));
      }
      checking := true;
    }

    // The probe has resolved with a status, or rejected.
    method EndCheck(status: Option<int>)
      requires Inv(View())
      modifies this
      ensures View() == Step(old(View()), if status.Some? then ProbeAnswers(status.value) else ProbeFails)
      ensures Inv(View()) && !checking && current.phase != Connecting
    {
      ReachableKeepsInv(View());
      if status.None? {
        UnreachableKeepsInv(View(), Network);
        NotReachable(Network);
      } else if 200 <= status.value < 300 {
        Reachable();
      } else {
        UnreachableKeepsInv(View(), Http(status.value));
        NotReachable(Http(status.value));
      }
      checking := false;
    }

    method OnRetry()
      requires Inv(View())
      modifies this
      ensures View() == Step(old(View()), RetryFires) && Inv(View())
      ensures checking && cancelRetry == None
    {
      StepKeepsInv(View(), if cancelRetry.Some? then RetryFires else Check);
      hide TellsChanges, Climbs, Inv;
      cancelRetry := None;
      BeginCheck();
    }

    method OnUnauthorized()
      requires Inv(View())
      modifies this
      ensures View() == Step(old(View()), ReportUnauthorized) && Inv(View())
      ensures current.phase == AuthExpired && cancelRetry == None
    {
      StepKeepsInv(View(), ReportUnauthorized);
      cancelRetry := None;
      SetCurrent(Snapshot(AuthExpired, None));
    }

    method OnSignIn()
      requires Inv(View())
      modifies this
      ensures View() == Step(old(View()), ClearAuthExpired) && Inv(View())
      ensures current.phase != AuthExpired
    {
      StepKeepsInv(View(), ClearAuthExpired);
      if current.phase == AuthExpired {
        SetCurrent(Snapshot(Unknown, None));
      }
    }

    method Halt()
      requires Inv(View())
      modifies this
      ensures View() == Step(old(View()), Stop) && Inv(View())
      ensures stopped && cancelRetry == None
    {
      StepKeepsInv(View(), Stop);
      stopped := true;
      cancelRetry := None;
    }
  }
}
