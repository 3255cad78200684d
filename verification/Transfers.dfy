// Multipart uploads: partRange, runBounded and the multipart branch of
// uploadTransfer (dashboard/src/transfersApi.ts).
module Transfers {
  import opened Basics

  const PART_CONCURRENCY: nat := 4

  function Min(a: int, b: int): int {
    if a < b then a else b
  }

  // --- parts ----------------------------------------------------------------------

  function PartRange(part: nat, size: nat, total: nat): (int, int) {
    var start := (part - 1) * size;
    (start, Min(start + size, total))
  }

  // bytes.subarray(start, end) clamps both ends to the payload.
  function Clamp(x: int, total: nat): nat {
    if x < 0 then 0 else Min(x, total)
  }

  function ChunkLength(part: nat, size: nat, total: nat): nat {
    var (start, end) := PartRange(part, size, total);
    if Clamp(start, total) < Clamp(end, total) then Clamp(end, total) - Clamp(start, total) else 0
  }

  function PartCount(size: nat, total: nat): nat
    requires size > 0
  {
    (total + size - 1) / size
  }

  lemma PartCountBounds(size: nat, total: nat)
    requires size > 0
    ensures total <= PartCount(size, total) * size
    ensures total > 0 ==> PartCount(size, total) > 0 && (PartCount(size, total) - 1) * size < total
  {
    var n, x := PartCount(size, total), total + size - 1;
    assert x == n * size + x % size;
    assert (n - 1) * size == n * size - size;
  }

  lemma Scale(a: nat, b: nat, size: nat)
    requires a <= b
    ensures a * size <= b * size
  {
  }

  lemma PartsAreFull(part: nat, size: nat, total: nat)
    requires size > 0 && 1 <= part
    ensures part <= PartCount(size, total) ==>
              var (start, end) := PartRange(part, size, total);
              0 <= start < end <= total && ChunkLength(part, size, total) == end - start
    ensures part > PartCount(size, total) ==> ChunkLength(part, size, total) == 0
  {
    var n := PartCount(size, total);
    PartCountBounds(size, total);
    if part <= n {
      Scale(part - 1, n - 1, size);
    } else {
      Scale(n, part - 1, size);
    }
  }

  // The ranges of the parts follow each other from the first byte to the last.
  lemma PartsTile(part: nat, size: nat, total: nat)
    requires size > 0 && 1 <= part <= PartCount(size, total)
    ensures part == 1 ==> PartRange(part, size, total).0 == 0
    ensures part < PartCount(size, total) ==>
              PartRange(part, size, total).1 == PartRange(part + 1, size, total).0
    ensures part == PartCount(size, total) ==> PartRange(part, size, total).1 == total
  {
    PartCountBounds(size, total);
    PartsAreFull(part, size, total);
    assert part * size == (part - 1) * size + size;
    if part < PartCount(size, total) {
      PartsAreFull(part + 1, size, total);
    }
  }

  // Each byte belongs to exactly one part.
  lemma ByteHasOnePart(b: nat, size: nat, total: nat, part: nat)
    requires size > 0 && b < total && 1 <= part
    ensures PartRange(part, size, total).0 <= b < PartRange(part, size, total).1 <==> part == b / size + 1
    ensures b / size + 1 <= PartCount(size, total)
  {
    var q, n := b / size, PartCount(size, total);
    assert b == q * size + b % size;
    assert (q + 1) * size == q * size + size;
    PartCountBounds(size, total);
    if n < q + 1 {
      Scale(n, q, size);
    }
    if part < q + 1 {
      Scale(part, q, size);
      assert part * size == (part - 1) * size + size;
    } else if part > q + 1 {
      Scale(q + 1, part - 1, size);
    }
  }

  // --- the job ----------------------------------------------------------------------

  // `numbers` in the order they are taken; a number without a URL under its
  // canonical key is passed over in silence.
  datatype Job = Job(numbers: seq<nat>, urls: set<nat>, size: nat, total: nat) {
    predicate Valid() {
      size > 0 && forall k :: 0 <= k < |numbers| ==> numbers[k] > 0
    }

    // What uploading one part adds to the count of bytes.
    function Weight(part: nat): nat {
      if part in urls then ChunkLength(part, size, total) else 0
    }
  }

  // A runner tests the cursor, has an item at work, has left its loop or has thrown.
  datatype Phase = Ready | Working(k: nat) | Done | Failed(k: nat)

  datatype State = State(cursor: nat, phases: seq<Phase>, completed: seq<nat>, parts: map<nat, string>, uploaded: nat)

  datatype Event =
    | Take(r: nat)
    | PassOver(r: nat)
    | Stored(r: nat, etag: Option<string>)
    | Refused(r: nat)

  function Start(job: Job): State {
    State(0, seq(Min(PART_CONCURRENCY, |job.numbers|), _ => Ready), [], map[], 0)
  }

  predicate Holds(s: State, r: int, k: nat) {
    0 <= r < |s.phases| && (s.phases[r] == Working(k) || s.phases[r] == Failed(k))
  }

  predicate Enabled(job: Job, s: State, e: Event) {
    && e.r < |s.phases|
    && match e
       case Take(r) => s.phases[r].Ready?
       case PassOver(r) =>
         s.phases[r].Working? && s.phases[r].k < |job.numbers| && job.numbers[s.phases[r].k] !in job.urls
       case _ => s.phases[e.r].Working? && s.phases[e.r].k < |job.numbers| && job.numbers[s.phases[e.r].k] in job.urls
  }

  function WithoutOpening(etag: string): string {
    if etag != "" && etag[0] == '"' then etag[1..] else etag
  }

  function WithoutClosing(etag: string): string {
    if etag != "" && etag[|etag| - 1] == '"' then etag[..|etag| - 1] else etag
  }

  // etag.replace(/^"|"$/g, "")
  function Unquoted(etag: string): string {
    WithoutClosing(WithoutOpening(etag))
  }

  function Finish(s: State, r: nat): State
    requires r < |s.phases| && s.phases[r].Working?
  {
    s.(phases := s.phases[r := Ready], completed := s.completed + [s.phases[r].k])
  }

  // An answer without ETag makes the worker throw, like a refused PUT.
  function Step(job: Job, s: State, e: Event): State
    requires Enabled(job, s, e)
  {
    match e
    case Take(r) =>
      if s.cursor < |job.numbers| then s.(phases := s.phases[r := Working(s.cursor)], cursor := s.cursor + 1)
      else s.(phases := s.phases[r := Done])
    case PassOver(r) => Finish(s, r)
    case Stored(r, etag) =>
      if etag.None? || etag.value == "" then s.(phases := s.phases[r := Failed(s.phases[r].k)])
      else
        var part := job.numbers[s.phases[r].k];
        Finish(s, r).(parts := s.parts[part := Unquoted(etag.value)], uploaded := s.uploaded + job.Weight(part))
    case Refused(r) => s.(phases := s.phases[r := Failed(s.phases[r].k)])
  }

  // --- what every interleaving keeps ---------------------------------------------------

  function Bytes(job: Job, completed: seq<nat>): nat
    requires forall i :: 0 <= i < |completed| ==> completed[i] < |job.numbers|
    decreases |completed|
  {
    if completed == [] then 0
    else Bytes(job, completed[..|completed| - 1]) + job.Weight(job.numbers[completed[|completed| - 1]])
  }

  // Every item taken is completed once or held by one runner, never both.
  ghost predicate TakenOnce(s: State) {
    && Distinct(s.completed)
    && (forall i :: 0 <= i < |s.completed| ==> s.completed[i] < s.cursor)
    && (forall r, k: nat :: Holds(s, r, k) ==> k < s.cursor && k !in s.completed)
    && (forall r, q, k: nat :: Holds(s, r, k) && Holds(s, q, k) ==> r == q)
    && (forall k :: 0 <= k < s.cursor ==> k in s.completed || exists r :: Holds(s, r, k))
  }

  ghost predicate PartDone(job: Job, completed: seq<nat>, p: nat)
    requires forall i :: 0 <= i < |completed| ==> completed[i] < |job.numbers|
  {
    exists i :: 0 <= i < |completed| && job.numbers[completed[i]] == p
  }

  ghost predicate Accounts(job: Job, s: State)
    requires forall i :: 0 <= i < |s.completed| ==> s.completed[i] < |job.numbers|
  {
    && s.uploaded == Bytes(job, s.completed)
    && (forall p: nat :: p in s.parts <==> p in job.urls && PartDone(job, s.completed, p))
  }

  ghost predicate Inv(job: Job, s: State) {
    && |s.phases| == Min(PART_CONCURRENCY, |job.numbers|)
    && s.cursor <= |job.numbers|
    && (forall r :: 0 <= r < |s.phases| && s.phases[r].Done? ==> s.cursor == |job.numbers|)
    && TakenOnce(s)
    && Accounts(job, s)
  }

  lemma StartInv(job: Job)
    ensures Inv(job, Start(job))
  {
  }

  lemma TakeKeepsOnce(s: State, r: nat)
    requires TakenOnce(s) && r < |s.phases| && s.phases[r].Ready?
    ensures TakenOnce(s.(phases := s.phases[r := Working(s.cursor)], cursor := s.cursor + 1))
    ensures TakenOnce(s.(phases := s.phases[r := Done]))
  {
    var t, u := s.(phases := s.phases[r := Working(s.cursor)], cursor := s.cursor + 1), s.(phases := s.phases[r := Done]);
    assert forall q, k: nat :: Holds(u, q, k) <==> Holds(s, q, k);
    assert forall q, k: nat :: Holds(t, q, k) <==> Holds(s, q, k) || (q == r && k == s.cursor);
    assert Holds(t, r, s.cursor);
    assert forall q, k: nat :: Holds(s, q, k) ==> Holds(t, q, k);
    hide Holds;
    assert forall i :: 0 <= i < |s.completed| ==> s.completed[i] in s.completed;
  }

  lemma FinishKeepsOnce(s: State, r: nat)
    requires TakenOnce(s) && r < |s.phases| && s.phases[r].Working?
    ensures TakenOnce(Finish(s, r))
    ensures TakenOnce(s.(phases := s.phases[r := Failed(s.phases[r].k)]))
  {
    var done, t, u := s.phases[r].k, Finish(s, r), s.(phases := s.phases[r := Failed(s.phases[r].k)]);
    assert Holds(s, r, done);
    assert forall q, k: nat :: Holds(u, q, k) <==> Holds(s, q, k);
    assert forall q, k: nat :: Holds(t, q, k) <==> Holds(s, q, k) && q != r;
    assert forall k: nat :: Holds(s, r, k) ==> k == done;
    assert t.completed == s.completed + [done] && t.cursor == s.cursor;
    hide Holds, Finish;
    assert forall k :: k in t.completed <==> k in s.completed || k == done;
  }

  lemma FinishCounts(job: Job, s: State, done: nat)
    requires forall i :: 0 <= i < |s.completed| ==> s.completed[i] < |job.numbers|
    requires done < |job.numbers| && Accounts(job, s)
    ensures Bytes(job, s.completed + [done]) == s.uploaded + job.Weight(job.numbers[done])
    ensures forall p: nat :: PartDone(job, s.completed + [done], p) <==> p == job.numbers[done] || PartDone(job, s.completed, p)
  {
    var more := s.completed + [done];
    assert more[..|more| - 1] == s.completed;
    assert forall i :: 0 <= i < |s.completed| ==> more[i] == s.completed[i];
    assert more[|s.completed|] == done;
    forall p: nat | PartDone(job, s.completed, p)
      ensures PartDone(job, more, p)
    {
      var i :| 0 <= i < |s.completed| && job.numbers[s.completed[i]] == p;
      assert job.numbers[more[i]] == p;
    }
  }

  lemma StepTakesOnce(job: Job, s: State, e: Event)
    requires TakenOnce(s) && Enabled(job, s, e)
    ensures TakenOnce(Step(job, s, e))
  {
    if e.Take? {
      TakeKeepsOnce(s, e.r);
    } else {
      FinishKeepsOnce(s, e.r);
      if e.Stored? && Step(job, s, e).completed == Finish(s, e.r).completed {
        SameTaken(Finish(s, e.r), Step(job, s, e));
      }
    }
    hide TakenOnce, Unquoted;
  }

  lemma SameTaken(s: State, t: State)
    requires TakenOnce(s) && t.phases == s.phases && t.cursor == s.cursor && t.completed == s.completed
    ensures TakenOnce(t)
  {
    assert forall r, k: nat :: Holds(t, r, k) <==> Holds(s, r, k);
    assert forall r, k: nat :: Holds(s, r, k) ==> Holds(t, r, k);
    hide Holds;
  }

  lemma StepAccounts(job: Job, s: State, e: Event)
    requires forall i :: 0 <= i < |s.completed| ==> s.completed[i] < |job.numbers|
    requires Accounts(job, s) && Enabled(job, s, e)
    ensures forall i :: 0 <= i < |Step(job, s, e).completed| ==> Step(job, s, e).completed[i] < |job.numbers|
    ensures Accounts(job, Step(job, s, e))
  {
    hide Bytes, PartDone, Unquoted, ChunkLength;
    if !e.Take? {
      FinishCounts(job, s, s.phases[e.r].k);
    }
  }

  // One step of any runner, whatever the others are at.
  lemma StepKeepsInv(job: Job, s: State, e: Event)
    requires Inv(job, s) && Enabled(job, s, e)
    ensures Inv(job, Step(job, s, e))
  {
    StepTakesOnce(job, s, e);
    StepAccounts(job, s, e);
    hide TakenOnce, Accounts, Min, Unquoted;
  }

  ghost predicate Run(job: Job, s: State, es: seq<Event>)
    decreases |es|
  {
    es == [] || (Enabled(job, s, es[0]) && Run(job, Step(job, s, es[0]), es[1..]))
  }

  function Final(job: Job, s: State, es: seq<Event>): State
    requires Run(job, s, es)
    decreases |es|
  {
    if es == [] then s else Final(job, Step(job, s, es[0]), es[1..])
  }

  lemma {:induction false} RunKeepsInv(job: Job, s: State, es: seq<Event>)
    requires Inv(job, s) && Run(job, s, es)
    ensures Inv(job, Final(job, s, es))
    decreases |es|
  {
    if es != [] {
      hide Inv, Step, Enabled;
      StepKeepsInv(job, s, es[0]);
      RunKeepsInv(job, Step(job, s, es[0]), es[1..]);
    }
  }

  // --- when completion is requested ------------------------------------------------------

  // Promise.all resolves when every runner has left its loop; one failure rejects
  // it for good, while the other runners go on.
  predicate AllDone(s: State) {
    forall r :: 0 <= r < |s.phases| ==> s.phases[r].Done?
  }

  lemma FailureIsFinal(job: Job, s: State, e: Event, r: nat)
    requires Enabled(job, s, e) && r < |s.phases| && s.phases[r].Failed?
    ensures Step(job, s, e).phases[r] == s.phases[r] && !AllDone(Step(job, s, e))
  {
    hide Unquoted, Job.Weight;
    assert Step(job, s, e).phases[r] == s.phases[r];
  }

  function InFlight(phases: seq<Phase>): nat
    decreases |phases|
  {
    if phases == [] then 0
    else InFlight(phases[..|phases| - 1]) + if phases[|phases| - 1].Working? then 1 else 0
  }

  lemma {:induction false} InFlightIsBounded(phases: seq<Phase>)
    ensures InFlight(phases) <= |phases|
    decreases |phases|
  {
    if phases != [] {
      InFlightIsBounded(phases[..|phases| - 1]);
    }
  }

  lemma {:induction false} BytesOfAll(job: Job, completed: seq<nat>)
    requires Distinct(completed) && forall i :: 0 <= i < |completed| ==> completed[i] < |job.numbers|
    requires forall k: nat :: k < |job.numbers| ==> k in completed
    ensures |completed| == |job.numbers|
    ensures Bytes(job, completed) == BytesUpTo(job, |job.numbers|)
  {
    BytesOfFirst(job, completed, |job.numbers|);
  }

  // What the first `n` items weigh.
  function BytesUpTo(job: Job, n: nat): nat
    requires n <= |job.numbers|
  {
    if n == 0 then 0 else BytesUpTo(job, n - 1) + job.Weight(job.numbers[n - 1])
  }

  lemma NothingBelow(s: seq<nat>, n: nat)
    requires s == [] && forall k: nat :: k < n ==> k in s
    ensures n == 0
  {
    var k: nat := 0;
    assert k < n ==> k in s;
  }

  lemma {:induction false} BytesOfFirst(job: Job, completed: seq<nat>, n: nat)
    requires n <= |job.numbers| && Distinct(completed)
    requires forall i :: 0 <= i < |completed| ==> completed[i] < n
    requires forall k: nat :: k < n ==> k in completed
    ensures |completed| == n && Bytes(job, completed) == BytesUpTo(job, n)
    decreases n
  {
    if completed == [] {
      NothingBelow(completed, n);
    } else {
      assert completed[0] < n;
      var last: nat := n - 1;
      assert last in completed;
      var i :| 0 <= i < |completed| && completed[i] == last;
      BytesWithout(job, completed, i);
      WithoutLosesOne(completed, i);
      var rest := Without(completed, i);
      hide Without, Distinct, Job.Weight;
      forall j | 0 <= j < |rest|
        ensures rest[j] < last
      {
        assert rest[j] in rest;
      }
      BytesOfFirst(job, rest, last);
    }
  }

  lemma {:induction false} BytesWithout(job: Job, completed: seq<nat>, i: nat)
    requires i < |completed| && forall j :: 0 <= j < |completed| ==> completed[j] < |job.numbers|
    ensures var rest := Without(completed, i);
            && |rest| == |completed| - 1
            && (forall j :: 0 <= j < |rest| ==> rest[j] < |job.numbers|)
            && Bytes(job, completed) == Bytes(job, rest) + job.Weight(job.numbers[completed[i]])
    decreases |completed|
  {
    var rest := Without(completed, i);
    var n := |completed| - 1;
    if i == n {
      assert rest == completed[..n];
    } else {
      BytesWithout(job, completed[..n], i);
      assert rest[..|rest| - 1] == Without(completed[..n], i);
      assert rest[|rest| - 1] == completed[n];
    }
  }

  // Completion is requested only when every item was run exactly once, every
  // part with a URL has its ETag, and the bytes of all of them are counted.
  lemma CompletionMeansAll(job: Job, s: State)
    requires Inv(job, s) && AllDone(s)
    ensures Distinct(s.completed) && forall k: nat :: k in s.completed <==> k < |job.numbers|
    ensures forall p: nat :: p in s.parts <==> p in job.urls && p in job.numbers
    ensures s.uploaded == BytesUpTo(job, |job.numbers|)
  {
    assert s.cursor == |job.numbers| by {
      if s.phases != [] {
        assert s.phases[0].Done?;
      }
    }
    assert forall r, k: nat :: !Holds(s, r, k);
    assert forall i :: 0 <= i < |s.completed| ==> s.completed[i] < |job.numbers|;
    BytesOfAll(job, s.completed);
    forall p: nat
      ensures PartDone(job, s.completed, p) <==> p in job.numbers
    {
      if k: nat :| k < |job.numbers| && job.numbers[k] == p {
        assert k in s.completed;
        var i :| 0 <= i < |s.completed| && s.completed[i] == k;
        assert job.numbers[s.completed[i]] == p;
      }
    }
  }

  // Under every interleaving at most four parts are in flight, and a run whose
  // runners have all left their loops has run each item exactly once.
  lemma EveryRun(job: Job, es: seq<Event>)
    requires Run(job, Start(job), es)
    ensures var s := Final(job, Start(job), es);
            && Inv(job, s) && InFlight(s.phases) <= 4
            && (AllDone(s) ==> Distinct(s.completed) && forall k: nat :: k in s.completed <==> k < |job.numbers|)
  {
    StartInv(job);
    RunKeepsInv(job, Start(job), es);
    var s := Final(job, Start(job), es);
    InFlightIsBounded(s.phases);
    if AllDone(s) {
      CompletionMeansAll(job, s);
    }
  }

  // --- the bytes of a completed upload -----------------------------------------------------

  // What the parts 1 to `m` add, counting those among `numbers`.
  function Covered(job: Job, numbers: seq<nat>, m: nat): nat {
    if m == 0 then 0 else Covered(job, numbers, m - 1) + if m in numbers then job.Weight(m) else 0
  }

  lemma {:induction false} CoveredAppend(job: Job, numbers: seq<nat>, q: nat, m: nat)
    requires q > 0 && q !in numbers
    ensures Covered(job, numbers + [q], m) == Covered(job, numbers, m) + if q <= m then job.Weight(q) else 0
  {
    if m > 0 {
      hide Job.Weight;
      CoveredAppend(job, numbers, q, m - 1);
      assert m in numbers + [q] <==> m in numbers || m == q;
    }
  }

  lemma {:induction false} BytesAreCovered(job: Job, k: nat)
    requires job.Valid() && Distinct(job.numbers) && k <= |job.numbers|
    ensures BytesUpTo(job, k) == Covered(job, job.numbers[..k], PartCount(job.size, job.total))
  {
    var n := PartCount(job.size, job.total);
    if k == 0 {
      CoveredByNone(job, n);
      assert job.numbers[..0] == [];
    } else {
      var q := job.numbers[k - 1];
      BytesAreCovered(job, k - 1);
      assert job.numbers[..k] == job.numbers[..k - 1] + [q];
      PartsAreFull(q, job.size, job.total);
      CoveredAppend(job, job.numbers[..k - 1], q, n);
    }
  }

  lemma {:induction false} CoveredByNone(job: Job, m: nat)
    ensures Covered(job, [], m) == 0
  {
    if m > 0 {
      CoveredByNone(job, m - 1);
    }
  }

  ghost predicate Sent(job: Job, part: nat) {
    part in job.numbers && part in job.urls
  }

  // Parts up to `m` cover the payload up to where part `m` ends, unless one is missing.
  lemma {:induction false} CoveredExactly(job: Job, m: nat)
    requires job.Valid() && m <= PartCount(job.size, job.total)
    ensures var end := if m == 0 then 0 else PartRange(m, job.size, job.total).1;
            && Covered(job, job.numbers, m) <= end
            && (Covered(job, job.numbers, m) == end <==> forall p: nat :: 1 <= p <= m ==> Sent(job, p))
  {
    if m > 0 {
      CoveredExactly(job, m - 1);
      PartsAreFull(m, job.size, job.total);
      PartsTile(m, job.size, job.total);
      if m > 1 {
        PartsTile(m - 1, job.size, job.total);
      }
      hide PartCount, PartRange, ChunkLength;
      assert (forall p: nat :: 1 <= p <= m ==> Sent(job, p)) <==> (forall p: nat :: 1 <= p <= m - 1 ==> Sent(job, p)) && Sent(job, m);
    }
  }

  // With distinct part numbers the bytes counted at completion are those of the
  // file exactly when every part 1..ceil(total/size) was given with its URL.
  lemma UploadedMatchesExactly(job: Job, s: State)
    requires job.Valid() && Distinct(job.numbers) && Inv(job, s) && AllDone(s)
    ensures s.uploaded == job.total <==> forall p: nat :: 1 <= p <= PartCount(job.size, job.total) ==> Sent(job, p)
  {
    var n := PartCount(job.size, job.total);
    CompletionMeansAll(job, s);
    BytesAreCovered(job, |job.numbers|);
    assert job.numbers[..|job.numbers|] == job.numbers;
    CoveredExactly(job, n);
    if n > 0 {
      PartsTile(n, job.size, job.total);
    } else {
      PartCountBounds(job.size, job.total);
    }
  }

  // Without its one part an upload of a byte is complete from the start.
  lemma MissingPartIsNotNoticed()
    ensures var job := Job([], {}, 1, 1);
            && job.Valid() && Inv(job, Start(job)) && AllDone(Start(job))
            && Start(job).uploaded == 0 < job.total && !Sent(job, 1) && PartCount(job.size, job.total) == 1
  {
    var job := Job([], {}, 1, 1);
    StartInv(job);
    PartCountBounds(1, 1);
  }

  lemma FreshItem(job: Job, s: State)
    requires Inv(job, s)
    ensures s.cursor !in s.completed && forall q :: !Holds(s, q, s.cursor)
  {
    assert forall i :: 0 <= i < |s.completed| ==> s.completed[i] < s.cursor;
    hide Accounts;
  }

  lemma OneQuote(tag: string)
    requires '"' !in tag
    ensures WithoutOpening("\"" + tag) == tag && WithoutClosing(tag + "\"") == tag
    ensures WithoutOpening(tag) == tag && WithoutClosing(tag) == tag
  {
    assert ("\"" + tag)[1..] == tag && (tag + "\"")[..|tag|] == tag;
    assert tag != "" ==> tag[0] in tag && tag[|tag| - 1] in tag;
  }

  lemma OpeningFirst(tag: string)
    requires '"' !in tag
    ensures WithoutOpening("\"" + tag + "\"") == tag + "\"" && WithoutClosing(WithoutOpening(tag + "\"")) == tag
  {
    assert "\"" + tag + "\"" == "\"" + (tag + "\"");
    assert ("\"" + (tag + "\""))[1..] == tag + "\"";
    if tag == "" {
      assert tag + "\"" == "\"" && "\""[1..] == "";
    } else {
      assert (tag + "\"")[0] == tag[0] && tag[0] in tag;
      OneQuote(tag);
    }
  }

  // The runners at work.
  lemma {:induction false} InFlightCounts(phases: seq<Phase>)
    ensures InFlight(phases) == |set r | 0 <= r < |phases| && phases[r].Working?|
    decreases |phases|
  {
    var working := set r | 0 <= r < |phases| && phases[r].Working?;
    if phases != [] {
      var n := |phases| - 1;
      InFlightCounts(phases[..n]);
      var before := set r | 0 <= r < n && phases[..n][r].Working?;
      assert working == before + if phases[n].Working? then {n} else {};
    }
  }

  // A run goes on where it ended.
  lemma {:induction false} RunGoesOn(job: Job, s: State, es: seq<Event>, e: Event)
    requires Run(job, s, es) && Enabled(job, Final(job, s, es), e)
    ensures Run(job, s, es + [e]) && Final(job, s, es + [e]) == Step(job, Final(job, s, es), e)
    decreases |es|
  {
    var all := es + [e];
    if es == [] {
      assert all[0] == e && all[1..] == [];
    } else {
      assert all[0] == es[0] && all[1..] == es[1..] + [e];
      RunGoesOn(job, Step(job, s, es[0]), es[1..], e);
    }
  }

  // A pair of quotes around the tag goes, and nothing else.
  lemma UnquotedExactly(tag: string)
    requires '"' !in tag
    ensures Unquoted(tag) == tag && Unquoted("\"" + tag + "\"") == tag
    ensures Unquoted("\"" + tag) == tag && Unquoted(tag + "\"") == tag
  {
    OneQuote(tag);
    OpeningFirst(tag);
    hide WithoutOpening, WithoutClosing;
  }

  // What is sent at completion: each stored answer puts its tag, unquoted, under
  // the number of its part, and the other parts keep theirs.
  lemma TagsAreKept(job: Job, s: State, e: Event, p: nat)
    requires Enabled(job, s, e)
    ensures var t := Step(job, s, e);
            if e.Stored? && e.etag.Some? && e.etag.value != "" && job.numbers[s.phases[e.r].k] == p then
              p in t.parts && t.parts[p] == Unquoted(e.etag.value)
            else
              (p in t.parts <==> p in s.parts) && (p in s.parts ==> t.parts[p] == s.parts[p])
  {
    hide Unquoted, Job.Weight;
  }

  // --- the closure ----------------------------------------------------------------------------

  class Upload {
    const job: Job
    var cursor: nat
    var phases: seq<Phase>
    var parts: map<nat, string>
    var uploaded: nat
    ghost var completed: seq<nat>

    ghost function View(): State
      reads this
    {
      State(cursor, phases, completed, parts, uploaded)
    }

    constructor (job: Job)
      ensures this.job == job && View() == Start(job) && Inv(job, View())
    {
      StartInv(job);
      this.job := job;
      cursor, phases, parts, uploaded, completed := 0, seq(Min(PART_CONCURRENCY, |job.numbers|), _ => Ready), map[], 0, [];
    }

    // One turn of a runner's loop, up to its await. The item taken was neither run
    // nor at work before, and at most four are in flight.
    method NextItem(r: nat) returns (part: Option<nat>)
      requires Enabled(job, View(), Take(r)) && Inv(job, View())
      modifies this
      ensures View() == Step(job, old(View()), Take(r)) && Inv(job, View())
      ensures part == if old(cursor) < |job.numbers| then Some(job.numbers[old(cursor)]) else None
      ensures part.Some? ==> old(cursor) !in completed && forall q :: !Holds(old(View()), q, old(cursor))
      ensures InFlight(phases) <= 4
    {
      StepKeepsInv(job, View(), Take(r));
      FreshItem(job, View());
      InFlightIsBounded(Step(job, View(), Take(r)).phases);
      hide TakenOnce, Accounts, InFlight;
      if cursor < |job.numbers| {
        part := Some(job.numbers[cursor]);
        phases := phases[r := Working(cursor)];
        cursor := cursor + 1;
      } else {
        part := None;
        phases := phases[r := Done];
      }
    }

    // The worker has no URL for its part: it counts as run and adds nothing.
    method SkipPart(r: nat)
      requires Enabled(job, View(), PassOver(r)) && Inv(job, View())
      modifies this
      ensures View() == Step(job, old(View()), PassOver(r)) && Inv(job, View())
      ensures parts == old(parts) && uploaded == old(uploaded)
    {
      StepKeepsInv(job, View(), PassOver(r));
      hide Inv;
      completed := completed + [phases[r].k];
      phases := phases[r := Ready];
    }

    // The PUT of a part was answered.
    method PartStored(r: nat, etag: Option<string>) returns (thrown: bool)
      requires Enabled(job, View(), Stored(r, etag)) && Inv(job, View())
      modifies this
      ensures View() == Step(job, old(View()), Stored(r, etag)) && Inv(job, View())
      ensures thrown <==> etag.None? || etag.value == ""
      ensures thrown ==> parts == old(parts) && !AllDone(View())
      ensures !thrown ==> job.numbers[old(phases[r].k)] in parts
    {
      StepKeepsInv(job, View(), Stored(r, etag));
      hide Inv;
      var k := phases[r].k;
      if etag.None? || etag.value == "" {
        phases := phases[r := Failed(k)];
        assert !phases[r].Done?;
        return true;
      }
      var part := job.numbers[k];
      parts := parts[part := Unquoted(etag.value)];
      uploaded := uploaded + ChunkLength(part, job.size, job.total);
      completed := completed + [k];
      phases := phases[r := Ready];
      return false;
    }
  }
}
