// Reply threads over the coordination journal (dashboard/src/coordination.ts).
module Coordination {
  import opened Basics

  // The fields threading looks at. An item is the object at its index: two
  // items may carry the same event id.
  datatype Item = Item(eventId: string, inReplyTo: Option<string>)

  // new Map(items.map((item) => [item.eventId, item])): a later item replaces
  // an earlier one.
  function IndexById(items: seq<Item>): (m: map<string, nat>)
    ensures forall id :: id in m ==> m[id] < |items| && items[m[id]].eventId == id
    ensures forall id, i :: 0 <= i < |items| && items[i].eventId == id ==> id in m && i <= m[id]
    decreases |items|
  {
    if items == [] then map[]
    else IndexById(items[..|items| - 1])[items[|items| - 1].eventId := |items| - 1]
  }

  // The item a reply points at, when it is known.
  function Parent(items: seq<Item>, i: nat): (p: Option<nat>)
    requires i < |items|
    ensures p.Some? ==> p.value < |items|
  {
    var to := items[i].inReplyTo;
    if to.Some? && to.value in IndexById(items) then Some(IndexById(items)[to.value]) else None
  }

  ghost predicate Within(items: seq<Item>, s: seq<nat>) {
    forall k :: 0 <= k < |s| ==> s[k] < |items|
  }

  function EventIds(items: seq<Item>, trail: seq<nat>): set<string>
    requires Within(items, trail)
  {
    set x | x in trail :: items[x].eventId
  }

  lemma {:induction false} DistinctBound(s: seq<nat>, n: nat)
    requires Distinct(s) && forall x :: x in s ==> x < n
    ensures |s| <= n
    decreases n
  {
    if s != [] {
      assert s[0] in s;
      var i :| 0 <= i < |s| && (n - 1 in s ==> s[i] == n - 1);
      WithoutLosesOne(s, i);
      DistinctBound(Without(s, i), n - 1);
    }
  }

  // Where the walk up from `i` ends after the items of `trail`: at an item
  // without known parent, or at the first event id met twice.
  function Walk(items: seq<Item>, trail: seq<nat>, i: nat): (r: nat)
    requires i < |items| && Distinct(trail) && Within(items, trail)
    ensures r < |items|
    decreases |items| - |trail|
  {
    DistinctBound(trail, |items|);
    var parent := Parent(items, i);
    if parent.None? || items[i].eventId in EventIds(items, trail) then i
    else
      DistinctBound(trail + [i], |items|);
      Walk(items, trail + [i], parent.value)
  }

  function Root(items: seq<Item>, i: nat): (r: nat)
    requires i < |items|
    ensures r < |items|
  {
    Walk(items, [], i)
  }

  // rootOf
  method RootOf(items: seq<Item>, byId: map<string, nat>, item: nat) returns (current: nat)
    requires item < |items| && byId == IndexById(items)
    ensures current == Root(items, item)
  {
    current := item;
    var seen: set<string> := {};
    ghost var trail: seq<nat> := [];
    while items[current].inReplyTo.Some? && items[current].inReplyTo.value in byId && items[current].eventId !in seen
      invariant current < |items| && Distinct(trail) && Within(items, trail)
      invariant seen == EventIds(items, trail)
      invariant Walk(items, trail, current) == Root(items, item)
      decreases |items| - |trail|
    {
      assert current !in trail;
      DistinctBound(trail + [current], |items|);
      trail := trail + [current];
      seen := seen + {items[current].eventId};
      current := byId[items[current].inReplyTo.value];
    }
    DistinctBound(trail, |items|);
  }

  // --- what a root is ------------------------------------------------------------

  ghost predicate Links(items: seq<Item>, s: seq<nat>, k: int)
    requires 0 < k < |s| && Within(items, s)
  {
    Parent(items, s[k - 1]) == Some(s[k])
  }

  // A way up the replies: each item points at the next one, the last one at `to`.
  ghost predicate Chain(items: seq<Item>, s: seq<nat>, to: nat) {
    && Within(items, s) && Distinct(s)
    && (forall k :: 0 < k < |s| ==> Links(items, s, k))
    && (s != [] ==> Parent(items, s[|s| - 1]) == Some(to))
  }

  // `s` leads from its first item back to it.
  ghost predicate Loop(items: seq<Item>, s: seq<nat>) {
    s != [] && Chain(items, s, s[0])
  }

  ghost predicate DistinctIds(items: seq<Item>) {
    forall i, j :: 0 <= i < j < |items| ==> items[i].eventId != items[j].eventId
  }

  lemma ChainCloses(items: seq<Item>, trail: seq<nat>, k: nat)
    requires k < |trail| && Chain(items, trail, trail[k])
    ensures Loop(items, trail[k..])
  {
    var s := trail[k..];
    forall j | 0 < j < |s|
      ensures Links(items, s, j)
    {
      assert Links(items, trail, k + j);
    }
  }

  lemma ChainGrows(items: seq<Item>, trail: seq<nat>, i: nat)
    requires Chain(items, trail, i) && i < |items| && i !in trail && Parent(items, i).Some?
    ensures Chain(items, trail + [i], Parent(items, i).value)
  {
    var longer := trail + [i];
    forall k | 0 < k < |longer|
      ensures Links(items, longer, k)
    {
      assert k < |trail| ==> Links(items, trail, k);
    }
  }

  lemma {:induction false} WalkEnds(items: seq<Item>, trail: seq<nat>, i: nat)
    requires DistinctIds(items) && i < |items| && Chain(items, trail, i)
    ensures var r := Walk(items, trail, i);
            Parent(items, r).None? || exists s :: Loop(items, s) && s[0] == r
    decreases |items| - |trail|
  {
    DistinctBound(trail, |items|);
    if Parent(items, i).Some? {
      if items[i].eventId in EventIds(items, trail) {
        var k :| 0 <= k < |trail| && items[trail[k]].eventId == items[i].eventId;
        assert trail[k] == i;
        ChainCloses(items, trail, k);
        assert trail[k..][0] == i;
      } else {
        ChainGrows(items, trail, i);
        DistinctBound(trail + [i], |items|);
        WalkEnds(items, trail + [i], Parent(items, i).value);
      }
    }
  }

  lemma LoopPrefix(items: seq<Item>, s: seq<nat>, k: nat)
    requires DistinctIds(items) && Loop(items, s) && k < |s|
    ensures Within(items, s[..k]) && Distinct(s[..k])
    ensures items[s[k]].eventId !in EventIds(items, s[..k])
    ensures s[..k] + [s[k]] == s[..k + 1]
    ensures Parent(items, s[k]) == Some(if k + 1 < |s| then s[k + 1] else s[0])
  {
    hide Parent;
    LoopLinks(items, s, k);
    FreshId(items, s, k);
  }

  lemma LoopLinks(items: seq<Item>, s: seq<nat>, k: nat)
    requires Loop(items, s) && k < |s|
    ensures Within(items, s) && Parent(items, s[k]) == Some(if k + 1 < |s| then s[k + 1] else s[0])
  {
    hide Parent, Distinct;
    assert k + 1 < |s| ==> Links(items, s, k + 1);
  }

  lemma FreshId(items: seq<Item>, s: seq<nat>, k: nat)
    requires DistinctIds(items) && Within(items, s) && Distinct(s) && k < |s|
    ensures Within(items, s[..k]) && items[s[k]].eventId !in EventIds(items, s[..k])
  {
    assert forall j :: 0 <= j < k ==> s[j] != s[k];
  }

  // Walking round a loop comes back to where it started.
  lemma {:induction false} WalkRound(items: seq<Item>, s: seq<nat>, k: nat)
    requires DistinctIds(items) && Loop(items, s) && k < |s|
    ensures Within(items, s[..k]) && Distinct(s[..k]) && Walk(items, s[..k], s[k]) == s[0]
    decreases |s| - k
  {
    LoopPrefix(items, s, k);
    hide Parent, DistinctIds, Chain, Distinct;
    DistinctBound(s[..k], |items|);
    if k + 1 < |s| {
      LoopPrefix(items, s, k + 1);
      DistinctBound(s[..k + 1], |items|);
      WalkRound(items, s, k + 1);
    } else {
      LoopIsDistinct(items, s);
      DistinctBound(s, |items|);
      assert s[..k + 1] == s;
      assert items[s[0]].eventId in EventIds(items, s);
    }
  }

  lemma LoopIsDistinct(items: seq<Item>, s: seq<nat>)
    requires Loop(items, s)
    ensures Within(items, s) && Distinct(s)
  {
  }

  // Threads are well founded even on cyclic replies: the root of a root is itself.
  lemma RootIsIdempotent(items: seq<Item>, i: nat)
    requires DistinctIds(items) && i < |items|
    ensures Root(items, Root(items, i)) == Root(items, i)
  {
    var r := Root(items, i);
    WalkEnds(items, [], i);
    if Parent(items, r).Some? {
      var s :| Loop(items, s) && s[0] == r;
      assert s[..0] == [];
      WalkRound(items, s, 0);
    }
  }

  // --- threads ---------------------------------------------------------------------

  datatype Thread = Thread(root: nat, replies: seq<nat>)

  function RootId(items: seq<Item>, i: nat): string
    requires i < |items|
  {
    items[Root(items, i)].eventId
  }

  // The item that opens the thread of an event id: the root of the first item under it.
  ghost predicate Opens(items: seq<Item>, n: nat, id: string, root: nat)
    requires n <= |items|
  {
    exists i :: 0 <= i < n && RootId(items, i) == id && root == Root(items, i)
                && forall j :: 0 <= j < i ==> RootId(items, j) != id
  }

  ghost predicate Increasing(s: seq<nat>) {
    forall i, j :: 0 <= i < j < |s| ==> s[i] < s[j]
  }

  ghost predicate IsReply(items: seq<Item>, n: nat, id: string, i: nat)
    requires n <= |items|
  {
    i < n && RootId(items, i) == id && Root(items, i) != i
  }

  // The thread of an id after the first `n` items: each item under the id that
  // is not its own root is a reply, in order.
  ghost predicate IsThread(items: seq<Item>, n: nat, id: string, t: Thread)
    requires n <= |items|
  {
    Opens(items, n, id, t.root) && Increasing(t.replies) && forall i: nat :: i in t.replies <==> IsReply(items, n, id, i)
  }

  ghost predicate Threads(items: seq<Item>, n: nat, threads: map<string, Thread>)
    requires n <= |items|
  {
    && (forall id :: id in threads <==> exists i :: 0 <= i < n && RootId(items, i) == id)
    && (forall id :: id in threads ==> IsThread(items, n, id, threads[id]))
  }

  // What the next item does to the thread of its root's id.
  function Joined(items: seq<Item>, n: nat, was: Option<Thread>): Thread
    requires n < |items|
  {
    var root := Root(items, n);
    var thread := was.GetOr(Thread(root, []));
    if n != root then thread.(replies := thread.replies + [n]) else thread
  }

  lemma OtherThreadStays(items: seq<Item>, n: nat, id: string, t: Thread)
    requires n < |items| && id != RootId(items, n) && IsThread(items, n, id, t)
    ensures IsThread(items, n + 1, id, t)
  {
    OpensStays(items, n, id, t.root);
    hide Root, RootId, Opens;
  }

  lemma ThreadGrows(items: seq<Item>, n: nat, t: Thread)
    requires n < |items| && IsThread(items, n, RootId(items, n), t)
    ensures IsThread(items, n + 1, RootId(items, n), Joined(items, n, Some(t)))
  {
    var id := RootId(items, n);
    OpensStays(items, n, id, t.root);
    hide RootId, Root, Opens;
    assert forall k :: 0 <= k < |t.replies| ==> t.replies[k] in t.replies && IsReply(items, n, id, t.replies[k]);
    IncreasingAppend(t.replies, n);
    hide Increasing;
  }

  lemma IncreasingAppend(s: seq<nat>, n: nat)
    requires Increasing(s) && forall k :: 0 <= k < |s| ==> s[k] < n
    ensures Increasing(s + [n]) && forall i: nat :: i in s + [n] <==> i in s || i == n
  {
  }

  lemma OpensStays(items: seq<Item>, n: nat, id: string, root: nat)
    requires n < |items| && Opens(items, n, id, root)
    ensures Opens(items, n + 1, id, root)
  {
    hide RootId, Root;
  }

  lemma ThreadOpens(items: seq<Item>, n: nat)
    requires n < |items| && forall i :: 0 <= i < n ==> RootId(items, i) != RootId(items, n)
    ensures IsThread(items, n + 1, RootId(items, n), Joined(items, n, None))
  {
    hide RootId, Walk;
    assert Opens(items, n + 1, RootId(items, n), Root(items, n));
  }

  // buildThreads, up to the final sort of the threads by the time of their roots.
  method BuildThreads(items: seq<Item>) returns (threads: Dict<Thread>)
    ensures threads.Valid() && Threads(items, |items|, threads.at)
  {
    hide Walk, Root, IndexById, Threads, Joined;
    threads := Dict([], map[]);
    NoThreads(items);
    var byId := IndexById(items);
    for n := 0 to |items|
      invariant threads.Valid() && Threads(items, n, threads.at)
    {
      var root := RootOf(items, byId, n);
      var id := items[root].eventId;
      NextThreads(items, n, threads.at);
      JoinedIs(items, n, if id in threads.at then Some(threads.at[id]) else None);
      var thread := if id in threads.at then threads.at[id] else Thread(root, []);
      if n != root {
        thread := thread.(replies := thread.replies + [n]);
      }
      threads := threads.Put(id, thread);
    }
  }

  lemma NoThreads(items: seq<Item>)
    ensures Threads(items, 0, map[])
  {
  }

  lemma NextThreads(items: seq<Item>, n: nat, threads: map<string, Thread>)
    requires n < |items| && Threads(items, n, threads)
    ensures var id := RootId(items, n);
            var was := if id in threads then Some(threads[id]) else None;
            Threads(items, n + 1, threads[id := Joined(items, n, was)])
  {
    hide Walk, Root, RootId, IsThread, Joined;
    var id := RootId(items, n);
    if id in threads {
      ThreadGrows(items, n, threads[id]);
    } else {
      ThreadOpens(items, n);
    }
    forall other | other in threads && other != id {
      OtherThreadStays(items, n, other, threads[other]);
    }
  }

  lemma JoinedIs(items: seq<Item>, n: nat, was: Option<Thread>)
    requires n < |items|
    ensures var thread := if was.Some? then was.value else Thread(Root(items, n), []);
            Joined(items, n, was) == if n != Root(items, n) then thread.(replies := thread.replies + [n]) else thread
  {
  }

  ghost predicate SitsIn(threads: map<string, Thread>, id: string, i: nat) {
    id in threads && (threads[id].root == i || i in threads[id].replies)
  }

  lemma OpenerIsRoot(items: seq<Item>, threads: map<string, Thread>, id: string)
    requires Threads(items, |items|, threads) && id in threads
    ensures threads[id].root < |items| && items[threads[id].root].eventId == id
    ensures exists i :: 0 <= i < |items| && threads[id].root == Root(items, i)
  {
    hide Root, Threads;
    assert IsThread(items, |items|, id, threads[id]) by {
      ThreadOf(items, threads, id);
    }
  }

  lemma ThreadOf(items: seq<Item>, threads: map<string, Thread>, id: string)
    requires Threads(items, |items|, threads) && id in threads
    ensures IsThread(items, |items|, id, threads[id])
  {
    hide Root, IsThread, RootId;
  }

  lemma OpenersAgree(items: seq<Item>, n: nat, id: string, a: nat, b: nat)
    requires n <= |items| && Opens(items, n, id, a) && Opens(items, n, id, b)
    ensures a == b
  {
    hide Root, RootId;
    var i :| 0 <= i < n && RootId(items, i) == id && a == Root(items, i) && forall j :: 0 <= j < i ==> RootId(items, j) != id;
    var k :| 0 <= k < n && RootId(items, k) == id && b == Root(items, k) && forall j :: 0 <= j < k ==> RootId(items, j) != id;
    assert i == k;
  }

  // The one way an item is lost, whatever the ids and links: it is its own root,
  // but not the root of the first item whose root has its event id.
  lemma LostExactly(items: seq<Item>, threads: map<string, Thread>, i: nat)
    requires Threads(items, |items|, threads) && i < |items|
    ensures (forall id :: !SitsIn(threads, id, i))
            <==> Root(items, i) == i && !Opens(items, |items|, items[i].eventId, i)
  {
    var own := RootId(items, i);
    assert own in threads;
    ThreadOf(items, threads, own);
    hide Root, Threads, Opens;
    if Root(items, i) != i {
      assert IsReply(items, |items|, own, i);
      assert SitsIn(threads, own, i);
    } else {
      forall id | SitsIn(threads, id, i)
        ensures id == own && Opens(items, |items|, own, i)
      {
        ThreadOf(items, threads, id);
        OpenerIsRoot(items, threads, id);
      }
      if Opens(items, |items|, own, i) {
        OpenersAgree(items, |items|, own, i, threads[own].root);
        assert SitsIn(threads, own, i);
      }
    }
  }

  // Two items without replies that carry one event id: the second is in no thread.
  lemma RepeatedIdIsLost(threads: map<string, Thread>)
    requires Threads([Item("a", None), Item("a", None)], 2, threads)
    ensures forall id :: !SitsIn(threads, id, 1)
  {
    var items := [Item("a", None), Item("a", None)];
    assert Root(items, 0) == 0 && Root(items, 1) == 1 && RootId(items, 0) == "a";
    assert Opens(items, 2, "a", 0);
    if Opens(items, 2, "a", 1) {
      OpenersAgree(items, 2, "a", 0, 1);
    }
    LostExactly(items, threads, 1);
  }

  // With distinct ids every item sits in exactly one thread, as its root or as
  // one of its replies and never as both; replies are listed once, in order.
  lemma EveryItemSitsOnce(items: seq<Item>, threads: map<string, Thread>, i: nat)
    requires DistinctIds(items) && Threads(items, |items|, threads) && i < |items|
    ensures SitsIn(threads, RootId(items, i), i)
    ensures forall id :: SitsIn(threads, id, i) ==> id == RootId(items, i)
    ensures var t := threads[RootId(items, i)];
            t.root == Root(items, i) && (i in t.replies <==> i != t.root) && Increasing(t.replies)
  {
    var own := RootId(items, i);
    assert own in threads;
    hide Walk, Threads;
    forall id | id in threads
      ensures Root(items, threads[id].root) == threads[id].root && items[threads[id].root].eventId == id
    {
      OpenerIsRoot(items, threads, id);
      var j :| 0 <= j < |items| && threads[id].root == Root(items, j);
      RootIsIdempotent(items, j);
    }
    hide Root;
    forall id | id in threads {
      ThreadOf(items, threads, id);
    }
  }

  // --- the way to the root, on the items themselves -------------------------------------

  // A reply leads to the last item that carries the id it names.
  ghost predicate LeadsTo(items: seq<Item>, a: nat, b: nat) {
    && a < |items| && b < |items|
    && items[a].inReplyTo == Some(items[b].eventId)
    && forall j :: b < j < |items| ==> items[j].eventId != items[b].eventId
  }

  lemma ParentIsNamed(items: seq<Item>, i: nat)
    requires i < |items|
    ensures forall b: nat :: Parent(items, i) == Some(b) <==> LeadsTo(items, i, b)
    ensures Parent(items, i).None? <==>
              items[i].inReplyTo.None? || forall j :: 0 <= j < |items| ==> items[j].eventId != items[i].inReplyTo.value
  {
    var m := IndexById(items);
    forall b: nat
      ensures Parent(items, i) == Some(b) <==> LeadsTo(items, i, b)
    {
      if Parent(items, i) == Some(b) {
        assert forall j :: b < j < |items| && items[j].eventId == items[b].eventId ==> j <= m[items[b].eventId];
      }
      if LeadsTo(items, i, b) {
        assert m[items[b].eventId] >= b;
      }
    }
  }

  // `path` goes from one item to another by following replies.
  ghost predicate FollowsReplies(items: seq<Item>, path: seq<nat>, from: nat, to: nat) {
    && path != [] && path[0] == from && path[|path| - 1] == to
    && forall k :: 0 <= k < |path| - 1 ==> LeadsTo(items, path[k], path[k + 1])
  }

  // The root of an item is reached by following `inReplyTo`, up to an item that
  // answers nothing known, or one whose id was met on the way.
  lemma RootIsReached(items: seq<Item>, i: nat) returns (path: seq<nat>)
    requires i < |items|
    ensures FollowsReplies(items, path, i, Root(items, i)) && Within(items, path)
    ensures Parent(items, Root(items, i)).None?
            || exists k :: 0 <= k < |path| - 1 && items[path[k]].eventId == items[Root(items, i)].eventId
  {
    path := WalkIsReached(items, [], i);
  }

  lemma {:induction false} WalkIsReached(items: seq<Item>, trail: seq<nat>, i: nat) returns (path: seq<nat>)
    requires i < |items| && Distinct(trail) && Within(items, trail)
    ensures FollowsReplies(items, path, i, Walk(items, trail, i)) && Within(items, path)
    ensures var r := Walk(items, trail, i);
            || Parent(items, r).None?
            || items[r].eventId in EventIds(items, trail)
            || exists k :: 0 <= k < |path| - 1 && items[path[k]].eventId == items[r].eventId
    decreases |items| - |trail|
  {
    hide IndexById, LeadsTo, Parent;
    DistinctBound(trail, |items|);
    var parent := Parent(items, i);
    if parent.None? || items[i].eventId in EventIds(items, trail) {
      path := [i];
    } else {
      DistinctBound(trail + [i], |items|);
      var rest := WalkIsReached(items, trail + [i], parent.value);
      ParentIsNamed(items, i);
      path := [i] + rest;
      PathGrows(items, i, rest, Walk(items, trail, i));
      assert forall x :: x in trail + [i] <==> x in trail || x == i;
    }
  }

  lemma PathGrows(items: seq<Item>, i: nat, rest: seq<nat>, to: nat)
    requires i < |items| && to < |items| && Within(items, rest)
    requires rest != [] && FollowsReplies(items, rest, rest[0], to) && LeadsTo(items, i, rest[0])
    ensures Within(items, [i] + rest) && FollowsReplies(items, [i] + rest, i, to)
    ensures items[to].eventId == items[i].eventId
            || (exists k :: 0 <= k < |rest| - 1 && items[rest[k]].eventId == items[to].eventId) ==>
              exists k :: 0 <= k < |[i] + rest| - 1 && items[([i] + rest)[k]].eventId == items[to].eventId
  {
    hide LeadsTo;
    var path := [i] + rest;
    assert forall k :: 0 < k < |path| ==> path[k] == rest[k - 1];
    if items[to].eventId == items[i].eventId {
      assert items[path[0]].eventId == items[to].eventId;
    }
    if k :| 0 <= k < |rest| - 1 && items[rest[k]].eventId == items[to].eventId {
      assert items[path[k + 1]].eventId == items[to].eventId;
    }
  }
}
