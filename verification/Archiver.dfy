/**
 The per-forum loop of src/archiver.c.

 As long as a limit is exceeded, the thread with the oldest newest posting leaves the
 thread list and is archived, or discarded if a plugin says so.
 */
module Archiver {
  import opened Lists

  /** What the archiver looks at: the thread id, the number of postings, the date of the
      newest one. */
  datatype Info = Info(tid: int, posts: nat, date: int)

  datatype Limits = Limits(maxBytes: int, maxThreads: int, maxPosts: int)

  const FLT_OK := 0
  const FLT_DECLINE := -1
  const FLT_EXIT := -2

  /** What the loop cannot see into: what each archive plugin returns for a thread, and the
      length of the cache generated for a thread list. */
  datatype World = World(plugins: nat, result: (nat, int) -> int, cacheLen: seq<Info> -> int)

  /** The plugins from i on, as long as they return FLT_OK or FLT_DECLINE. */
  function VerdictFrom(w: World, tid: int, i: nat, ret: int): int
    decreases w.plugins - i
  {
    if i < w.plugins && (ret == FLT_DECLINE || ret == FLT_OK) then VerdictFrom(w, tid, i + 1, w.result(i, tid)) else ret
  }

  function Verdict(w: World, tid: int): int { VerdictFrom(w, tid, 0, FLT_OK) }

  predicate Passed(ret: int) { ret == FLT_OK || ret == FLT_DECLINE }

  /** The plugin k is asked: no one before it objected. */
  ghost predicate Asked(w: World, tid: int, k: nat) {
    k < w.plugins && forall j: nat :: j < k ==> Passed(w.result(j, tid))
  }

  /** A plugin that was asked took the thread out of the archive. */
  ghost predicate Exits(w: World, tid: int) {
    exists k: nat :: Asked(w, tid, k) && w.result(k, tid) == FLT_EXIT
  }

  lemma {:induction false} VerdictStops(w: World, tid: int, i: nat, ret: int, k: nat)
    requires i <= k < w.plugins && Passed(ret) && (forall j: nat :: i <= j < k ==> Passed(w.result(j, tid)))
    ensures VerdictFrom(w, tid, i, ret) ==
            if Passed(w.result(k, tid)) then VerdictFrom(w, tid, k + 1, w.result(k, tid)) else w.result(k, tid)
    decreases k - i
  {
    if i < k {
      VerdictStops(w, tid, i + 1, w.result(i, tid), k);
    }
  }

  /** The verdict is that of the first plugin that neither passes nor declines; without
      one it is that of the last plugin, and FLT_OK without any. */
  lemma VerdictIs(w: World, tid: int)
    ensures forall k: nat :: Asked(w, tid, k) && !Passed(w.result(k, tid)) ==> Verdict(w, tid) == w.result(k, tid)
    ensures (forall k: nat :: k < w.plugins ==> Passed(w.result(k, tid))) ==>
            Verdict(w, tid) == if w.plugins == 0 then FLT_OK else w.result(w.plugins - 1, tid)
    ensures Verdict(w, tid) == FLT_EXIT <==> Exits(w, tid)
  {
    forall k: nat | Asked(w, tid, k) && !Passed(w.result(k, tid)) ensures Verdict(w, tid) == w.result(k, tid) {
      VerdictStops(w, tid, 0, FLT_OK, k);
    }
    if forall k: nat :: k < w.plugins ==> Passed(w.result(k, tid)) {
      if w.plugins > 0 {
        VerdictStops(w, tid, 0, FLT_OK, w.plugins - 1);
      }
    } else {
      var k := FirstObjection(w, tid);
      VerdictStops(w, tid, 0, FLT_OK, k);
    }
  }

  lemma FirstObjection(w: World, tid: int) returns (k: nat)
    requires exists j: nat :: j < w.plugins && !Passed(w.result(j, tid))
    ensures Asked(w, tid, k) && !Passed(w.result(k, tid))
  {
    k := 0;
    while Passed(w.result(k, tid))
      invariant k < w.plugins && forall j: nat :: j < k ==> Passed(w.result(j, tid))
      decreases w.plugins - k
    {
      k := k + 1;
    }
  }

  function PostsOf(ts: seq<Info>): nat { if ts == [] then 0 else PostsOf(ts[..|ts| - 1]) + ts[|ts| - 1].posts }

  /** The first thread of the oldest date. */
  function Oldest(ts: seq<Info>): (k: nat)
    requires ts != []
    ensures k < |ts|
    ensures forall j :: 0 <= j < k ==> ts[j].date > ts[k].date
    ensures forall j :: k <= j < |ts| ==> ts[j].date >= ts[k].date
  {
    var n := |ts| - 1;
    if n == 0 then 0
    else
      var k := Oldest(ts[..n]);
      if ts[n].date < ts[k].date then n else k
  }

  // ----- the loop on values -----

  /** The thread list, the threads to archive, the discarded ones, the cached length. */
  datatype State = State(list: seq<Info>, archived: seq<Info>, discarded: seq<Info>, size: int)

  predicate Exceeds(lim: Limits, st: State) {
    st.size > lim.maxBytes || PostsOf(st.list) > lim.maxPosts || |st.list| > lim.maxThreads
  }

  predicate Goes(lim: Limits, st: State) { st.list != [] && Exceeds(lim, st) }

  /** One pass: the oldest thread leaves; the cached length is computed anew only if it was
      the byte limit that was exceeded. */
  function Pass(w: World, lim: Limits, st: State): State
    requires st.list != []
  {
    var k := Oldest(st.list);
    var t, rest := st.list[k], Without(st.list, k);
    var size := if st.size > lim.maxBytes then w.cacheLen(rest) else st.size;
    if Verdict(w, t.tid) == FLT_EXIT then State(rest, st.archived, st.discarded + [t], size)
    else State(rest, st.archived + [t], st.discarded, size)
  }

  function Run(w: World, lim: Limits, st: State): State
    decreases |st.list|
  {
    if Goes(lim, st) then Run(w, lim, Pass(w, lim, st)) else st
  }

  // ----- what a run does -----

  ghost function All(st: State): multiset<Info> { multiset(st.list) + multiset(st.archived) + multiset(st.discarded) }

  lemma WithoutCounts(ts: seq<Info>, k: nat)
    requires k < |ts|
    ensures multiset(ts) == multiset(Without(ts, k)) + multiset{ts[k]}
  {
    assert ts == ts[..k] + [ts[k]] + ts[k + 1..];
  }

  lemma PassConserves(w: World, lim: Limits, st: State)
    requires st.list != []
    ensures All(Pass(w, lim, st)) == All(st)
  {
    hide Verdict, Oldest, Without;
    WithoutCounts(st.list, Oldest(st.list));
  }

  /** No thread is lost or doubled: each ends in exactly one of the three lists. */
  lemma {:induction false} RunConserves(w: World, lim: Limits, st: State)
    ensures All(Run(w, lim, st)) == All(st)
    decreases |st.list|
  {
    hide Pass, All, Exceeds;
    if Goes(lim, st) {
      PassConserves(w, lim, st);
      PassShorter(w, lim, st);
      RunConserves(w, lim, Pass(w, lim, st));
    }
  }

  lemma PassShorter(w: World, lim: Limits, st: State)
    requires st.list != []
    ensures |Pass(w, lim, st).list| == |st.list| - 1
  {
    hide Verdict;
  }

  ghost predicate Within(lim: Limits, posts: nat, threads: nat, bytes: int) {
    bytes <= lim.maxBytes && posts <= lim.maxPosts && threads <= lim.maxThreads
  }

  lemma {:induction false} PostsAdd(a: seq<Info>, b: seq<Info>)
    ensures PostsOf(a + b) == PostsOf(a) + PostsOf(b)
    ensures forall t: Info :: PostsOf([t]) == t.posts
  {
    forall t: Info ensures PostsOf([t]) == t.posts {
      assert [t][..0] == [];
    }
    if b == [] {
      assert a + b == a;
    } else {
      PostsAdd(a, b[..|b| - 1]);
      assert (a + b)[..|a + b| - 1] == a + b[..|b| - 1];
    }
  }

  /** At the end the list is empty or no limit is exceeded. */
  lemma {:induction false} RunWithinLimits(w: World, lim: Limits, st: State)
    ensures var e := Run(w, lim, st); e.list == [] || Within(lim, PostsOf(e.list), |e.list|, e.size)
    decreases |st.list|
  {
    hide Pass, PostsOf;
    if Goes(lim, st) {
      PassShorter(w, lim, st);
      RunWithinLimits(w, lim, Pass(w, lim, st));
    }
  }

  ghost predicate ByDate(ts: seq<Info>) { forall i, j :: 0 <= i < j < |ts| ==> ts[i].date <= ts[j].date }

  ghost predicate AllOlder(a: seq<Info>, b: seq<Info>) {
    forall i, j :: 0 <= i < |a| && 0 <= j < |b| ==> a[i].date <= b[j].date
  }

  /** What has left is in order of date and no newer than what is kept; discarded are
      exactly the threads for which a plugin returned FLT_EXIT and none before it objected. */
  ghost predicate OldestFirst(w: World, st: State) {
    && ByDate(st.archived) && ByDate(st.discarded)
    && AllOlder(st.archived, st.list) && AllOlder(st.discarded, st.list)
    && (forall i :: 0 <= i < |st.archived| ==> !Exits(w, st.archived[i].tid))
    && (forall i :: 0 <= i < |st.discarded| ==> Exits(w, st.discarded[i].tid))
  }

  lemma MoveOldest(gone: seq<Info>, other: seq<Info>, ts: seq<Info>)
    requires ts != [] && ByDate(gone) && AllOlder(gone, ts) && AllOlder(other, ts)
    ensures var k := Oldest(ts);
            ByDate(gone + [ts[k]]) && AllOlder(gone + [ts[k]], Without(ts, k)) && AllOlder(other, Without(ts, k))
  {
    var k := Oldest(ts);
    var rest := Without(ts, k);
    assert forall j :: 0 <= j < |rest| ==> rest[j] == ts[if j < k then j else j + 1];
  }

  lemma PassOldestFirst(w: World, lim: Limits, st: State)
    requires st.list != [] && OldestFirst(w, st)
    ensures OldestFirst(w, Pass(w, lim, st))
  {
    hide Verdict, Exits, Oldest, Without, ByDate, AllOlder;
    VerdictIs(w, st.list[Oldest(st.list)].tid);
    MoveOldest(st.archived, st.discarded, st.list);
    MoveOldest(st.discarded, st.archived, st.list);
  }

  lemma {:induction false} RunOldestFirst(w: World, lim: Limits, st: State)
    requires OldestFirst(w, st)
    ensures OldestFirst(w, Run(w, lim, st))
    decreases |st.list|
  {
    hide Pass, OldestFirst, Exceeds;
    if Goes(lim, st) {
      PassOldestFirst(w, lim, st);
      PassShorter(w, lim, st);
      RunOldestFirst(w, lim, Pass(w, lim, st));
    }
  }

  function Passes(w: World, lim: Limits, st: State, n: nat): State
    requires n <= |st.list|
    decreases n
  {
    if n == 0 then st
    else
      PassShorter(w, lim, st);
      Passes(w, lim, Pass(w, lim, st), n - 1)
  }

  ghost predicate ExceedsLimits(lim: Limits, st: State) { !Within(lim, PostsOf(st.list), |st.list|, st.size) }

  /** Nothing leaves without need: before every removal some limit was exceeded. */
  lemma {:induction false} RunRemovesNoMore(w: World, lim: Limits, st: State) returns (n: nat)
    ensures n == |st.list| - |Run(w, lim, st).list| && Run(w, lim, st) == Passes(w, lim, st, n)
    ensures forall k: nat :: k < n ==> ExceedsLimits(lim, Passes(w, lim, st, k))
    decreases |st.list|
  {
    hide Pass, PostsOf;
    if Goes(lim, st) {
      PassShorter(w, lim, st);
      var m := RunRemovesNoMore(w, lim, Pass(w, lim, st));
      n := m + 1;
      forall k: nat | k < n ensures ExceedsLimits(lim, Passes(w, lim, st, k)) {
        if k > 0 {
          assert Passes(w, lim, st, k) == Passes(w, lim, Pass(w, lim, st), k - 1);
        }
      }
    } else {
      n := 0;
    }
  }

  /** The cached length is measured anew only as long as it exceeds the byte limit: after m
      removals, where each measurement before the last still exceeded it. */
  lemma {:induction false} RunSize(w: World, lim: Limits, st: State) returns (m: nat)
    ensures st.size <= lim.maxBytes ==> m == 0
    ensures m <= |st.list| - |Run(w, lim, st).list|
    ensures Run(w, lim, st).size == if m == 0 then st.size else w.cacheLen(Passes(w, lim, st, m).list)
    ensures forall k: nat :: 0 < k < m ==> w.cacheLen(Passes(w, lim, st, k).list) > lim.maxBytes
    ensures Run(w, lim, st).size > lim.maxBytes ==> Run(w, lim, st).list == []
    decreases |st.list|
  {
    hide Verdict, Oldest, Without, PostsOf;
    m := 0;
    if Goes(lim, st) {
      PassShorter(w, lim, st);
      var next := Pass(w, lim, st);
      var m' := RunSize(w, lim, next);
      if st.size > lim.maxBytes {
        m := m' + 1;
        PassMeasures(w, lim, st);
        assert Passes(w, lim, st, 1) == Passes(w, lim, next, 0);
        forall k: nat | 0 < k < m ensures w.cacheLen(Passes(w, lim, st, k).list) > lim.maxBytes {
          assert Passes(w, lim, st, k) == Passes(w, lim, next, k - 1);
        }
      }
    }
  }

  lemma PassMeasures(w: World, lim: Limits, st: State)
    requires st.list != []
    ensures Pass(w, lim, st).size == if st.size > lim.maxBytes then w.cacheLen(Pass(w, lim, st).list) else st.size
  {
    hide Verdict, Oldest, Without;
  }

  /** a is b without some of its threads, the others in their order. */
  ghost predicate Thinned(a: seq<Info>, b: seq<Info>) {
    if b == [] then a == []
    else Thinned(a, b[..|b| - 1]) || (a != [] && a[|a| - 1] == b[|b| - 1] && Thinned(a[..|a| - 1], b[..|b| - 1]))
  }

  lemma {:induction false} ThinnedSelf(a: seq<Info>)
    ensures Thinned(a, a)
  {
    if a != [] {
      ThinnedSelf(a[..|a| - 1]);
    }
  }

  lemma {:induction false} ThinnedOne(a: seq<Info>, k: nat)
    requires k < |a|
    ensures Thinned(Without(a, k), a)
  {
    var a' := a[..|a| - 1];
    if k == |a| - 1 {
      ThinnedSelf(a');
      assert Without(a, k) == a';
    } else {
      ThinnedOne(a', k);
      assert Without(a, k) == Without(a', k) + [a[|a| - 1]];
    }
  }

  lemma {:induction false} ThinnedTwice(a: seq<Info>, b: seq<Info>, c: seq<Info>)
    requires Thinned(a, b) && Thinned(b, c)
    ensures Thinned(a, c)
    decreases |c|
  {
    if c != [] {
      var c' := c[..|c| - 1];
      if Thinned(b, c') {
        ThinnedTwice(a, b, c');
      } else if Thinned(a, b[..|b| - 1]) {
        ThinnedTwice(a, b[..|b| - 1], c');
      } else {
        ThinnedTwice(a[..|a| - 1], b[..|b| - 1], c');
      }
    }
  }

  /** The kept threads stay in their order. */
  lemma {:induction false} RunKeepsOrder(w: World, lim: Limits, st: State)
    ensures Thinned(Run(w, lim, st).list, st.list)
    decreases |st.list|
  {
    hide Verdict, Oldest, Without, Exceeds, Thinned;
    if Goes(lim, st) {
      var next := Pass(w, lim, st);
      PassShorter(w, lim, st);
      RunKeepsOrder(w, lim, next);
      ThinnedOne(st.list, Oldest(st.list));
      ThinnedTwice(Run(w, lim, st).list, next.list, st.list);
    } else {
      ThinnedSelf(st.list);
    }
  }

  // ----- the thread list in memory -----

  /** `cf_thread_t` */
  class Thread {
    const info: Info
    var prev: Thread?
    var next: Thread?

    constructor (info: Info)
      ensures this.info == info && prev == null && next == null
    {
      this.info, prev, next := info, null, null;
    }
  }

  ghost function Infos(ts: seq<Thread>): (r: seq<Info>)
    ensures |r| == |ts| && forall k :: 0 <= k < |ts| ==> r[k] == ts[k].info
  {
    seq(|ts|, k requires 0 <= k < |ts| => ts[k].info)
  }

  ghost function At(ts: seq<Thread>, k: int): Thread? { if 0 <= k < |ts| then ts[k] else null }

  ghost function NextIn(ts: seq<Thread>, x: Thread): Thread? { At(ts, IndexIn(ts, x) + 1) }

  ghost function PrevIn(ts: seq<Thread>, x: Thread): Thread? { At(ts, IndexIn(ts, x) - 1) }

  ghost predicate Linked(ts: seq<Thread>)
    reads ts
  {
    forall x :: x in ts ==> x.next == NextIn(ts, x) && x.prev == PrevIn(ts, x)
  }

  lemma LinkOf(ts: seq<Thread>, i: int)
    requires Linked(ts) && Separate(ts) && 0 <= i < |ts|
    ensures ts[i].next == At(ts, i + 1) && ts[i].prev == At(ts, i - 1)
  {
    hide IndexIn, Linked, NextIn, PrevIn;
    assert IndexIn(ts, ts[i]) == i;
    LinkedAt(ts, ts[i]);
    IndexedLinks(ts, ts[i], i);
  }

  lemma LinkedAt(ts: seq<Thread>, x: Thread)
    requires Linked(ts) && x in ts
    ensures x.next == NextIn(ts, x) && x.prev == PrevIn(ts, x)
  {
    hide NextIn, PrevIn;
  }

  lemma IndexedLinks(ts: seq<Thread>, x: Thread, i: int)
    requires IndexIn(ts, x) == i
    ensures NextIn(ts, x) == At(ts, i + 1) && PrevIn(ts, x) == At(ts, i - 1)
  {
    hide IndexIn;
  }

  lemma WithoutLinks(ts: seq<Thread>, k: nat, x: Thread)
    requires k < |ts| && Separate(ts) && x in Without(ts, k)
    ensures x in ts && x != ts[k]
    ensures NextIn(Without(ts, k), x) == if x == At(ts, k - 1) then At(ts, k + 1) else NextIn(ts, x)
    ensures PrevIn(Without(ts, k), x) == if x == At(ts, k + 1) then At(ts, k - 1) else PrevIn(ts, x)
  {
    hide IndexIn;
    WithoutIndex(ts, k, x);
    assert k > 0 ==> IndexIn(ts, ts[k - 1]) == k - 1;
    assert k + 1 < |ts| ==> IndexIn(ts, ts[k + 1]) == k + 1;
  }

  lemma WithoutLinked(ts: seq<Thread>, k: nat)
    requires k < |ts| && Separate(ts)
    requires forall x :: x in ts && x != ts[k] ==> x.next == if x == At(ts, k - 1) then At(ts, k + 1) else NextIn(ts, x)
    requires forall x :: x in ts && x != ts[k] ==> x.prev == if x == At(ts, k + 1) then At(ts, k - 1) else PrevIn(ts, x)
    ensures Linked(Without(ts, k))
  {
    hide NextIn, PrevIn, Separate, Without, At;
    var l := Without(ts, k);
    forall x | x in l ensures x.next == NextIn(l, x) && x.prev == PrevIn(l, x) {
      WithoutLinks(ts, k, x);
    }
  }

  lemma WithoutInfos(ts: seq<Thread>, k: nat)
    requires k < |ts|
    ensures Infos(Without(ts, k)) == Without(Infos(ts), k)
  {
  }

  /** `cf_forum_t`, as far as its thread list goes. */
  class Forum {
    var list: Thread?
    var cacheLen: int
    ghost var threads: seq<Thread>

    ghost predicate Valid()
      reads this, threads
    {
      list == At(threads, 0) && Separate(threads) && Linked(threads)
    }

    /** `cf_remove_thread` */
    method RemoveThread(t: Thread, ghost k: nat)
      requires Valid() && k < |threads| && t == threads[k]
      modifies this`list, this`threads, threads
      ensures Valid() && threads == Without(old(threads), k)
    {
      hide NextIn, PrevIn, Separate, IndexIn;
      Neighbours(threads, k);
      if t.prev != null {
        t.prev.next := t.next;
        if t.next != null { t.next.prev := t.prev; }
      } else {
        list := t.next;
        if t.next != null { t.next.prev := null; }
      }
      WithoutLinked(threads, k);
      WithoutSeparate(threads, k);
      threads := Without(threads, k);
    }

    /** The scan over the thread list. */
    method Scan() returns (threadnum: int, pnum: int, oldest: Thread?, ghost k: nat)
      requires Valid() && threads != []
      ensures threadnum == |threads| && pnum == PostsOf(Infos(threads))
      ensures k == Oldest(Infos(threads)) && oldest == threads[k]
    {
      hide Linked, Separate, NextIn, PrevIn, Oldest, PostsOf;
      var t := list;
      threadnum, pnum, oldest, k := 0, 0, null, 0;
      ghost var ts := Infos(threads);
      PostsSnoc(ts, 0);
      while t != null
        invariant 0 <= threadnum <= |threads| && t == At(threads, threadnum) && Linked(threads)
        invariant pnum == PostsOf(ts[..threadnum])
        invariant if threadnum == 0 then oldest == null else k == Oldest(ts[..threadnum]) && oldest == threads[k]
        decreases |threads| - threadnum
      {
        LinkOf(threads, threadnum);
        PostsSnoc(ts, threadnum);
        OldestSnoc(ts, threadnum);
        pnum := pnum + t.info.posts;
        if oldest == null || t.info.date < oldest.info.date { oldest, k := t, threadnum; }
        threadnum := threadnum + 1;
        t := t.next;
      }
      assert ts[..threadnum] == ts;
    }

    /** The calls of the archive plugins for one thread. */
    method AskPlugins(w: World, tid: int) returns (ret: int)
      ensures ret == Verdict(w, tid)
      ensures forall k: nat :: Asked(w, tid, k) && !Passed(w.result(k, tid)) ==> ret == w.result(k, tid)
      ensures (forall k: nat :: k < w.plugins ==> Passed(w.result(k, tid))) ==>
              ret == if w.plugins == 0 then FLT_OK else w.result(w.plugins - 1, tid)
    {
      VerdictIs(w, tid);
      ret := FLT_OK;
      var i := 0;
      while i < w.plugins && (ret == FLT_DECLINE || ret == FLT_OK)
        invariant 0 <= i <= w.plugins && Verdict(w, tid) == VerdictFrom(w, tid, i, ret)
      {
        ret := w.result(i, tid);
        i := i + 1;
      }
    }

    /** One forum's turn of `cf_run_archiver`: the threads handed to the archive writers. */
    method RunArchiver(w: World, lim: Limits) returns (toArchive: seq<Thread>, ghost discarded: seq<Thread>)
      requires Valid()
      modifies this, threads
      ensures Valid()
      ensures var e := Run(w, lim, State(old(Infos(threads)), [], [], old(cacheLen)));
              Infos(threads) == e.list && Infos(toArchive) == e.archived && Infos(discarded) == e.discarded &&
              cacheLen == w.cacheLen(e.list)
      ensures forall j :: 0 <= j < |threads| ==> threads[j] in old(threads)
    {
      hide Linked, Separate, Oldest, PostsOf, Infos, Verdict, Pass, Without, Run;
      toArchive, discarded := [], [];
      NoInfos();
      ghost var start := State(Infos(threads), [], [], cacheLen);
      var shallArchive := true;
      while shallArchive
        invariant Valid() && forall j :: 0 <= j < |threads| ==> threads[j] in old(threads)
        invariant var st := State(Infos(threads), Infos(toArchive), Infos(discarded), cacheLen);
                  Run(w, lim, start) == Run(w, lim, st) && (!shallArchive ==> !Goes(lim, st))
        decreases shallArchive, |threads|
      {
        ghost var st := State(Infos(threads), Infos(toArchive), Infos(discarded), cacheLen);
        var mb, size := false, cacheLen;
        shallArchive := false;
        InfosLength(threads);
        if list == null { break; }
        var threadnum, pnum, oldest, k := Scan();
        if size > lim.maxBytes { shallArchive := true; mb := true; }
        if pnum > lim.maxPosts { shallArchive := true; }
        if threadnum > lim.maxThreads { shallArchive := true; }
        if shallArchive {
          PassIs(w, lim, st, threads, toArchive, discarded, k);
          WithoutMembers(threads, k);
          toArchive := toArchive + [oldest];
          RemoveThread(oldest, k);
          var ret := AskPlugins(w, oldest.info.tid);
          if ret == FLT_EXIT {
            discarded := discarded + [oldest];
            toArchive := toArchive[..|toArchive| - 1];
          }
        }
        if mb { GenerateCache(w); }
      }
      RunStays(w, lim, State(Infos(threads), Infos(toArchive), Infos(discarded), cacheLen));
      GenerateCache(w);
    }

    /** `cf_generate_cache` */
    method GenerateCache(w: World)
      requires Valid()
      modifies this`cacheLen
      ensures cacheLen == w.cacheLen(Infos(threads))
    {
      hide Linked, Separate, Infos;
      var t, infos := list, [];
      ghost var i := 0;
      ghost var ts := Infos(threads);
      InfosLength(threads);
      while t != null
        invariant 0 <= i <= |threads| && t == At(threads, i) && Valid() && infos == ts[..i] && |ts| == |threads|
        decreases |threads| - i
      {
        LinkOf(threads, i);
        InfoAt(threads, i);
        infos := infos + [t.info];
        t := t.next;
        i := i + 1;
      }
      assert ts[..i] == ts;
      cacheLen := w.cacheLen(infos);
    }
  }

  lemma RunStays(w: World, lim: Limits, st: State)
    ensures !Goes(lim, st) ==> Run(w, lim, st) == st
  {
  }

  lemma InfosLength(ts: seq<Thread>)
    ensures |Infos(ts)| == |ts|
  {
  }

  lemma InfoAt(ts: seq<Thread>, i: nat)
    requires i < |ts|
    ensures |Infos(ts)| == |ts| && Infos(ts)[i] == ts[i].info && Infos(ts)[..i + 1] == Infos(ts)[..i] + [ts[i].info]
  {
  }

  lemma NoInfos()
    ensures Infos([]) == []
  {
  }

  lemma Neighbours(ts: seq<Thread>, k: nat)
    requires Linked(ts) && Separate(ts) && k < |ts|
    ensures ts[k].next == At(ts, k + 1) && ts[k].prev == At(ts, k - 1)
    ensures forall x :: x in ts ==> x.next == NextIn(ts, x) && x.prev == PrevIn(ts, x)
    ensures At(ts, k - 1) != ts[k] && At(ts, k + 1) != ts[k]
    ensures At(ts, k - 1) == null || At(ts, k - 1) != At(ts, k + 1)
  {
    hide NextIn, PrevIn, IndexIn;
    LinkOf(ts, k);
    DifferentPlaces(ts, k - 1, k);
    DifferentPlaces(ts, k, k + 1);
    DifferentPlaces(ts, k - 1, k + 1);
  }

  lemma PostsSnoc(ts: seq<Info>, i: nat)
    ensures PostsOf(ts[..0]) == 0
    ensures i < |ts| ==> PostsOf(ts[..i + 1]) == PostsOf(ts[..i]) + ts[i].posts
  {
    if i < |ts| {
      assert ts[..i + 1][..i] == ts[..i];
    }
  }

  lemma OldestSnoc(ts: seq<Info>, i: nat)
    requires i < |ts|
    ensures Oldest(ts[..i + 1]) ==
            if i == 0 then 0 else if ts[i].date < ts[Oldest(ts[..i])].date then i else Oldest(ts[..i])
  {
    assert ts[..i + 1][..i] == ts[..i];
  }

  lemma WithoutMembers(ts: seq<Thread>, k: nat)
    requires k < |ts|
    ensures |Without(ts, k)| == |ts| - 1
    ensures forall j :: 0 <= j < |ts| - 1 ==> Without(ts, k)[j] == ts[if j < k then j else j + 1]
  {
  }

  lemma InfosSnoc(ts: seq<Thread>, t: Thread)
    ensures Infos(ts + [t]) == Infos(ts) + [t.info]
  {
  }

  /** A pass on the threads' values. */
  lemma PassIs(w: World, lim: Limits, st: State, ts: seq<Thread>, archived: seq<Thread>, discarded: seq<Thread>, k: nat)
    requires ts != [] && st == State(Infos(ts), Infos(archived), Infos(discarded), st.size)
    requires k == Oldest(Infos(ts)) && k < |ts|
    ensures var rest := Infos(Without(ts, k));
            var size := if st.size > lim.maxBytes then w.cacheLen(rest) else st.size;
            Pass(w, lim, st) ==
            if Verdict(w, ts[k].info.tid) == FLT_EXIT then State(rest, Infos(archived), Infos(discarded + [ts[k]]), size)
            else State(rest, Infos(archived + [ts[k]]), Infos(discarded), size)
    ensures Goes(lim, st) ==> Run(w, lim, st) == Run(w, lim, Pass(w, lim, st))
  {
    hide Without, Infos, Verdict, Exceeds, Oldest;
    InfosLength(ts);
    InfoAt(ts, k);
    InfosSnoc(archived, ts[k]);
    InfosSnoc(discarded, ts[k]);
    WithoutInfos(ts, k);
  }
}
