/** Replaying backed-up postings in src/cf-recovery.c. */
module Recovery {
  // A posting is spliced into the doubly linked list of its thread, which lists the postings
  // in pre-order with their levels.

  import opened Lists

  // ----- threads as trees -----

  datatype Tree = Node(mid: int, kids: Trees)
  datatype Trees = Nil | Cons(head: Tree, tail: Trees)

  datatype Entry = Entry(mid: int, level: nat)

  /** A tree as a list: pre-order, with levels. */
  function Flatten(t: Tree, level: nat): (r: seq<Entry>)
    ensures r != [] && r[0] == Entry(t.mid, level)
  {
    [Entry(t.mid, level)] + FlattenAll(t.kids, level + 1)
  }

  function FlattenAll(ts: Trees, level: nat): seq<Entry> {
    match ts
    case Nil => []
    case Cons(t, rest) => Flatten(t, level) + FlattenAll(rest, level)
  }

  function Append(ts: Trees, t: Tree): Trees {
    match ts
    case Nil => Cons(t, Nil)
    case Cons(h, rest) => Cons(h, Append(rest, t))
  }

  /** The posting p as the first or last answer to the posting m. */
  function AddChild(t: Tree, m: int, p: int, first: bool): Tree {
    if t.mid == m then Node(m, if first then Cons(Node(p, Nil), t.kids) else Append(t.kids, Node(p, Nil)))
    else Node(t.mid, AddAll(t.kids, m, p, first))
  }

  function AddAll(ts: Trees, m: int, p: int, first: bool): Trees {
    match ts
    case Nil => Nil
    case Cons(t, rest) => Cons(AddChild(t, m, p, first), AddAll(rest, m, p, first))
  }

  // ----- inserting into the list -----

  /** The first place from j on whose entry is not below the level. */
  function SubtreeEnd(es: seq<Entry>, j: nat, level: nat): (k: nat)
    requires j <= |es|
    ensures j <= k <= |es|
    ensures forall x :: j <= x < k ==> es[x].level > level
    ensures k < |es| ==> es[k].level <= level
    decreases |es| - j
  {
    if j == |es| || es[j].level <= level then j else SubtreeEnd(es, j + 1, level)
  }

  /** Where an answer to entry i goes. */
  function Position(es: seq<Entry>, i: nat, first: bool): (k: nat)
    requires i < |es|
    ensures i < k <= |es|
  {
    if first then i + 1 else SubtreeEnd(es, i + 1, es[i].level)
  }

  function Inserted(es: seq<Entry>, i: nat, p: int, first: bool): seq<Entry>
    requires i < |es|
  {
    Put(es, Position(es, i, first), Entry(p, es[i].level + 1))
  }

  lemma {:induction false} EndLeft(a: seq<Entry>, b: seq<Entry>, j: nat, level: nat)
    requires j <= |a| && (b != [] ==> b[0].level <= level)
    ensures SubtreeEnd(a + b, j, level) == SubtreeEnd(a, j, level)
    decreases |a| - j
  {
    if j < |a| && a[j].level > level {
      EndLeft(a, b, j + 1, level);
    }
  }

  lemma {:induction false} EndRight(a: seq<Entry>, b: seq<Entry>, j: nat, level: nat)
    requires j <= |b|
    ensures SubtreeEnd(a + b, |a| + j, level) == |a| + SubtreeEnd(b, j, level)
    decreases |b| - j
  {
    assert j < |b| ==> (a + b)[|a| + j] == b[j];
    if j < |b| && b[j].level > level {
      EndRight(a, b, j + 1, level);
    }
  }

  function Put(es: seq<Entry>, k: nat, e: Entry): seq<Entry>
    requires k <= |es|
  {
    es[..k] + [e] + es[k..]
  }

  lemma PutLeft(a: seq<Entry>, b: seq<Entry>, k: nat, e: Entry)
    requires k <= |a|
    ensures Put(a + b, k, e) == Put(a, k, e) + b
  {
  }

  lemma PutRight(a: seq<Entry>, b: seq<Entry>, k: nat, e: Entry)
    requires k <= |b|
    ensures Put(a + b, |a| + k, e) == a + Put(b, k, e)
  {
  }

  /** Inserting into the first part of a list. */
  lemma InsertLeft(a: seq<Entry>, b: seq<Entry>, i: nat, p: int, first: bool)
    requires i < |a| && (b != [] ==> b[0].level <= a[i].level)
    ensures Inserted(a + b, i, p, first) == Inserted(a, i, p, first) + b
  {
    hide SubtreeEnd, Put;
    EndLeft(a, b, i + 1, a[i].level);
    PutLeft(a, b, Position(a, i, first), Entry(p, a[i].level + 1));
  }

  /** Inserting into the second part. */
  lemma InsertRight(a: seq<Entry>, b: seq<Entry>, i: nat, p: int, first: bool)
    requires i < |b|
    ensures Inserted(a + b, |a| + i, p, first) == a + Inserted(b, i, p, first)
  {
    hide SubtreeEnd, Put;
    EndRight(a, b, i + 1, b[i].level);
    PutRight(a, b, Position(b, i, first), Entry(p, b[i].level + 1));
    assert (a + b)[|a| + i] == b[i];
  }

  // ----- the list stays the list of the tree -----

  /** The posting m is entry i and no other. */
  ghost predicate Only(es: seq<Entry>, i: nat, m: int) {
    i < |es| && forall j :: 0 <= j < |es| ==> (es[j].mid == m <==> j == i)
  }

  ghost predicate Lacks(es: seq<Entry>, m: int) { forall j :: 0 <= j < |es| ==> es[j].mid != m }

  lemma {:induction false} LevelsBelow(ts: Trees, level: nat)
    ensures forall j :: 0 <= j < |FlattenAll(ts, level)| ==> FlattenAll(ts, level)[j].level >= level
    ensures FlattenAll(ts, level) != [] ==> FlattenAll(ts, level)[0].level == level
    decreases ts
  {
    if ts.Cons? {
      LevelsBelow(ts.head.kids, level + 1);
      LevelsBelow(ts.tail, level);
    }
  }

  lemma {:induction false} AppendFlat(ts: Trees, t: Tree, level: nat)
    ensures FlattenAll(Append(ts, t), level) == FlattenAll(ts, level) + Flatten(t, level)
  {
    hide Flatten;
    if ts.Cons? {
      AppendFlat(ts.tail, t, level);
      assert Flatten(ts.head, level) + (FlattenAll(ts.tail, level) + Flatten(t, level)) ==
             Flatten(ts.head, level) + FlattenAll(ts.tail, level) + Flatten(t, level);
    } else {
      assert [] + Flatten(t, level) == Flatten(t, level) && Flatten(t, level) + [] == Flatten(t, level);
    }
  }

  lemma {:induction false} NotInside(ts: Trees, level: nat, m: int, p: int, first: bool)
    requires Lacks(FlattenAll(ts, level), m)
    ensures AddAll(ts, m, p, first) == ts
    decreases ts
  {
    if ts.Cons? {
      var a, b := Flatten(ts.head, level), FlattenAll(ts.tail, level);
      assert forall j :: 0 <= j < |a| ==> a[j] == (a + b)[j];
      assert forall j :: 0 <= j < |b| ==> b[j] == (a + b)[|a| + j];
      var c := FlattenAll(ts.head.kids, level + 1);
      assert forall j :: 0 <= j < |c| ==> c[j] == a[1 + j];
      assert a[0].mid == ts.head.mid;
      NotInside(ts.head.kids, level + 1, m, p, first);
      NotInside(ts.tail, level, m, p, first);
    }
  }

  lemma PutEnds(es: seq<Entry>, e: Entry)
    ensures Put(es, 0, e) == [e] + es && Put(es, |es|, e) == es + [e]
  {
    assert es[..0] == [] && es[0..] == es && es[..|es|] == es && es[|es|..] == [];
  }

  lemma Grouped(a: seq<Entry>, b: seq<Entry>, c: seq<Entry>)
    ensures a + (b + c) == a + b + c
  {
  }

  lemma AtRoot(t: Tree, level: nat, m: int, p: int, first: bool)
    requires t.mid == m
    ensures Flatten(AddChild(t, m, p, first), level) == Inserted(Flatten(t, level), 0, p, first)
  {
    hide FlattenAll, Put, SubtreeEnd;
    var es, kids, top, e := Flatten(t, level), FlattenAll(t.kids, level + 1), [Entry(m, level)], Entry(p, level + 1);
    LevelsBelow(t.kids, level + 1);
    OneNode(p, level + 1);
    if first {
      FirstKid(Node(p, Nil), t.kids, level + 1);
      PutRight(top, kids, 0, e);
      PutEnds(kids, e);
    } else {
      AppendFlat(t.kids, Node(p, Nil), level + 1);
      WholeTree(es, 1, level);
      PutEnds(es, e);
      Grouped(top, kids, [e]);
    }
  }

  lemma OneNode(p: int, level: nat)
    ensures Flatten(Node(p, Nil), level) == [Entry(p, level)]
  {
    assert FlattenAll(Nil, level + 1) == [];
  }

  lemma FirstKid(t: Tree, ts: Trees, level: nat)
    ensures FlattenAll(Cons(t, ts), level) == Flatten(t, level) + FlattenAll(ts, level)
  {
  }

  lemma {:induction false} WholeTree(es: seq<Entry>, j: nat, level: nat)
    requires j <= |es| && forall x :: j <= x < |es| ==> es[x].level > level
    ensures SubtreeEnd(es, j, level) == |es|
  {
  }

  /** Inserting an answer into the list of a tree gives the list of the tree with the
      answer added, and nothing else changed. */
  lemma {:induction false} AddChildFlat(t: Tree, level: nat, i: nat, m: int, p: int, first: bool)
    requires Only(Flatten(t, level), i, m)
    ensures Flatten(AddChild(t, m, p, first), level) == Inserted(Flatten(t, level), i, p, first)
    decreases t, 1
  {
    hide Inserted, FlattenAll, AddAll;
    if i == 0 {
      AtRoot(t, level, m, p, first);
    } else {
      var kids := FlattenAll(t.kids, level + 1);
      assert forall j :: 0 <= j < |kids| ==> kids[j] == Flatten(t, level)[1 + j];
      AddAllFlat(t.kids, level + 1, i - 1, m, p, first);
      InsertRight([Entry(t.mid, level)], kids, i - 1, p, first);
      assert Flatten(t, level)[0].mid != m;
    }
  }

  lemma {:induction false} AddAllFlat(ts: Trees, level: nat, i: nat, m: int, p: int, first: bool)
    requires Only(FlattenAll(ts, level), i, m)
    ensures FlattenAll(AddAll(ts, m, p, first), level) == Inserted(FlattenAll(ts, level), i, p, first)
    decreases ts, 0
  {
    hide Inserted, Flatten, AddChild;
    var a, b := Flatten(ts.head, level), FlattenAll(ts.tail, level);
    assert forall j :: 0 <= j < |a| ==> a[j] == (a + b)[j];
    assert forall j :: 0 <= j < |b| ==> b[j] == (a + b)[|a| + j];
    LevelsBelow(ts, level);
    LevelsBelow(ts.tail, level);
    if i < |a| {
      AddChildFlat(ts.head, level, i, m, p, first);
      NotInside(ts.tail, level, m, p, first);
      InsertLeft(a, b, i, p, first);
    } else {
      HeadWithout(ts.head, level, m, p, first);
      AddAllFlat(ts.tail, level, i - |a|, m, p, first);
      InsertRight(a, b, i - |a|, p, first);
    }
  }

  lemma HeadWithout(t: Tree, level: nat, m: int, p: int, first: bool)
    requires Lacks(Flatten(t, level), m)
    ensures AddChild(t, m, p, first) == t
  {
    hide FlattenAll, AddAll;
    var c := FlattenAll(t.kids, level + 1);
    assert forall j :: 0 <= j < |c| ==> c[j] == Flatten(t, level)[1 + j];
    assert Flatten(t, level)[0].mid != m;
    NotInside(t.kids, level + 1, m, p, first);
  }

  /** A list denotes one tree only. */
  lemma {:induction false} FlattenInjective(t: Tree, u: Tree, level: nat)
    requires Flatten(t, level) == Flatten(u, level)
    ensures t == u
    decreases t, 1
  {
    hide FlattenAll;
    assert Flatten(t, level)[0] == Flatten(u, level)[0];
    assert Flatten(t, level)[1..] == FlattenAll(t.kids, level + 1) && Flatten(u, level)[1..] == FlattenAll(u.kids, level + 1);
    ForestInjective(t.kids, u.kids, level + 1);
  }

  lemma {:induction false} ForestInjective(ts: Trees, us: Trees, level: nat)
    requires FlattenAll(ts, level) == FlattenAll(us, level)
    ensures ts == us
    decreases ts, 0
  {
    hide Flatten;
    if ts.Cons? && us.Cons? {
      FirstTree(ts, level);
      FirstTree(us, level);
      var es, n := FlattenAll(ts, level), |Flatten(ts.head, level)|;
      assert es[..n] == Flatten(ts.head, level) && es[..n] == Flatten(us.head, level);
      assert es[n..] == FlattenAll(ts.tail, level) && es[n..] == FlattenAll(us.tail, level);
      FlattenInjective(ts.head, us.head, level);
      ForestInjective(ts.tail, us.tail, level);
    }
  }

  lemma FirstTree(ts: Trees, level: nat)
    requires ts.Cons?
    ensures FlattenAll(ts, level) != [] && SubtreeEnd(FlattenAll(ts, level), 1, level) == |Flatten(ts.head, level)|
  {
    hide FlattenAll;
    var a, b := Flatten(ts.head, level), FlattenAll(ts.tail, level);
    FirstKid(ts.head, ts.tail, level);
    LevelsBelow(ts.head.kids, level + 1);
    LevelsBelow(ts.tail, level);
    EndLeft(a, b, 1, level);
    WholeTree(a, 1, level);
  }

  // ----- sequences of records -----

  /** A record of the backup file: the posting, the posting it answers, its level. */
  datatype Record = Record(mid: int, parent: int, level: nat)

  function Find(es: seq<Entry>, m: int): (i: nat)
    ensures i <= |es| && (forall j :: 0 <= j < i ==> es[j].mid != m) && (i < |es| ==> es[i].mid == m)
  {
    if es == [] || es[0].mid == m then 0 else 1 + Find(es[1..], m)
  }

  /** Every new posting answers a posting of the thread and has the level behind its. */
  ghost predicate Playable(es: seq<Entry>, records: seq<Record>, first: bool)
    decreases |records|
  {
    if records == [] then true
    else
      var r := records[0];
      if Find(es, r.mid) < |es| then Playable(es, records[1..], first)
      else
        var i := Find(es, r.parent);
        i < |es| && r.level == es[i].level + 1 && Playable(Inserted(es, i, r.mid, first), records[1..], first)
  }

  function MidsOf(t: Tree): set<int> { {t.mid} + MidsOfAll(t.kids) }

  function MidsOfAll(ts: Trees): set<int> {
    match ts
    case Nil => {}
    case Cons(t, rest) => MidsOf(t) + MidsOfAll(rest)
  }

  /** The records one after the other; postings that are already there are skipped. */
  function Replayed(t: Tree, records: seq<Record>, first: bool): Tree
    decreases |records|
  {
    if records == [] then t
    else
      var r := records[0];
      Replayed(if r.mid in MidsOf(t) then t else AddChild(t, r.parent, r.mid, first), records[1..], first)
  }

  ghost predicate DistinctMids(es: seq<Entry>) { forall i, j :: 0 <= i < j < |es| ==> es[i].mid != es[j].mid }

  ghost predicate Listed(es: seq<Entry>, m: int) { exists j :: 0 <= j < |es| && es[j].mid == m }

  lemma ListedConcat(a: seq<Entry>, b: seq<Entry>, m: int)
    ensures Listed(a + b, m) <==> Listed(a, m) || Listed(b, m)
  {
    var c := a + b;
    if Listed(a, m) {
      var j :| 0 <= j < |a| && a[j].mid == m;
      assert c[j].mid == m;
    }
    if Listed(b, m) {
      var j :| 0 <= j < |b| && b[j].mid == m;
      assert c[|a| + j].mid == m;
    }
  }

  lemma {:induction false} MidsFlat(t: Tree, level: nat, m: int)
    ensures m in MidsOf(t) <==> Listed(Flatten(t, level), m)
    decreases t, 1
  {
    hide Listed, FlattenAll;
    MidsFlatAll(t.kids, level + 1, m);
    ListedConcat([Entry(t.mid, level)], FlattenAll(t.kids, level + 1), m);
    ListedOne(Entry(t.mid, level), m);
  }

  lemma ListedOne(e: Entry, m: int)
    ensures Listed([e], m) <==> e.mid == m
    ensures !Listed([], m)
  {
    assert [e][0] == e;
  }

  lemma {:induction false} MidsFlatAll(ts: Trees, level: nat, m: int)
    ensures m in MidsOfAll(ts) <==> Listed(FlattenAll(ts, level), m)
    decreases ts, 0
  {
    hide Listed, Flatten;
    match ts
    case Nil => ListedOne(Entry(0, 0), m);
    case Cons(t, rest) =>
      MidsFlat(t, level, m);
      MidsFlatAll(rest, level, m);
      ListedConcat(Flatten(t, level), FlattenAll(rest, level), m);
  }

  lemma FoundListed(es: seq<Entry>, m: int)
    ensures Find(es, m) < |es| <==> Listed(es, m)
    ensures DistinctMids(es) && Listed(es, m) ==> Only(es, Find(es, m), m)
  {
  }

  // ----- the list in memory -----

  /** `cf_posting_t` */
  class Posting {
    const mid: int
    const level: nat
    var prev: Posting?
    var next: Posting?

    constructor (mid: int, level: nat)
      ensures this.mid == mid && this.level == level && prev == null && next == null
    {
      this.mid, this.level, prev, next := mid, level, null, null;
    }
  }

  ghost function Entries(list: seq<Posting>): (r: seq<Entry>)
    ensures |r| == |list| && forall k :: 0 <= k < |list| ==> r[k] == Entry(list[k].mid, list[k].level)
  {
    seq(|list|, k requires 0 <= k < |list| => Entry(list[k].mid, list[k].level))
  }

  ghost function At(list: seq<Posting>, k: int): Posting? { if 0 <= k < |list| then list[k] else null }

  ghost function NextIn(list: seq<Posting>, x: Posting): Posting? { At(list, IndexIn(list, x) + 1) }

  ghost function PrevIn(list: seq<Posting>, x: Posting): Posting? { At(list, IndexIn(list, x) - 1) }

  /** The pointers of all postings are those of the list. */
  ghost predicate Linked(list: seq<Posting>)
    reads list
  {
    forall x :: x in list ==> x.next == NextIn(list, x) && x.prev == PrevIn(list, x)
  }

  lemma SplicedEntries(list: seq<Posting>, i: nat, p: Posting, first: bool)
    requires i < |list| && p.level == list[i].level + 1
    ensures Entries(Spliced(list, Position(Entries(list), i, first), p)) == Inserted(Entries(list), i, p.mid, first)
  {
    hide SubtreeEnd;
  }

  lemma SplicedNext(list: seq<Posting>, k: nat, p: Posting, x: Posting)
    requires 0 < k <= |list| && Separate(list) && p !in list && (x in list || x == p)
    ensures var l := Spliced(list, k, p);
            NextIn(l, x) == (if x == p then At(list, k) else if x == list[k - 1] then p else NextIn(list, x)) &&
            PrevIn(l, x) == if x == p then list[k - 1] else if x == At(list, k) then p else PrevIn(list, x)
  {
    hide IndexIn;
    SplicedIndex(list, k, p, x);
    assert IndexIn(list, list[k - 1]) == k - 1;
    assert k < |list| ==> IndexIn(list, list[k]) == k;
  }

  /** A new posting between two neighbours, or at the end. */
  lemma SplicedLinked(list: seq<Posting>, k: nat, p: Posting)
    requires 0 < k <= |list| && Separate(list) && p !in list
    requires p.next == At(list, k) && p.prev == list[k - 1]
    requires forall x :: x in list ==> x.next == if x == list[k - 1] then p else NextIn(list, x)
    requires forall x :: x in list ==> x.prev == if x == At(list, k) then p else PrevIn(list, x)
    ensures Linked(Spliced(list, k, p))
  {
    hide IndexIn, NextIn, PrevIn, Separate;
    var l := Spliced(list, k, p);
    forall x | x in l ensures x.next == NextIn(l, x) && x.prev == PrevIn(l, x) {
      SplicedNext(list, k, p, x);
    }
  }

  lemma LinkOf(list: seq<Posting>, i: int)
    requires Linked(list) && Separate(list) && 0 <= i < |list|
    ensures list[i].next == At(list, i + 1) && list[i].prev == At(list, i - 1)
    ensures NextIn(list, list[i]) == At(list, i + 1) && PrevIn(list, list[i]) == At(list, i - 1)
  {
    hide IndexIn, Linked, NextIn, PrevIn;
    LinkedAt(list, list[i]);
    assert IndexIn(list, list[i]) == i;
    IndexedLinks(list, list[i], i);
  }

  lemma LinkedAt(list: seq<Posting>, x: Posting)
    requires Linked(list) && x in list
    ensures x.next == NextIn(list, x) && x.prev == PrevIn(list, x)
  {
    hide NextIn, PrevIn;
  }

  lemma IndexedLinks(list: seq<Posting>, x: Posting, i: int)
    requires IndexIn(list, x) == i
    ensures NextIn(list, x) == At(list, i + 1) && PrevIn(list, x) == At(list, i - 1)
  {
    hide IndexIn;
  }

  /** `cf_thread_t` with at least one posting. */
  class Thread {
    var postings: Posting
    var last: Posting
    ghost var list: seq<Posting>
    ghost var tree: Tree

    /** The list is well linked and denotes the tree. */
    ghost predicate Valid()
      reads this, list
    {
      && list != [] && postings == list[0] && Linked(list) && Separate(list) && last in list
      && Entries(list) == Flatten(tree, 0) && DistinctMids(Entries(list))
    }

    constructor (p: Posting)
      requires p.level == 0 && p.prev == null && p.next == null
      ensures Valid() && tree == Node(p.mid, Nil) && list == [p] && last == p
    {
      postings, last, list, tree := p, p, [p], Node(p.mid, Nil);
      new;
      OneNode(p.mid, 0);
      assert Entries([p]) == [Entry(p.mid, 0)];
    }

    /** `cf_get_posting` */
    method GetPosting(mid: int) returns (p: Posting?, ghost i: nat)
      requires list != [] && postings == list[0] && Linked(list) && Separate(list)
      ensures i == Find(Entries(list), mid) && p == At(list, Find(Entries(list), mid))
    {
      hide Linked, Separate, NextIn, PrevIn;
      p := postings;
      i := 0;
      ghost var es := Entries(list);
      assert es[0..] == es;
      while p != null && p.mid != mid
        invariant 0 <= i <= |list| && p == At(list, i) && Linked(list)
        invariant Find(es, mid) == i + Find(es[i..], mid)
        decreases |list| - i
      {
        FindNext(es, i, mid);
        LinkOf(list, i);
        p := p.next;
        i := i + 1;
      }
      FindHere(es, i, mid);
    }

    /** Behind p1: `next` of the new posting is p1's. */
    method LinkBehind(p1: Posting, p: Posting, ghost i: nat)
      requires Linked(list) && Separate(list) && i < |list| && p1 == list[i] && p !in list
      modifies this`last, p, list
      ensures Linked(Spliced(list, i + 1, p))
      ensures last == if i + 1 == |list| then p else old(last)
    {
      hide NextIn, PrevIn, Separate;
      LinkOf(list, i);
      p.next := p1.next;
      p1.next := p;
      p.prev := p1;
      if p.next != null { p.next.prev := p; } else { last := p; }
      SplicedLinked(list, i + 1, p);
    }

    /** Behind the last posting of the thread. */
    method LinkLast(p2: Posting, p: Posting)
      requires Linked(list) && Separate(list) && list != [] && p2 == list[|list| - 1] && p !in list
      requires p.next == null
      modifies p, list
      ensures Linked(Spliced(list, |list|, p))
    {
      hide NextIn, PrevIn, Separate;
      p2.next := p;
      p.prev := p2;
      SplicedLinked(list, |list|, p);
    }

    /** In front of p2. */
    method LinkBefore(p2: Posting, p: Posting, ghost k: nat)
      requires Linked(list) && Separate(list) && 0 < k < |list| && p2 == list[k] && p !in list
      modifies p, list
      ensures Linked(Spliced(list, k, p))
    {
      hide NextIn, PrevIn, Separate;
      LinkOf(list, k);
      LinkOf(list, k - 1);
      p.next := p2;
      p.prev := p2.prev;
      p2.prev.next := p;
      p2.prev := p;
      SplicedLinked(list, k, p);
    }

    /** The search for the end of the subtree of p1: the last posting looked at. */
    method FindEnd(p1: Posting, ghost i: nat) returns (p2: Posting, ghost j: nat)
      requires Linked(list) && Separate(list) && i + 1 < |list| && p1 == list[i]
      ensures i < j < |list| && p2 == list[j]
      ensures var k := SubtreeEnd(Entries(list), i + 1, p1.level); p2 == list[if k == |list| then k - 1 else k]
      ensures var k := SubtreeEnd(Entries(list), i + 1, p1.level);
              if p2.level > p1.level then j == |list| - 1 && k == |list| else k == j
    {
      hide Linked, Separate, NextIn, PrevIn;
      LinkOf(list, i);
      p2, j := p1.next, i + 1;
      ghost var es := Entries(list);
      while p2.next != null && p2.level > p1.level
        invariant i < j < |list| && p2 == list[j] && Linked(list)
        invariant SubtreeEnd(es, i + 1, p1.level) == SubtreeEnd(es, j, p1.level)
        decreases |list| - j
      {
        LinkOf(list, j);
        p2 := p2.next;
        j := j + 1;
      }
      LinkOf(list, j);
      EndHere(es, j, p1.level);
    }

    /** Splices a posting in as the first (descending order) or last answer to p1.  The
        pointer to the last posting is kept up only where the posting comes directly
        behind p1. */
    method Insert(p1: Posting, p: Posting, descending: bool, ghost i: nat)
      requires Valid() && i < |list| && p1 == list[i] && p.prev == null && p.next == null
      requires p.level == p1.level + 1 && !Listed(Entries(list), p.mid)
      modifies this, list, p
      ensures Valid() && tree == AddChild(old(tree), p1.mid, p.mid, descending)
      ensures list == Spliced(old(list), Position(Entries(old(list)), i, descending), p)
      ensures old(last == list[|list| - 1]) ==>
                (last == list[|list| - 1] <==> descending || i + 1 == |old(list)| || list[|list| - 1] != p)
    {
      hide Flatten, AddChild, Linked, Separate, DistinctMids, Entries, SubtreeEnd, IndexIn, Listed, Spliced, NextIn, PrevIn;
      ghost var k := Position(Entries(list), i, descending);
      NotListed(list, p);
      LinkOf(list, i);
      SplicedSeparate(list, k, p);
      SplicedEnds(list, k, p);
      if descending || p1.next == null {
        LinkBehind(p1, p, i);
      } else {
        var p2, j := FindEnd(p1, i);
        if p2.level > p1.level {
          LinkLast(p2, p);
        } else {
          LinkBefore(p2, p, j);
        }
      }
      InsertValid(list, tree, p, i, descending);
      tree := AddChild(tree, p1.mid, p.mid, descending);
      list := Spliced(list, k, p);
    }

    /** One record. */
    method ReplayOne(r: Record, descending: bool)
      requires Valid() && Playable(Entries(list), [r], descending)
      modifies this, list
      ensures Valid() && tree == Replayed(old(tree), [r], descending)
      ensures Entries(list) == PlayedOne(old(Entries(list)), r, descending)
      ensures forall x :: x in list ==> x in old(list) || fresh(x)
    {
      hide Flatten, AddChild, Linked, Separate, DistinctMids, Inserted, Listed, Only, Spliced, Entries, Find;
      MidsFlat(tree, 0, r.mid);
      FoundListed(Entries(list), r.mid);
      ReplayedOne(tree, r, descending);
      var p1, _ := GetPosting(r.mid);
      if p1 == null {
        var p := new Posting(r.mid, r.level);
        ghost var i;
        p1, i := GetPosting(r.parent);
        EntryAt(list, i);
        SplicedEntries(list, i, p, descending);
        SplicedEnds(list, Position(Entries(list), i, descending), p);
        Insert(p1, p, descending, i);
      }
    }

    /** The loop over the records of this thread. */
    method Replay(records: seq<Record>, descending: bool)
      requires Valid() && Playable(Entries(list), records, descending)
      modifies this, list
      ensures Valid() && tree == Replayed(old(tree), records, descending)
    {
      hide Flatten, AddChild, Valid, Inserted, Entries, Playable, Replayed;
      var k := 0;
      assert records[0..] == records;
      while k < |records|
        invariant 0 <= k <= |records| && Valid()
        invariant Playable(Entries(list), records[k..], descending)
        invariant Replayed(old(tree), records, descending) == Replayed(tree, records[k..], descending)
        invariant forall x :: x in list ==> x in old(list) || fresh(x)
        invariant forall j :: 0 <= j < |list| ==> list[j] in old(list) || fresh(list[j])
      {
        assert records[k..][0] == records[k] && records[k..][1..] == records[k + 1..];
        PlayableStep(Entries(list), tree, records[k..], descending);
        ReplayOne(records[k], descending);
        assert forall j :: 0 <= j < |list| ==> list[j] in list;
        k := k + 1;
      }
      assert records[k..] == [];
      ReplayedNothing(tree, descending);
    }
  }

  /** The list behind one record. */
  ghost function PlayedOne(es: seq<Entry>, r: Record, first: bool): seq<Entry> {
    if Find(es, r.mid) < |es| || Find(es, r.parent) >= |es| then es
    else Inserted(es, Find(es, r.parent), r.mid, first)
  }

  lemma PlayableStep(es: seq<Entry>, t: Tree, records: seq<Record>, first: bool)
    requires records != [] && Playable(es, records, first)
    ensures Playable(es, [records[0]], first) && Playable(PlayedOne(es, records[0], first), records[1..], first)
    ensures Replayed(t, records, first) == Replayed(Replayed(t, [records[0]], first), records[1..], first)
  {
    hide Inserted, Find, AddChild;
    assert [records[0]][1..] == [];
  }

  lemma ReplayedOne(t: Tree, r: Record, first: bool)
    ensures Replayed(t, [r], first) == if r.mid in MidsOf(t) then t else AddChild(t, r.parent, r.mid, first)
  {
    hide AddChild, MidsOf;
    assert [r][1..] == [];
  }

  lemma ReplayedNothing(t: Tree, first: bool)
    ensures Replayed(t, [], first) == t
  {
  }

  lemma EntryAt(list: seq<Posting>, i: nat)
    ensures |Entries(list)| == |list|
    ensures i < |list| ==> Entries(list)[i] == Entry(list[i].mid, list[i].level)
  {
  }

  lemma FindNext(es: seq<Entry>, i: nat, mid: int)
    requires i < |es| && es[i].mid != mid
    ensures Find(es[i..], mid) == 1 + Find(es[i + 1..], mid)
  {
    assert es[i..][1..] == es[i + 1..];
  }

  lemma FindHere(es: seq<Entry>, i: nat, mid: int)
    requires i <= |es| && (i < |es| ==> es[i].mid == mid)
    ensures Find(es[i..], mid) == 0
  {
  }

  lemma EndHere(es: seq<Entry>, j: nat, level: nat)
    requires j < |es|
    ensures es[j].level <= level ==> SubtreeEnd(es, j, level) == j
    ensures es[j].level > level && j + 1 == |es| ==> SubtreeEnd(es, j, level) == |es|
    ensures es[j].level > level ==> SubtreeEnd(es, j, level) == SubtreeEnd(es, j + 1, level)
  {
  }

  lemma NotListed(list: seq<Posting>, p: Posting)
    requires !Listed(Entries(list), p.mid)
    ensures IndexIn(list, p) == |list| && p !in list
  {
    hide IndexIn;
    var es := Entries(list);
    forall j | 0 <= j < |list| ensures list[j] != p {
      assert es[j].mid == list[j].mid;
    }
  }

  /** What keeps the thread valid. */
  lemma InsertValid(list: seq<Posting>, tree: Tree, p: Posting, i: nat, first: bool)
    requires i < |list| && p.level == list[i].level + 1 && !Listed(Entries(list), p.mid)
    requires Entries(list) == Flatten(tree, 0) && DistinctMids(Entries(list))
    ensures var l := Spliced(list, Position(Entries(list), i, first), p);
            Entries(l) == Flatten(AddChild(tree, list[i].mid, p.mid, first), 0) && DistinctMids(Entries(l))
  {
    hide Flatten, AddChild, Inserted, Spliced;
    SplicedEntries(list, i, p, first);
    AddChildFlat(tree, 0, i, list[i].mid, p.mid, first);
    PutDistinct(Entries(list), Position(Entries(list), i, first), Entry(p.mid, p.level));
    InsertedIsPut(Entries(list), i, p.mid, first);
  }

  lemma InsertedIsPut(es: seq<Entry>, i: nat, p: int, first: bool)
    requires i < |es|
    ensures Inserted(es, i, p, first) == Put(es, Position(es, i, first), Entry(p, es[i].level + 1))
  {
  }

  lemma PutDistinct(es: seq<Entry>, k: nat, e: Entry)
    requires k <= |es| && DistinctMids(es) && !Listed(es, e.mid)
    ensures DistinctMids(Put(es, k, e))
  {
    var u := Put(es, k, e);
    assert forall j :: 0 <= j < k ==> u[j] == es[j];
    assert forall j :: k < j < |u| ==> u[j] == es[j - 1];
  }
}
