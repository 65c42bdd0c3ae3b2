/** Who answers whom behind a replay in src/cf-recovery.c. */
module RecoveryLaws {
  // A thread as the answers to each of its postings, in their order.

  import opened Recovery

  function Heads(ts: Trees): seq<int> {
    match ts
    case Nil => []
    case Cons(t, rest) => [t.mid] + Heads(rest)
  }

  /** The answers to the posting x, in their order. */
  function AnswersTo(t: Tree, x: int): seq<int> {
    if t.mid == x then Heads(t.kids) else AnswersIn(t.kids, x)
  }

  function AnswersIn(ts: Trees, x: int): seq<int> {
    match ts
    case Nil => []
    case Cons(t, rest) => if x in MidsOf(t) then AnswersTo(t, x) else AnswersIn(rest, x)
  }

  /** No id stands in the tree twice. */
  ghost predicate Distinct(t: Tree) { t.mid !in MidsOfAll(t.kids) && DistinctIn(t.kids) }

  ghost predicate DistinctIn(ts: Trees) {
    match ts
    case Nil => true
    case Cons(t, rest) => Distinct(t) && DistinctIn(rest) && MidsOf(t) !! MidsOfAll(rest)
  }

  /** Where the answer p to m goes. */
  function Joined(answers: seq<int>, p: int, first: bool): seq<int> {
    if first then [p] + answers else answers + [p]
  }

  lemma {:induction false} NoAnswers(t: Tree, x: int)
    requires x !in MidsOf(t)
    ensures AnswersTo(t, x) == []
    decreases t, 1
  {
    NoAnswersIn(t.kids, x);
  }

  lemma {:induction false} NoAnswersIn(ts: Trees, x: int)
    requires x !in MidsOfAll(ts)
    ensures AnswersIn(ts, x) == []
    decreases ts, 0
  {
    if ts.Cons? {
      NoAnswersIn(ts.tail, x);
    }
  }

  lemma {:induction false} Absent(t: Tree, m: int, p: int, first: bool)
    requires m !in MidsOf(t)
    ensures AddChild(t, m, p, first) == t
    decreases t, 1
  {
    AbsentIn(t.kids, m, p, first);
  }

  lemma {:induction false} AbsentIn(ts: Trees, m: int, p: int, first: bool)
    requires m !in MidsOfAll(ts)
    ensures AddAll(ts, m, p, first) == ts
    decreases ts, 0
  {
    if ts.Cons? {
      Absent(ts.head, m, p, first);
      AbsentIn(ts.tail, m, p, first);
    }
  }

  lemma {:induction false} AppendKids(ts: Trees, p: int, x: int)
    requires DistinctIn(ts) && p !in MidsOfAll(ts)
    ensures var us := Append(ts, Node(p, Nil));
            Heads(us) == Heads(ts) + [p] && MidsOfAll(us) == MidsOfAll(ts) + {p} && DistinctIn(us) &&
            AnswersIn(us, x) == AnswersIn(ts, x)
  {
    LeafIn(p, x);
    if ts.Cons? {
      AppendKids(ts.tail, p, x);
    } else {
      assert Heads(Cons(Node(p, Nil), Nil)) == [p] + Heads(Nil);
    }
  }

  lemma LeafIn(p: int, x: int)
    ensures MidsOf(Node(p, Nil)) == {p} && Distinct(Node(p, Nil)) && AnswersTo(Node(p, Nil), x) == []
    ensures MidsOfAll(Cons(Node(p, Nil), Nil)) == {p} && AnswersIn(Cons(Node(p, Nil), Nil), x) == []
  {
    assert MidsOfAll(Nil) == {} && AnswersIn(Nil, x) == [] && Heads(Nil) == [];
  }

  /** A new answer p to m: m has one answer more, p none, and all others are as before. */
  lemma {:induction false} AddChildAnswers(t: Tree, m: int, p: int, first: bool, x: int)
    requires Distinct(t) && m in MidsOf(t) && p !in MidsOf(t)
    ensures var u := AddChild(t, m, p, first);
            u.mid == t.mid && MidsOf(u) == MidsOf(t) + {p} && Distinct(u) &&
            AnswersTo(u, x) == if x == m then Joined(AnswersTo(t, m), p, first) else AnswersTo(t, x)
    decreases t, 1
  {
    LeafIn(p, x);
    if t.mid == m {
      AppendKids(t.kids, p, x);
      if x == p {
        NoAnswersIn(t.kids, p);
      }
    } else {
      AddAllAnswers(t.kids, m, p, first, x);
    }
  }

  lemma {:induction false} AddAllAnswers(ts: Trees, m: int, p: int, first: bool, x: int)
    requires DistinctIn(ts) && m in MidsOfAll(ts) && p !in MidsOfAll(ts)
    ensures var us := AddAll(ts, m, p, first);
            Heads(us) == Heads(ts) && MidsOfAll(us) == MidsOfAll(ts) + {p} && DistinctIn(us) &&
            AnswersIn(us, x) == if x == m then Joined(AnswersIn(ts, m), p, first) else AnswersIn(ts, x)
    decreases ts, 0
  {
    if m in MidsOf(ts.head) {
      AddChildAnswers(ts.head, m, p, first, x);
      AbsentIn(ts.tail, m, p, first);
      if x == p {
        NoAnswers(ts.head, p);
        NoAnswersIn(ts.tail, p);
      }
    } else {
      Absent(ts.head, m, p, first);
      AddAllAnswers(ts.tail, m, p, first, x);
    }
  }

  /** The records that bring a new answer to x, in their order: the posting is not known yet
      and the one it answers is. */
  function NewAnswers(known: set<int>, records: seq<Record>, x: int): seq<int>
    decreases |records|
  {
    if records == [] then []
    else
      var r := records[0];
      if r.mid in known || r.parent !in known then NewAnswers(known, records[1..], x)
      else (if r.parent == x then [r.mid] else []) + NewAnswers(known + {r.mid}, records[1..], x)
  }

  /** All ids behind the records. */
  function Known(known: set<int>, records: seq<Record>): set<int>
    decreases |records|
  {
    if records == [] then known
    else
      var r := records[0];
      Known(if r.parent in known then known + {r.mid} else known, records[1..])
  }

  function Reversed(s: seq<int>): seq<int> { if s == [] then [] else Reversed(s[1..]) + [s[0]] }

  /** The answers there were and those that came: behind them, or reversed before them. */
  function Merged(answers: seq<int>, added: seq<int>, first: bool): seq<int> {
    if first then Reversed(added) + answers else answers + added
  }

  lemma MergedOne(answers: seq<int>, p: int, later: seq<int>, first: bool)
    ensures Merged(Joined(answers, p, first), later, first) == Merged(answers, [p] + later, first)
  {
    if first {
      assert ([p] + later)[1..] == later;
    }
  }

  lemma MergedNothing(answers: seq<int>, first: bool)
    ensures Merged(answers, [], first) == answers
  {
  }

  /** Each posting keeps its answers and gets the new ones behind them in the order of the
      records, or before them in the opposite order. */
  lemma {:induction false} ReplayedAnswers(t: Tree, records: seq<Record>, first: bool, x: int)
    requires Distinct(t)
    ensures var u := Replayed(t, records, first);
            var added := NewAnswers(MidsOf(t), records, x);
            Distinct(u) && u.mid == t.mid && MidsOf(u) == Known(MidsOf(t), records) &&
            AnswersTo(u, x) == Merged(AnswersTo(t, x), added, first)
    decreases |records|
  {
    hide Distinct, AddChild, MidsOf, AnswersTo, Merged, Joined;
    if records == [] {
      MergedNothing(AnswersTo(t, x), first);
    } else {
      var r := records[0];
      var known := MidsOf(t);
      if r.mid in known {
        assert known + {r.mid} == known;
        ReplayedAnswers(t, records[1..], first, x);
      } else if r.parent !in known {
        Absent(t, r.parent, r.mid, first);
        ReplayedAnswers(t, records[1..], first, x);
      } else {
        AddChildAnswers(t, r.parent, r.mid, first, x);
        ReplayedAnswers(AddChild(t, r.parent, r.mid, first), records[1..], first, x);
        var later, was := NewAnswers(known + {r.mid}, records[1..], x), AnswersTo(t, x);
        MergedOne(was, r.mid, later, first);
        assert [] + later == later;
      }
    }
  }

  /** Distinct ids in the list are distinct ids in the tree. */
  lemma {:induction false} DistinctFlat(t: Tree, level: nat)
    requires DistinctMids(Flatten(t, level))
    ensures Distinct(t)
    decreases t, 1
  {
    var kids := FlattenAll(t.kids, level + 1);
    assert forall j :: 0 <= j < |kids| ==> kids[j] == Flatten(t, level)[1 + j];
    DistinctFlatIn(t.kids, level + 1);
    MidsFlatAll(t.kids, level + 1, t.mid);
  }

  lemma {:induction false} DistinctFlatIn(ts: Trees, level: nat)
    requires DistinctMids(FlattenAll(ts, level))
    ensures DistinctIn(ts)
    decreases ts, 0
  {
    if ts.Cons? {
      var a, b := Flatten(ts.head, level), FlattenAll(ts.tail, level);
      assert forall j :: 0 <= j < |a| ==> a[j] == (a + b)[j];
      assert forall j :: 0 <= j < |b| ==> b[j] == (a + b)[|a| + j];
      DistinctFlat(ts.head, level);
      DistinctFlatIn(ts.tail, level);
      forall m | m in MidsOf(ts.head) ensures m !in MidsOfAll(ts.tail) {
        MidsFlat(ts.head, level, m);
        MidsFlatAll(ts.tail, level, m);
        ListedOnce(a, b, m);
      }
    }
  }

  lemma ListedOnce(a: seq<Entry>, b: seq<Entry>, m: int)
    requires DistinctMids(a + b) && Listed(a, m)
    ensures !Listed(b, m)
  {
    var i :| 0 <= i < |a| && a[i].mid == m;
    forall j | 0 <= j < |b| ensures b[j].mid != m {
      assert (a + b)[i] == a[i] && (a + b)[|a| + j] == b[j];
    }
  }
}
