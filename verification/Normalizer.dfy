/** Unicode normalization in scripts/nameprep_normalizer.js. */
module Normalizer {
  // Decomposition with canonical ordering of combining marks, and the arithmetic of Hangul
  // syllables.  A string is a sequence of 16-bit units; the data tables are parameters.

  import opened Wrappers

  type Unit = x: int | 0 <= x < 0x1_0000

  /** `KD_Map`, `CC_Map` and `KC_Map`; the latter's key joins two units. */
  datatype Tables = Tables(kd: map<Unit, seq<Unit>>, cc: map<Unit, nat>, kc: map<(Unit, Unit), Unit>)

  /** `canonicalClass`. */
  function ClassOf(tb: Tables, ch: Unit): nat { if ch in tb.cc then tb.cc[ch] else 0 }

  // ----- Hangul -----

  const SBase := 0xAC00
  const LBase := 0x1100
  const VBase := 0x1161
  const TBase := 0x11A7
  const LCount := 19
  const VCount := 21
  const TCount := 28
  const NCount := 588
  const LLimit := 0x1113
  const VLimit := 0x1176
  const TLimit := 0x11C3
  const SLimit := 0xD7A4

  predicate Syllable(ch: int) { SBase <= ch < SLimit }

  /** What `String.fromCharCode` makes of a number that is not negative. */
  function FromCharCode(x: real): Unit
    requires x >= 0.0
  {
    x.Floor % 0x1_0000
  }

  /** `decomposeHangul`: the divisions are of floating point numbers, cut off only when the
      characters are made. */
  function DecomposeHangul(s: Unit): (r: seq<Unit>)
    requires Syllable(s)
    ensures |r| == 2 || |r| == 3
  {
    var sIndex := s - SBase;
    var l := LBase as real + sIndex as real / NCount as real;
    var v := VBase as real + (sIndex % NCount) as real / TCount as real;
    var t := TBase + sIndex % TCount;
    var result := [FromCharCode(l)] + [FromCharCode(v)];
    if t != TBase then result + [FromCharCode(t as real)] else result
  }

  function ComposeHangul(char1: Unit, char2: Unit): Option<Unit> {
    if LBase <= char1 < LLimit && VBase <= char2 < VLimit then
      Some(SBase + ((char1 - LBase) * VCount + (char2 - VBase)) * TCount)
    else if SBase <= char1 < SLimit && TBase <= char2 < TLimit && (char1 - SBase) % TCount == 0 then
      Some(char1 + (char2 - TBase))
    else None
  }

  // ----- decomposing -----

  /** `rawDecompose`: an empty table entry counts as none. */
  function RawDecompose(tb: Tables, ch: Unit): (r: seq<Unit>)
    ensures r != []
  {
    if Syllable(ch) then DecomposeHangul(ch)
    else if ch in tb.kd && tb.kd[ch] != [] then tb.kd[ch]
    else [ch]
  }

  /** The decompositions one after the other. */
  function Raw(tb: Tables, s: seq<Unit>): seq<Unit> {
    if s == [] then [] else Raw(tb, s[..|s| - 1]) + RawDecompose(tb, s[|s| - 1])
  }

  /** A mark goes in front of the marks of higher class at the end; a starter to the end. */
  function Insert(tb: Tables, r: seq<Unit>, ch: Unit): seq<Unit> {
    if ClassOf(tb, ch) == 0 || r == [] || ClassOf(tb, r[|r| - 1]) <= ClassOf(tb, ch) then r + [ch]
    else Insert(tb, r[..|r| - 1], ch) + [r[|r| - 1]]
  }

  function Reordered(tb: Tables, s: seq<Unit>): seq<Unit> {
    if s == [] then [] else Insert(tb, Reordered(tb, s[..|s| - 1]), s[|s| - 1])
  }

  function Decomposed(tb: Tables, s: seq<Unit>): seq<Unit> { Reordered(tb, Raw(tb, s)) }

  // ----- what canonical ordering is -----

  /** No mark directly follows a mark of higher class. */
  ghost predicate Ordered(tb: Tables, s: seq<Unit>) {
    forall i :: 0 < i < |s| ==> ClassOf(tb, s[i]) == 0 || ClassOf(tb, s[i - 1]) <= ClassOf(tb, s[i])
  }

  predicate Kept(tb: Tables, ch: Unit, c: nat) { ClassOf(tb, ch) == 0 || ClassOf(tb, ch) == c }

  /** The starters and the marks of class c, in their order. */
  ghost function Proj(tb: Tables, s: seq<Unit>, c: nat): seq<Unit> {
    if s == [] then []
    else Proj(tb, s[..|s| - 1], c) + if Kept(tb, s[|s| - 1], c) then [s[|s| - 1]] else []
  }

  /** The same starters, and between them the same marks in the same order class by class. */
  ghost predicate SameMarks(tb: Tables, a: seq<Unit>, b: seq<Unit>) {
    forall c: nat :: Proj(tb, a, c) == Proj(tb, b, c)
  }

  lemma {:induction false} ProjConcat(tb: Tables, a: seq<Unit>, b: seq<Unit>, c: nat)
    ensures Proj(tb, a + b, c) == Proj(tb, a, c) + Proj(tb, b, c)
  {
    if b == [] {
      assert a + b == a;
    } else {
      var b', x := b[..|b| - 1], b[|b| - 1];
      ProjConcat(tb, a, b', c);
      assert (a + b)[..|a + b| - 1] == a + b';
    }
  }

  lemma ProjSnoc(tb: Tables, a: seq<Unit>, x: Unit, c: nat)
    ensures Proj(tb, a + [x], c) == Proj(tb, a, c) + if Kept(tb, x, c) then [x] else []
  {
    assert (a + [x])[..|a|] == a;
  }

  lemma {:induction false} InsertKeeps(tb: Tables, r: seq<Unit>, x: Unit, c: nat)
    ensures Proj(tb, Insert(tb, r, x), c) == Proj(tb, r + [x], c)
    decreases |r|
  {
    hide Proj;
    if !(ClassOf(tb, x) == 0 || r == [] || ClassOf(tb, r[|r| - 1]) <= ClassOf(tb, x)) {
      var r', y := r[..|r| - 1], r[|r| - 1];
      InsertKeeps(tb, r', x, c);
      assert r == r' + [y];
      ProjSnoc(tb, Insert(tb, r', x), y, c);
      ProjSnoc(tb, r', x, c);
      ProjSnoc(tb, r', y, c);
      ProjSnoc(tb, r, x, c);
    }
  }

  lemma {:induction false} InsertOrdered(tb: Tables, r: seq<Unit>, x: Unit)
    requires Ordered(tb, r)
    ensures Ordered(tb, Insert(tb, r, x))
    ensures var s := Insert(tb, r, x); s != [] && (s[|s| - 1] == x || (r != [] && s[|s| - 1] == r[|r| - 1]))
    decreases |r|
  {
    hide ClassOf;
    if !(ClassOf(tb, x) == 0 || r == [] || ClassOf(tb, r[|r| - 1]) <= ClassOf(tb, x)) {
      InsertOrdered(tb, r[..|r| - 1], x);
    }
  }

  lemma {:induction false} InsertCounts(tb: Tables, r: seq<Unit>, x: Unit)
    ensures multiset(Insert(tb, r, x)) == multiset(r) + multiset{x}
    decreases |r|
  {
    hide ClassOf;
    if r != [] {
      assert r == r[..|r| - 1] + [r[|r| - 1]];
      InsertCounts(tb, r[..|r| - 1], x);
    }
  }

  /** Reordering sorts the marks between starters stably by class and leaves the starters. */
  lemma {:induction false} ReorderedCorrect(tb: Tables, s: seq<Unit>)
    ensures Ordered(tb, Reordered(tb, s)) && SameMarks(tb, Reordered(tb, s), s)
    ensures multiset(Reordered(tb, s)) == multiset(s)
  {
    hide Insert, Ordered, Kept, Proj, ClassOf;
    if s == [] {
      NothingOrdered(tb);
    } else {
      var s', x := s[..|s| - 1], s[|s| - 1];
      ReorderedCorrect(tb, s');
      InsertOrdered(tb, Reordered(tb, s'), x);
      InsertCounts(tb, Reordered(tb, s'), x);
      assert s == s' + [x];
      forall c: nat ensures Proj(tb, Reordered(tb, s), c) == Proj(tb, s, c) {
        InsertKeeps(tb, Reordered(tb, s'), x, c);
        ProjSnoc(tb, Reordered(tb, s'), x, c);
        ProjSnoc(tb, s', x, c);
      }
    }
  }

  lemma NothingOrdered(tb: Tables)
    ensures Ordered(tb, [])
  {
  }

  // ----- the ordering is canonical -----

  lemma {:induction false} LastClass(tb: Tables, a: seq<Unit>, c: nat)
    requires Ordered(tb, a) && Proj(tb, a, c) != [] && c > 0
    requires ClassOf(tb, Proj(tb, a, c)[|Proj(tb, a, c)| - 1]) == c
    ensures a != [] && ClassOf(tb, a[|a| - 1]) >= c
    decreases |a|
  {
    hide ClassOf;
    if !Kept(tb, a[|a| - 1], c) {
      LastClass(tb, a[..|a| - 1], c);
    }
  }

  lemma LastKept(tb: Tables, b: seq<Unit>)
    requires b != []
    ensures var p := Proj(tb, b, ClassOf(tb, b[|b| - 1])); p != [] && p[|p| - 1] == b[|b| - 1]
  {
  }

  /** A last mark of one string bounds the class of the other's last character. */
  lemma LastAtLeast(tb: Tables, a: seq<Unit>, b: seq<Unit>)
    requires Ordered(tb, a) && SameMarks(tb, a, b) && b != []
    ensures ClassOf(tb, b[|b| - 1]) > 0 ==> a != [] && ClassOf(tb, a[|a| - 1]) >= ClassOf(tb, b[|b| - 1])
    ensures a != []
  {
    hide ClassOf, Ordered;
    var y := b[|b| - 1];
    LastKept(tb, b);
    assert Proj(tb, a, ClassOf(tb, y)) == Proj(tb, b, ClassOf(tb, y));
    if ClassOf(tb, y) > 0 {
      LastClass(tb, a, ClassOf(tb, y));
    }
  }

  /** Two ordered strings with the same starters and the same marks class by class are equal. */
  lemma {:induction false} OrderUnique(tb: Tables, a: seq<Unit>, b: seq<Unit>)
    requires Ordered(tb, a) && Ordered(tb, b) && SameMarks(tb, a, b)
    ensures a == b
    decreases |a|
  {
    hide ClassOf, Ordered, Kept, Proj;
    if a == [] || b == [] {
      if b != [] { LastAtLeast(tb, a, b); }
      if a != [] { LastAtLeast(tb, b, a); }
    } else {
      var a', x, b', y := a[..|a| - 1], a[|a| - 1], b[..|b| - 1], b[|b| - 1];
      LastAtLeast(tb, a, b);
      LastAtLeast(tb, b, a);
      LastKept(tb, a);
      LastKept(tb, b);
      assert Proj(tb, a, ClassOf(tb, x)) == Proj(tb, b, ClassOf(tb, x));
      assert x == y;
      assert a == a' + [x] && b == b' + [x];
      OrderedPrefix(tb, a', x);
      OrderedPrefix(tb, b', x);
      forall c: nat ensures Proj(tb, a', c) == Proj(tb, b', c) {
        ProjSnoc(tb, a', x, c);
        ProjSnoc(tb, b', x, c);
        assert Proj(tb, a, c) == Proj(tb, b, c);
        SameTail(Proj(tb, a', c), Proj(tb, b', c), if Kept(tb, x, c) then [x] else []);
      }
      OrderUnique(tb, a', b');
    }
  }

  lemma SameTail(p: seq<Unit>, q: seq<Unit>, t: seq<Unit>)
    requires p + t == q + t
    ensures p == q
  {
    assert (p + t)[..|p|] == p && (q + t)[..|q|] == q;
  }

  lemma OrderedPrefix(tb: Tables, a: seq<Unit>, x: Unit)
    requires Ordered(tb, a + [x])
    ensures Ordered(tb, a)
  {
    hide ClassOf;
    var s := a + [x];
    forall i | 0 < i < |a| ensures ClassOf(tb, a[i]) == 0 || ClassOf(tb, a[i - 1]) <= ClassOf(tb, a[i]) {
      assert s[i] == a[i] && s[i - 1] == a[i - 1];
    }
  }

  lemma SameMarksTrans(tb: Tables, a: seq<Unit>, b: seq<Unit>, c: seq<Unit>)
    requires SameMarks(tb, a, b)
    ensures SameMarks(tb, b, a)
    ensures SameMarks(tb, b, c) ==> SameMarks(tb, a, c)
  {
    hide Proj;
    if SameMarks(tb, b, c) {
      forall k: nat ensures Proj(tb, a, k) == Proj(tb, c, k) {
        assert Proj(tb, a, k) == Proj(tb, b, k);
      }
    }
  }

  /** The decomposed form is canonical: it depends exactly on the starters and on the marks
      class by class between them. */
  lemma DecomposedEqual(tb: Tables, s: seq<Unit>, u: seq<Unit>)
    ensures Decomposed(tb, s) == Decomposed(tb, u) <==> SameMarks(tb, Raw(tb, s), Raw(tb, u))
  {
    hide Raw, Reordered, SameMarks, Ordered;
    var rs, ru := Raw(tb, s), Raw(tb, u);
    ReorderedCorrect(tb, rs);
    ReorderedCorrect(tb, ru);
    SameMarksTrans(tb, Reordered(tb, rs), rs, ru);
    SameMarksTrans(tb, Reordered(tb, ru), ru, rs);
    if Decomposed(tb, s) == Decomposed(tb, u) {
      SameMarksTrans(tb, rs, Reordered(tb, rs), ru);
    } else if SameMarks(tb, rs, ru) {
      SameMarksTrans(tb, Reordered(tb, rs), ru, Reordered(tb, ru));
      OrderUnique(tb, Reordered(tb, rs), Reordered(tb, ru));
    }
  }

  /** Hypothesis on the tables: what a unit decomposes to does not decompose further. */
  ghost predicate FullyDecomposed(tb: Tables) {
    forall ch: Unit, d: Unit :: d in RawDecompose(tb, ch) ==> RawDecompose(tb, d) == [d]
  }

  ghost predicate Fixed(tb: Tables, s: seq<Unit>) { forall d: Unit :: d in s ==> RawDecompose(tb, d) == [d] }

  lemma {:induction false} RawFixed(tb: Tables, s: seq<Unit>)
    requires FullyDecomposed(tb)
    ensures Fixed(tb, Raw(tb, s))
  {
    hide RawDecompose;
    if s != [] {
      RawFixed(tb, s[..|s| - 1]);
    }
  }

  lemma {:induction false} RawOfFixed(tb: Tables, s: seq<Unit>)
    requires Fixed(tb, s)
    ensures Raw(tb, s) == s
  {
    hide RawDecompose;
    if s != [] {
      RawOfFixed(tb, s[..|s| - 1]);
      assert s[|s| - 1] in s;
    }
  }

  /** Decomposing twice is decomposing once. */
  lemma DecomposedIdempotent(tb: Tables, s: seq<Unit>)
    requires FullyDecomposed(tb)
    ensures Decomposed(tb, Decomposed(tb, s)) == Decomposed(tb, s)
  {
    hide Reordered, Raw, SameMarks, Ordered, RawDecompose;
    var d := Decomposed(tb, s);
    ReorderedCorrect(tb, Raw(tb, s));
    RawFixed(tb, s);
    forall x: Unit | x in d ensures RawDecompose(tb, x) == [x] {
      assert x in multiset(d);
    }
    RawOfFixed(tb, d);
    ReorderedCorrect(tb, d);
    OrderUnique(tb, Reordered(tb, d), d);
  }

  lemma {:induction false} RawConcat(tb: Tables, a: seq<Unit>, b: seq<Unit>)
    ensures Raw(tb, a + b) == Raw(tb, a) + Raw(tb, b)
  {
    hide RawDecompose;
    if b == [] {
      assert a + b == a;
    } else {
      var b' := b[..|b| - 1];
      RawConcat(tb, a, b');
      assert (a + b)[..|a + b| - 1] == a + b';
      assert Raw(tb, a) + Raw(tb, b') + RawDecompose(tb, b[|b| - 1]) == Raw(tb, a) + (Raw(tb, b') + RawDecompose(tb, b[|b| - 1]));
    }
  }

  /** Swapping neighbouring marks of different classes changes nothing. */
  lemma SwappedMarks(tb: Tables, a: seq<Unit>, m1: Unit, m2: Unit, b: seq<Unit>)
    requires RawDecompose(tb, m1) == [m1] && RawDecompose(tb, m2) == [m2]
    requires ClassOf(tb, m1) != 0 && ClassOf(tb, m2) != 0 && ClassOf(tb, m1) != ClassOf(tb, m2)
    ensures Decomposed(tb, a + [m1, m2] + b) == Decomposed(tb, a + [m2, m1] + b)
  {
    hide Raw, Reordered, Proj, ClassOf, RawDecompose, Decomposed;
    RawPair(tb, m1, m2);
    RawPair(tb, m2, m1);
    RawConcat(tb, a, [m1, m2]);
    RawConcat(tb, a, [m2, m1]);
    RawConcat(tb, a + [m1, m2], b);
    RawConcat(tb, a + [m2, m1], b);
    var ra, rb := Raw(tb, a), Raw(tb, b);
    forall c: nat ensures Proj(tb, ra + [m1, m2] + rb, c) == Proj(tb, ra + [m2, m1] + rb, c) {
      ProjPair(tb, m1, m2, c);
      ProjPair(tb, m2, m1, c);
      ProjConcat(tb, ra, [m1, m2], c);
      ProjConcat(tb, ra, [m2, m1], c);
      ProjConcat(tb, ra + [m1, m2], rb, c);
      ProjConcat(tb, ra + [m2, m1], rb, c);
    }
    DecomposedEqual(tb, a + [m1, m2] + b, a + [m2, m1] + b);
  }

  lemma RawPair(tb: Tables, m1: Unit, m2: Unit)
    requires RawDecompose(tb, m1) == [m1] && RawDecompose(tb, m2) == [m2]
    ensures Raw(tb, [m1, m2]) == [m1, m2]
  {
    hide RawDecompose, Raw;
    RawOne(tb, m1);
    RawOne(tb, m2);
    RawConcat(tb, [m1], [m2]);
    assert [m1, m2] == [m1] + [m2];
  }

  lemma RawOne(tb: Tables, ch: Unit)
    ensures Raw(tb, [ch]) == RawDecompose(tb, ch)
  {
    hide RawDecompose;
    assert [ch][..0] == [] && Raw(tb, []) + RawDecompose(tb, ch) == RawDecompose(tb, ch);
  }

  lemma ProjPair(tb: Tables, m1: Unit, m2: Unit, c: nat)
    ensures Proj(tb, [m1, m2], c) == (if Kept(tb, m1, c) then [m1] else []) + if Kept(tb, m2, c) then [m2] else []
  {
    hide Kept, Proj;
    ProjNothing(tb, c);
    ProjSnoc(tb, [], m1, c);
    ProjSnoc(tb, [m1], m2, c);
    assert [m1] + [m2] == [m1, m2] && [] + [m1] == [m1];
  }

  lemma ProjNothing(tb: Tables, c: nat)
    ensures Proj(tb, [], c) == []
  {
  }

  // ----- exactly when decomposing is idempotent -----

  lemma {:induction false} RawLonger(tb: Tables, s: seq<Unit>)
    ensures |Raw(tb, s)| >= |s|
    ensures |Raw(tb, s)| == |s| ==> forall e: Unit :: e in s ==> |RawDecompose(tb, e)| == 1
  {
    hide RawDecompose;
    if s != [] {
      RawLonger(tb, s[..|s| - 1]);
    }
  }

  lemma {:induction false} RawMember(tb: Tables, s: seq<Unit>, d: Unit) returns (e: Unit)
    requires d in Raw(tb, s)
    ensures e in s && d in RawDecompose(tb, e)
  {
    hide RawDecompose;
    if d in RawDecompose(tb, s[|s| - 1]) {
      e := s[|s| - 1];
    } else {
      e := RawMember(tb, s[..|s| - 1], d);
    }
  }

  lemma ReorderedMembers(tb: Tables, s: seq<Unit>)
    ensures |Reordered(tb, s)| == |s| && forall d :: d in Reordered(tb, s) <==> d in s
  {
    hide Reordered, Ordered, SameMarks;
    ReorderedCorrect(tb, s);
    assert |multiset(Reordered(tb, s))| == |multiset(s)|;
    forall d ensures d in Reordered(tb, s) <==> d in s {
      assert d in multiset(Reordered(tb, s)) <==> d in multiset(s);
    }
  }

  lemma ReorderedOne(tb: Tables, d: Unit)
    ensures Reordered(tb, [d]) == [d]
  {
    assert [d][..0] == [];
    assert Reordered(tb, []) == [];
  }

  ghost predicate IdempotentAt(tb: Tables, s: seq<Unit>) { Decomposed(tb, Decomposed(tb, s)) == Decomposed(tb, s) }

  /** Each unit of a decomposition is that of a single unit of it. */
  lemma FromSingle(tb: Tables, s: seq<Unit>, d: Unit) returns (e: Unit)
    requires IdempotentAt(tb, s) && d in Decomposed(tb, s)
    ensures RawDecompose(tb, e) == [d]
  {
    hide Raw, Reordered, RawDecompose;
    var ds := Decomposed(tb, s);
    ReorderedMembers(tb, Raw(tb, ds));
    RawLonger(tb, ds);
    e := RawMember(tb, ds, d);
    assert |RawDecompose(tb, e)| == 1;
  }

  /** Decomposing is idempotent on every string exactly if no unit that occurs in a
      decomposition decomposes further. */
  lemma IdempotentExactly(tb: Tables)
    ensures (forall s: seq<Unit> :: IdempotentAt(tb, s)) <==> FullyDecomposed(tb)
  {
    hide Raw, Reordered, RawDecompose, Decomposed;
    if FullyDecomposed(tb) {
      forall s: seq<Unit> ensures IdempotentAt(tb, s) {
        DecomposedIdempotent(tb, s);
      }
    }
    if forall s: seq<Unit> :: IdempotentAt(tb, s) {
      forall ch: Unit, d: Unit | d in RawDecompose(tb, ch) ensures RawDecompose(tb, d) == [d] {
        DecomposedUnit(tb, ch);
        var e := FromSingle(tb, [ch], d);
        assert IdempotentAt(tb, [e]);
        SingleFixed(tb, e, d);
      }
    }
  }

  lemma DecomposedUnit(tb: Tables, ch: Unit)
    ensures forall d :: d in Decomposed(tb, [ch]) <==> d in RawDecompose(tb, ch)
    ensures |Decomposed(tb, [ch])| == |RawDecompose(tb, ch)|
    ensures forall d: Unit :: RawDecompose(tb, ch) == [d] ==> Decomposed(tb, [ch]) == [d]
  {
    hide Raw, Reordered, RawDecompose;
    RawOne(tb, ch);
    ReorderedMembers(tb, RawDecompose(tb, ch));
    forall d: Unit | RawDecompose(tb, ch) == [d] ensures Decomposed(tb, [ch]) == [d] {
      ReorderedOne(tb, d);
    }
  }

  lemma SingleFixed(tb: Tables, e: Unit, d: Unit)
    requires RawDecompose(tb, e) == [d] && IdempotentAt(tb, [e])
    ensures RawDecompose(tb, d) == [d]
  {
    hide RawDecompose, Decomposed;
    DecomposedUnit(tb, e);
    DecomposedUnit(tb, d);
    assert Decomposed(tb, [d]) == [d];
    assert RawDecompose(tb, d)[0] in RawDecompose(tb, d);
  }

  // ----- the source's loops -----

  /** `replace` */
  function Replace(source: seq<Unit>, startPos: nat, endPos: nat, insertion: seq<Unit>): seq<Unit>
    requires startPos <= endPos <= |source|
  {
    source[..startPos] + insertion + source[endPos..]
  }

  lemma InsertBefore(tb: Tables, r: seq<Unit>, k: nat, ch: Unit)
    requires k < |r| && ClassOf(tb, ch) != 0 && ClassOf(tb, r[k]) > ClassOf(tb, ch)
    ensures Insert(tb, r[..k + 1], ch) + r[k + 1..] == Insert(tb, r[..k], ch) + r[k..]
  {
    hide ClassOf;
    assert r[..k + 1][..k] == r[..k];
    assert Insert(tb, r[..k], ch) + [r[k]] + r[k + 1..] == Insert(tb, r[..k], ch) + ([r[k]] + r[k + 1..]);
    assert [r[k]] + r[k + 1..] == r[k..];
  }

  /** The inner loop: where the character goes. */
  method Place(tb: Tables, result: seq<Unit>, ch: Unit) returns (r: seq<Unit>)
    ensures r == Insert(tb, result, ch)
  {
    hide ClassOf;
    var chClass := ClassOf(tb, ch);
    if chClass == 0 { return result + [ch]; }
    var k := |result| - 1;
    assert result[..k + 1] == result && result + result[k + 1..] == result;
    assert Insert(tb, result[..k + 1], ch) + [] == Insert(tb, result[..k + 1], ch);
    while k >= 0
      invariant -1 <= k < |result|
      invariant Insert(tb, result, ch) == Insert(tb, result[..k + 1], ch) + result[k + 1..]
    {
      hide Insert;
      if ClassOf(tb, result[k]) <= chClass { break; }
      InsertBefore(tb, result, k, ch);
      k := k - 1;
    }
    r := Replace(result, k + 1, k + 1, [ch]);
  }

  lemma ReorderedSnoc(tb: Tables, s: seq<Unit>, x: Unit)
    ensures Reordered(tb, s + [x]) == Insert(tb, Reordered(tb, s), x)
  {
    assert (s + [x])[..|s|] == s;
  }

  /** `nfkd` */
  method Nfkd(tb: Tables, source: seq<Unit>) returns (result: seq<Unit>)
    ensures result == Decomposed(tb, source)
  {
    hide Insert, Reordered, RawDecompose;
    result := [];
    NothingReordered(tb);
    var i := 0;
    while i < |source|
      invariant 0 <= i <= |source| && result == Reordered(tb, Raw(tb, source[..i]))
    {
      hide Raw;
      var buffer := RawDecompose(tb, source[i]);
      var j := 0;
      ghost var raw := Raw(tb, source[..i]);
      assert raw + buffer[..0] == raw;
      while j < |buffer|
        invariant 0 <= j <= |buffer| && result == Reordered(tb, raw + buffer[..j])
      {
        ReorderedSnoc(tb, raw + buffer[..j], buffer[j]);
        assert raw + buffer[..j] + [buffer[j]] == raw + buffer[..j + 1];
        result := Place(tb, result, buffer[j]);
        j := j + 1;
      }
      assert buffer[..j] == buffer;
      RawSnoc(tb, source, i);
      i := i + 1;
    }
    assert source[..i] == source;
  }

  lemma RawSnoc(tb: Tables, s: seq<Unit>, i: nat)
    requires i < |s|
    ensures Raw(tb, s[..i + 1]) == Raw(tb, s[..i]) + RawDecompose(tb, s[i])
  {
    hide RawDecompose;
    assert s[..i + 1][..i] == s[..i];
  }

  lemma NothingReordered(tb: Tables)
    ensures Reordered(tb, []) == [] && Raw(tb, []) == []
  {
  }

  // ----- composing -----

  /** `rawCompose` */
  function RawCompose(tb: Tables, char1: Unit, char2: Unit): Option<Unit> {
    var temp := ComposeHangul(char1, char2);
    if temp.Some? then temp
    else if (char1, char2) in tb.kc then Some(tb.kc[(char1, char2)])
    else None
  }

  /** The variables of `compose`. */
  datatype Composing = Composing(result: seq<Unit>, buffer: seq<Unit>, starterCh: Unit, lastClass: nat)

  /** One turn.  Setting the length of a JavaScript string has no effect, so the buffer is
      written out again at every later starter. */
  function ComposeStep(tb: Tables, st: Composing, ch: Unit): Composing {
    var chClass := ClassOf(tb, ch);
    var composite := RawCompose(tb, st.starterCh, ch);
    if composite.Some? && (st.lastClass < chClass || st.lastClass == 0) then st.(starterCh := composite.value)
    else if chClass == 0 then
      st.(result := st.result + [st.starterCh] + st.buffer, starterCh := ch, lastClass := chClass)
    else st.(buffer := st.buffer + [ch], lastClass := chClass)
  }

  function ComposeFrom(tb: Tables, st: Composing, rest: seq<Unit>): Composing {
    if rest == [] then st else ComposeStep(tb, ComposeFrom(tb, st, rest[..|rest| - 1]), rest[|rest| - 1])
  }

  function ComposeStart(tb: Tables, ch: Unit): Composing {
    Composing([], [], ch, if ClassOf(tb, ch) != 0 then 256 else 0)
  }

  function Finish(st: Composing): seq<Unit> { st.result + [st.starterCh] + st.buffer }

  /** `compose`; on the empty string it returns a variable that is not yet set. */
  function Composed(tb: Tables, source: seq<Unit>): Option<seq<Unit>> {
    if source == [] then None else Some(Finish(ComposeFrom(tb, ComposeStart(tb, source[0]), source[1..])))
  }

  method Compose(tb: Tables, source: seq<Unit>) returns (r: Option<seq<Unit>>)
    ensures r == Composed(tb, source)
  {
    hide RawCompose, ClassOf;
    if |source| == 0 { return None; }
    var result: seq<Unit>, buffer: seq<Unit> := [], [];
    var starterCh := source[0];
    var lastClass := ClassOf(tb, starterCh);
    if lastClass != 0 { lastClass := 256; }
    var decompPos := 1;
    ghost var start := ComposeStart(tb, source[0]);
    while decompPos < |source|
      invariant 1 <= decompPos <= |source|
      invariant Composing(result, buffer, starterCh, lastClass) == ComposeFrom(tb, start, source[1..decompPos])
    {
      hide ComposeFrom;
      var ch := source[decompPos];
      ComposeSnoc(tb, start, source[1..decompPos], ch);
      assert source[1..decompPos] + [ch] == source[1..decompPos + 1];
      var chClass := ClassOf(tb, ch);
      var composite := RawCompose(tb, starterCh, ch);
      if composite.Some? && (lastClass < chClass || lastClass == 0) {
        starterCh := composite.value;
      } else {
        if chClass == 0 {
          result := result + [starterCh] + buffer;
          starterCh := ch;
        } else {
          buffer := buffer + [ch];
        }
        lastClass := chClass;
      }
      decompPos := decompPos + 1;
    }
    assert source[1..decompPos] == source[1..];
    r := Some(result + [starterCh] + buffer);
  }

  lemma ComposeSnoc(tb: Tables, st: Composing, rest: seq<Unit>, ch: Unit)
    ensures ComposeFrom(tb, st, rest + [ch]) == ComposeStep(tb, ComposeFrom(tb, st, rest), ch)
  {
    hide ComposeStep;
    assert (rest + [ch])[..|rest|] == rest;
  }

  // ----- Hangul syllables there and back -----

  /** Hypothesis on the tables: jamo are starters, and no syllable composes by table. */
  ghost predicate HangulByArithmetic(tb: Tables) {
    && (forall ch: Unit :: LBase <= ch < LLimit || VBase <= ch < VLimit || TBase <= ch < TLimit ==> ClassOf(tb, ch) == 0)
    && (forall a: Unit, b: Unit :: Syllable(a) ==> (a, b) !in tb.kc)
  }

  lemma FloorOfSum(base: nat, n: nat, d: nat, q: nat)
    requires d == 588 || d == 28
    requires q == n / d && base + q < 0x1_0000
    ensures FromCharCode(base as real + n as real / d as real) == base + q
  {
    var x := n as real / d as real;
    if d == 588 {
      assert q as real <= n as real / 588.0 < q as real + 1.0;
    } else {
      assert q as real <= n as real / 28.0 < q as real + 1.0;
    }
    assert (base + q) as real <= base as real + x < (base + q) as real + 1.0;
  }

  function LIndex(s: Unit): int { (s - SBase) / NCount }
  function VIndex(s: Unit): int { (s - SBase) % NCount / TCount }
  function TIndex(s: Unit): int { (s - SBase) % TCount }

  /** The indices of a syllable put it together again. */
  lemma Indices(s: Unit)
    requires Syllable(s)
    ensures 0 <= LIndex(s) < LCount && 0 <= VIndex(s) < VCount && 0 <= TIndex(s) < TCount
    ensures SBase + (LIndex(s) * VCount + VIndex(s)) * TCount + TIndex(s) == s
  {
    var i := s - SBase;
    assert i == LIndex(s) * NCount + i % NCount;
    assert i % NCount == VIndex(s) * TCount + i % NCount % TCount;
    assert i % TCount == i % NCount % TCount by { Remainder(i); }
  }

  lemma Remainder(i: nat)
    ensures i % 28 == i % 588 % 28
  {
    var q, r := i / 588, i % 588;
    assert i == 588 * q + r;
    RemainderIs(r, r / 28, r % 28);
    RemainderIs(i, 21 * q + r / 28, r % 28);
  }

  lemma RemainderIs(x: nat, k: int, r: int)
    requires x == 28 * k + r && 0 <= r < 28
    ensures x % 28 == r
  {
  }

  /** The floating point divisions give the jamo of the indices. */
  lemma DecomposedJamo(s: Unit)
    requires Syllable(s)
    ensures 0 <= LIndex(s) < LCount && 0 <= VIndex(s) < VCount && 0 <= TIndex(s) < TCount
    ensures DecomposeHangul(s) ==
            [LBase + LIndex(s), VBase + VIndex(s)] + if TIndex(s) == 0 then [] else [TBase + TIndex(s)]
  {
    hide FromCharCode, LIndex, VIndex, TIndex;
    Indices(s);
    JamoCodes(s);
  }

  lemma JamoCodes(s: Unit)
    requires Syllable(s) && 0 <= LIndex(s) < LCount && 0 <= VIndex(s) < VCount && 0 <= TIndex(s) < TCount
    ensures FromCharCode(LBase as real + (s - SBase) as real / NCount as real) == LBase + LIndex(s)
    ensures FromCharCode(VBase as real + ((s - SBase) % NCount) as real / TCount as real) == VBase + VIndex(s)
    ensures FromCharCode((TBase + TIndex(s)) as real) == TBase + TIndex(s)
    ensures TIndex(s) == (s - SBase) % TCount
  {
    hide FromCharCode;
    FloorOfSum(LBase, s - SBase, NCount, LIndex(s));
    FloorOfSum(VBase, (s - SBase) % NCount, TCount, VIndex(s));
    WholeCode(TBase + TIndex(s));
  }

  lemma WholeCode(n: nat)
    requires n < 0x1_0000
    ensures FromCharCode(n as real) == n
  {
  }

  lemma StarterJoins(tb: Tables, st: Composing, ch: Unit, c: Unit)
    requires RawCompose(tb, st.starterCh, ch) == Some(c) && st.lastClass == 0
    ensures ComposeStep(tb, st, ch) == st.(starterCh := c)
  {
    hide RawCompose, ClassOf;
  }

  lemma StarterFollows(tb: Tables, st: Composing, ch: Unit)
    requires RawCompose(tb, st.starterCh, ch).None? && ClassOf(tb, ch) == 0 && st.buffer == []
    ensures ComposeStep(tb, st, ch) == Composing(st.result + [st.starterCh], [], ch, 0)
  {
    hide RawCompose, ClassOf;
    assert st.result + [st.starterCh] + [] == st.result + [st.starterCh];
  }

  lemma JamoCompose(tb: Tables, s: Unit)
    requires Syllable(s) && HangulByArithmetic(tb)
    ensures 0 <= LIndex(s) < LCount && 0 <= VIndex(s) < VCount && 0 <= TIndex(s) < TCount
    ensures RawCompose(tb, LBase + LIndex(s), VBase + VIndex(s)) == Some(s - TIndex(s))
    ensures TIndex(s) > 0 ==> RawCompose(tb, s - TIndex(s), TBase + TIndex(s)) == Some(s)
    ensures forall c: Unit :: Syllable(c) ==> RawCompose(tb, c, LBase + LIndex(s)).None?
  {
    hide LIndex, VIndex, TIndex;
    Indices(s);
    Multiple(LIndex(s) * VCount + VIndex(s));
  }

  lemma Multiple(n: int)
    ensures n * 28 % 28 == 0
  {
  }

  lemma ComposeTwo(tb: Tables, st: Composing, a: Unit, b: Unit, st1: Composing, st2: Composing)
    requires st1 == ComposeStep(tb, st, a) && st2 == ComposeStep(tb, st1, b)
    ensures ComposeFrom(tb, st, [a]) == st1 && ComposeFrom(tb, st, [a, b]) == st2
    ensures ComposeFrom(tb, st, []) == st
  {
    hide ComposeStep;
    assert [a][..0] == [] && [a, b][..1] == [a];
  }

  lemma {:induction false} ComposeConcat(tb: Tables, st: Composing, a: seq<Unit>, b: seq<Unit>)
    ensures ComposeFrom(tb, st, a + b) == ComposeFrom(tb, ComposeFrom(tb, st, a), b)
  {
    hide ComposeStep;
    if b == [] {
      assert a + b == a;
    } else {
      ComposeConcat(tb, st, a, b[..|b| - 1]);
      assert (a + b)[..|a + b| - 1] == a + b[..|b| - 1];
    }
  }

  /** From the first jamo on, the others join it to the syllable. */
  lemma SyllableJoins(tb: Tables, s: Unit, result: seq<Unit>)
    requires Syllable(s) && HangulByArithmetic(tb)
    ensures var d := DecomposeHangul(s);
            ComposeFrom(tb, Composing(result, [], d[0], 0), d[1..]) == Composing(result, [], s, 0) && ClassOf(tb, d[0]) == 0
  {
    hide DecomposeHangul, ComposeFrom, ComposeStep, RawCompose, LIndex, VIndex, TIndex;
    DecomposedJamo(s);
    JamoCompose(tb, s);
    var d := DecomposeHangul(s);
    var st := Composing(result, [], d[0], 0);
    var st1 := Composing(result, [], s - TIndex(s), 0);
    StarterJoins(tb, st, d[1], s - TIndex(s));
    if TIndex(s) == 0 {
      ComposeTwo(tb, st, d[1], d[1], st1, ComposeStep(tb, st1, d[1]));
      assert d[1..] == [d[1]];
    } else {
      StarterJoins(tb, st1, d[2], s);
      ComposeTwo(tb, st, d[1], d[2], st1, Composing(result, [], s, 0));
      assert d[1..] == [d[1], d[2]];
    }
  }

  /** Behind a syllable the next one starts over. */
  lemma SyllableFollows(tb: Tables, st: Composing, s: Unit)
    requires Syllable(s) && Syllable(st.starterCh) && HangulByArithmetic(tb) && st.buffer == []
    ensures ComposeFrom(tb, st, DecomposeHangul(s)) == Composing(st.result + [st.starterCh], [], s, 0)
  {
    hide DecomposeHangul, ComposeStep, RawCompose, LIndex, VIndex, TIndex, ComposeFrom;
    var d := DecomposeHangul(s);
    var st1 := Composing(st.result + [st.starterCh], [], d[0], 0);
    DecomposedJamo(s);
    JamoCompose(tb, s);
    SyllableJoins(tb, s, st1.result);
    StarterFollows(tb, st, d[0]);
    assert d == [d[0]] + d[1..];
    ComposeConcat(tb, st, [d[0]], d[1..]);
    ComposeTwo(tb, st, d[0], d[0], st1, ComposeStep(tb, st1, d[0]));
  }

  lemma {:induction false} StartersStay(tb: Tables, s: seq<Unit>)
    requires forall ch: Unit :: ch in s ==> ClassOf(tb, ch) == 0
    ensures Reordered(tb, s) == s
  {
    hide ClassOf;
    if s != [] {
      StartersStay(tb, s[..|s| - 1]);
      assert s[|s| - 1] in s;
    }
  }

  lemma {:induction false} RawSyllables(tb: Tables, s: seq<Unit>)
    requires HangulByArithmetic(tb) && forall k :: 0 <= k < |s| ==> Syllable(s[k])
    ensures forall ch: Unit :: ch in Raw(tb, s) ==> ClassOf(tb, ch) == 0
    ensures s != [] ==> Raw(tb, s) != [] && ClassOf(tb, Raw(tb, s)[0]) == 0
    ensures s != [] ==> ComposeFrom(tb, Composing([], [], Raw(tb, s)[0], 0), Raw(tb, s)[1..]) ==
                        Composing(s[..|s| - 1], [], s[|s| - 1], 0)
  {
    hide DecomposeHangul, ClassOf, ComposeFrom, ComposeStep;
    if s != [] {
      var s', x := s[..|s| - 1], s[|s| - 1];
      RawSyllables(tb, s');
      StartersOnly(tb, x);
      var r', d := Raw(tb, s'), DecomposeHangul(x);
      if s' == [] {
        SyllableJoins(tb, x, []);
        assert r' + d == d;
      } else {
        var st := Composing(s'[..|s'| - 1], [], s'[|s'| - 1], 0);
        SyllableFollows(tb, st, x);
        ComposeConcat(tb, Composing([], [], r'[0], 0), r'[1..], d);
        assert (r' + d)[1..] == r'[1..] + d && (r' + d)[0] == r'[0];
        assert s'[..|s'| - 1] + [s'[|s'| - 1]] == s';
      }
    }
  }

  lemma StartersOnly(tb: Tables, s: Unit)
    requires Syllable(s) && HangulByArithmetic(tb)
    ensures forall ch: Unit :: ch in DecomposeHangul(s) ==> ClassOf(tb, ch) == 0
    ensures RawDecompose(tb, s) == DecomposeHangul(s)
  {
    hide DecomposeHangul, ClassOf, LIndex, VIndex, TIndex;
    DecomposedJamo(s);
  }

  /** Hangul syllables decompose and compose back to themselves. */
  lemma HangulRoundTrip(tb: Tables, s: seq<Unit>)
    requires s != [] && HangulByArithmetic(tb) && forall k :: 0 <= k < |s| ==> Syllable(s[k])
    ensures Composed(tb, Decomposed(tb, s)) == Some(s)
  {
    hide Raw, Reordered, ComposeFrom, ClassOf;
    RawSyllables(tb, s);
    StartersStay(tb, Raw(tb, s));
    assert s[..|s| - 1] + [s[|s| - 1]] + [] == s;
  }

  // ----- the buffer that is never cleared -----

  ghost predicate NothingComposes(tb: Tables, s: seq<Unit>) {
    forall a: Unit, b: Unit :: a in s && b in s ==> RawCompose(tb, a, b).None?
  }

  /** No starter comes behind a mark. */
  ghost predicate MarksLast(tb: Tables, s: seq<Unit>) {
    forall i, j :: 0 <= i < j < |s| && ClassOf(tb, s[i]) != 0 ==> ClassOf(tb, s[j]) != 0
  }

  ghost predicate HasMark(tb: Tables, s: seq<Unit>) { exists i :: 0 <= i < |s| && ClassOf(tb, s[i]) != 0 }

  lemma MarksSnoc(tb: Tables, s: seq<Unit>, ch: Unit)
    ensures HasMark(tb, s + [ch]) <==> HasMark(tb, s) || ClassOf(tb, ch) != 0
    ensures MarksLast(tb, s + [ch]) <==> MarksLast(tb, s) && (HasMark(tb, s) ==> ClassOf(tb, ch) != 0)
  {
    hide ClassOf;
    var u := s + [ch];
    assert forall i :: 0 <= i < |s| ==> u[i] == s[i];
    assert u[|s|] == ch;
    if HasMark(tb, s) {
      var i :| 0 <= i < |s| && ClassOf(tb, s[i]) != 0;
      assert ClassOf(tb, u[i]) != 0;
    }
  }

  /** Where nothing composes, each turn writes out what is buffered so far once more. */
  lemma {:induction false} ComposeRepeats(tb: Tables, s: seq<Unit>, st: Composing, rest: seq<Unit>)
    requires NothingComposes(tb, s) && st.starterCh in s && (forall ch :: ch in rest ==> ch in s) && st.buffer == []
    ensures var e := ComposeFrom(tb, st, rest);
            e.starterCh in s && (e.buffer != [] <==> HasMark(tb, rest)) && |Finish(e)| >= |Finish(st)| + |rest|
    ensures var e := ComposeFrom(tb, st, rest);
            if MarksLast(tb, rest) then Finish(e) == Finish(st) + rest else |Finish(e)| > |Finish(st)| + |rest|
  {
    hide RawCompose, ClassOf, MarksLast, HasMark;
    if rest == [] {
      NoMarks(tb);
      assert Finish(st) + [] == Finish(st);
    } else {
      var rest', ch := rest[..|rest| - 1], rest[|rest| - 1];
      ComposeRepeats(tb, s, st, rest');
      assert rest == rest' + [ch] && ch in rest;
      MarksSnoc(tb, rest', ch);
      var e := ComposeFrom(tb, st, rest');
      assert RawCompose(tb, e.starterCh, ch).None?;
      assert Finish(st) + rest' + [ch] == Finish(st) + rest;
      StepFinish(tb, e, ch);
    }
  }

  lemma StepFinish(tb: Tables, st: Composing, ch: Unit)
    requires RawCompose(tb, st.starterCh, ch).None?
    ensures var e := ComposeStep(tb, st, ch);
            if ClassOf(tb, ch) == 0 then Finish(e) == Finish(st) + [ch] + st.buffer && e.buffer == st.buffer
            else Finish(e) == Finish(st) + [ch] && e.buffer != []
  {
    hide RawCompose, ClassOf;
    assert st.result + [st.starterCh] + (st.buffer + [ch]) == Finish(st) + [ch];
  }

  lemma NoMarks(tb: Tables)
    ensures !HasMark(tb, []) && MarksLast(tb, [])
  {
  }

  /** Where nothing composes, composing leaves a string as it is exactly if behind its
      first character no starter follows a mark; otherwise marks are repeated. */
  lemma ComposeUnchanged(tb: Tables, s: seq<Unit>)
    requires s != [] && NothingComposes(tb, s)
    ensures Composed(tb, s) == Some(s) <==> MarksLast(tb, s[1..])
  {
    hide ComposeFrom, MarksLast, HasMark, ClassOf, NothingComposes;
    var st := ComposeStart(tb, s[0]);
    ComposeRepeats(tb, s, st, s[1..]);
    assert [] + [s[0]] + [] + s[1..] == s;
  }

  /** "a", acute, "b" comes out as "a", acute, "b", acute. */
  lemma AcuteRepeated()
    ensures var tb := Tables(map[], map[0x301 := 230], map[]);
            Composed(tb, [0x61, 0x301, 0x62]) == Some([0x61, 0x301, 0x62, 0x301])
  {
    var tb := Tables(map[], map[0x301 := 230], map[]);
    var st := ComposeStart(tb, 0x61);
    ComposeTwo(tb, st, 0x301, 0x62, Composing([], [0x301], 0x61, 230), Composing([0x61, 0x301], [0x301], 0x62, 0));
    var source: seq<Unit> := [0x61, 0x301, 0x62];
    assert source[1..] == [0x301, 0x62] && source[0] == 0x61;
    assert Finish(Composing([0x61, 0x301], [0x301], 0x62, 0)) == [0x61, 0x301, 0x62, 0x301];
    assert Composed(tb, source) == Some([0x61, 0x301, 0x62, 0x301]);
  }
}
