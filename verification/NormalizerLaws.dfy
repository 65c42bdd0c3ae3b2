/** What the tables of scripts/nameprep_normalizer.js come to: NFKD, composing and NFKC. */
module NormalizerLaws {
  // The decomposed form is given by the entries of the table alone, the composed one by
  // Unicode's notion of a blocked mark.

  import opened Wrappers
  import opened Normalizer

  // ----- what a string decomposes to, up to the order of its marks -----

  /** The decomposition of one unit: its jamo if it is a Hangul syllable, else its entry. */
  ghost function Entry(tb: Tables, ch: Unit): seq<Unit> {
    if 0xAC00 <= ch < 0xD7A4 then
      [0x1100 + (ch - 0xAC00) / 588, 0x1161 + (ch - 0xAC00) % 588 / 28] +
      if (ch - 0xAC00) % 28 == 0 then [] else [0x11A7 + (ch - 0xAC00) % 28]
    else if ch in tb.kd && tb.kd[ch] != [] then tb.kd[ch]
    else [ch]
  }

  ghost function Entries(tb: Tables, s: seq<Unit>): seq<Unit> {
    if s == [] then [] else Entry(tb, s[0]) + Entries(tb, s[1..])
  }

  lemma RawIsEntry(tb: Tables, ch: Unit)
    ensures RawDecompose(tb, ch) == Entry(tb, ch)
  {
    hide DecomposeHangul;
    if Syllable(ch) {
      DecomposedJamo(ch);
    }
  }

  lemma {:induction false} RawIsEntries(tb: Tables, s: seq<Unit>)
    ensures Raw(tb, s) == Entries(tb, s)
  {
    hide RawDecompose, Entry, Raw;
    if s == [] {
      NothingReordered(tb);
    } else {
      RawConcat(tb, [s[0]], s[1..]);
      RawOne(tb, s[0]);
      RawIsEntry(tb, s[0]);
      RawIsEntries(tb, s[1..]);
      assert s == [s[0]] + s[1..];
    }
  }

  /** The decomposed form has the entries of the units, marks put in order. */
  lemma DecomposedEntries(tb: Tables, s: seq<Unit>)
    ensures SameMarks(tb, Decomposed(tb, s), Entries(tb, s)) && Ordered(tb, Decomposed(tb, s))
    ensures multiset(Decomposed(tb, s)) == multiset(Entries(tb, s))
  {
    hide Raw, Reordered, SameMarks, Ordered, Entries;
    RawIsEntries(tb, s);
    ReorderedCorrect(tb, Raw(tb, s));
  }

  /** One unit: its entry, and the unit itself if it has none. */
  lemma DecomposedSingle(tb: Tables, ch: Unit)
    requires !(0xAC00 <= ch < 0xD7A4)
    ensures ch in tb.kd && tb.kd[ch] != [] ==>
              SameMarks(tb, Decomposed(tb, [ch]), tb.kd[ch]) && multiset(Decomposed(tb, [ch])) == multiset(tb.kd[ch])
    ensures ch in tb.kd && tb.kd[ch] != [] && Ordered(tb, tb.kd[ch]) ==> Decomposed(tb, [ch]) == tb.kd[ch]
    ensures ch !in tb.kd || tb.kd[ch] == [] ==> Decomposed(tb, [ch]) == [ch]
  {
    hide SameMarks, Decomposed, Ordered;
    assert Entries(tb, [ch]) == Entry(tb, ch);
    DecomposedEntries(tb, [ch]);
    assert Ordered(tb, [ch]) by { OneOrdered(tb, ch); }
    if Ordered(tb, Entry(tb, ch)) {
      OrderUnique(tb, Decomposed(tb, [ch]), Entry(tb, ch));
    }
  }

  lemma OneOrdered(tb: Tables, ch: Unit)
    ensures Ordered(tb, [ch])
  {
  }

  // ----- composing jamo is the inverse of decomposing syllables -----

  lemma SyllableEntry(tb: Tables, c: Unit)
    requires Syllable(c)
    ensures Entry(tb, c)[0] == 0x1100 + (c - 0xAC00) / 588 && Entry(tb, c)[1] == 0x1161 + (c - 0xAC00) % 588 / 28
    ensures (c - 0xAC00) % 28 == 0 ==> |Entry(tb, c)| == 2
    ensures (c - 0xAC00) % 28 != 0 ==> |Entry(tb, c)| == 3 && Entry(tb, c)[2] == 0x11A7 + (c - 0xAC00) % 28
  {
  }

  /** The decomposition of c is that of the two units a and b. */
  ghost predicate SplitsInto(tb: Tables, c: Unit, a: Unit, b: Unit) {
    Entry(tb, c) == [a, b] ||
    (Syllable(a) && |Entry(tb, a)| == 2 && (Entry(tb, c) == Entry(tb, a) + [b] || (b == 0x11A7 && c == a)))
  }

  lemma HangulJoins(tb: Tables, a: Unit, b: Unit)
    requires ComposeHangul(a, b).Some?
    ensures var c := ComposeHangul(a, b).value; Syllable(c) && SplitsInto(tb, c, a, b)
  {
    hide Entry;
    var c := ComposeHangul(a, b).value;
    SyllableEntry(tb, c);
    SyllableIndices(c);
    if Syllable(a) {
      SyllableEntry(tb, a);
    }
  }

  lemma HangulOnly(tb: Tables, a: Unit, b: Unit, c: Unit)
    requires Syllable(c) && SplitsInto(tb, c, a, b)
    ensures ComposeHangul(a, b) == Some(c)
  {
    hide Entry;
    SyllableEntry(tb, c);
    SyllableIndices(c);
    if Syllable(a) {
      SyllableEntry(tb, a);
      SyllableIndices(a);
    }
  }

  /** Two units join to a syllable exactly if its decomposition is the two, or that of the
      first with the second behind it; and U+11A7, which is no jamo, joins a syllable
      without a third jamo and changes nothing. */
  lemma HangulInverse(tb: Tables, a: Unit, b: Unit, c: Unit)
    ensures ComposeHangul(a, b) == Some(c) <==> Syllable(c) && SplitsInto(tb, c, a, b)
  {
    hide Syllable, SplitsInto, ComposeHangul;
    if ComposeHangul(a, b).Some? {
      HangulJoins(tb, a, b);
    }
    if Syllable(c) && SplitsInto(tb, c, a, b) {
      HangulOnly(tb, a, b, c);
    }
  }

  /** A syllable number in mixed radix. */
  lemma SyllableIndices(c: Unit)
    requires Syllable(c)
    ensures var i := c - 0xAC00;
            i == i / 588 * 588 + i % 588 / 28 * 28 + i % 28 && 0 <= i / 588 < 19 && 0 <= i % 588 / 28 < 21
  {
    Indices(c);
  }

  // ----- what composing does, in terms of blocked marks -----

  /** Unicode's condition: behind the last starter that was kept before i stands a mark
      that was kept and whose class is not below c. */
  ghost predicate Blocked(tb: Tables, s: seq<Unit>, kept: seq<bool>, i: nat, c: nat)
    requires i <= |s| == |kept|
  {
    exists j :: 0 < j < i && kept[j] && ClassOf(tb, s[j]) != 0 && ClassOf(tb, s[j]) >= c && NoStarterKept(tb, s, kept, j, i)
  }

  ghost predicate NoStarterKept(tb: Tables, s: seq<Unit>, kept: seq<bool>, j: nat, i: nat)
    requires i <= |s| == |kept|
  {
    forall p :: j < p < i && kept[p] ==> ClassOf(tb, s[p]) != 0
  }

  /** No unit behind the first is a jamo that composes by arithmetic. */
  ghost predicate NoJamo(s: seq<Unit>) {
    forall i :: 0 < i < |s| ==> !(VBase <= s[i] < VLimit || TBase <= s[i] < TLimit)
  }

  /**
   Which units are kept, and what the last kept starter has become at each place; the
   first unit counts as one.  A unit is taken up into that starter exactly if the table
   composes the two and it is not blocked, and nothing is taken up into a mark at once.
   */
  ghost predicate Composes(tb: Tables, s: seq<Unit>, kept: seq<bool>, value: seq<Unit>) {
    && |kept| == |value| == |s| && s != []
    && kept[0] && value[0] == s[0]
    && forall i :: 0 < i < |s| ==> ComposesAt(tb, s, kept, value, i)
  }

  /** The second unit, where the first is a mark. */
  ghost predicate BehindMark(tb: Tables, s: seq<Unit>, i: nat) { i == 1 && s != [] && ClassOf(tb, s[0]) != 0 }

  ghost predicate ComposesAt(tb: Tables, s: seq<Unit>, kept: seq<bool>, value: seq<Unit>, i: nat)
    requires |kept| == |value| == |s| && 0 < i < |s|
  {
    && (kept[i] <==> (value[i - 1], s[i]) !in tb.kc || Blocked(tb, s, kept, i, ClassOf(tb, s[i])) || BehindMark(tb, s, i))
    && value[i] == if !kept[i] then tb.kc[(value[i - 1], s[i])]
                   else if ClassOf(tb, s[i]) == 0 then s[i]
                   else value[i - 1]
  }

  /** The marks kept among the first i units. */
  ghost function KeptMarks(tb: Tables, s: seq<Unit>, kept: seq<bool>, i: nat): seq<Unit>
    requires i <= |s| == |kept|
  {
    if i <= 1 then []
    else KeptMarks(tb, s, kept, i - 1) + if kept[i - 1] && ClassOf(tb, s[i - 1]) != 0 then [s[i - 1]] else []
  }

  /** What is written before the starter that stands at i: at each later starter the one
      before it, and once more all the marks kept so far. */
  ghost function Written(tb: Tables, s: seq<Unit>, kept: seq<bool>, value: seq<Unit>, i: nat): seq<Unit>
    requires i <= |s| == |kept| == |value|
  {
    if i <= 1 then []
    else Written(tb, s, kept, value, i - 1) +
         if kept[i - 1] && ClassOf(tb, s[i - 1]) == 0 then [value[i - 2]] + KeptMarks(tb, s, kept, i - 1) else []
  }

  lemma {:induction false} SamePrefix(tb: Tables, s: seq<Unit>, kept: seq<bool>, value: seq<Unit>,
                                      x: Unit, k: bool, v: Unit, i: nat)
    requires i <= |s| == |kept| == |value|
    ensures KeptMarks(tb, s + [x], kept + [k], i) == KeptMarks(tb, s, kept, i)
    ensures Written(tb, s + [x], kept + [k], value + [v], i) == Written(tb, s, kept, value, i)
  {
    hide ClassOf;
    if i > 1 {
      SamePrefix(tb, s, kept, value, x, k, v, i - 1);
    }
  }

  lemma SameBlocked(tb: Tables, s: seq<Unit>, kept: seq<bool>, x: Unit, k: bool, i: nat, c: nat)
    requires i <= |s| == |kept|
    ensures Blocked(tb, s + [x], kept + [k], i, c) == Blocked(tb, s, kept, i, c)
  {
    hide ClassOf;
    var s', kept' := s + [x], kept + [k];
    assert forall j :: 0 <= j < i ==> s'[j] == s[j] && kept'[j] == kept[j];
    if Blocked(tb, s, kept, i, c) {
      var j :| 0 < j < i && kept[j] && ClassOf(tb, s[j]) != 0 && ClassOf(tb, s[j]) >= c && NoStarterKept(tb, s, kept, j, i);
      assert kept'[j] && NoStarterKept(tb, s', kept', j, i);
    }
    if Blocked(tb, s', kept', i, c) {
      var j :| 0 < j < i && kept'[j] && ClassOf(tb, s'[j]) != 0 && ClassOf(tb, s'[j]) >= c && NoStarterKept(tb, s', kept', j, i);
      assert kept[j] && NoStarterKept(tb, s, kept, j, i);
    }
  }

  /** One more unit: what blocks behind it. */
  lemma BlockedNext(tb: Tables, s: seq<Unit>, kept: seq<bool>, x: Unit, k: bool, c: nat)
    requires |kept| == |s| && s != []
    ensures Blocked(tb, s + [x], kept + [k], |s| + 1, c) <==>
            if !k then Blocked(tb, s, kept, |s|, c)
            else if ClassOf(tb, x) == 0 then false
            else ClassOf(tb, x) >= c || Blocked(tb, s, kept, |s|, c)
  {
    hide ClassOf;
    var n := |s|;
    var s', kept' := s + [x], kept + [k];
    assert s'[n] == x && kept'[n] == k && forall j :: 0 <= j < n ==> s'[j] == s[j] && kept'[j] == kept[j];
    if Blocked(tb, s', kept', n + 1, c) {
      var j :| 0 < j < n + 1 && kept'[j] && ClassOf(tb, s'[j]) != 0 && ClassOf(tb, s'[j]) >= c &&
               NoStarterKept(tb, s', kept', j, n + 1);
      if j < n {
        assert kept[j] && NoStarterKept(tb, s, kept, j, n);
        assert k ==> kept'[n];
      }
    }
    if k && ClassOf(tb, x) != 0 && ClassOf(tb, x) >= c {
      assert kept'[n] && NoStarterKept(tb, s', kept', n, n + 1);
    }
    if Blocked(tb, s, kept, n, c) && !(k && ClassOf(tb, x) == 0) {
      var j :| 0 < j < n && kept[j] && ClassOf(tb, s[j]) != 0 && ClassOf(tb, s[j]) >= c && NoStarterKept(tb, s, kept, j, n);
      assert kept'[j] && NoStarterKept(tb, s', kept', j, n + 1);
    }
  }

  /** The units taken so far determine what the next one meets. */
  lemma ComposesNext(tb: Tables, s: seq<Unit>, kept: seq<bool>, value: seq<Unit>, x: Unit, k: bool, v: Unit)
    requires Composes(tb, s, kept, value)
    requires k <==> (value[|s| - 1], x) !in tb.kc || Blocked(tb, s, kept, |s|, ClassOf(tb, x)) || BehindMark(tb, s, |s|)
    requires v == if !k then tb.kc[(value[|s| - 1], x)] else if ClassOf(tb, x) == 0 then x else value[|s| - 1]
    ensures Composes(tb, s + [x], kept + [k], value + [v])
  {
    hide ClassOf, Blocked;
    var s', kept', value' := s + [x], kept + [k], value + [v];
    forall i | 0 < i < |s'| ensures ComposesAt(tb, s', kept', value', i) {
      if i < |s| {
        assert ComposesAt(tb, s, kept, value, i);
        SameBlocked(tb, s, kept, x, k, i, ClassOf(tb, s[i]));
      } else {
        SameBlocked(tb, s, kept, x, k, i, ClassOf(tb, x));
      }
      assert s'[0] == s[0];
    }
  }

  /** The variables of the source's loop behind s. */
  ghost predicate Follows(tb: Tables, s: seq<Unit>, kept: seq<bool>, value: seq<Unit>, st: Composing)
    requires |s| == |kept| == |value| && s != []
  {
    && st.result == Written(tb, s, kept, value, |s|)
    && st.buffer == KeptMarks(tb, s, kept, |s|)
    && st.starterCh == value[|s| - 1]
    && (st.lastClass > 0 ==> ClassOf(tb, s[|s| - 1]) >= st.lastClass)
    && BlocksBelow(tb, s, kept, st.lastClass)
  }

  ghost predicate BlocksBelow(tb: Tables, s: seq<Unit>, kept: seq<bool>, lastClass: nat)
    requires |s| == |kept|
  {
    forall c: nat :: Blocked(tb, s, kept, |s|, c) <==> lastClass > 0 && lastClass >= c
  }

  lemma BlocksBelowNext(tb: Tables, s: seq<Unit>, kept: seq<bool>, lastClass: nat, x: Unit, k: bool)
    requires s != [] && |kept| == |s| && BlocksBelow(tb, s, kept, lastClass)
    requires lastClass > 0 && ClassOf(tb, x) != 0 ==> ClassOf(tb, x) >= lastClass
    ensures BlocksBelow(tb, s + [x], kept + [k], if k then ClassOf(tb, x) else lastClass)
  {
    hide ClassOf, Blocked;
    forall c: nat
      ensures Blocked(tb, s + [x], kept + [k], |s + [x]|, c) <==>
              (if k then ClassOf(tb, x) else lastClass) > 0 && (if k then ClassOf(tb, x) else lastClass) >= c
    {
      BlockedNext(tb, s, kept, x, k, c);
      assert Blocked(tb, s, kept, |s|, c) <==> lastClass > 0 && lastClass >= c;
    }
  }

  lemma FollowsNext(tb: Tables, s: seq<Unit>, kept: seq<bool>, value: seq<Unit>, st: Composing, x: Unit) returns (k: bool, v: Unit)
    requires Composes(tb, s, kept, value) && Follows(tb, s, kept, value, st)
    requires Ordered(tb, s + [x]) && NoJamo(s + [x]) && !BehindMark(tb, s, |s|)
    ensures Composes(tb, s + [x], kept + [k], value + [v])
    ensures Follows(tb, s + [x], kept + [k], value + [v], ComposeStep(tb, st, x))
  {
    hide ClassOf, Blocked, BlocksBelow, Composes;
    var n := |s|;
    SameLengths(tb, s, kept, value);
    assert (s + [x])[n] == x && (s + [x])[n - 1] == s[n - 1];
    assert Blocked(tb, s, kept, n, ClassOf(tb, x)) <==> st.lastClass > 0 && st.lastClass >= ClassOf(tb, x) by {
      Below(tb, s, kept, st.lastClass, ClassOf(tb, x));
    }
    LookedUp(tb, s, st.starterCh, x);
    k := (st.starterCh, x) !in tb.kc || Blocked(tb, s, kept, n, ClassOf(tb, x));
    v := if !k then tb.kc[(st.starterCh, x)] else if ClassOf(tb, x) == 0 then x else value[n - 1];
    ComposesNext(tb, s, kept, value, x, k, v);
    BlocksBelowNext(tb, s, kept, st.lastClass, x, k);
    SamePrefix(tb, s, kept, value, x, k, v, n);
    WrittenNext(tb, s, kept, value, x, k, v);
  }

  lemma Below(tb: Tables, s: seq<Unit>, kept: seq<bool>, lastClass: nat, c: nat)
    requires |s| == |kept| && BlocksBelow(tb, s, kept, lastClass)
    ensures Blocked(tb, s, kept, |s|, c) <==> lastClass > 0 && lastClass >= c
  {
    hide Blocked;
  }

  lemma SameLengths(tb: Tables, s: seq<Unit>, kept: seq<bool>, value: seq<Unit>)
    requires Composes(tb, s, kept, value)
    ensures |kept| == |value| == |s| && s != []
  {
  }

  lemma LookedUp(tb: Tables, s: seq<Unit>, a: Unit, x: Unit)
    requires s != [] && NoJamo(s + [x])
    ensures RawCompose(tb, a, x) == if (a, x) in tb.kc then Some(tb.kc[(a, x)]) else None
  {
    assert (s + [x])[|s|] == x;
  }

  lemma WrittenNext(tb: Tables, s: seq<Unit>, kept: seq<bool>, value: seq<Unit>, x: Unit, k: bool, v: Unit)
    requires |s| == |kept| == |value| && s != []
    ensures KeptMarks(tb, s + [x], kept + [k], |s| + 1) ==
            KeptMarks(tb, s, kept, |s|) + if k && ClassOf(tb, x) != 0 then [x] else []
    ensures Written(tb, s + [x], kept + [k], value + [v], |s| + 1) ==
            Written(tb, s, kept, value, |s|) +
            if k && ClassOf(tb, x) == 0 then [value[|s| - 1]] + KeptMarks(tb, s, kept, |s|) else []
  {
    hide ClassOf;
    SamePrefix(tb, s, kept, value, x, k, v, |s|);
  }

  lemma {:induction false} ComposeTrace(tb: Tables, s: seq<Unit>) returns (kept: seq<bool>, value: seq<Unit>)
    requires s != [] && Ordered(tb, s) && NoJamo(s) && ByteClasses(tb, s) && !BehindMark(tb, s, |s|)
    ensures Composes(tb, s, kept, value)
    ensures Follows(tb, s, kept, value, ComposeFrom(tb, ComposeStart(tb, s[0]), s[1..]))
    decreases |s|
  {
    hide ClassOf, Follows, ComposeStep, ComposeFrom, Ordered, NoJamo, ByteClasses;
    if |s| == 1 {
      kept, value := [true], [s[0]];
      FollowsStart(tb, s);
    } else if |s| == 2 && ClassOf(tb, s[0]) != 0 {
      kept, value := [true, true], [s[0], if ClassOf(tb, s[1]) == 0 then s[1] else s[0]];
      FollowsMark(tb, s);
    } else {
      var s', x := s[..|s| - 1], s[|s| - 1];
      assert s == s' + [x];
      OrderedPrefix(tb, s', x);
      NoJamoPrefix(s', x);
      assert ByteClasses(tb, s') by { BytePrefix(tb, s', x); }
      var kept', value' := ComposeTrace(tb, s');
      SameLengths(tb, s', kept', value');
      var st := ComposeFrom(tb, ComposeStart(tb, s[0]), s'[1..]);
      var k, v := FollowsNext(tb, s', kept', value', st, x);
      kept, value := kept' + [k], value' + [v];
      ComposeSnoc(tb, ComposeStart(tb, s[0]), s'[1..], x);
      assert s[1..] == s'[1..] + [x];
    }
  }

  /** `canonicalClass` yields numbers from 0 to 255. */
  ghost predicate ByteClasses(tb: Tables, s: seq<Unit>) { forall i :: 0 <= i < |s| ==> ClassOf(tb, s[i]) <= 255 }

  lemma BytePrefix(tb: Tables, s: seq<Unit>, x: Unit)
    requires ByteClasses(tb, s + [x])
    ensures ByteClasses(tb, s)
  {
    hide ClassOf;
    assert forall i :: 0 <= i < |s| ==> (s + [x])[i] == s[i];
  }

  lemma NoJamoPrefix(s: seq<Unit>, x: Unit)
    requires NoJamo(s + [x])
    ensures NoJamo(s)
  {
    assert forall i :: 0 < i < |s| ==> (s + [x])[i] == s[i];
  }

  lemma FollowsStart(tb: Tables, s: seq<Unit>)
    requires |s| == 1 && ClassOf(tb, s[0]) == 0
    ensures Follows(tb, s, [true], [s[0]], ComposeFrom(tb, ComposeStart(tb, s[0]), s[1..]))
    ensures Composes(tb, s, [true], [s[0]])
  {
    hide ClassOf;
    assert s == [s[0]] && s[1..] == [];
    assert ComposeFrom(tb, ComposeStart(tb, s[0]), []) == ComposeStart(tb, s[0]);
  }

  /** Behind a mark at the start the next unit is kept, whatever the table says. */
  lemma FollowsMark(tb: Tables, s: seq<Unit>)
    requires |s| == 2 && ClassOf(tb, s[0]) != 0 && Ordered(tb, s)
    requires ByteClasses(tb, s)
    ensures var value := [s[0], if ClassOf(tb, s[1]) == 0 then s[1] else s[0]];
            Composes(tb, s, [true, true], value) &&
            Follows(tb, s, [true, true], value, ComposeFrom(tb, ComposeStart(tb, s[0]), s[1..]))
  {
  }

  /** The composed form of an ordered string. */
  lemma ComposedBlocked(tb: Tables, s: seq<Unit>) returns (kept: seq<bool>, value: seq<Unit>)
    requires s != [] && Ordered(tb, s) && NoJamo(s) && ByteClasses(tb, s)
    ensures Composes(tb, s, kept, value)
    ensures Composed(tb, s) == Some(Written(tb, s, kept, value, |s|) + [value[|s| - 1]] + KeptMarks(tb, s, kept, |s|))
  {
    hide ClassOf, ComposeFrom, Ordered, NoJamo, Composes, BlocksBelow;
    if |s| == 1 && ClassOf(tb, s[0]) != 0 {
      kept, value := [true], [s[0]];
      LoneMark(tb, s);
    } else {
      hide Written, KeptMarks;
      kept, value := ComposeTrace(tb, s);
      SameLengths(tb, s, kept, value);
    }
  }

  lemma LoneMark(tb: Tables, s: seq<Unit>)
    requires |s| == 1
    ensures Composed(tb, s) == Some([s[0]]) && Composes(tb, s, [true], [s[0]])
  {
    assert s[1..] == [];
    assert ComposeFrom(tb, ComposeStart(tb, s[0]), []) == ComposeStart(tb, s[0]);
    assert [] + [s[0]] + [] == [s[0]];
  }

  /** The empty string has no composed form: the result is not set yet. */
  lemma ComposedNothing(tb: Tables, s: seq<Unit>)
    ensures Composed(tb, s) == None <==> |s| == 0
  {
  }

  // ----- precomposed text comes back (NFKC) -----

  /** A starter without an entry, or the composite of its entry, a starter and a mark. */
  ghost predicate Precomposed(tb: Tables, ch: Unit) {
    && !(0xAC00 <= ch < 0xD7A4)
    && if ch in tb.kd && tb.kd[ch] != [] then
         exists a: Unit, m: Unit :: MadeOf(tb, ch, a, m)
       else ClassOf(tb, ch) == 0
  }

  ghost predicate MadeOf(tb: Tables, ch: Unit, a: Unit, m: Unit) {
    && ch in tb.kd && tb.kd[ch] == [a, m] && (a, m) in tb.kc && tb.kc[(a, m)] == ch
    && ClassOf(tb, a) == 0 && ClassOf(tb, m) != 0
    && !(VBase <= m < VLimit || TBase <= m < TLimit)
  }

  /** No unit composes with the starter the next one begins with. */
  ghost predicate Apart(tb: Tables, s: seq<Unit>) {
    forall i :: 0 < i < |s| ==> RawCompose(tb, s[i - 1], Entry(tb, s[i])[0]).None?
  }

  lemma EntryStarts(tb: Tables, ch: Unit)
    requires Precomposed(tb, ch)
    ensures var e := Entry(tb, ch);
            |e| > 0 && ClassOf(tb, e[0]) == 0 && (|e| == 1 ==> e == [ch]) &&
            (|e| > 1 ==> |e| == 2 && ClassOf(tb, e[1]) != 0 && RawCompose(tb, e[0], e[1]) == Some(ch))
  {
    hide ClassOf;
  }

  lemma EntryJoins(tb: Tables, ch: Unit, result: seq<Unit>)
    requires Precomposed(tb, ch)
    ensures var e := Entry(tb, ch);
            |e| > 0 && ClassOf(tb, e[0]) == 0 &&
            ComposeFrom(tb, Composing(result, [], e[0], 0), e[1..]) == Composing(result, [], ch, 0)
  {
    hide ClassOf, Entry, Precomposed, ComposeStep, ComposeFrom, RawCompose;
    EntryStarts(tb, ch);
    var e := Entry(tb, ch);
    var st := Composing(result, [], e[0], 0);
    if |e| == 1 {
      ComposeTwo(tb, st, ch, ch, ComposeStep(tb, st, ch), ComposeStep(tb, ComposeStep(tb, st, ch), ch));
      assert e[1..] == [];
    } else {
      StarterJoins(tb, st, e[1], ch);
      ComposeTwo(tb, st, e[1], e[1], Composing(result, [], ch, 0), ComposeStep(tb, Composing(result, [], ch, 0), e[1]));
      assert e[1..] == [e[1]];
    }
  }

  lemma EntryFollows(tb: Tables, st: Composing, ch: Unit)
    requires Precomposed(tb, ch) && st.buffer == [] && Entry(tb, ch) != []
    requires RawCompose(tb, st.starterCh, Entry(tb, ch)[0]).None?
    ensures ComposeFrom(tb, st, Entry(tb, ch)) == Composing(st.result + [st.starterCh], [], ch, 0)
  {
    hide ClassOf, Entry, Precomposed, ComposeStep, ComposeFrom, RawCompose;
    var e := Entry(tb, ch);
    var st1 := Composing(st.result + [st.starterCh], [], e[0], 0);
    EntryJoins(tb, ch, st1.result);
    StarterFollows(tb, st, e[0]);
    assert e == [e[0]] + e[1..];
    ComposeConcat(tb, st, [e[0]], e[1..]);
    ComposeTwo(tb, st, e[0], e[0], st1, ComposeStep(tb, st1, e[0]));
  }

  lemma EntryOrdered(tb: Tables, r: seq<Unit>, ch: Unit)
    requires Precomposed(tb, ch) && Ordered(tb, r)
    ensures Ordered(tb, r + Entry(tb, ch))
  {
    hide ClassOf, Entry, Precomposed;
    EntryStarts(tb, ch);
  }

  lemma {:induction false} RawPrecomposed(tb: Tables, s: seq<Unit>)
    requires Apart(tb, s) && forall k :: 0 <= k < |s| ==> Precomposed(tb, s[k])
    ensures Ordered(tb, Raw(tb, s)) && (s != [] ==> Raw(tb, s) != [] && ClassOf(tb, Raw(tb, s)[0]) == 0)
    ensures s != [] ==> ComposeFrom(tb, Composing([], [], Raw(tb, s)[0], 0), Raw(tb, s)[1..]) ==
                        Composing(s[..|s| - 1], [], s[|s| - 1], 0)
  {
    hide Entry, RawDecompose, ClassOf, ComposeFrom, ComposeStep, Precomposed, Ordered, RawCompose;
    if s == [] {
      NothingOrdered(tb);
    } else {
      var s', x := s[..|s| - 1], s[|s| - 1];
      assert Apart(tb, s') && Precomposed(tb, x);
      RawPrecomposed(tb, s');
      RawIsEntry(tb, x);
      var r', e := Raw(tb, s'), Entry(tb, x);
      EntryOrdered(tb, r', x);
      EntryJoins(tb, x, []);
      if s' == [] {
        assert r' + e == e;
      } else {
        assert RawCompose(tb, s[|s| - 2], e[0]).None?;
        EntryFollows(tb, Composing(s'[..|s'| - 1], [], s'[|s'| - 1], 0), x);
        ComposeConcat(tb, Composing([], [], r'[0], 0), r'[1..], e);
        assert (r' + e)[1..] == r'[1..] + e && (r' + e)[0] == r'[0];
        assert s'[..|s'| - 1] + [s'[|s'| - 1]] == s';
      }
    }
  }

  /** Text of starters and precomposed units is its own NFKC form. */
  lemma NfkcKeepsPrecomposed(tb: Tables, s: seq<Unit>)
    requires s != [] && Apart(tb, s) && forall k :: 0 <= k < |s| ==> Precomposed(tb, s[k])
    ensures Composed(tb, Decomposed(tb, s)) == Some(s)
  {
    hide Raw, Reordered, ComposeFrom, ClassOf, Apart, Precomposed, Ordered, SameMarks;
    RawPrecomposed(tb, s);
    ReorderedCorrect(tb, Raw(tb, s));
    OrderUnique(tb, Reordered(tb, Raw(tb, s)), Raw(tb, s));
    assert s[..|s| - 1] + [s[|s| - 1]] + [] == s;
  }

  // ----- an example of UAX #15 -----

  /** The entries for d, d with a dot above, d with a dot below, and the two dots. */
  function Dots(): Tables {
    Tables(map[0x1E0B := [0x64, 0x307], 0x1E0D := [0x64, 0x323]], map[0x307 := 230, 0x323 := 220],
           map[(0x64, 0x307) := 0x1E0B, (0x64, 0x323) := 0x1E0D])
  }

  /** The d with a dot above and a dot below behind it: the lower dot comes first, and
      composes. */
  lemma DotsExample()
    ensures Decomposed(Dots(), [0x1E0B, 0x323]) == [0x64, 0x323, 0x307]
    ensures Composed(Dots(), [0x64, 0x323, 0x307]) == Some([0x1E0D, 0x307])
  {
    var tb := Dots();
    assert [0x1E0B, 0x323][..1] == [0x1E0B] && [0x1E0B][..0] == [];
    assert Raw(tb, [0x1E0B]) == [0x64, 0x307];
    assert Raw(tb, [0x1E0B, 0x323]) == [0x64, 0x307, 0x323];
    DotsInOrder();
    DotsComposed();
  }

  lemma DotsInOrder()
    ensures Reordered(Dots(), [0x64, 0x307, 0x323]) == [0x64, 0x323, 0x307]
  {
    var tb := Dots();
    assert [0x64, 0x307, 0x323][..2] == [0x64, 0x307] && [0x64, 0x307][..1] == [0x64] && [0x64][..0] == [];
    assert Reordered(tb, [0x64]) == [0x64];
    assert Reordered(tb, [0x64, 0x307]) == [0x64, 0x307];
    assert Insert(tb, [0x64], 0x323) == [0x64, 0x323];
    assert Insert(tb, [0x64, 0x307], 0x323) == [0x64, 0x323] + [0x307];
  }

  lemma DotsComposed()
    ensures Composed(Dots(), [0x64, 0x323, 0x307]) == Some([0x1E0D, 0x307])
  {
    var tb := Dots();
    var st := ComposeStart(tb, 0x64);
    var st1 := Composing([], [], 0x1E0D, 0);
    assert ComposeStep(tb, st, 0x323) == st1;
    assert ComposeStep(tb, st1, 0x307) == Composing([], [0x307], 0x1E0D, 230);
    ComposeTwo(tb, st, 0x323, 0x307, st1, Composing([], [0x307], 0x1E0D, 230));
    assert [0x64, 0x323, 0x307][1..] == [0x323, 0x307];
    assert [] + [0x1E0D] + [0x307] == [0x1E0D, 0x307];
  }
}
