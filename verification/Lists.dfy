/**
 Sequences without repetition: the contents of linked lists.
 */
module Lists {

  /** Where an element occurs first, or the length. */
  ghost function IndexIn<T>(list: seq<T>, x: T): (i: nat)
    ensures i <= |list| && (i < |list| ==> list[i] == x)
    ensures i == |list| <==> x !in list
  {
    if list == [] || list[0] == x then 0 else 1 + IndexIn(list[1..], x)
  }

  /** No element occurs twice. */
  ghost predicate Separate<T>(list: seq<T>) { forall k :: 0 <= k < |list| ==> IndexIn(list, list[k]) == k }

  lemma {:induction false} SeparateIndex<T>(list: seq<T>, k: nat)
    requires k < |list| && forall j :: 0 <= j < k ==> list[j] != list[k]
    ensures IndexIn(list, list[k]) == k
  {
    if k > 0 {
      SeparateIndex(list[1..], k - 1);
    }
  }

  lemma DifferentPlaces<T>(list: seq<T>, i: int, j: int)
    requires Separate(list)
    ensures 0 <= i < j < |list| ==> list[i] != list[j]
  {
    hide IndexIn;
    if 0 <= i < j < |list| {
      assert IndexIn(list, list[i]) == i && IndexIn(list, list[j]) == j;
    }
  }

  // ----- one element more -----

  ghost function Spliced<T>(list: seq<T>, k: nat, p: T): seq<T>
    requires k <= |list|
  {
    list[..k] + [p] + list[k..]
  }

  lemma SplicedEnds<T>(list: seq<T>, k: nat, p: T)
    requires 0 < k <= |list|
    ensures var l := Spliced(list, k, p);
            |l| == |list| + 1 && l[0] == list[0] && l[|list|] == (if k == |list| then p else list[|list| - 1]) &&
            forall x :: x in l <==> x in list || x == p
  {
    var l := Spliced(list, k, p);
    assert forall j :: 0 <= j < k ==> l[j] == list[j];
    assert forall j :: k < j < |l| ==> l[j] == list[j - 1];
    assert l[k] == p;
    forall x | x in list ensures x in l {
      var j :| 0 <= j < |list| && list[j] == x;
      assert l[if j < k then j else j + 1] == x;
    }
  }

  lemma SplicedSeparate<T>(list: seq<T>, k: nat, p: T)
    requires k <= |list| && Separate(list) && p !in list
    ensures Separate(Spliced(list, k, p))
  {
    hide IndexIn;
    var l := Spliced(list, k, p);
    assert forall j :: 0 <= j < k ==> l[j] == list[j];
    assert forall j :: k < j < |l| ==> l[j] == list[j - 1];
    forall m | 0 <= m < |l| ensures IndexIn(l, l[m]) == m {
      forall j | 0 <= j < m ensures l[j] != l[m] {
        DifferentPlaces(list, if j < k then j else j - 1, if m < k then m else m - 1);
      }
      SeparateIndex(l, m);
    }
  }

  lemma SplicedIndex<T>(list: seq<T>, k: nat, p: T, x: T)
    requires k <= |list| && Separate(list) && p !in list && (x in list || x == p)
    ensures var l := Spliced(list, k, p);
            IndexIn(l, x) == if x == p then k else if IndexIn(list, x) < k then IndexIn(list, x) else IndexIn(list, x) + 1
  {
    hide IndexIn;
    var l := Spliced(list, k, p);
    SplicedSeparate(list, k, p);
    var i := IndexIn(list, x);
    assert l[k] == p;
    assert i < k ==> l[i] == x;
    assert k <= i < |list| ==> l[i + 1] == x;
  }

  // ----- one element less -----

  function Without<T>(list: seq<T>, k: nat): seq<T>
    requires k < |list|
  {
    list[..k] + list[k + 1..]
  }

  lemma WithoutSeparate<T>(list: seq<T>, k: nat)
    requires k < |list| && Separate(list)
    ensures Separate(Without(list, k))
  {
    hide IndexIn;
    var l := Without(list, k);
    forall m | 0 <= m < |l| ensures IndexIn(l, l[m]) == m {
      forall j | 0 <= j < m ensures l[j] != l[m] {
        DifferentPlaces(list, if j < k then j else j + 1, if m < k then m else m + 1);
      }
      SeparateIndex(l, m);
    }
  }

  /** What is in it comes from the list, from another place. */
  lemma WithoutInside<T>(list: seq<T>, k: nat, j: nat)
    requires k < |list| && j < |Without(list, k)|
    ensures Separate(list) ==> Without(list, k)[j] in list && Without(list, k)[j] != list[k]
  {
    var i := if j < k then j else j + 1;
    assert Without(list, k)[j] == list[i];
    if Separate(list) {
      DifferentPlaces(list, i, k);
      DifferentPlaces(list, k, i);
    }
  }

  /** The place of an element that stays. */
  lemma WithoutPlace<T>(list: seq<T>, k: nat, i: nat)
    requires k < |list| && i < |list| && i != k && Separate(list)
    ensures var l := Without(list, k); var j := if i < k then i else i - 1;
            j < |l| && l[j] == list[i] && IndexIn(l, list[i]) == j
  {
    hide IndexIn;
    WithoutSeparate(list, k);
    var l, j := Without(list, k), if i < k then i else i - 1;
    assert l[j] == list[i];
  }

  lemma WithoutIndex<T>(list: seq<T>, k: nat, x: T)
    requires k < |list| && Separate(list)
    ensures x in Without(list, k) <==> x in list && x != list[k]
    ensures x in list && x != list[k] ==>
              IndexIn(Without(list, k), x) == if IndexIn(list, x) < k then IndexIn(list, x) else IndexIn(list, x) - 1
  {
    hide IndexIn, Separate, Without;
    if x in list && x != list[k] {
      WithoutPlace(list, k, IndexIn(list, x));
    }
    if x in Without(list, k) {
      var j :| 0 <= j < |Without(list, k)| && Without(list, k)[j] == x;
      WithoutInside(list, k, j);
    }
  }
}
