/**
 Inversion lists in scripts/nameprep_inversions.js: a set of integers as the increasing
 bounds of half-open ranges.
 */
module Inversions {
  import opened Wrappers

  ghost predicate Increasing(arr: seq<int>) { forall i, j :: 0 <= i < j < |arr| ==> arr[i] < arr[j] }

  /** The largest index whose bound is not above v, or -1. */
  ghost predicate IsLeast(arr: seq<int>, v: int, index: int) {
    && -1 <= index < |arr|
    && (index >= 0 ==> arr[index] <= v)
    && (forall k :: index < k < |arr| ==> v < arr[k])
  }

  /** v lies in one of the ranges [arr[0], arr[1]), [arr[2], arr[3]), ...; an odd last
      bound starts a range without an end. */
  ghost predicate InRanges(arr: seq<int>, v: int) {
    exists k :: 0 <= k < |arr| && RangeHas(arr, k, v)
  }

  ghost predicate RangeHas(arr: seq<int>, k: nat, v: int)
    requires k < |arr|
  {
    k % 2 == 0 && arr[k] <= v && (k + 1 < |arr| ==> v < arr[k + 1])
  }

  lemma RangesByIndex(arr: seq<int>, v: int, index: int)
    requires Increasing(arr) && IsLeast(arr, v, index)
    ensures InRanges(arr, v) <==> index >= 0 && index % 2 == 0
  {
    if index >= 0 && index % 2 == 0 {
      assert RangeHas(arr, index, v);
    }
    if InRanges(arr, v) {
      var k :| 0 <= k < |arr| && RangeHas(arr, k, v);
      assert k <= index;
      assert k + 1 < |arr| ==> index < k + 1;
    }
  }

  lemma LeastUnique(arr: seq<int>, v: int, i: int, j: int)
    requires IsLeast(arr, v, i) && IsLeast(arr, v, j)
    ensures i == j
  {
  }

  /** What the constructor makes of a list with elided bounds: the one before plus one. */
  function Filled(bounds: seq<Option<int>>): (r: seq<int>)
    requires bounds != [] && bounds[0].Some?
    ensures |r| == |bounds|
  {
    var n := |bounds| - 1;
    if n == 0 then [bounds[0].value]
    else
      var before := Filled(bounds[..n]);
      before + [if bounds[n].Some? then bounds[n].value else before[n - 1] + 1]
  }

  lemma {:induction false} FilledAt(bounds: seq<Option<int>>, i: nat)
    requires bounds != [] && bounds[0].Some? && i < |bounds|
    ensures Filled(bounds)[i] == if bounds[i].Some? then bounds[i].value else Filled(bounds)[i - 1] + 1
    decreases |bounds|
  {
    var n := |bounds| - 1;
    if i < n {
      FilledAt(bounds[..n], i);
    }
  }

  /** A list without gaps is left as it is. */
  lemma {:induction false} FilledWhole(bounds: seq<Option<int>>, i: nat)
    requires bounds != [] && i < |bounds| && forall k :: 0 <= k < |bounds| ==> bounds[k].Some?
    ensures Filled(bounds)[i] == bounds[i].value
  {
    FilledAt(bounds, i);
  }

  class Inversion {
    const rangeArray: array<Option<int>>
    var opposite: int

    /** Every bound is there and they increase. */
    ghost predicate Valid()
      reads this, rangeArray
    {
      && rangeArray.Length > 0 && (opposite == 0 || opposite == 1)
      && (forall k :: 0 <= k < rangeArray.Length ==> rangeArray[k].Some?)
      && Increasing(Bounds())
    }

    ghost function Bounds(): (r: seq<int>)
      reads rangeArray
      ensures |r| == rangeArray.Length
    {
      seq(rangeArray.Length, k requires 0 <= k < rangeArray.Length reads rangeArray =>
        if rangeArray[k].Some? then rangeArray[k].value else 0)
    }

    /** The set the list stands for. */
    ghost predicate Has(v: int)
      reads this, rangeArray
    {
      InRanges(Bounds(), v) <==> opposite == 0
    }

    /** The constructor fills the elided bounds in the array it is given. */
    constructor (rangeArray: array<Option<int>>)
      requires rangeArray.Length > 0 && rangeArray[0].Some?
      modifies rangeArray
      ensures this.rangeArray == rangeArray && opposite == 0
      ensures Increasing(Filled(old(rangeArray[..]))) ==> Valid() && Bounds() == Filled(old(rangeArray[..]))
    {
      this.rangeArray := rangeArray;
      opposite := 0;
      new;
      ghost var bounds := rangeArray[..];
      FilledAt(bounds, 0);
      var i := 1;
      while i < rangeArray.Length
        invariant 1 <= i <= rangeArray.Length && opposite == 0
        invariant forall k :: i <= k < rangeArray.Length ==> rangeArray[k] == bounds[k]
        invariant forall k :: 0 <= k < i ==> rangeArray[k] == Some(Filled(bounds)[k])
      {
        FilledAt(bounds, i);
        if rangeArray[i] == None {
          rangeArray[i] := Some(rangeArray[i - 1].value + 1);
        } else if rangeArray[i - 1].value >= rangeArray[i].value {
          assert !Increasing(Filled(bounds));
          return;
        }
        i := i + 1;
      }
      if Increasing(Filled(bounds)) {
        assert Bounds() == Filled(bounds);
      }
    }

    /** `getLeast`: halving down to eight bounds, then one by one. */
    method GetLeast(v: int) returns (index: int)
      requires Valid()
      ensures IsLeast(Bounds(), v, index)
    {
      var arr := rangeArray;
      var low, high := 0, arr.Length;
      while high - low > 8
        invariant 0 <= low <= high <= arr.Length
        invariant forall k :: 0 <= k < low ==> Bounds()[k] <= v
        invariant forall k :: high <= k < arr.Length ==> v < Bounds()[k]
      {
        var mid := (high + low) / 2;
        assert arr[mid].value == Bounds()[mid];
        assert forall k :: 0 <= k < mid ==> Bounds()[k] < Bounds()[mid];
        assert forall k :: mid < k < arr.Length ==> Bounds()[mid] < Bounds()[k];
        if arr[mid].value <= v { low := mid; } else { high := mid; }
      }
      while low < high
        invariant 0 <= low <= high <= arr.Length
        invariant forall k :: 0 <= k < low ==> Bounds()[k] <= v
        invariant forall k :: high <= k < arr.Length ==> v < Bounds()[k]
      {
        assert arr[low].value == Bounds()[low];
        assert forall k :: low < k < arr.Length ==> Bounds()[low] < Bounds()[k];
        if v < arr[low].value { break; }
        low := low + 1;
      }
      return low - 1;
    }

    /** `getLeast2`: one by one. */
    method GetLeast2(v: int) returns (index: int)
      requires Valid()
      ensures IsLeast(Bounds(), v, index)
    {
      var low, high := 0, rangeArray.Length;
      while low < high
        invariant 0 <= low <= high == rangeArray.Length
        invariant forall k :: 0 <= k < low ==> Bounds()[k] <= v
      {
        assert rangeArray[low].value == Bounds()[low];
        assert forall k :: low < k < rangeArray.Length ==> Bounds()[low] < Bounds()[k];
        if v < rangeArray[low].value { break; }
        low := low + 1;
      }
      return low - 1;
    }

    /** `contains`; the lowest bit of -1 is set. */
    method Contains(v: int) returns (b: bool)
      requires Valid()
      ensures b <==> Has(v)
    {
      var index := GetLeast(v);
      RangesByIndex(Bounds(), v, index);
      b := index % 2 == opposite;
    }

    /** `makeOpposite`: the same bounds for the complement. */
    method MakeOpposite() returns (result: Inversion)
      requires Valid()
      modifies rangeArray
      ensures fresh(result) && result.Valid() && result.rangeArray == rangeArray
      ensures Bounds() == old(Bounds()) && forall v :: result.Has(v) <==> !Has(v)
    {
      ghost var bounds := rangeArray[..];
      forall k | 0 <= k < |bounds| ensures Filled(bounds)[k] == Bounds()[k] {
        FilledWhole(bounds, k);
      }
      assert Filled(bounds) == Bounds();
      result := new Inversion(rangeArray);
      result.opposite := 1 - opposite;
      assert result.Bounds() == Bounds();
    }
  }
}
