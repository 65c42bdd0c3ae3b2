/** The numbers of RFC 3492: the bias in closed form, letter case, and sample strings. */
module PunycodeLaws {
  // Round trips alone hold for any bias, threshold and alphabet that both directions
  // share; here the standard's own are stated.

  import opened Wrappers
  import opened Punycode

  // ----- bias adaptation in closed form (section 6.1 of RFC 3492) -----

  function Power(x: nat, k: nat): nat {
    if k == 0 then 1 else x * Power(x, k - 1)
  }

  lemma PowerPositive(k: nat)
    ensures Power(35, k) > 0
  {
    if k > 0 {
      PowerPositive(k - 1);
    }
  }

  lemma NestedDivision(x: nat, y: nat, z: nat)
    requires y > 0 && z > 0
    ensures y * z > 0 && x / y / z == x / (y * z)
  {
    var q := x / y / z;
    var r, r' := x % y, x / y % z;
    assert x == x / y * y + r && x / y == q * z + r';
    Distribute(q, z, r', y);
    assert x == q * (y * z) + (r' * y + r);
    RemainderBelow(r', z, y, r);
    DivideUnique(q, y * z, r' * y + r);
  }

  lemma Distribute(q: int, z: int, r: int, y: int)
    ensures (q * z + r) * y == q * (y * z) + r * y
  {
  }

  lemma RemainderBelow(r': nat, z: nat, y: nat, r: nat)
    requires r' < z && r < y
    ensures 0 <= r' * y + r < y * z
  {
    assert (z - 1 - r') * y >= 0;
    assert (z - 1 - r') * y == y * z - y - r' * y;
  }

  /** The division loop finds the least power of 35 that brings d down to 455. */
  lemma {:induction false} ShrinkPower(d: nat, from: int) returns (k: nat)
    ensures Power(35, k) > 0 && Shrink(d, from) == (d / Power(35, k), from + 36 * k)
    ensures d / Power(35, k) <= 455
    ensures forall i: nat :: i < k ==> Power(35, i) > 0 && d / Power(35, i) > 455
    decreases d
  {
    if d <= 455 {
      k := 0;
    } else {
      var k' := ShrinkPower(d / 35, from + 36);
      k := k' + 1;
      NestedDivision(d, 35, Power(35, k'));
      forall i: nat | i < k
        ensures Power(35, i) > 0 && d / Power(35, i) > 455
      {
        if i > 0 {
          PowerPositive(i - 1);
          NestedDivision(d, 35, Power(35, i - 1));
        }
      }
    }
  }

  /** Half of delta as `delta >> 1` sees it: its low 32 bits are a signed number. */
  function Halved(delta: nat): int {
    var low := delta % 0x1_0000_0000;
    (if low < 0x8000_0000 then low else low - 0x1_0000_0000) / 2
  }

  /** delta scaled down and stretched by its numPoints-th part. */
  function Stretched(delta: nat, numPoints: nat, firstTime: bool): int
    requires numPoints > 0
  {
    var d := if firstTime then delta / 700 else Halved(delta);
    d + d / numPoints
  }

  lemma HalvedInt32(delta: nat)
    ensures Halved(delta) == ToInt32(delta) / 2
    ensures Halved(delta) < 0 ==> delta >= 0x8000_0000
  {
  }

  lemma QuotientPositive(x: nat, y: nat)
    requires y > 0
    ensures x / y >= 0
  {
  }

  lemma StretchedIsScaled(delta: nat, numPoints: nat, firstTime: bool)
    requires numPoints > 0
    ensures ScaledDelta(delta, numPoints, firstTime) == Stretched(delta, numPoints, firstTime)
    ensures Stretched(delta, numPoints, firstTime) < 0 ==> !firstTime && delta >= 0x8000_0000
  {
    hide Halved, ToInt32;
    HalvedInt32(delta);
    var d := if firstTime then delta / 700 else Halved(delta);
    if d >= 0 {
      QuotientPositive(d, numPoints);
    }
  }

  lemma BiasOfShrunk(delta: nat, numPoints: nat, firstTime: bool, q: int, k: int)
    requires numPoints > 0 && Shrink(ScaledDelta(delta, numPoints, firstTime), 0) == (q, k)
    ensures q >= 0 ==> AdaptedBias(delta, numPoints, firstTime) == k + 36 * q / (q + 38)
    ensures AdaptedBias(delta, numPoints, firstTime) ==
            if q == -38 then MINUS_INFINITY else k + FloorDiv(36 * q, q + 38)
  {
    hide Shrink, ScaledDelta;
  }

  /** The bias in the standard's numbers, with the loop's result given by powers of 35. */
  lemma BiasClosed(delta: nat, numPoints: nat, firstTime: bool) returns (k: nat)
    requires numPoints > 0 && Stretched(delta, numPoints, firstTime) >= 0
    ensures var d := Stretched(delta, numPoints, firstTime);
            Power(35, k) > 0 && d / Power(35, k) <= 455 &&
            (forall i: nat :: i < k ==> Power(35, i) > 0 && d / Power(35, i) > 455) &&
            AdaptedBias(delta, numPoints, firstTime) ==
            36 * k + 36 * (d / Power(35, k)) / (d / Power(35, k) + 38)
  {
    hide Shrink, Stretched, AdaptedBias, Power;
    StretchedIsScaled(delta, numPoints, firstTime);
    var d := Stretched(delta, numPoints, firstTime);
    k := ShrinkPower(d, 0);
    var q := d / Power(35, k);
    QuotientPositive(d, Power(35, k));
    BiasOfShrunk(delta, numPoints, firstTime, q, 36 * k);
  }

  /** Only a delta of 2^31 or more can come out negative; the quotient is then rounded down. */
  lemma BiasOfNegative(delta: nat, numPoints: nat, firstTime: bool)
    requires numPoints > 0 && Stretched(delta, numPoints, firstTime) < 0
    ensures !firstTime && delta >= 0x8000_0000
    ensures var d := Stretched(delta, numPoints, firstTime);
            var bias := AdaptedBias(delta, numPoints, firstTime);
            if d == -38 then bias == MINUS_INFINITY else RoundedDown(36 * d, d + 38, bias)
  {
    hide RoundedDown, FloorDiv, AdaptedBias, Stretched, ScaledDelta;
    StretchedIsScaled(delta, numPoints, firstTime);
    var d := Stretched(delta, numPoints, firstTime);
    BiasOfShrunk(delta, numPoints, firstTime, d, 0);
    if d != -38 {
      FloorDivRounds(36 * d, d + 38);
    }
  }

  /** q is the integer part of x / y, rounded towards minus infinity. */
  predicate RoundedDown(x: int, y: int, q: int) {
    if y > 0 then q * y <= x < q * y + y else q * y + y < x <= q * y
  }

  lemma FloorDivRounds(x: int, y: int)
    requires y != 0
    ensures RoundedDown(x, y, FloorDiv(x, y))
  {
    var a, b := if y > 0 then x else -x, if y > 0 then y else -y;
    var q := a / b;
    assert a == q * b + a % b;
    if y < 0 {
      assert q * b == -(q * y);
    }
  }

  /** The threshold is the number from 1 to 26 nearest to k - bias. */
  lemma ThresholdNearest(k: int, bias: int, t: int)
    ensures 1 <= Threshold(k, bias) <= 26
    ensures 1 <= t <= 26 ==> Distance(Threshold(k, bias), k - bias) <= Distance(t, k - bias)
  {
  }

  function Distance(a: int, b: int): nat {
    if a < b then b - a else a - b
  }

  // ----- digits and their case (section 5 of RFC 3492) -----

  /** a to z and A to Z are 0 to 25, 0 to 9 are 26 to 35; every unit up to "9" is
      taken for the digit 22 below it, every other one is no digit the loop accepts. */
  lemma DigitValues(c: Unit)
    ensures 97 <= c <= 122 ==> DecodeDigit(c) == c - 97
    ensures 65 <= c <= 90 ==> DecodeDigit(c) == c - 65
    ensures c <= 57 ==> DecodeDigit(c) == c - 22
    ensures 57 < c < 65 || 90 < c < 97 ==> DecodeDigit(c) < 0
    ensures c > 122 ==> DecodeDigit(c) == 36
    ensures forall d :: 0 <= d < 26 ==> EncodeDigit(d) == d + 97
    ensures forall d :: 26 <= d < 36 ==> EncodeDigit(d) == d - 26 + 48
  {
  }

  function Upper(c: Unit): Unit {
    if 97 <= c <= 122 then c - 32 else c
  }

  function Uppers(e: seq<Unit>): (r: seq<Unit>)
    ensures |r| == |e| && forall p :: 0 <= p < |e| ==> r[p] == Upper(e[p])
  {
    if e == [] then [] else [Upper(e[0])] + Uppers(e[1..])
  }

  lemma {:induction false} ReadUpper(e: seq<Unit>, i: int, w: int, k: int, bias: int)
    requires w > 0
    ensures ReadInteger(Uppers(e), i, w, k, bias) ==
            match ReadInteger(e, i, w, k, bias)
            case None => None
            case Some((i', rest)) => Some((i', Uppers(rest)))
    decreases |e|
  {
    hide Times;
    if e != [] {
      var digit, t := DecodeDigit(e[0]), Threshold(k, bias);
      assert DecodeDigit(Upper(e[0])) == digit;
      assert Uppers(e)[1..] == Uppers(e[1..]);
      if t <= digit < BASE && Times(digit, w) <= MAXINT - i && Times(w, BASE - t) <= MAXINT {
        WeightPositive(w, BASE - t);
        ReadUpper(e[1..], i + Times(digit, w), Times(w, BASE - t), k + BASE, bias);
      }
    }
  }

  lemma {:induction false} RestUpper(e: seq<Unit>, n: int, i: int, bias: int, output: seq<Unit>, count: nat)
    ensures DecodeRest(Uppers(e), n, i, bias, output, count) == DecodeRest(e, n, i, bias, output, count)
    decreases |e|
  {
    hide Times, FloorDiv, Remainder, AdaptedBias, ReadInteger, Inserted;
    if e != [] {
      ReadUpper(e, i, 1, BASE, bias);
      match ReadInteger(e, i, 1, BASE, bias)
      case None =>
      case Some((i', rest)) =>
        var n', at := n + FloorDiv(i', count + 1), Remainder(i', count + 1);
        RestUpper(rest, n', at + 1, AdaptedBias(i' - i, count + 1, i == 0), Inserted(output, at, n', count), count + 1);
    }
  }

  lemma LastDelimiterUnique(e: seq<Unit>, b: nat)
    requires b == 0 || (b < |e| && e[b] == DELIMITER)
    requires forall p :: b < p < |e| ==> e[p] != DELIMITER
    ensures LastDelimiter(e) == b
  {
  }

  lemma UpperKeepsStart(e: seq<Unit>)
    ensures var e' := e[..Start(e)] + Uppers(e[Start(e)..]);
            LastDelimiter(e') == LastDelimiter(e) && e'[..Start(e)] == e[..Start(e)] &&
            e'[Start(e)..] == Uppers(e[Start(e)..])
  {
    var at, b := Start(e), LastDelimiter(e);
    var e' := e[..at] + Uppers(e[at..]);
    forall p | b < p < |e'| ensures e'[p] != DELIMITER {
      assert p >= at && e'[p] == Upper(e[p]);
    }
    if b > 0 {
      assert e'[b] == e[b];
    }
    LastDelimiterUnique(e', b);
  }

  /** The digits may be in either case. */
  lemma DecodedUpper(e: seq<Unit>)
    ensures Decoded(e[..Start(e)] + Uppers(e[Start(e)..])) == Decoded(e)
  {
    hide DecodeRest, Uppers, LastDelimiter;
    UpperKeepsStart(e);
    var e', b := e[..Start(e)] + Uppers(e[Start(e)..]), LastDelimiter(e);
    assert Start(e') == Start(e) && e'[..b] == e'[..Start(e)][..b] && e[..b] == e[..Start(e)][..b];
    RestUpper(e[Start(e)..], INITIAL_N, 0, INITIAL_BIAS, e[..b], b);
  }

  // ----- units that are no digits -----

  /** ":" counts as -7 and is accepted: alone it decodes to "y", behind "a-" to "|a". */
  lemma NegativeDigit()
    ensures Decoded([58]) == Some([121])
    ensures Decoded([97, 45, 58]) == Some([124, 97])
  {
    hide DecodeRest;
    ColonAlone();
    ColonBehind();
    assert LastDelimiter([58]) == 0 by { LastDelimiterUnique([58], 0); }
    assert [58][0..] == [58] && [58][..0] == [];
    assert LastDelimiter([97, 45, 58]) == 1 by { LastDelimiterUnique([97, 45, 58], 1); }
    assert [97, 45, 58][2..] == [58] && [97, 45, 58][..1] == [97];
  }

  lemma ReadColon()
    ensures ReadInteger([58], 0, 1, 36, 72) == Some((-7, []))
  {
    assert [58][1..] == [];
  }

  lemma ReadOne(e: seq<Unit>, n: int, bias: int, output: seq<Unit>, count: nat, i': int, n': int, at: int, out: seq<Unit>)
    requires e != [] && ReadInteger(e, 0, 1, 36, bias) == Some((i', [])) && i' <= Times(MAXINT - n, count + 1)
    requires n' == n + FloorDiv(i', count + 1) && at == Remainder(i', count + 1) && out == Inserted(output, at, n', count)
    ensures DecodeRest(e, n, 0, bias, output, count) == Some(out)
  {
    hide AdaptedBias, ReadInteger, FloorDiv, Remainder, Inserted, Times;
    DecodeNothing(n', at + 1, AdaptedBias(i', count + 1, true), out, count + 1);
  }

  lemma ColonAlone()
    ensures DecodeRest([58], 128, 0, 72, [], 0) == Some([121])
  {
    hide DecodeRest, ReadInteger;
    ReadColon();
    assert Inserted([], 0, 121, 0) == [121];
    ReadOne([58], 128, 72, [], 0, -7, 121, 0, [121]);
  }

  lemma ColonBehind()
    ensures DecodeRest([58], 128, 0, 72, [97], 1) == Some([124, 97])
  {
    hide DecodeRest, ReadInteger;
    ReadColon();
    assert Inserted([97], -1, 124, 1) == [124, 97];
    ReadOne([58], 128, 72, [97], 1, -7, 124, -1, [124, 97]);
  }
}
