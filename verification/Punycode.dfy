/** The Punycode codec of scripts/punycode.js (RFC 3492). */
module Punycode {
  // Strings are sequences of 16-bit units, as `charCodeAt` and `fromCharCode` see them.
  // JavaScript numbers are modelled as integers: every intermediate value of the codec is
  // an integer below 2^53, and the comparisons with a quotient are written out as products.

  import opened Wrappers

  type Unit = x: int | 0 <= x < 0x1_0000

  const BASE := 36
  const TMIN := 1
  const TMAX := 26
  const SKEW := 38
  const DAMP := 700
  const INITIAL_BIAS := 72
  const INITIAL_N := 0x80
  const DELIMITER: Unit := 0x2D
  const MAXINT := 0xFFFF_FFFF

  /** Stands for JavaScript's -Infinity as a bias: every comparison with a k of at
      least 36 comes out the same. */
  const MINUS_INFINITY := -36

  /** A product that most proofs below only pass on. */
  function Times(a: int, b: int): int { a * b }

  predicate Basic(c: int) { c < 0x80 }

  function EncodeDigit(d: int): Unit
    requires 0 <= d < BASE
  {
    if d < 26 then d + 97 else d + 22
  }

  /** Total, as in the source: a unit that is no digit may yield a negative number. */
  function DecodeDigit(c: int): int {
    if c - 48 < 10 then c - 22
    else if c - 65 < 26 then c - 65
    else if c - 97 < 26 then c - 97
    else BASE
  }

  /** The threshold for position k: clamped into TMIN..TMAX (section 3.3 of RFC 3492). */
  function Threshold(k: int, bias: int): (t: int)
    ensures TMIN <= t <= TMAX
  {
    if k <= bias then TMIN else if k >= bias + TMAX then TMAX else k - bias
  }

  // ----- bias adaptation (section 6.1 of RFC 3492) -----

  function ToInt32(x: int): (r: int)
  {
    var m := x % 0x1_0000_0000;
    if m < 0x8000_0000 then m else m - 0x1_0000_0000
  }

  /** `Math.floor(a / b)`. */
  function FloorDiv(a: int, b: int): int
    requires b != 0
  {
    if b > 0 then a / b else (-a) / (-b)
  }

  /** The division loop of `adapt`: how far delta is divided, and the k it leaves. */
  function Shrink(delta: int, k: int): (int, int)
    decreases delta
  {
    if delta > ((BASE - TMIN) * TMAX) / 2 then Shrink(delta / (BASE - TMIN), k + BASE) else (delta, k)
  }

  function ScaledDelta(delta: int, numPoints: int, firstTime: bool): int
    requires numPoints > 0
  {
    var d := if firstTime then delta / DAMP else ToInt32(delta) / 2;
    d + d / numPoints
  }

  function AdaptedBias(delta: int, numPoints: int, firstTime: bool): int
    requires numPoints > 0
  {
    var (d, k) := Shrink(ScaledDelta(delta, numPoints, firstTime), 0);
    if d + SKEW == 0 then MINUS_INFINITY else k + FloorDiv((BASE - TMIN + 1) * d, d + SKEW)
  }

  method Adapt(delta: int, numPoints: int, firstTime: bool) returns (bias: int)
    requires numPoints > 0
    ensures bias == AdaptedBias(delta, numPoints, firstTime)
  {
    var d := if firstTime then delta / DAMP else ToInt32(delta) / 2;
    d := d + d / numPoints;
    var k := 0;
    while d > ((BASE - TMIN) * TMAX) / 2
      invariant Shrink(d, k) == Shrink(ScaledDelta(delta, numPoints, firstTime), 0)
      decreases d
    {
      d := d / (BASE - TMIN);
      k := k + BASE;
    }
    if d + SKEW == 0 { return MINUS_INFINITY; }
    bias := k + FloorDiv((BASE - TMIN + 1) * d, d + SKEW);
  }

  // ----- generalized variable-length integers (section 3.3 of RFC 3492) -----

  /** The digit emitted for q at threshold t, and the number left to emit. */
  function FirstDigit(q: nat, t: int): int
    requires TMIN <= t <= TMAX
  {
    t + (q - t) % (BASE - t)
  }

  function OtherDigits(q: nat, t: int): (r: int)
    requires TMIN <= t <= TMAX
  {
    (q - t) / (BASE - t)
  }

  lemma DivMod(x: nat, y: nat)
    requires y > 0
    ensures 0 <= x / y <= x && 0 <= x % y < y && x == Times(x / y, y) + x % y
  {
    hide Times;
    Division(x, y);
    TimesAtLeast(x / y, y);
  }

  lemma Division(x: nat, y: nat)
    requires y > 0
    ensures 0 <= x % y < y && x == Times(x / y, y) + x % y
  {
  }

  lemma TimesAtLeast(z: int, y: int)
    requires y > 0
    ensures z >= 0 ==> Times(z, y) >= z
    ensures z < 0 ==> Times(z, y) <= -y
  {
    if z >= 0 {
      assert z * y == z + z * (y - 1);
    } else {
      assert z * y == -y + (z + 1) * y;
    }
  }

  lemma QuotientShrinks(q: nat, t: int)
    requires TMIN <= t <= TMAX && q >= t
    ensures 0 <= OtherDigits(q, t) < q
    ensures t <= FirstDigit(q, t) < BASE
    ensures q == FirstDigit(q, t) + Times(OtherDigits(q, t), BASE - t)
  {
    hide Times;
    DivMod(q - t, BASE - t);
  }

  /** The digits the encoder emits for q, from position k on. */
  function Digits(q: nat, k: int, bias: int): (r: seq<Unit>)
    decreases q
  {
    var t := Threshold(k, bias);
    if q < t then [EncodeDigit(q)]
    else
      QuotientShrinks(q, t);
      [EncodeDigit(FirstDigit(q, t))] + Digits(OtherDigits(q, t), k + BASE, bias)
  }

  /** Whether the decoder's weight stays representable over all digits of q. */
  ghost predicate WeightsFit(q: nat, w: int, k: int, bias: int)
    decreases q
  {
    var t := Threshold(k, bias);
    q >= t ==>
      Times(w, BASE - t) <= MAXINT &&
      (QuotientShrinks(q, t); WeightsFit(OtherDigits(q, t), Times(w, BASE - t), k + BASE, bias))
  }

  lemma WeightPositive(w: int, x: int)
    requires w > 0 && x > 0
    ensures Times(w, x) > 0
  {
  }

  /** The decoder's inner loop on the input left: the new i and what is left behind it. */
  function ReadInteger(e: seq<Unit>, i: int, w: int, k: int, bias: int): (r: Option<(int, seq<Unit>)>)
    requires w > 0
    ensures r.Some? ==> |r.value.1| < |e|
    decreases |e|
  {
    if e == [] then None
    else
      var digit := DecodeDigit(e[0]);
      if digit >= BASE then None
      else if Times(digit, w) > MAXINT - i then None
      else
        var t := Threshold(k, bias);
        if digit < t then Some((i + Times(digit, w), e[1..]))
        else if Times(w, BASE - t) > MAXINT then None
        else
          WeightPositive(w, BASE - t);
          ReadInteger(e[1..], i + Times(digit, w), Times(w, BASE - t), k + BASE, bias)
  }

  lemma DigitInverse(d: int)
    requires 0 <= d < BASE
    ensures DecodeDigit(EncodeDigit(d)) == d
    ensures IsLowerDigit(EncodeDigit(d))
  {
  }

  predicate IsLowerDigit(c: Unit) { 97 <= c <= 122 || 48 <= c <= 57 }

  predicate AllLowerDigits(e: seq<Unit>) { forall p :: 0 <= p < |e| ==> IsLowerDigit(e[p]) }

  /** One digit d of weight w in front of the rest q', which has weight w * x. */
  lemma SplitWeight(q: nat, q': nat, d: int, x: int, w: int)
    requires q == d + Times(q', x) && w > 0 && x > 0
    ensures Times(w, x) > 0 && Times(q', Times(w, x)) >= 0
    ensures Times(q, w) == Times(d, w) + Times(q', Times(w, x))
  {
    assert q' * x * w == q' * (w * x);
    assert q' * (w * x) >= 0 * (w * x);
  }

  /** Reading back what the encoder wrote succeeds exactly when no guard is exceeded. */
  lemma {:induction false} ReadDigits(q: nat, i: int, w: int, k: int, bias: int, rest: seq<Unit>)
    requires w > 0
    ensures ReadInteger(Digits(q, k, bias) + rest, i, w, k, bias) ==
            if i + Times(q, w) <= MAXINT && WeightsFit(q, w, k, bias) then Some((i + Times(q, w), rest)) else None
    decreases q
  {
    hide Times, FirstDigit, OtherDigits, EncodeDigit, DecodeDigit;
    var t := Threshold(k, bias);
    var e := Digits(q, k, bias) + rest;
    if q < t {
      DigitInverse(q);
      assert e[1..] == rest;
    } else {
      QuotientShrinks(q, t);
      var d, q' := FirstDigit(q, t), OtherDigits(q, t);
      SplitWeight(q, q', d, BASE - t, w);
      DigitInverse(d);
      assert e[1..] == Digits(q', k + BASE, bias) + rest;
      ReadDigits(q', i + Times(d, w), Times(w, BASE - t), k + BASE, bias, rest);
    }
  }

  lemma DigitsAreLower(q: nat, k: int, bias: int)
    ensures AllLowerDigits(Digits(q, k, bias)) && Digits(q, k, bias) != []
    decreases q
  {
    var t := Threshold(k, bias);
    if q >= t {
      QuotientShrinks(q, t);
      DigitInverse(FirstDigit(q, t));
      DigitsAreLower(OtherDigits(q, t), k + BASE, bias);
    }
  }

  lemma DivideUnique(q: int, y: int, r: int)
    requires 0 <= r < y
    ensures (q * y + r) / y == q && (q * y + r) % y == r
  {
    var x := q * y + r;
    var z := x / y - q;
    assert x == (x / y) * y + x % y;
    assert z * y == r - x % y;
    assert z > 0 ==> z * y >= y;
    assert z < 0 ==> z * y <= -y;
  }

  /** A successful read of lower-case digits has one spelling: the encoder's.  The
      mixed-radix digits of a number are unique. */
  lemma {:induction false} ReadIsCanonical(e: seq<Unit>, i: int, w: int, k: int, bias: int) returns (q: nat)
    requires w > 0 && AllLowerDigits(e)
    requires ReadInteger(e, i, w, k, bias).Some?
    ensures ReadInteger(e, i, w, k, bias).value.0 == i + Times(q, w)
    ensures e == Digits(q, k, bias) + ReadInteger(e, i, w, k, bias).value.1
    ensures i + Times(q, w) <= MAXINT
    decreases |e|
  {
    hide Times;
    var d := DecodeDigit(e[0]);
    var t := Threshold(k, bias);
    assert IsLowerDigit(e[0]);
    if d < t {
      q := d;
    } else {
      WeightPositive(w, BASE - t);
      var q' := ReadIsCanonical(e[1..], i + Times(d, w), Times(w, BASE - t), k + BASE, bias);
      q := PrependDigit(q', d, t, w);
      CanonicalStep(e, q, q', d, t, k, bias, ReadInteger(e, i, w, k, bias).value.1);
    }
  }

  /** The number whose first digit is d and whose rest is q'. */
  lemma PrependDigit(q': nat, d: int, t: int, w: int) returns (q: nat)
    requires TMIN <= t <= TMAX && t <= d < BASE && w > 0
    ensures q >= t && OtherDigits(q, t) == q' && FirstDigit(q, t) == d
    ensures Times(q, w) == Times(d, w) + Times(q', Times(w, BASE - t))
  {
    var x := BASE - t;
    assert q' * x >= 0;
    q := d + q' * x;
    SplitWeight(q, q', d, x, w);
    DivideUnique(q', x, d - t);
  }

  lemma CanonicalStep(e: seq<Unit>, q: nat, q': nat, d: int, t: int, k: int, bias: int, rest: seq<Unit>)
    requires e != [] && IsLowerDigit(e[0]) && d == DecodeDigit(e[0])
    requires t == Threshold(k, bias) <= d && q >= t
    requires OtherDigits(q, t) == q' && FirstDigit(q, t) == d
    requires e[1..] == Digits(q', k + BASE, bias) + rest
    ensures e == Digits(q, k, bias) + rest
  {
    assert EncodeDigit(d) == e[0];
    assert e == [e[0]] + e[1..];
  }

  // ----- the order in which code points are handled -----

  /** Whether the unit c at index p is handled once the encoder has reached <n, j>. */
  predicate Done(c: Unit, p: int, n: int, j: int) { c < n || (c == n && p < j) }

  /** The units among the first m of s that are handled at <n, j>, in their order in s. */
  function Kept(s: seq<Unit>, m: nat, n: int, j: int): (r: seq<Unit>)
    requires m <= |s|
    ensures |r| <= m
  {
    if m == 0 then []
    else Kept(s, m - 1, n, j) + if Done(s[m - 1], m - 1, n, j) then [s[m - 1]] else []
  }

  /** The decoder's position for <n, j>: how many handled units stand before index j. */
  function Pos(s: seq<Unit>, n: int, j: nat): nat
    requires j <= |s|
  {
    |Kept(s, j, n, j)|
  }

  lemma {:induction false} KeptSame(s: seq<Unit>, m: nat, n: int, j: int, n': int, j': int)
    requires m <= |s|
    requires forall p :: 0 <= p < m ==> (Done(s[p], p, n, j) <==> Done(s[p], p, n', j'))
    ensures Kept(s, m, n, j) == Kept(s, m, n', j')
  {
    if m > 0 {
      KeptSame(s, m - 1, n, j, n', j');
    }
  }

  lemma {:induction false} KeptAll(s: seq<Unit>, m: nat, n: int, j: int)
    requires m <= |s| && forall p :: 0 <= p < m ==> Done(s[p], p, n, j)
    ensures Kept(s, m, n, j) == s[..m]
  {
    if m > 0 {
      KeptAll(s, m - 1, n, j);
    }
  }

  lemma {:induction false} KeptPrefix(s: seq<Unit>, m: nat, m': nat, n: int, j: int)
    requires m <= m' <= |s|
    ensures Kept(s, m, n, j) <= Kept(s, m', n, j)
    decreases m'
  {
    if m < m' {
      KeptPrefix(s, m, m' - 1, n, j);
    }
  }

  lemma PosNext(s: seq<Unit>, n: int, j: nat)
    requires j < |s|
    ensures Pos(s, n, j + 1) == Pos(s, n, j) + if s[j] <= n then 1 else 0
  {
    KeptSame(s, j, n, j, n, j + 1);
  }

  /** Handling s[j] at <s[j], j> inserts it at the decoder's position. */
  lemma {:induction false} KeptInsert(s: seq<Unit>, m: nat, n: Unit, j: nat)
    requires j < m <= |s| && s[j] == n
    ensures Pos(s, n, j) <= |Kept(s, m, n, j)|
    ensures Kept(s, m, n, j + 1) == Kept(s, m, n, j)[..Pos(s, n, j)] + [n] + Kept(s, m, n, j)[Pos(s, n, j)..]
    decreases m
  {
    if m == j + 1 {
      KeptSame(s, j, n, j, n, j + 1);
    } else {
      KeptInsert(s, m - 1, n, j);
    }
  }

  // ----- encoding (section 6.3 of RFC 3492) -----

  /** Puts a piece in front of what follows, if what follows did not fail. */
  function Prepend(piece: seq<Unit>, rest: Option<seq<Unit>>): Option<seq<Unit>> {
    match rest
    case None => None
    case Some(r) => Some(piece + r)
  }

  /**
   The reference encoder: it visits every state <n, j> in order, one at a time,
   counting in delta the decoder states it passes, and writes delta when it meets a
   unit equal to n.  h units are handled, b of them basic.
   */
  ghost function Walk(s: seq<Unit>, n: int, j: nat, delta: nat, h: nat, bias: int, b: nat): Option<seq<Unit>>
    requires j <= |s|
    decreases 0x1_0000 - n, |s| - j
  {
    if n >= 0x1_0000 then Some([])
    else if j == |s| then Walk(s, n + 1, 0, delta + 1, h, bias, b)
    else if s[j] < n then Walk(s, n, j + 1, delta + 1, h, bias, b)
    else if s[j] > n then Walk(s, n, j + 1, delta, h, bias, b)
    else if delta - Pos(s, n, j) > MAXINT then None
    else Prepend(Digits(delta, BASE, bias),
                 Walk(s, n, j + 1, 0, h + 1, AdaptedBias(delta, h + 1, h == b), b))
  }

  function Basics(s: seq<Unit>): seq<Unit> { Kept(s, |s|, INITIAL_N, 0) }

  function BasicPart(s: seq<Unit>): seq<Unit> {
    Basics(s) + if Basics(s) != [] then [DELIMITER] else []
  }

  /** What `encode` returns; None is its `false`. */
  ghost function Encoded(s: seq<Unit>): Option<seq<Unit>> {
    Prepend(BasicPart(s), Walk(s, INITIAL_N, 0, 0, |Basics(s)|, INITIAL_BIAS, |Basics(s)|))
  }

  /** No unit is met for the first time between <n, j> and <n', j'>. */
  ghost predicate NothingBetween(s: seq<Unit>, n: int, j: int, n': int, j': int) {
    forall p :: 0 <= p < |s| ==> (Done(s[p], p, n, j) <==> Done(s[p], p, n', j'))
  }

  lemma {:induction false} WalkRow(s: seq<Unit>, n: int, j: nat, delta: nat, h: nat, bias: int, b: nat,
                                   j': nat, delta': nat)
    requires n < 0x1_0000 && j <= j' <= |s|
    requires forall p :: j <= p < j' ==> s[p] != n
    requires delta' == delta + Pos(s, n, j') - Pos(s, n, j)
    ensures Walk(s, n, j, delta, h, bias, b) == Walk(s, n, j', delta', h, bias, b)
    decreases j' - j
  {
    if j < j' {
      PosNext(s, n, j);
      WalkRow(s, n, j + 1, delta + if s[j] < n then 1 else 0, h, bias, b, j', delta');
    }
  }

  /** The decoder states in a number of whole rows: rows * (h + 1), as a sum. */
  function Span(rows: nat, h: nat): nat {
    if rows == 0 then 0 else Span(rows - 1, h) + h + 1
  }

  lemma {:induction false} SpanIsProduct(rows: nat, h: nat)
    ensures Span(rows, h) == rows * (h + 1)
  {
    if rows > 0 {
      SpanIsProduct(rows - 1, h);
      assert rows * (h + 1) == (rows - 1) * (h + 1) + (h + 1);
    }
  }

  /** Where nothing is met the walk only counts: h + 1 states for every row. */
  lemma {:induction false} WalkTo(s: seq<Unit>, n: int, j: nat, delta: nat, h: nat, bias: int, b: nat,
                                  n': int, j': nat, delta': nat)
    requires j <= |s| && j' <= |s| && n' < 0x1_0000 && (n < n' || (n == n' && j <= j'))
    requires NothingBetween(s, n, j, n', j') && h == |Kept(s, |s|, n, j)|
    requires delta' == delta + Span(n' - n, h) + Pos(s, n', j') - Pos(s, n, j)
    ensures Walk(s, n, j, delta, h, bias, b) == Walk(s, n', j', delta', h, bias, b)
    decreases n' - n
  {
    if n == n' {
      assert forall p :: j <= p < j' ==> (Done(s[p], p, n, j) <==> Done(s[p], p, n', j'));
      WalkRow(s, n, j, delta, h, bias, b, j', delta');
    } else {
      RestOfRow(s, n, j, n', j');
      KeptPrefix(s, j, |s|, n, j);
      WalkRow(s, n, j, delta, h, bias, b, |s|, delta + h - Pos(s, n, j));
      WalkTo(s, n + 1, 0, delta + h - Pos(s, n, j) + 1, h, bias, b, n', j', delta');
    }
  }

  lemma RestOfRow(s: seq<Unit>, n: int, j: nat, n': int, j': nat)
    requires j <= |s| && j' <= |s| && n < n' && NothingBetween(s, n, j, n', j')
    ensures forall p :: j <= p < |s| ==> s[p] != n
    ensures NothingBetween(s, n + 1, 0, n', j')
    ensures Kept(s, |s|, n, j) == Kept(s, |s|, n, |s|) == Kept(s, |s|, n + 1, 0)
  {
    forall p | 0 <= p < |s|
      ensures p >= j ==> s[p] != n
      ensures Done(s[p], p, n + 1, 0) <==> Done(s[p], p, n', j')
      ensures Done(s[p], p, n, j) <==> Done(s[p], p, n + 1, 0)
      ensures Done(s[p], p, n, j) <==> Done(s[p], p, n, |s|)
    {
      assert Done(s[p], p, n, j) <==> Done(s[p], p, n', j');
    }
    KeptSame(s, |s|, n, j, n, |s|);
    KeptSame(s, |s|, n, j, n + 1, 0);
  }

  // ----- decoding (section 6.2 of RFC 3492) -----

  function Clamp(x: int, hi: nat): nat { if x < 0 then 0 else if x > hi then hi else x }

  /** `s.substring(0, i)`. */
  function Substring0(s: seq<Unit>, i: int): seq<Unit> { s[..Clamp(i, |s|)] }

  /** `s.substr(start, length)`: a negative start counts from the end. */
  function Substr(s: seq<Unit>, start: int, length: int): seq<Unit> {
    var from := Clamp(if start < 0 then |s| + start else start, |s|);
    s[from..from + Clamp(length, |s| - from)]
  }

  /** JavaScript's `%`: the sign of the dividend. */
  function Remainder(a: int, b: int): int
    requires b > 0
  {
    if a < 0 then -((-a) % b) else a % b
  }

  /** `String.fromCharCode`: the low 16 bits. */
  function FromCharCode(n: int): Unit { n % 0x1_0000 }

  /** The decoder's output after inserting n at i; count is its variable `out`. */
  function Inserted(output: seq<Unit>, i: int, n: int, count: nat): seq<Unit> {
    Substring0(output, i) + [FromCharCode(n)] + Substr(output, i, count - i)
  }

  /** The main decoding loop on the input left, from <n, i> on. */
  function DecodeRest(e: seq<Unit>, n: int, i: int, bias: int, output: seq<Unit>, count: nat): Option<seq<Unit>>
    decreases |e|
  {
    if e == [] then Some(output)
    else
      match ReadInteger(e, i, 1, BASE, bias)
      case None => None
      case Some((i', rest)) =>
        if i' > Times(MAXINT - n, count + 1) then None
        else
          var n' := n + FloorDiv(i', count + 1);
          var at := Remainder(i', count + 1);
          DecodeRest(rest, n', at + 1, AdaptedBias(i' - i, count + 1, i == 0),
                     Inserted(output, at, n', count), count + 1)
  }

  /** The index of the last delimiter, or 0. */
  function LastDelimiter(e: seq<Unit>): (b: nat)
    ensures b == 0 || (b < |e| && e[b] == DELIMITER)
    ensures forall p :: b < p < |e| ==> e[p] != DELIMITER
  {
    if e == [] then 0
    else if e[|e| - 1] == DELIMITER then |e| - 1
    else LastDelimiter(e[..|e| - 1])
  }

  /** Where the digits start. */
  function Start(e: seq<Unit>): (i: nat)
    ensures i <= |e|
  {
    if LastDelimiter(e) > 0 then LastDelimiter(e) + 1 else 0
  }

  predicate AllBasic(e: seq<Unit>) { forall p :: 0 <= p < |e| ==> Basic(e[p]) }

  /** What `decode` returns; None is its `false`. */
  function Decoded(e: seq<Unit>): Option<seq<Unit>> {
    var b := LastDelimiter(e);
    if !AllBasic(e[..b]) then None
    else DecodeRest(e[Start(e)..], INITIAL_N, 0, INITIAL_BIAS, e[..b], b)
  }

  /** Every code point the decoder inserts is a single 16-bit unit. */
  ghost predicate InsertsUnits(e: seq<Unit>, n: int, i: int, bias: int, count: nat)
    decreases |e|
  {
    e == [] ||
    match ReadInteger(e, i, 1, BASE, bias)
    case None => true
    case Some((i', rest)) =>
      var n' := n + FloorDiv(i', count + 1);
      n' < 0x1_0000 &&
      InsertsUnits(rest, n', Remainder(i', count + 1) + 1, AdaptedBias(i' - i, count + 1, i == 0), count + 1)
  }

  // ----- the simulation of the encoder by the decoder -----

  /** From <n, j> on, no emitted delta runs into the decoder's two overflow guards,
      where i is the decoder's position before the next delta. */
  ghost predicate Representable(s: seq<Unit>, n: int, j: nat, delta: nat, h: nat, bias: int, b: nat, i: nat)
    requires j <= |s|
    decreases 0x1_0000 - n, |s| - j
  {
    if n >= 0x1_0000 then true
    else if j == |s| then Representable(s, n + 1, 0, delta + 1, h, bias, b, i)
    else if s[j] < n then Representable(s, n, j + 1, delta + 1, h, bias, b, i)
    else if s[j] > n then Representable(s, n, j + 1, delta, h, bias, b, i)
    else i + delta <= MAXINT && WeightsFit(delta, 1, BASE, bias) &&
         Representable(s, n, j + 1, 0, h + 1, AdaptedBias(delta, h + 1, h == b), b, Pos(s, n, j) + 1)
  }

  /** The decoder finds the row and the position again by dividing. */
  lemma RowAndPosition(i': nat, rows: nat, h: nat, pos: nat, limit: nat)
    requires i' == Span(rows, h) + pos && pos <= h && rows < limit
    ensures FloorDiv(i', h + 1) == rows && Remainder(i', h + 1) == pos && i' <= Times(limit, h + 1)
  {
    hide Times, Span;
    SpanTimes(rows, h);
    DivideTimes(i', rows, h + 1, pos);
    TimesGrows(rows, limit, h + 1);
  }

  lemma SpanTimes(rows: nat, h: nat)
    ensures Span(rows, h) == Times(rows, h + 1)
  {
    SpanIsProduct(rows, h);
  }

  lemma DivideTimes(x: int, q: int, y: int, r: int)
    requires x == Times(q, y) + r && 0 <= r < y
    ensures x / y == q && x % y == r
  {
    DivideUnique(q, y, r);
  }

  lemma TimesGrows(q: int, limit: int, y: int)
    requires q < limit && y > 0
    ensures Times(q, y) + y <= Times(limit, y)
  {
    TimesAtLeast(limit - q - 1, y);
    assert limit * y == q * y + y + (limit - q - 1) * y;
  }

  /** One decoder step, for a number that has been read as <rows, pos>. */
  lemma DecodeOne(e: seq<Unit>, n0: int, i: nat, bias: int, output: seq<Unit>, h: nat,
                  i': nat, rest: seq<Unit>, n: Unit, pos: nat)
    requires e != [] && 0 <= n0 <= n && h == |output|
    requires ReadInteger(e, i, 1, BASE, bias) == Some((i', rest))
    requires pos <= h && i' == Span(n - n0, h) + pos
    ensures DecodeRest(e, n0, i, bias, output, h) ==
            DecodeRest(rest, n, pos + 1, AdaptedBias(i' - i, h + 1, i == 0),
                       output[..pos] + [n] + output[pos..], h + 1)
    ensures InsertsUnits(e, n0, i, bias, h) ==
            InsertsUnits(rest, n, pos + 1, AdaptedBias(i' - i, h + 1, i == 0), h + 1)
  {
    hide Times, FloorDiv, Remainder, AdaptedBias, ReadInteger, Inserted;
    RowAndPosition(i', n - n0, h, pos, MAXINT - n0);
    InsertedAt(output, pos, n);
  }

  lemma InsertedAt(output: seq<Unit>, pos: nat, n: Unit)
    requires pos <= |output|
    ensures Inserted(output, pos, n, |output|) == output[..pos] + [n] + output[pos..]
  {
  }

  lemma DecodeNothing(n: int, i: int, bias: int, output: seq<Unit>, h: nat)
    ensures DecodeRest([], n, i, bias, output, h) == Some(output) && InsertsUnits([], n, i, bias, h)
  {
  }

  /**
   The simulation invariant.  Behind the encoder's <n, j> stands a decoder at <n0, i>
   that has rebuilt exactly the handled units; delta is the number of decoder states
   between the two; the decoder's first-time flag is the encoder's.
   */
  ghost predicate Tracks(s: seq<Unit>, n: int, j: nat, delta: nat, h: nat, b: nat, n0: int, i: nat, output: seq<Unit>)
    requires j <= |s|
  {
    && 0 <= n0 <= n <= 0x1_0000
    && output == Kept(s, |s|, n, j) && h == |output|
    && i + delta == Span(n - n0, h) + Pos(s, n, j)
    && (i == 0 <==> h == b) && b <= h
  }

  lemma TracksNextRow(s: seq<Unit>, n: int, delta: nat, h: nat, b: nat, n0: int, i: nat, output: seq<Unit>)
    requires n < 0x1_0000 && Tracks(s, n, |s|, delta, h, b, n0, i, output)
    ensures Tracks(s, n + 1, 0, delta + 1, h, b, n0, i, output)
  {
    KeptSame(s, |s|, n, |s|, n + 1, 0);
  }

  lemma TracksSkip(s: seq<Unit>, n: int, j: nat, delta: nat, h: nat, b: nat, n0: int, i: nat, output: seq<Unit>)
    requires j < |s| && s[j] != n && Tracks(s, n, j, delta, h, b, n0, i, output)
    ensures Tracks(s, n, j + 1, delta + if s[j] < n then 1 else 0, h, b, n0, i, output)
  {
    PosNext(s, n, j);
    KeptSame(s, |s|, n, j, n, j + 1);
  }

  lemma TracksEmit(s: seq<Unit>, n: int, j: nat, delta: nat, h: nat, b: nat, n0: int, i: nat, output: seq<Unit>)
    requires j < |s| && s[j] == n && Tracks(s, n, j, delta, h, b, n0, i, output)
    ensures Tracks(s, n, j + 1, 0, h + 1, b, n, Pos(s, n, j) + 1, Kept(s, |s|, n, j + 1))
  {
    PosNext(s, n, j);
    KeptInsert(s, |s|, n, j);
  }

  /** One decoder step undoes one emission. */
  lemma DecodeStep(s: seq<Unit>, n: int, j: nat, delta: nat, h: nat, bias: int, b: nat,
                   n0: int, i: nat, output: seq<Unit>, rest: seq<Unit>)
    requires j < |s| && s[j] == n && Tracks(s, n, j, delta, h, b, n0, i, output)
    ensures DecodeRest(Digits(delta, BASE, bias) + rest, n0, i, bias, output, h) ==
            if i + delta <= MAXINT && WeightsFit(delta, 1, BASE, bias)
            then DecodeRest(rest, n, Pos(s, n, j) + 1, AdaptedBias(delta, h + 1, h == b), Kept(s, |s|, n, j + 1), h + 1)
            else None
    ensures i + delta <= MAXINT && WeightsFit(delta, 1, BASE, bias) ==>
            InsertsUnits(Digits(delta, BASE, bias) + rest, n0, i, bias, h) ==
            InsertsUnits(rest, n, Pos(s, n, j) + 1, AdaptedBias(delta, h + 1, h == b), h + 1)
  {
    hide AdaptedBias, FloorDiv, Remainder, ReadInteger;
    DigitsAreLower(delta, BASE, bias);
    ReadDigits(delta, i, 1, BASE, bias, rest);
    KeptInsert(s, |s|, n, j);
    if i + delta <= MAXINT && WeightsFit(delta, 1, BASE, bias) {
      DecodeOne(Digits(delta, BASE, bias) + rest, n0, i, bias, output, h, i + delta, rest, n, Pos(s, n, j));
    }
  }

  /** Decoding the rest of the encoder's output rebuilds s, precisely when no delta
      still to come exceeds a guard of the decoder. */
  lemma {:induction false} Simulation(s: seq<Unit>, n: int, j: nat, delta: nat, h: nat, bias: int, b: nat,
                                      n0: int, i: nat, output: seq<Unit>, tail: seq<Unit>)
    requires j <= |s| && Tracks(s, n, j, delta, h, b, n0, i, output)
    requires Walk(s, n, j, delta, h, bias, b) == Some(tail)
    ensures DecodeRest(tail, n0, i, bias, output, h) ==
            if Representable(s, n, j, delta, h, bias, b, i) then Some(s) else None
    ensures Representable(s, n, j, delta, h, bias, b, i) ==> InsertsUnits(tail, n0, i, bias, h)
    decreases 0x1_0000 - n, |s| - j
  {
    hide AdaptedBias, DecodeRest, InsertsUnits, WeightsFit, Digits, Tracks;
    if n >= 0x1_0000 {
      SimulationEnd(s, n, j, delta, h, bias, b, n0, i, output);
    } else if j == |s| {
      TracksNextRow(s, n, delta, h, b, n0, i, output);
      Simulation(s, n + 1, 0, delta + 1, h, bias, b, n0, i, output, tail);
    } else if s[j] != n {
      TracksSkip(s, n, j, delta, h, b, n0, i, output);
      Simulation(s, n, j + 1, delta + if s[j] < n then 1 else 0, h, bias, b, n0, i, output, tail);
    } else {
      var bias' := AdaptedBias(delta, h + 1, h == b);
      var rest := Walk(s, n, j + 1, 0, h + 1, bias', b).value;
      DecodeStep(s, n, j, delta, h, bias, b, n0, i, output, rest);
      TracksEmit(s, n, j, delta, h, b, n0, i, output);
      Simulation(s, n, j + 1, 0, h + 1, bias', b, n, Pos(s, n, j) + 1, Kept(s, |s|, n, j + 1), rest);
    }
  }

  lemma SimulationEnd(s: seq<Unit>, n: int, j: nat, delta: nat, h: nat, bias: int, b: nat,
                      n0: int, i: nat, output: seq<Unit>)
    requires j <= |s| && n >= 0x1_0000 && Tracks(s, n, j, delta, h, b, n0, i, output)
    ensures DecodeRest([], n0, i, bias, output, h) == Some(s) && InsertsUnits([], n0, i, bias, h)
  {
    KeptAll(s, |s|, n, j);
    assert s[..|s|] == s;
    DecodeNothing(n0, i, bias, s, h);
  }

  // ----- the round trip decode(encode(s)) == s -----

  lemma {:induction false} WalkIsLower(s: seq<Unit>, n: int, j: nat, delta: nat, h: nat, bias: int, b: nat)
    requires j <= |s|
    ensures Walk(s, n, j, delta, h, bias, b).Some? ==> AllLowerDigits(Walk(s, n, j, delta, h, bias, b).value)
    decreases 0x1_0000 - n, |s| - j
  {
    hide AdaptedBias, Digits;
    if n >= 0x1_0000 {
    } else if j == |s| {
      WalkIsLower(s, n + 1, 0, delta + 1, h, bias, b);
    } else if s[j] != n {
      WalkIsLower(s, n, j + 1, delta + if s[j] < n then 1 else 0, h, bias, b);
    } else {
      DigitsAreLower(delta, BASE, bias);
      WalkIsLower(s, n, j + 1, 0, h + 1, AdaptedBias(delta, h + 1, h == b), b);
    }
  }

  lemma {:induction false} KeptBasic(s: seq<Unit>, m: nat)
    requires m <= |s|
    ensures AllBasic(Kept(s, m, INITIAL_N, 0))
  {
    if m > 0 {
      KeptBasic(s, m - 1);
    }
  }

  /** The decoder finds the basic part and the digits again. */
  lemma FindsParts(basics: seq<Unit>, tail: seq<Unit>)
    requires AllLowerDigits(tail)
    ensures var e := basics + (if basics != [] then [DELIMITER] else []) + tail;
            LastDelimiter(e) == |basics| && e[..|basics|] == basics && e[Start(e)..] == tail
  {
    var e := basics + (if basics != [] then [DELIMITER] else []) + tail;
    var b := LastDelimiter(e);
    assert forall p :: |e| - |tail| <= p < |e| ==> IsLowerDigit(e[p]);
    if basics != [] {
      assert e[|basics|] == DELIMITER;
      assert b == |basics|;
    }
  }

  /** The encoder's and the decoder's initial states track each other. */
  lemma TracksInitially(s: seq<Unit>)
    ensures Tracks(s, INITIAL_N, 0, 0, |Basics(s)|, |Basics(s)|, INITIAL_N, 0, Basics(s))
  {
  }

  /** No delta that encoding s emits runs into an overflow guard of the decoder
      (section 6.4 of RFC 3492). */
  ghost predicate DecodesBack(s: seq<Unit>) {
    Representable(s, INITIAL_N, 0, 0, |Basics(s)|, INITIAL_BIAS, |Basics(s)|, 0)
  }

  /** Whenever encoding succeeds, decoding rebuilds s or fails; it fails exactly when an
      overflow guard of the decoder is hit. */
  lemma RoundTrip(s: seq<Unit>)
    requires Encoded(s).Some?
    ensures Decoded(Encoded(s).value) == if DecodesBack(s) then Some(s) else None
  {
    hide Representable, Walk, DecodeRest;
    var b := |Basics(s)|;
    var tail := Walk(s, INITIAL_N, 0, 0, b, INITIAL_BIAS, b).value;
    WalkIsLower(s, INITIAL_N, 0, 0, b, INITIAL_BIAS, b);
    KeptBasic(s, |s|);
    FindsParts(Basics(s), tail);
    TracksInitially(s);
    Simulation(s, INITIAL_N, 0, 0, b, INITIAL_BIAS, b, INITIAL_N, 0, Basics(s), tail);
  }

  // ----- sufficient bounds -----

  /** Every delta emitted from <n, j> on is at most limit. */
  ghost predicate DeltasAtMost(s: seq<Unit>, n: int, j: nat, delta: nat, limit: nat)
    requires j <= |s|
    decreases 0x1_0000 - n, |s| - j
  {
    if n >= 0x1_0000 then true
    else if j == |s| then DeltasAtMost(s, n + 1, 0, delta + 1, limit)
    else if s[j] < n then DeltasAtMost(s, n, j + 1, delta + 1, limit)
    else if s[j] > n then DeltasAtMost(s, n, j + 1, delta, limit)
    else delta <= limit && DeltasAtMost(s, n, j + 1, 0, limit)
  }

  const SAFE_DELTA: nat := MAXINT / (BASE - TMIN)

  lemma WeightBound(q: nat, w: int, t: int)
    requires TMIN <= t <= TMAX && q >= t && w > 0 && Times(q, w) <= SAFE_DELTA
    ensures Times(w, BASE - t) <= MAXINT
    ensures Times(OtherDigits(q, t), Times(w, BASE - t)) <= Times(q, w)
  {
    hide Times, OtherDigits, FirstDigit;
    QuotientShrinks(q, t);
    SplitWeight(q, OtherDigits(q, t), FirstDigit(q, t), BASE - t, w);
    TimesMonotonic(w, 1, FirstDigit(q, t));
    TimesMonotonic(w, BASE - t, BASE - TMIN);
    TimesByConstants(w, FirstDigit(q, t));
  }

  lemma TimesMonotonic(a: int, x: int, y: int)
    requires a >= 0 && x <= y
    ensures Times(a, x) <= Times(a, y)
  {
  }

  lemma TimesByConstants(w: int, d: int)
    ensures Times(w, 1) == w && Times(w, BASE - TMIN) == 35 * w && Times(w, d) == Times(d, w)
  {
  }

  lemma {:induction false} SmallFits(q: nat, w: int, k: int, bias: int)
    requires w > 0 && Times(q, w) <= SAFE_DELTA
    ensures WeightsFit(q, w, k, bias)
    decreases q
  {
    hide Times, OtherDigits;
    var t := Threshold(k, bias);
    if q >= t {
      QuotientShrinks(q, t);
      WeightBound(q, w, t);
      WeightPositive(w, BASE - t);
      SmallFits(OtherDigits(q, t), Times(w, BASE - t), k + BASE, bias);
    }
  }

  lemma {:induction false} SmallDeltasFit(s: seq<Unit>, n: int, j: nat, delta: nat, h: nat, bias: int, b: nat, i: nat)
    requires j <= |s| && i <= |s| <= MAXINT - SAFE_DELTA
    requires DeltasAtMost(s, n, j, delta, SAFE_DELTA)
    ensures Representable(s, n, j, delta, h, bias, b, i) && Walk(s, n, j, delta, h, bias, b).Some?
    decreases 0x1_0000 - n, |s| - j
  {
    hide AdaptedBias, WeightsFit, Digits;
    if n >= 0x1_0000 {
    } else if j == |s| {
      SmallDeltasFit(s, n + 1, 0, delta + 1, h, bias, b, i);
    } else if s[j] != n {
      SmallDeltasFit(s, n, j + 1, delta + if s[j] < n then 1 else 0, h, bias, b, i);
    } else {
      SmallFits(delta, 1, BASE, bias);
      SmallDeltasFit(s, n, j + 1, 0, h + 1, AdaptedBias(delta, h + 1, h == b), b, Pos(s, n, j) + 1);
    }
  }

  /** The longest string for which (0x10000 - 0x80) * length stays within SAFE_DELTA. */
  const SAFE_LENGTH := 1876

  lemma SpanAtMost(rows: nat, h: nat, maxRows: nat, max: nat)
    requires rows <= maxRows && h + 1 <= max
    ensures Span(rows, h) <= Times(maxRows, max)
  {
    SpanIsProduct(rows, h);
    TimesMonotonic(h + 1, rows, maxRows);
    TimesMonotonic(maxRows, h + 1, max);
    assert Times(h + 1, rows) == rows * (h + 1) && Times(h + 1, maxRows) == Times(maxRows, h + 1);
  }

  lemma ShortDelta(s: seq<Unit>, n: int, j: nat, delta: nat, h: nat, b: nat, n0: int, i: nat, output: seq<Unit>)
    requires |s| <= SAFE_LENGTH && j < |s| && s[j] == n && INITIAL_N <= n0
    requires Tracks(s, n, j, delta, h, b, n0, i, output)
    ensures delta <= SAFE_DELTA && n0 <= n
  {
    hide Span, Kept;
    KeptInsert(s, |s|, n, j);
    SpanAtMost(n - n0, h, 65407, SAFE_LENGTH);
    assert Times(65407, SAFE_LENGTH) == 122_703_532;
  }

  lemma {:induction false} ShortStringsFit(s: seq<Unit>, n: int, j: nat, delta: nat, h: nat, bias: int, b: nat,
                                           n0: int, i: nat, output: seq<Unit>)
    requires |s| <= SAFE_LENGTH && j <= |s| && INITIAL_N <= n0
    requires Tracks(s, n, j, delta, h, b, n0, i, output)
    ensures Walk(s, n, j, delta, h, bias, b).Some? && DeltasAtMost(s, n, j, delta, SAFE_DELTA)
    decreases 0x1_0000 - n, |s| - j
  {
    hide AdaptedBias, Digits, Tracks;
    if n >= 0x1_0000 {
    } else if j == |s| {
      TracksNextRow(s, n, delta, h, b, n0, i, output);
      ShortStringsFit(s, n + 1, 0, delta + 1, h, bias, b, n0, i, output);
    } else if s[j] != n {
      TracksSkip(s, n, j, delta, h, b, n0, i, output);
      ShortStringsFit(s, n, j + 1, delta + if s[j] < n then 1 else 0, h, bias, b, n0, i, output);
    } else {
      ShortDelta(s, n, j, delta, h, b, n0, i, output);
      TracksEmit(s, n, j, delta, h, b, n0, i, output);
      ShortStringsFit(s, n, j + 1, 0, h + 1, AdaptedBias(delta, h + 1, h == b), b,
                      n, Pos(s, n, j) + 1, Kept(s, |s|, n, j + 1));
    }
  }

  /** A string of any length below 2^32 - maxint/35 is encoded, and comes back, if no delta
      exceeds maxint/35. */
  lemma RoundTripSmallDeltas(s: seq<Unit>)
    requires |s| <= MAXINT - SAFE_DELTA && DeltasAtMost(s, INITIAL_N, 0, 0, SAFE_DELTA)
    ensures Encoded(s).Some? && Decoded(Encoded(s).value) == Some(s)
  {
    SmallDeltasFit(s, INITIAL_N, 0, 0, |Basics(s)|, INITIAL_BIAS, |Basics(s)|, 0);
    RoundTrip(s);
  }

  /** Every string of at most 1876 units is encoded, and comes back. */
  lemma RoundTripShort(s: seq<Unit>)
    requires |s| <= SAFE_LENGTH
    ensures Encoded(s).Some? && Decoded(Encoded(s).value) == Some(s)
  {
    TracksInitially(s);
    ShortStringsFit(s, INITIAL_N, 0, 0, |Basics(s)|, INITIAL_BIAS, |Basics(s)|, INITIAL_N, 0, Basics(s));
    RoundTripSmallDeltas(s);
  }

  // ----- the spelling is unique: encode(decode(e)) == e -----

  /** The decoder's output at <n, i>: the units at n stand before i, the last one at i - 1. */
  ghost predicate Ordered(output: seq<Unit>, n: int, i: nat) {
    && INITIAL_N <= n < 0x1_0000 && i <= |output|
    && (forall p :: 0 <= p < |output| ==> output[p] <= n)
    && (forall p :: i <= p < |output| ==> output[p] < n)
    && (i > 0 ==> output[i - 1] == n)
  }

  lemma OrderedInsert(output: seq<Unit>, n: int, i: nat, n': Unit, pos: nat)
    requires Ordered(output, n, i) && pos <= |output| && (n < n' || (n == n' && i <= pos))
    ensures Ordered(output[..pos] + [n'] + output[pos..], n', pos + 1)
  {
  }

  /** output is the part of d that is handled at <n, j>; idx gives the places in d. */
  ghost predicate Embeds(output: seq<Unit>, d: seq<Unit>, n: int, j: int, idx: seq<nat>) {
    && |idx| == |output|
    && (forall p :: 0 <= p < |idx| ==> idx[p] < |d| && d[idx[p]] == output[p])
    && (forall p, q :: 0 <= p < q < |idx| ==> idx[p] < idx[q])
    && (forall x :: 0 <= x < |d| ==> (Done(d[x], x, n, j) <==> x in idx))
  }

  /** The encoder's column behind the decoder's position i. */
  function Cursor(idx: seq<nat>, i: nat): nat
    requires i <= |idx|
  {
    if i == 0 then 0 else idx[i - 1] + 1
  }

  lemma {:induction false} EmbeddedIsKept(output: seq<Unit>, d: seq<Unit>, n: int, j: int, idx: seq<nat>, m: nat, c: nat)
    requires Embeds(output, d, n, j, idx) && m <= |d| && c <= |idx|
    requires forall p :: 0 <= p < c ==> idx[p] < m
    requires forall p :: c <= p < |idx| ==> idx[p] >= m
    ensures Kept(d, m, n, j) == output[..c]
    decreases m
  {
    if m > 0 {
      if c > 0 && idx[c - 1] == m - 1 {
        EmbeddedIsKept(output, d, n, j, idx, m - 1, c - 1);
        assert m - 1 in idx;
        assert output[..c] == output[..c - 1] + [output[c - 1]];
      } else {
        assert m - 1 !in idx by {
          forall p | 0 <= p < |idx| ensures idx[p] != m - 1 {
            if p < c { assert p < c - 1 ==> idx[p] < idx[c - 1]; }
          }
        }
        EmbeddedIsKept(output, d, n, j, idx, m - 1, c);
      }
    }
  }

  lemma EmbeddedPosition(output: seq<Unit>, d: seq<Unit>, n: int, idx: seq<nat>, i: nat)
    requires i <= |idx| && Embeds(output, d, n, Cursor(idx, i), idx)
    ensures Cursor(idx, i) <= |d| && Pos(d, n, Cursor(idx, i)) == i
    ensures Kept(d, |d|, n, Cursor(idx, i)) == output
  {
    EmbeddedIsKept(output, d, n, Cursor(idx, i), idx, Cursor(idx, i), i);
    EmbeddedIsKept(output, d, n, Cursor(idx, i), idx, |d|, |idx|);
    assert output[..|idx|] == output;
  }

  ghost predicate Increasing(idx: seq<nat>) { forall p, q :: 0 <= p < q < |idx| ==> idx[p] < idx[q] }

  function Without(idx: seq<nat>, pos: nat): (r: seq<nat>)
    requires pos < |idx|
    ensures |r| == |idx| - 1
    ensures forall p :: 0 <= p < |r| ==> r[p] == idx[if p < pos then p else p + 1]
  {
    idx[..pos] + idx[pos + 1..]
  }

  lemma WithoutMembers(idx: seq<nat>, pos: nat)
    requires pos < |idx| && Increasing(idx)
    ensures Increasing(Without(idx, pos))
    ensures forall x :: x in Without(idx, pos) <==> x in idx && x != idx[pos]
  {
    var r := Without(idx, pos);
    forall x | x in idx && x != idx[pos] ensures x in r {
      var p :| 0 <= p < |idx| && idx[p] == x;
      assert r[if p < pos then p else p - 1] == x;
    }
    forall x | x in r ensures x in idx && x != idx[pos] {
      var p :| 0 <= p < |r| && r[p] == x;
      assert idx[if p < pos then p else p + 1] == x;
    }
  }

  lemma PlacesBefore(output: seq<Unit>, d: seq<Unit>, n': Unit, pos: nat, idx': seq<nat>)
    requires pos <= |output| && |idx'| == |output| + 1
    requires Embeds(output[..pos] + [n'] + output[pos..], d, n', Cursor(idx', pos + 1), idx')
    ensures forall p :: 0 <= p < |output| ==>
              Without(idx', pos)[p] < |d| && d[Without(idx', pos)[p]] == output[p]
    ensures d[idx'[pos]] == n'
  {
    var output' := output[..pos] + [n'] + output[pos..];
    assert output'[pos] == n';
    forall p | 0 <= p < |output|
      ensures Without(idx', pos)[p] < |d| && d[Without(idx', pos)[p]] == output[p]
    {
      assert output[p] == output'[if p < pos then p else p + 1];
    }
  }

  /** Nothing is met between the decoder's last insertion and the next. */
  lemma NothingMet(output: seq<Unit>, d: seq<Unit>, n: int, i: nat, n': Unit, pos: nat, idx: seq<nat>, q: nat)
    requires Ordered(output, n, i) && |idx| == |output| && Increasing(idx)
    requires n < n' || (n == n' && (i > 0 ==> idx[i - 1] < q))
    requires forall p :: 0 <= p < |idx| ==> idx[p] < |d| && d[idx[p]] == output[p]
    requires forall x :: 0 <= x < |d| ==> (Done(d[x], x, n', q) <==> x in idx)
    ensures NothingBetween(d, n, Cursor(idx, i), n', q)
  {
    forall x | 0 <= x < |d|
      ensures Done(d[x], x, n, Cursor(idx, i)) <==> Done(d[x], x, n', q)
    {
      if x in idx {
        var p :| 0 <= p < |idx| && idx[p] == x;
        assert p < i - 1 ==> idx[p] < idx[i - 1];
      }
    }
  }

  /** Taking the inserted unit out of the embedding again. */
  lemma EmbedsBefore(output: seq<Unit>, d: seq<Unit>, n: int, i: nat, n': Unit, pos: nat, idx': seq<nat>)
    requires Ordered(output, n, i) && pos <= |output| && (n < n' || (n == n' && i <= pos))
    requires |idx'| == |output| + 1
    requires Embeds(output[..pos] + [n'] + output[pos..], d, n', Cursor(idx', pos + 1), idx')
    ensures Embeds(output, d, n, Cursor(Without(idx', pos), i), Without(idx', pos))
    ensures NothingBetween(d, n, Cursor(Without(idx', pos), i), n', idx'[pos])
  {
    hide Ordered;
    OrderedStart(output, n, i);
    var idx, q := Without(idx', pos), idx'[pos];
    WithoutMembers(idx', pos);
    PlacesBefore(output, d, n', pos, idx');
    forall x | 0 <= x < |d|
      ensures Done(d[x], x, n', q) <==> x in idx
    {
      assert Done(d[x], x, n', q + 1) <==> x in idx';
    }
    NothingMet(output, d, n, i, n', pos, idx, q);
  }

  lemma {:induction false} WalkEnd(s: seq<Unit>, n: int, j: nat, delta: nat, h: nat, bias: int, b: nat)
    requires j <= |s| && forall p :: 0 <= p < |s| ==> Done(s[p], p, n, j)
    ensures Walk(s, n, j, delta, h, bias, b) == Some([])
    decreases 0x1_0000 - n, |s| - j
  {
    if n >= 0x1_0000 {
    } else if j == |s| {
      WalkEnd(s, n + 1, 0, delta + 1, h, bias, b);
    } else {
      assert Done(s[j], j, n, j);
      WalkEnd(s, n, j + 1, delta + 1, h, bias, b);
    }
  }

  lemma RestAllLower(e: seq<Unit>, digits: seq<Unit>, rest: seq<Unit>)
    requires AllLowerDigits(e) && e == digits + rest
    ensures AllLowerDigits(rest)
  {
    forall p | 0 <= p < |rest| ensures IsLowerDigit(rest[p]) {
      assert e[|digits| + p] == rest[p];
    }
  }

  /** A number that has been read is a row and a position. */
  lemma ReadRow(i': nat, n: int, h: nat) returns (rows: nat, pos: nat)
    requires INITIAL_N <= n && n + FloorDiv(i', h + 1) < 0x1_0000
    ensures i' == Span(rows, h) + pos && pos <= h && n + rows < 0x1_0000
    ensures rows == FloorDiv(i', h + 1) && pos == Remainder(i', h + 1)
  {
    rows, pos := i' / (h + 1), i' % (h + 1);
    SpanIsProduct(rows, h);
    assert i' == rows * (h + 1) + pos;
  }

  /** Once the walk stands at the inserted unit it writes the number that was read. */
  lemma WalkWrites(d: seq<Unit>, n: int, j: nat, h: nat, bias: int, b: nat, n': Unit, j': nat,
                   delta: nat, i: nat, pos: nat, rest: seq<Unit>)
    requires j <= |d| && j' < |d| && d[j'] == n' && (n < n' || (n == n' && j <= j'))
    requires NothingBetween(d, n, j, n', j') && h == |Kept(d, |d|, n, j)|
    requires Pos(d, n, j) == i && Pos(d, n', j') == pos
    requires i + delta == Span(n' - n, h) + pos && i + delta <= MAXINT
    requires Walk(d, n', j' + 1, 0, h + 1, AdaptedBias(delta, h + 1, h == b), b) == Some(rest)
    ensures Walk(d, n, j, 0, h, bias, b) == Some(Digits(delta, BASE, bias) + rest)
  {
    hide AdaptedBias, Digits;
    WalkTo(d, n, j, 0, h, bias, b, n', j', delta);
  }

  /** A decoder run over lower-case digits that inserts 16-bit units is the run of the
      decoder behind the walk over its own result. */
  lemma {:induction false} Respell(e: seq<Unit>, n: int, i: nat, bias: int, output: seq<Unit>, d: seq<Unit>, b: nat)
    returns (idx: seq<nat>)
    requires AllLowerDigits(e) && Ordered(output, n, i)
    requires (i == 0 <==> |output| == b) && b <= |output|
    requires DecodeRest(e, n, i, bias, output, |output|) == Some(d)
    requires InsertsUnits(e, n, i, bias, |output|)
    ensures |idx| == |output| && Embeds(output, d, n, Cursor(idx, i), idx) && Cursor(idx, i) <= |d|
    ensures Walk(d, n, Cursor(idx, i), 0, |output|, bias, b) == Some(e)
    decreases |e|
  {
    hide AdaptedBias, FloorDiv, Remainder, Times, Ordered, Embeds, Walk, Digits, Inserted, ReadInteger;
    if e == [] {
      idx := RespellEnd(n, i, bias, d, b);
    } else {
      var h := |output|;
      var delta := ReadIsCanonical(e, i, 1, BASE, bias);
      TimesOne(delta);
      var (i', rest) := ReadInteger(e, i, 1, BASE, bias).value;
      RestAllLower(e, Digits(delta, BASE, bias), rest);
      OrderedStart(output, n, i);
      var rows, pos := ReadRow(i', n, h);
      var n' := n + rows;
      DecodeOne(e, n, i, bias, output, h, i', rest, n', pos);
      RowOrder(i, delta, rows, h, pos);
      OrderedInsert(output, n, i, n', pos);
      var idx' := Respell(rest, n', pos + 1, AdaptedBias(delta, h + 1, i == 0),
                          output[..pos] + [n'] + output[pos..], d, b);
      idx := Without(idx', pos);
      RespellStep(output, d, n, i, n', pos, idx', delta, bias, b, rest);
    }
  }

  lemma OrderedStart(output: seq<Unit>, n: int, i: nat)
    requires Ordered(output, n, i)
    ensures INITIAL_N <= n < 0x1_0000 && i <= |output|
  {
  }

  lemma TimesOne(q: int)
    ensures Times(q, 1) == q
  {
  }

  /** The decoder never moves back. */
  lemma RowOrder(i: nat, delta: nat, rows: nat, h: nat, pos: nat)
    requires i + delta == Span(rows, h) + pos
    ensures rows == 0 ==> i <= pos
  {
  }

  lemma RespellEnd(n: int, i: nat, bias: int, d: seq<Unit>, b: nat) returns (idx: seq<nat>)
    requires Ordered(d, n, i)
    ensures |idx| == |d| && Embeds(d, d, n, Cursor(idx, i), idx) && Cursor(idx, i) <= |d|
    ensures Walk(d, n, Cursor(idx, i), 0, |d|, bias, b) == Some([])
  {
    idx := seq(|d|, p => p);
    assert Cursor(idx, i) == i;
    forall x | 0 <= x < |d| ensures Done(d[x], x, n, i) && x in idx {
      assert idx[x] == x;
    }
    WalkEnd(d, n, i, 0, |d|, bias, b);
  }

  lemma RespellStep(output: seq<Unit>, d: seq<Unit>, n: int, i: nat, n': Unit, pos: nat, idx': seq<nat>,
                    delta: nat, bias: int, b: nat, rest: seq<Unit>)
    requires Ordered(output, n, i) && pos <= |output| && (n < n' || (n == n' && i <= pos)) && i <= |output|
    requires |idx'| == |output| + 1
    requires Embeds(output[..pos] + [n'] + output[pos..], d, n', Cursor(idx', pos + 1), idx')
    requires i + delta == Span(n' - n, |output|) + pos && i + delta <= MAXINT
    requires Cursor(idx', pos + 1) <= |d| && (i == 0 <==> |output| == b)
    requires Walk(d, n', Cursor(idx', pos + 1), 0, |output| + 1, AdaptedBias(delta, |output| + 1, i == 0), b) == Some(rest)
    ensures var idx := Without(idx', pos);
            Embeds(output, d, n, Cursor(idx, i), idx) && Cursor(idx, i) <= |d| &&
            Walk(d, n, Cursor(idx, i), 0, |output|, bias, b) == Some(Digits(delta, BASE, bias) + rest)
  {
    hide AdaptedBias, Walk, Digits, Ordered, Span, Embeds, NothingBetween, Kept;
    var idx := Without(idx', pos);
    var output' := output[..pos] + [n'] + output[pos..];
    EmbedsBefore(output, d, n, i, n', pos, idx');
    EmbeddedPosition(output, d, n, idx, i);
    EmbeddedPosition(output', d, n', idx', pos + 1);
    PlacesBefore(output, d, n', pos, idx');
    var j' := idx'[pos];
    PosNext(d, n', j');
    IncreasingPlaces(output', d, n', Cursor(idx', pos + 1), idx');
    assert i > 0 && i <= pos ==> idx[i - 1] == idx'[i - 1];
    WalkWrites(d, n, Cursor(idx, i), |output|, bias, b, n', j', delta, i, pos, rest);
  }

  lemma IncreasingPlaces(output: seq<Unit>, d: seq<Unit>, n: int, j: int, idx: seq<nat>)
    requires Embeds(output, d, n, j, idx)
    ensures Increasing(idx)
  {
  }

  /** The spellings the encoder can produce: behind the last delimiter (which is not the
      first unit) only lower-case letters and digits, and only 16-bit units encoded. */
  ghost predicate Canonical(e: seq<Unit>) {
    AllLowerDigits(e[Start(e)..]) &&
    InsertsUnits(e[Start(e)..], INITIAL_N, 0, INITIAL_BIAS, LastDelimiter(e))
  }

  /** Of all spellings that decode, encode reproduces precisely the canonical ones. */
  lemma SpellingUnique(e: seq<Unit>)
    requires Decoded(e).Some?
    ensures Encoded(Decoded(e).value) == Some(e) <==> Canonical(e)
  {
    if Canonical(e) {
      CanonicalIsReproduced(e);
    }
    if Encoded(Decoded(e).value) == Some(e) {
      ReproducedIsCanonical(Decoded(e).value);
    }
  }

  lemma CanonicalIsReproduced(e: seq<Unit>)
    requires Decoded(e).Some? && Canonical(e)
    ensures Encoded(Decoded(e).value) == Some(e)
  {
    hide DecodeRest, InsertsUnits, Walk;
    hide Embeds, Kept, AllLowerDigits;
    var b, d := LastDelimiter(e), Decoded(e).value;
    assert Ordered(e[..b], INITIAL_N, 0);
    var idx := Respell(e[Start(e)..], INITIAL_N, 0, INITIAL_BIAS, e[..b], d, b);
    EmbeddedPosition(e[..b], d, INITIAL_N, idx, 0);
    assert Basics(d) == e[..b];
    assert e == BasicPart(d) + e[Start(e)..];
  }

  lemma ReproducedIsCanonical(d: seq<Unit>)
    requires Encoded(d).Some? && Decoded(Encoded(d).value) == Some(d)
    ensures Canonical(Encoded(d).value)
  {
    hide DecodeRest, InsertsUnits, Walk, Representable;
    var b := |Basics(d)|;
    var tail := Walk(d, INITIAL_N, 0, 0, b, INITIAL_BIAS, b).value;
    WalkIsLower(d, INITIAL_N, 0, 0, b, INITIAL_BIAS, b);
    FindsParts(Basics(d), tail);
    RoundTrip(d);
    TracksInitially(d);
    Simulation(d, INITIAL_N, 0, 0, b, INITIAL_BIAS, b, INITIAL_N, 0, Basics(d), tail);
  }

  // ----- the source's loops -----

  lemma PrependTwice(a: seq<Unit>, b: seq<Unit>, rest: Option<seq<Unit>>)
    ensures Prepend(a, Prepend(b, rest)) == Prepend(a + b, rest)
  {
    assert rest.Some? ==> a + (b + rest.value) == a + b + rest.value;
  }

  /** The digit loop. */
  method EmitDigits(delta: nat, bias: int) returns (digits: seq<Unit>)
    ensures digits == Digits(delta, BASE, bias)
  {
    digits := [];
    var q, k := delta, BASE;
    while true
      invariant q >= 0 && digits + Digits(q, k, bias) == Digits(delta, BASE, bias)
      decreases q
    {
      var t := Threshold(k, bias);
      if q < t { break; }
      QuotientShrinks(q, t);
      digits := digits + [EncodeDigit(FirstDigit(q, t))];
      q := OtherDigits(q, t);
      k := k + BASE;
    }
    digits := digits + [EncodeDigit(q)];
  }

  /** The search for the next code point. */
  method NextCodePoint(s: seq<Unit>, n: int) returns (m: int)
    ensures (exists p :: 0 <= p < |s| && s[p] >= n) ==> n <= m < 0x1_0000 && exists p :: 0 <= p < |s| && s[p] == m
    ensures forall p :: 0 <= p < |s| && s[p] >= n ==> m <= s[p]
  {
    m := MAXINT;
    var j := 0;
    while j < |s|
      invariant 0 <= j <= |s|
      invariant m == MAXINT || (n <= m && exists p :: 0 <= p < j && s[p] == m)
      invariant forall p :: 0 <= p < j && s[p] >= n ==> m <= s[p]
    {
      var c := s[j];
      if c >= n && c < m { m := c; }
      j := j + 1;
    }
  }

  lemma SomethingLeft(s: seq<Unit>, n: int)
    requires |Kept(s, |s|, n, 0)| < |s|
    ensures exists p :: 0 <= p < |s| && s[p] >= n
  {
    if forall p :: 0 <= p < |s| ==> Done(s[p], p, n, 0) {
      KeptAll(s, |s|, n, 0);
    } else {
      var p :| 0 <= p < |s| && !Done(s[p], p, n, 0);
    }
  }

  lemma {:induction false} KeptCount(s: seq<Unit>, m: nat, n: int, j: int)
    requires m <= |s| && |Kept(s, m, n, j)| == m
    ensures forall p :: 0 <= p < m ==> Done(s[p], p, n, j)
  {
    if m > 0 {
      KeptCount(s, m - 1, n, j);
    }
  }

  /** The guard of the source: the walk fails at the first unit of row m. */
  lemma {:induction false} GuardFails(s: seq<Unit>, m: int, j: nat, delta: nat, h: nat, bias: int, b: nat)
    requires j <= |s| && m < 0x1_0000 && delta - Pos(s, m, j) > MAXINT
    requires exists p :: j <= p < |s| && s[p] == m
    ensures Walk(s, m, j, delta, h, bias, b) == None
    decreases |s| - j
  {
    if s[j] != m {
      PosNext(s, m, j);
      GuardFails(s, m, j + 1, delta + if s[j] < m then 1 else 0, h, bias, b);
    }
  }

  /** Jumping to the next code point skips nothing. */
  lemma JumpTo(s: seq<Unit>, n: int, delta: nat, h: nat, bias: int, b: nat, m: int)
    requires n <= m < 0x1_0000 && h == |Kept(s, |s|, n, 0)|
    requires forall p :: 0 <= p < |s| && s[p] >= n ==> m <= s[p]
    ensures Times(m - n, h + 1) >= 0 && h == |Kept(s, |s|, m, 0)|
    ensures Walk(s, n, 0, delta, h, bias, b) == Walk(s, m, 0, delta + Times(m - n, h + 1), h, bias, b)
  {
    hide Walk;
    SpanIsProduct(m - n, h);
    KeptSame(s, |s|, n, 0, m, 0);
    WalkTo(s, n, 0, delta, h, bias, b, m, 0, delta + Span(m - n, h));
  }

  lemma OneHighBasics(a: seq<Unit>, c: Unit)
    requires AllBasic(a) && c >= INITIAL_N
    ensures Basics(a + [c]) == a && Pos(a + [c], c, |a|) == |a| && Pos(a + [c], c, 0) == 0
  {
    var s := a + [c];
    KeptAll(s, |a|, INITIAL_N, 0);
    KeptAll(s, |a|, c, |a|);
    assert s[..|a|] == a;
  }

  /** Long strings need not be encodable: with one unit c behind basic ones, encoding fails
      exactly if the delta to c does not fit into maxint. */
  lemma OneHighUnit(a: seq<Unit>, c: Unit)
    requires AllBasic(a) && c >= INITIAL_N
    ensures Encoded(a + [c]).None? <==> Times(c - INITIAL_N, |a| + 1) > MAXINT
  {
    hide Walk, Times, Digits, AdaptedBias, Kept;
    var s, h := a + [c], |a|;
    OneHighBasics(a, c);
    var d := Times(c - INITIAL_N, h + 1);
    JumpTo(s, INITIAL_N, 0, h, INITIAL_BIAS, h, c);
    WalkRow(s, c, 0, d, h, INITIAL_BIAS, h, h, d + h);
    OneHighEmit(s, c, h, d + h, INITIAL_BIAS, h);
  }

  lemma OneHighEmit(s: seq<Unit>, c: Unit, h: nat, delta: nat, bias: int, b: nat)
    requires h < |s| && s[h] == c && h + 1 == |s| && (forall p :: 0 <= p < h ==> s[p] < c)
    ensures Walk(s, c, h, delta, h, bias, b).None? <==> delta - Pos(s, c, h) > MAXINT
  {
    hide Digits, AdaptedBias, Kept;
    WalkEnd(s, c, h + 1, 0, h + 1, AdaptedBias(delta, h + 1, h == b), b);
  }

  // ----- a string that is encoded and does not come back -----

  lemma {:induction false} RepresentableRow(s: seq<Unit>, n: int, j: nat, delta: nat, h: nat, bias: int, b: nat, i: nat,
                                            j': nat, delta': nat)
    requires n < 0x1_0000 && j <= j' <= |s|
    requires forall p :: j <= p < j' ==> s[p] != n
    requires delta' == delta + Pos(s, n, j') - Pos(s, n, j)
    ensures Representable(s, n, j, delta, h, bias, b, i) == Representable(s, n, j', delta', h, bias, b, i)
    decreases j' - j
  {
    if j < j' {
      PosNext(s, n, j);
      RepresentableRow(s, n, j + 1, delta + if s[j] < n then 1 else 0, h, bias, b, i, j', delta');
    }
  }

  lemma {:induction false} RepresentableTo(s: seq<Unit>, n: int, j: nat, delta: nat, h: nat, bias: int, b: nat, i: nat,
                                           n': int, j': nat, delta': nat)
    requires j <= |s| && j' <= |s| && n' < 0x1_0000 && (n < n' || (n == n' && j <= j'))
    requires NothingBetween(s, n, j, n', j') && h == |Kept(s, |s|, n, j)|
    requires delta' == delta + Span(n' - n, h) + Pos(s, n', j') - Pos(s, n, j)
    ensures Representable(s, n, j, delta, h, bias, b, i) == Representable(s, n', j', delta', h, bias, b, i)
    decreases n' - n
  {
    if n == n' {
      assert forall p :: j <= p < j' ==> (Done(s[p], p, n, j) <==> Done(s[p], p, n', j'));
      RepresentableRow(s, n, j, delta, h, bias, b, i, j', delta');
    } else {
      RestOfRow(s, n, j, n', j');
      KeptPrefix(s, j, |s|, n, j);
      RepresentableRow(s, n, j, delta, h, bias, b, i, |s|, delta + h - Pos(s, n, j));
      RepresentableTo(s, n + 1, 0, delta + h - Pos(s, n, j) + 1, h, bias, b, i, n', j', delta');
    }
  }

  /** What is handled where, in basic units with U+0080 and c behind them. */
  lemma TwoHighBasics(a: seq<Unit>, c: Unit)
    requires AllBasic(a) && c > INITIAL_N
    ensures var s, h := a + [INITIAL_N, c], |a|;
            Basics(s) == a && Pos(s, INITIAL_N, 0) == 0 && Pos(s, INITIAL_N, h) == h &&
            Pos(s, INITIAL_N, h + 1) == h + 1 && Pos(s, c, h + 1) == h + 1 &&
            |Kept(s, |s|, INITIAL_N, h + 1)| == h + 1 && NothingBetween(s, INITIAL_N, h + 1, c, h + 1)
  {
    var s, h := a + [INITIAL_N, c], |a|;
    KeptAll(s, h, INITIAL_N, 0);
    KeptAll(s, h, INITIAL_N, h);
    KeptAll(s, h + 1, INITIAL_N, h + 1);
    KeptAll(s, h + 1, c, h + 1);
    assert s[..h] == a;
    KeptSkip(s, h + 1, INITIAL_N, 0);
    KeptSkip(s, h, INITIAL_N, 0);
    KeptSkip(s, h + 1, INITIAL_N, h + 1);
  }

  lemma KeptSkip(s: seq<Unit>, m: nat, n: int, j: int)
    requires m < |s| && !Done(s[m], m, n, j)
    ensures Kept(s, m + 1, n, j) == Kept(s, m, n, j)
  {
  }

  /** The delta to c, behind that to U+0080. */
  lemma TwoHighDelta(a: seq<Unit>, c: Unit, bias: int, i: nat)
    requires AllBasic(a) && c > INITIAL_N
    ensures var s, h := a + [INITIAL_N, c], |a| + 1;
            var delta := Span(c - INITIAL_N, h);
            Walk(s, INITIAL_N, h, 0, h, bias, |a|) == Walk(s, c, h, delta, h, bias, |a|) &&
            Representable(s, INITIAL_N, h, 0, h, bias, |a|, i) == Representable(s, c, h, delta, h, bias, |a|, i)
  {
    hide Walk, Representable, Kept, NothingBetween, Span;
    TwoHighBasics(a, c);
    var s, h := a + [INITIAL_N, c], |a| + 1;
    WalkTo(s, INITIAL_N, h, 0, h, bias, |a|, c, h, Span(c - INITIAL_N, h));
    RepresentableTo(s, INITIAL_N, h, 0, h, bias, |a|, i, c, h, Span(c - INITIAL_N, h));
  }

  /** Behind basic units U+0080 is the first to be handled. */
  lemma TwoHighFirst(a: seq<Unit>, c: Unit)
    requires AllBasic(a) && c > INITIAL_N
    ensures var s, h := a + [INITIAL_N, c], |a|;
            var bias := AdaptedBias(h, h + 1, true);
            Walk(s, INITIAL_N, 0, 0, h, INITIAL_BIAS, h) ==
              Prepend(Digits(h, BASE, INITIAL_BIAS), Walk(s, INITIAL_N, h + 1, 0, h + 1, bias, h)) &&
            (Representable(s, INITIAL_N, 0, 0, h, INITIAL_BIAS, h, 0) ==>
               Representable(s, INITIAL_N, h + 1, 0, h + 1, bias, h, h + 1))
  {
    hide AdaptedBias, Digits, Kept, NothingBetween, Prepend, WeightsFit;
    TwoHighBasics(a, c);
    var s, h := a + [INITIAL_N, c], |a|;
    assert forall p :: 0 <= p < h ==> s[p] == a[p];
    WalkRow(s, INITIAL_N, 0, 0, h, INITIAL_BIAS, h, h, h);
    RepresentableRow(s, INITIAL_N, 0, 0, h, INITIAL_BIAS, h, 0, h, h);
    assert s[h] == INITIAL_N;
  }

  /** U+0080 and c behind basic units: encoding fails exactly if the delta to c, less the
      units passed in the row, exceeds maxint; decoding fails if that delta, counted from
      the decoder's position, does. */
  lemma TwoHighUnits(a: seq<Unit>, c: Unit)
    requires AllBasic(a) && c > INITIAL_N
    ensures var s := a + [INITIAL_N, c];
            (Encoded(s).None? <==> Times(c - INITIAL_N - 1, |a| + 2) + 1 > MAXINT) &&
            (Encoded(s).Some? && Times(c - INITIAL_N, |a| + 2) + |a| + 1 > MAXINT ==> Decoded(Encoded(s).value) == None)
  {
    hide AdaptedBias, Digits, Kept, NothingBetween, WeightsFit, Span, Walk, Decoded, Pos;
    TwoHighBasics(a, c);
    var s, h := a + [INITIAL_N, c], |a| + 1;
    var bias := AdaptedBias(|a|, h, true);
    var delta := Span(c - INITIAL_N, h);
    TwoHighFirst(a, c);
    TwoHighDelta(a, c, bias, h);
    SpanIsProduct(c - INITIAL_N, h);
    TimesNext(c - INITIAL_N - 1, h + 1);
    assert forall p :: 0 <= p < h ==> s[p] < c;
    OneHighEmit(s, c, h, delta, bias, |a|);
    if Encoded(s).Some? {
      RoundTrip(s);
    }
  }

  lemma TimesNext(x: int, y: int)
    ensures Times(x + 1, y) == Times(x, y) + y
  {
  }

  /** So 65663 letters, U+0080 and U+FFFF are encoded to a string that does not decode. */
  lemma GuardHit()
    ensures var s := seq(65663, _ => 97) + [INITIAL_N, 0xFFFF];
            Encoded(s).Some? && Decoded(Encoded(s).value) == None
  {
    hide Encoded, Decoded;
    var a: seq<Unit> := seq(65663, _ => 97);
    assert AllBasic(a);
    TwoHighUnits(a, 0xFFFF);
  }

  /** One turn of the pass, at a unit that is the code point. */
  lemma RowHandled(s: seq<Unit>, n: int, j: nat, delta: nat, h: nat, bias: int, b: nat, output: seq<Unit>)
    requires n < 0x1_0000 && j < |s| && s[j] == n && delta - Pos(s, n, j) <= MAXINT && h == |Kept(s, |s|, n, j)|
    ensures h + 1 == |Kept(s, |s|, n, j + 1)|
    ensures Prepend(output + Digits(delta, BASE, bias), Walk(s, n, j + 1, 0, h + 1, AdaptedBias(delta, h + 1, h == b), b)) ==
            Prepend(output, Walk(s, n, j, delta, h, bias, b))
  {
    hide AdaptedBias, Digits, Kept, Prepend, Pos;
    KeptInsert(s, |s|, n, j);
    PrependTwice(output, Digits(delta, BASE, bias), Walk(s, n, j + 1, 0, h + 1, AdaptedBias(delta, h + 1, h == b), b));
  }

  /** And at another one. */
  lemma RowSkipped(s: seq<Unit>, n: int, j: nat, delta: nat, h: nat, bias: int, b: nat)
    requires n < 0x1_0000 && j < |s| && s[j] != n
    ensures Kept(s, |s|, n, j + 1) == Kept(s, |s|, n, j)
    ensures var d := if s[j] < n then 1 else 0;
            Pos(s, n, j + 1) == Pos(s, n, j) + d &&
            Walk(s, n, j + 1, delta + d, h, bias, b) == Walk(s, n, j, delta, h, bias, b)
  {
    hide AdaptedBias, Digits, Kept, Prepend, Pos;
    PosNext(s, n, j);
    KeptSame(s, |s|, n, j, n, j + 1);
  }

  lemma RowEnd(s: seq<Unit>, n: int, delta: nat, h: nat, bias: int, b: nat)
    requires n < 0x1_0000
    ensures Kept(s, |s|, n + 1, 0) == Kept(s, |s|, n, |s|)
    ensures Walk(s, n, |s|, delta, h, bias, b) == Walk(s, n + 1, 0, delta + 1, h, bias, b)
  {
    hide AdaptedBias, Digits, Kept, Prepend;
    KeptSame(s, |s|, n, |s|, n + 1, 0);
  }

  /** One pass over the string for the code point n. */
  method EncodeRow(s: seq<Unit>, n: int, delta0: nat, h0: nat, bias0: int, b: nat, output0: seq<Unit>)
    returns (delta: nat, h: nat, bias: int, output: seq<Unit>)
    requires n < 0x1_0000 && delta0 <= MAXINT && h0 == |Kept(s, |s|, n, 0)|
    ensures h == |Kept(s, |s|, n + 1, 0)|
    ensures (exists p :: 0 <= p < |s| && s[p] == n) ==> h > h0
    ensures Prepend(output, Walk(s, n + 1, 0, delta + 1, h, bias, b)) ==
            Prepend(output0, Walk(s, n, 0, delta0, h0, bias0, b))
  {
    hide AdaptedBias, Digits, Kept, Prepend, Walk, Pos;
    delta, h, bias, output := delta0, h0, bias0, output0;
    var j := 0;
    while j < |s|
      invariant 0 <= j <= |s| && h0 <= h == |Kept(s, |s|, n, j)|
      invariant delta - Pos(s, n, j) <= MAXINT
      invariant (exists p :: 0 <= p < j && s[p] == n) ==> h > h0
      invariant Prepend(output, Walk(s, n, j, delta, h, bias, b)) ==
                Prepend(output0, Walk(s, n, 0, delta0, h0, bias0, b))
    {
      var c := s[j];
      if c == n {
        RowHandled(s, n, j, delta, h, bias, b, output);
        var digits := EmitDigits(delta, bias);
        output := output + digits;
        bias := Adapt(delta, h + 1, h == b);
        delta := 0;
        h := h + 1;
      } else {
        RowSkipped(s, n, j, delta, h, bias, b);
        if c < n {
          delta := delta + 1;  // a JavaScript number never wraps to 0 here
        }
      }
      j := j + 1;
    }
    RowEnd(s, n, delta, h, bias, b);
  }

  method Encode(s: seq<Unit>) returns (r: Option<seq<Unit>>)
    ensures r == Encoded(s)
  {
    var n, delta: nat, bias, output := INITIAL_N, 0, INITIAL_BIAS, [];
    var j := 0;
    while j < |s|
      invariant 0 <= j <= |s| && output == Kept(s, j, INITIAL_N, 0)
    {
      if Basic(s[j]) { output := output + [s[j]]; }
      j := j + 1;
    }
    var b: nat := |output|;
    var h: nat := b;
    if b > 0 { output := output + [DELIMITER]; }
    assert output == BasicPart(s);
    while h < |s|
      invariant INITIAL_N <= n <= 0x1_0000 && h == |Kept(s, |s|, n, 0)|
      invariant Encoded(s) == Prepend(output, Walk(s, n, 0, delta, h, bias, b))
      decreases |s| - h
    {
      hide Walk, Kept, AdaptedBias, Encoded;
      SomethingLeft(s, n);
      var m := NextCodePoint(s, n);
      JumpTo(s, n, delta, h, bias, b, m);
      if Times(m - n, h + 1) > MAXINT - delta {
        GuardFails(s, m, 0, delta + Times(m - n, h + 1), h, bias, b);
        return None;
      }
      delta := delta + Times(m - n, h + 1);
      n := m;
      delta, h, bias, output := EncodeRow(s, n, delta, h, bias, b, output);
      delta, n := delta + 1, n + 1;
    }
    KeptCount(s, |s|, n, 0);
    WalkEnd(s, n, 0, delta, h, bias, b);
    assert output + [] == output;
    return Some(output);
  }

  /** The decoder's digit loop, from index `start` on; `ok` is false where it returns false. */
  method ReadDelta(e: seq<Unit>, start: nat, i0: int, bias: int) returns (ok: bool, i: int, inval: nat)
    requires start <= |e|
    ensures start <= inval <= |e|
    ensures ReadInteger(e[start..], i0, 1, BASE, bias) == if ok then Some((i, e[inval..])) else None
    ensures ok ==> start < inval
  {
    i, inval := i0, start;
    var w, k := 1, BASE;
    while true
      invariant start <= inval <= |e| && w > 0
      invariant ReadInteger(e[start..], i0, 1, BASE, bias) == ReadInteger(e[inval..], i, w, k, bias)
      decreases |e| - inval
    {
      hide Times, Threshold;
      if inval >= |e| { return false, i, inval; }
      var digit := DecodeDigit(e[inval]);
      inval := inval + 1;
      assert e[inval - 1..][1..] == e[inval..];
      if digit >= BASE { return false, i, inval; }
      if Times(digit, w) > MAXINT - i { return false, i, inval; }
      i := i + Times(digit, w);
      var t := Threshold(k, bias);
      if digit < t { return true, i, inval; }
      if Times(w, BASE - t) > MAXINT { return false, i, inval; }
      WeightPositive(w, BASE - t);
      w := Times(w, BASE - t);
      k := k + BASE;
    }
  }

  method FindDelimiter(e: seq<Unit>) returns (b: nat)
    ensures b == LastDelimiter(e)
  {
    b := 0;
    var j := 0;
    while j < |e|
      invariant 0 <= j <= |e| && b == LastDelimiter(e[..j])
    {
      assert e[..j + 1][..j] == e[..j];
      if e[j] == DELIMITER { b := j; }
      j := j + 1;
    }
    assert e[..|e|] == e;
  }

  /** Copies the units in front of the delimiter; `ok` is false at one that is not basic. */
  method CopyBasics(e: seq<Unit>, b: nat) returns (ok: bool, output: seq<Unit>)
    requires b <= |e|
    ensures ok <==> AllBasic(e[..b])
    ensures ok ==> output == e[..b]
  {
    output := [];
    var j := 0;
    while j < b
      invariant 0 <= j <= b && output == e[..j] && AllBasic(e[..j])
    {
      if !Basic(e[j]) {
        assert e[..b][j] == e[j];
        return false, output;
      }
      output := output + [e[j]];
      j := j + 1;
    }
    ok := true;
  }

  method Decode(e: seq<Unit>) returns (r: Option<seq<Unit>>)
    ensures r == Decoded(e)
  {
    hide AdaptedBias, Inserted, Remainder, FloorDiv, Times, ReadInteger, AllBasic;
    var b := FindDelimiter(e);
    var ok, output := CopyBasics(e, b);
    if !ok { return None; }
    var n, i, bias, count := INITIAL_N, 0, INITIAL_BIAS, b;
    var inval := if b > 0 then b + 1 else 0;
    while inval < |e|
      invariant 0 <= inval <= |e|
      invariant Decoded(e) == DecodeRest(e[inval..], n, i, bias, output, count)
      decreases |e| - inval
    {
      hide Decoded;
      var oldi := i;
      ok, i, inval := ReadDelta(e, inval, oldi, bias);
      if !ok { return None; }
      bias := Adapt(i - oldi, count + 1, oldi == 0);
      if i > Times(MAXINT - n, count + 1) { return None; }
      n := n + FloorDiv(i, count + 1);
      i := Remainder(i, count + 1);
      output := Inserted(output, i, n, count);
      i := i + 1;
      count := count + 1;
    }
    return Some(output);
  }
}
