/**
 Sample strings of section 7.1 of RFC 3492, spelled as there and read back.

 Units are given by their numbers: `-` is 45, the digits are 48 to 57, the letters from 97
 on.  For sample (L) there is one group of lemmas for each of its six units that are not
 basic, the last in the order of code points first:

   Delta    the digits of the number that is written before the unit
   Bias     the bias behind it
   Places   how many units are handled before, and where the decoder stands
   Between  that no unit comes in between
 */
module PunycodeSamples {
  import opened Wrappers
  import opened Punycode
  import opened PunycodeLaws

  /** From a unit to the next one in the order of code points. */
  lemma Emit(s: seq<Unit>, n: int, j: nat, h: nat, bias: int, b: nat, n': Unit, j': nat, delta: nat,
             digits: seq<Unit>, tail: seq<Unit>, whole: seq<Unit>)
    requires j <= |s| && j' < |s| && s[j'] == n' && (n < n' || (n == n' && j <= j'))
    requires NothingBetween(s, n, j, n', j') && h == |Kept(s, |s|, n, j)|
    requires delta == (n' - n) * (h + 1) + Pos(s, n', j') - Pos(s, n, j) && delta <= MAXINT
    requires Walk(s, n', j' + 1, 0, h + 1, AdaptedBias(delta, h + 1, h == b), b) == Some(tail)
    requires Digits(delta, BASE, bias) == digits && digits + tail == whole
    ensures Walk(s, n, j, 0, h, bias, b) == Some(whole)
  {
    hide AdaptedBias, Digits, Kept, Pos, NothingBetween;
    SpanIsProduct(n' - n, h);
    WalkTo(s, n, j, 0, h, bias, b, n', j', delta);
  }

  lemma LastDigit(q: nat, k: int, bias: int)
    requires q < Threshold(k, bias)
    ensures Digits(q, k, bias) == [EncodeDigit(q)]
  {
  }

  /** The first digit d and the rest q' of a number. */
  lemma Digit(q: nat, k: int, bias: int, d: int, q': nat, rest: seq<Unit>)
    requires Threshold(k, bias) <= d < BASE && q == d + q' * (BASE - Threshold(k, bias))
    requires Digits(q', k + BASE, bias) == rest
    ensures Digits(q, k, bias) == [EncodeDigit(d)] + rest
  {
    hide FirstDigit, OtherDigits, Threshold, EncodeDigit;
    DigitAndRest(q, Threshold(k, bias), d, q');
  }

  lemma DigitAndRest(q: nat, t: int, d: int, q': nat)
    requires TMIN <= t <= TMAX && t <= d < BASE && q == d + q' * (BASE - t)
    ensures q >= t && FirstDigit(q, t) == d && OtherDigits(q, t) == q'
  {
    assert q' * (BASE - t) >= 0;
    DivideUnique(q', BASE - t, d - t);
  }

  lemma Whole(s: seq<Unit>, basics: seq<Unit>, front: seq<Unit>, tail: seq<Unit>, whole: seq<Unit>)
    requires Basics(s) == basics && Walk(s, 0x80, 0, 0, |basics|, 72, |basics|) == Some(tail)
    requires front == (if basics == [] then [] else basics + [0x2D]) && whole == front + tail
    ensures Encoded(s) == Some(whole)
  {
    hide Basics, Walk;
    assert BasicPart(s) == front;
  }

  // ----- sample (L): a name with basic units in front and in the middle -----

  lemma TeacherDelta6()
    ensures Digits(42088, BASE, 67) == [115, 121, 50, 98]
  {
    hide Digits;
    LastDigit(1, 144, 67);
    Digit(38, 108, 67, 28, 1, [98]);
    Digit(1202, 72, 67, 24, 38, [50, 98]);
    Digit(42088, 36, 67, 18, 1202, [121, 50, 98]);
  }

  lemma TeacherBias6()
    ensures AdaptedBias(42088, 8, false) == 84
  {
    assert Shrink(676, 36) == (19, 72);
    assert Shrink(23674, 0) == (19, 72);
    assert ScaledDelta(42088, 8, false) == 23674;
    BiasOfShrunk(42088, 8, false, 19, 72);
  }

  lemma TeacherPlaces6()
    ensures |Kept([0x33, 0x5E74, 0x42, 0x7D44, 0x91D1, 0x516B, 0x5148, 0x751F], 8, 0x7D44, 4)| == 7
    ensures Pos([0x33, 0x5E74, 0x42, 0x7D44, 0x91D1, 0x516B, 0x5148, 0x751F], 0x91D1, 4) == 4
    ensures Pos([0x33, 0x5E74, 0x42, 0x7D44, 0x91D1, 0x516B, 0x5148, 0x751F], 0x7D44, 4) == 4
  {
  }

  lemma TeacherBetween6()
    ensures NothingBetween([0x33, 0x5E74, 0x42, 0x7D44, 0x91D1, 0x516B, 0x5148, 0x751F], 0x7D44, 4, 0x91D1, 4)
  {
  }

  lemma Teacher6()
    ensures Walk([0x33, 0x5E74, 0x42, 0x7D44, 0x91D1, 0x516B, 0x5148, 0x751F],
                 0x7D44, 4, 0, 7, 67, 2) ==
            Some([115, 121, 50, 98])
  {
    hide Walk, Digits, AdaptedBias, Kept, Pos, NothingBetween;
    TeacherDelta6();
    TeacherBias6();
    TeacherPlaces6();
    TeacherBetween6();
    WalkEnd([0x33, 0x5E74, 0x42, 0x7D44, 0x91D1, 0x516B, 0x5148, 0x751F], 0x91D1, 5, 0, 8, 84, 2);
    Emit([0x33, 0x5E74, 0x42, 0x7D44, 0x91D1, 0x516B, 0x5148, 0x751F],
         0x7D44, 4, 7, 67, 2, 0x91D1, 4, 42088, [115, 121, 50, 98],
         [],
         [115, 121, 50, 98]);
  }

  lemma TeacherDelta5()
    ensures Digits(14592, BASE, 82) == [54, 53, 108]
  {
    hide Digits;
    LastDigit(11, 108, 82);
    Digit(416, 72, 82, 31, 11, [108]);
    Digit(14592, 36, 82, 32, 416, [53, 108]);
  }

  lemma TeacherBias5()
    ensures AdaptedBias(14592, 7, false) == 67
  {
    assert Shrink(8338, 0) == (238, 36);
    assert ScaledDelta(14592, 7, false) == 8338;
    BiasOfShrunk(14592, 7, false, 238, 36);
  }

  lemma TeacherPlaces5()
    ensures |Kept([0x33, 0x5E74, 0x42, 0x7D44, 0x91D1, 0x516B, 0x5148, 0x751F], 8, 0x751F, 8)| == 6
    ensures Pos([0x33, 0x5E74, 0x42, 0x7D44, 0x91D1, 0x516B, 0x5148, 0x751F], 0x7D44, 3) == 3
    ensures Pos([0x33, 0x5E74, 0x42, 0x7D44, 0x91D1, 0x516B, 0x5148, 0x751F], 0x751F, 8) == 6
  {
  }

  lemma TeacherBetween5()
    ensures NothingBetween([0x33, 0x5E74, 0x42, 0x7D44, 0x91D1, 0x516B, 0x5148, 0x751F], 0x751F, 8, 0x7D44, 3)
  {
  }

  lemma Teacher5()
    ensures Walk([0x33, 0x5E74, 0x42, 0x7D44, 0x91D1, 0x516B, 0x5148, 0x751F],
                 0x751F, 8, 0, 6, 82, 2) ==
            Some([54, 53, 108, 115, 121, 50, 98])
  {
    hide Walk, Digits, AdaptedBias, Kept, Pos, NothingBetween;
    TeacherDelta5();
    TeacherBias5();
    TeacherPlaces5();
    TeacherBetween5();
    Teacher6();
    Emit([0x33, 0x5E74, 0x42, 0x7D44, 0x91D1, 0x516B, 0x5148, 0x751F],
         0x751F, 8, 6, 82, 2, 0x7D44, 3, 14592, [54, 53, 108],
         [115, 121, 50, 98],
         [54, 53, 108, 115, 121, 50, 98]);
  }

  lemma TeacherDelta4()
    ensures Digits(34821, BASE, 67) == [53, 55, 53, 97]
  {
    hide Digits;
    LastDigit(0, 144, 67);
    Digit(31, 108, 67, 31, 0, [97]);
    Digit(994, 72, 67, 33, 31, [53, 97]);
    Digit(34821, 36, 67, 31, 994, [55, 53, 97]);
  }

  lemma TeacherBias4()
    ensures AdaptedBias(34821, 6, false) == 82
  {
    assert Shrink(580, 36) == (16, 72);
    assert Shrink(20311, 0) == (16, 72);
    assert ScaledDelta(34821, 6, false) == 20311;
    BiasOfShrunk(34821, 6, false, 16, 72);
  }

  lemma TeacherPlaces4()
    ensures |Kept([0x33, 0x5E74, 0x42, 0x7D44, 0x91D1, 0x516B, 0x5148, 0x751F], 8, 0x5E74, 2)| == 5
    ensures Pos([0x33, 0x5E74, 0x42, 0x7D44, 0x91D1, 0x516B, 0x5148, 0x751F], 0x751F, 7) == 5
    ensures Pos([0x33, 0x5E74, 0x42, 0x7D44, 0x91D1, 0x516B, 0x5148, 0x751F], 0x5E74, 2) == 2
  {
  }

  lemma TeacherBetween4()
    ensures NothingBetween([0x33, 0x5E74, 0x42, 0x7D44, 0x91D1, 0x516B, 0x5148, 0x751F], 0x5E74, 2, 0x751F, 7)
  {
  }

  lemma Teacher4()
    ensures Walk([0x33, 0x5E74, 0x42, 0x7D44, 0x91D1, 0x516B, 0x5148, 0x751F],
                 0x5E74, 2, 0, 5, 67, 2) ==
            Some([53, 55, 53, 97, 54, 53, 108, 115, 121, 50, 98])
  {
    hide Walk, Digits, AdaptedBias, Kept, Pos, NothingBetween;
    TeacherDelta4();
    TeacherBias4();
    TeacherPlaces4();
    TeacherBetween4();
    Teacher5();
    Emit([0x33, 0x5E74, 0x42, 0x7D44, 0x91D1, 0x516B, 0x5148, 0x751F],
         0x5E74, 2, 5, 67, 2, 0x751F, 7, 34821, [53, 55, 53, 97],
         [54, 53, 108, 115, 121, 50, 98],
         [53, 55, 53, 97, 54, 53, 108, 115, 121, 50, 98]);
  }

  lemma TeacherDelta3()
    ensures Digits(16683, BASE, 24) == [49, 56, 48, 101]
  {
    hide Digits;
    LastDigit(4, 144, 24);
    Digit(66, 108, 24, 26, 4, [101]);
    Digit(694, 72, 24, 34, 66, [48, 101]);
    Digit(16683, 36, 24, 27, 694, [56, 48, 101]);
  }

  lemma TeacherBias3()
    ensures AdaptedBias(16683, 5, false) == 67
  {
    assert Shrink(10009, 0) == (285, 36);
    assert ScaledDelta(16683, 5, false) == 10009;
    BiasOfShrunk(16683, 5, false, 285, 36);
  }

  lemma TeacherPlaces3()
    ensures |Kept([0x33, 0x5E74, 0x42, 0x7D44, 0x91D1, 0x516B, 0x5148, 0x751F], 8, 0x516B, 6)| == 4
    ensures Pos([0x33, 0x5E74, 0x42, 0x7D44, 0x91D1, 0x516B, 0x5148, 0x751F], 0x5E74, 1) == 1
    ensures Pos([0x33, 0x5E74, 0x42, 0x7D44, 0x91D1, 0x516B, 0x5148, 0x751F], 0x516B, 6) == 3
  {
  }

  lemma TeacherBetween3()
    ensures NothingBetween([0x33, 0x5E74, 0x42, 0x7D44, 0x91D1, 0x516B, 0x5148, 0x751F], 0x516B, 6, 0x5E74, 1)
  {
  }

  lemma Teacher3()
    ensures Walk([0x33, 0x5E74, 0x42, 0x7D44, 0x91D1, 0x516B, 0x5148, 0x751F],
                 0x516B, 6, 0, 4, 24, 2) ==
            Some([49, 56, 48, 101, 53, 55, 53, 97, 54, 53, 108, 115, 121, 50, 98])
  {
    hide Walk, Digits, AdaptedBias, Kept, Pos, NothingBetween;
    TeacherDelta3();
    TeacherBias3();
    TeacherPlaces3();
    TeacherBetween3();
    Teacher4();
    Emit([0x33, 0x5E74, 0x42, 0x7D44, 0x91D1, 0x516B, 0x5148, 0x751F],
         0x516B, 6, 4, 24, 2, 0x5E74, 1, 16683, [49, 56, 48, 101],
         [53, 55, 53, 97, 54, 53, 108, 115, 121, 50, 98],
         [49, 56, 48, 101, 53, 55, 53, 97, 54, 53, 108, 115, 121, 50, 98]);
  }

  lemma TeacherDelta2()
    ensures Digits(139, BASE, 27) == [53, 101]
  {
    hide Digits;
    LastDigit(4, 72, 27);
    Digit(139, 36, 27, 31, 4, [101]);
  }

  lemma TeacherBias2()
    ensures AdaptedBias(139, 4, false) == 24
  {
    assert ScaledDelta(139, 4, false) == 86;
    BiasOfShrunk(139, 4, false, 86, 0);
  }

  lemma TeacherPlaces2()
    ensures |Kept([0x33, 0x5E74, 0x42, 0x7D44, 0x91D1, 0x516B, 0x5148, 0x751F], 8, 0x5148, 7)| == 3
    ensures Pos([0x33, 0x5E74, 0x42, 0x7D44, 0x91D1, 0x516B, 0x5148, 0x751F], 0x516B, 5) == 2
    ensures Pos([0x33, 0x5E74, 0x42, 0x7D44, 0x91D1, 0x516B, 0x5148, 0x751F], 0x5148, 7) == 3
  {
  }

  lemma TeacherBetween2()
    ensures NothingBetween([0x33, 0x5E74, 0x42, 0x7D44, 0x91D1, 0x516B, 0x5148, 0x751F], 0x5148, 7, 0x516B, 5)
  {
  }

  lemma Teacher2()
    ensures Walk([0x33, 0x5E74, 0x42, 0x7D44, 0x91D1, 0x516B, 0x5148, 0x751F],
                 0x5148, 7, 0, 3, 27, 2) ==
            Some([53, 101, 49, 56, 48, 101, 53, 55, 53, 97, 54, 53, 108, 115, 121, 50, 98])
  {
    hide Walk, Digits, AdaptedBias, Kept, Pos, NothingBetween;
    TeacherDelta2();
    TeacherBias2();
    TeacherPlaces2();
    TeacherBetween2();
    Teacher3();
    Emit([0x33, 0x5E74, 0x42, 0x7D44, 0x91D1, 0x516B, 0x5148, 0x751F],
         0x5148, 7, 3, 27, 2, 0x516B, 5, 139, [53, 101],
         [49, 56, 48, 101, 53, 55, 53, 97, 54, 53, 108, 115, 121, 50, 98],
         [53, 101, 49, 56, 48, 101, 53, 55, 53, 97, 54, 53, 108, 115, 121, 50, 98]);
  }

  lemma TeacherDelta1()
    ensures Digits(62042, BASE, 72) == [119, 119, 52, 99]
  {
    hide Digits;
    LastDigit(2, 144, 72);
    Digit(50, 108, 72, 30, 2, [99]);
    Digit(1772, 72, 72, 22, 50, [52, 99]);
    Digit(62042, 36, 72, 22, 1772, [119, 52, 99]);
  }

  lemma TeacherBias1()
    ensures AdaptedBias(62042, 3, true) == 27
  {
    assert ScaledDelta(62042, 3, true) == 117;
    BiasOfShrunk(62042, 3, true, 117, 0);
  }

  lemma TeacherPlaces1()
    ensures |Kept([0x33, 0x5E74, 0x42, 0x7D44, 0x91D1, 0x516B, 0x5148, 0x751F], 8, 0x80, 0)| == 2
    ensures Pos([0x33, 0x5E74, 0x42, 0x7D44, 0x91D1, 0x516B, 0x5148, 0x751F], 0x5148, 6) == 2
    ensures Pos([0x33, 0x5E74, 0x42, 0x7D44, 0x91D1, 0x516B, 0x5148, 0x751F], 0x80, 0) == 0
  {
  }

  lemma TeacherBetween1()
    ensures NothingBetween([0x33, 0x5E74, 0x42, 0x7D44, 0x91D1, 0x516B, 0x5148, 0x751F], 0x80, 0, 0x5148, 6)
  {
  }

  lemma Teacher1()
    ensures Walk([0x33, 0x5E74, 0x42, 0x7D44, 0x91D1, 0x516B, 0x5148, 0x751F],
                 0x80, 0, 0, 2, 72, 2) ==
            Some([119, 119, 52, 99, 53, 101, 49, 56, 48, 101, 53, 55, 53, 97, 54, 53, 108, 115, 121, 50, 98])
  {
    hide Walk, Digits, AdaptedBias, Kept, Pos, NothingBetween;
    TeacherDelta1();
    TeacherBias1();
    TeacherPlaces1();
    TeacherBetween1();
    Teacher2();
    Emit([0x33, 0x5E74, 0x42, 0x7D44, 0x91D1, 0x516B, 0x5148, 0x751F],
         0x80, 0, 2, 72, 2, 0x5148, 6, 62042, [119, 119, 52, 99],
         [53, 101, 49, 56, 48, 101, 53, 55, 53, 97, 54, 53, 108, 115, 121, 50, 98],
         [119, 119, 52, 99, 53, 101, 49, 56, 48, 101, 53, 55, 53, 97, 54, 53, 108, 115, 121, 50, 98]);
  }

  lemma TeacherBasics()
    ensures Basics([0x33, 0x5E74, 0x42, 0x7D44, 0x91D1, 0x516B, 0x5148, 0x751F]) == [0x33, 0x42]
  {
    assert Kept([0x33, 0x5E74, 0x42, 0x7D44, 0x91D1, 0x516B, 0x5148, 0x751F], 8, 0x80, 0) == [0x33, 0x42];
  }

  /** "3B-ww4c5e180e575a65lsy2b" */
  lemma TeacherSpelled()
    ensures Encoded([0x33, 0x5E74, 0x42, 0x7D44, 0x91D1, 0x516B, 0x5148, 0x751F]) ==
            Some([51, 66, 45, 119, 119, 52, 99, 53, 101, 49, 56, 48, 101, 53, 55, 53, 97, 54, 53, 108, 115, 121, 50, 98])
  {
    hide *;
    Teacher1();
    TeacherBasics();
    Whole([0x33, 0x5E74, 0x42, 0x7D44, 0x91D1, 0x516B, 0x5148, 0x751F],
          [0x33, 0x42], [0x33, 0x42, 0x2D],
          [119, 119, 52, 99, 53, 101, 49, 56, 48, 101, 53, 55, 53, 97, 54, 53, 108, 115, 121, 50, 98],
          [51, 66, 45, 119, 119, 52, 99, 53, 101, 49, 56, 48, 101, 53, 55, 53, 97, 54, 53, 108, 115, 121, 50, 98]);
  }

  lemma TeacherReadBack()
    ensures Decoded([51, 66, 45, 119, 119, 52, 99, 53, 101, 49, 56, 48, 101, 53, 55, 53, 97, 54, 53, 108, 115, 121, 50, 98]) ==
            Some([0x33, 0x5E74, 0x42, 0x7D44, 0x91D1, 0x516B, 0x5148, 0x751F])
  {
    hide Decoded, Encoded;
    TeacherSpelled();
    RoundTripShort([0x33, 0x5E74, 0x42, 0x7D44, 0x91D1, 0x516B, 0x5148, 0x751F]);
  }

  // ----- sample (S): -> $1.00 <- -----

  /** "-> $1.00 <--": basic units alone, and a delimiter behind them. */
  lemma Dollar()
    ensures Encoded([45, 62, 32, 36, 49, 46, 48, 48, 32, 60, 45]) ==
            Some([45, 62, 32, 36, 49, 46, 48, 48, 32, 60, 45, 45])
    ensures Decoded([45, 62, 32, 36, 49, 46, 48, 48, 32, 60, 45, 45]) ==
            Some([45, 62, 32, 36, 49, 46, 48, 48, 32, 60, 45])
  {
    var s: seq<Unit> := [45, 62, 32, 36, 49, 46, 48, 48, 32, 60, 45];
    KeptAll(s, |s|, 0x80, 0);
    WalkEnd(s, 0x80, 0, 0, |s|, 72, |s|);
    Whole(s, s, s + [45], [], [45, 62, 32, 36, 49, 46, 48, 48, 32, 60, 45, 45]);
    RoundTripShort(s);
  }

  // ----- a code point beyond 16 bits -----

  lemma AstralDigits()
    ensures Digits(128384, BASE, 72) == [101, 50, 56, 104]
  {
    hide Digits;
    LastDigit(7, 144, 72);
    Digit(104, 108, 72, 34, 7, [104]);
    Digit(3668, 72, 72, 28, 104, [56, 104]);
    Digit(128384, 36, 72, 4, 3668, [50, 56, 104]);
  }

  /** "e28h", which stands for U+1F600, comes out as its low 16 bits. */
  lemma Astral()
    ensures Decoded([101, 50, 56, 104]) == Some([0xF600])
  {
    hide Digits, ReadInteger, WeightsFit, AdaptedBias;
    AstralDigits();
    AstralFits();
    ReadDigits(128384, 0, 1, BASE, 72, []);
    assert Digits(128384, BASE, 72) + [] == [101, 50, 56, 104];
    LastDelimiterUnique([101, 50, 56, 104], 0);
    assert [101, 50, 56, 104][0..] == [101, 50, 56, 104] && [101, 50, 56, 104][..0] == [];
    ReadOne([101, 50, 56, 104], 128, 72, [], 0, 128384, 128512, 0, [0xF600]);
  }

  lemma AstralFits()
    ensures WeightsFit(128384, 1, BASE, 72)
  {
  }
}
