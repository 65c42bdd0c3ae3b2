/**
 UTF-8 in the one-to-six-byte form of section 2 of RFC 2279 (src/charconvert.c).

 Decoding rejects overlong forms, encoding falls through the cases of a switch, and a whole
 string is checked character by character.  Bytes and code points are bit vectors, as the
 source shifts and masks them.  The lemmas for each length keep the bit arithmetic away from
 the theorems about sequences.
 */
module Utf8 {
  import opened Wrappers

  type Byte = bv8

  // ----- decoding one code point -----

  predicate IsTrail(b: Byte) { b ^ 0x80 < 0x40 }

  function Trail(b: Byte): bv32 { (b ^ 0x80) as bv32 }

  function Join2(c: Byte, b1: Byte): bv32 {
    (((c & 0x1F) as bv32) << 6) | Trail(b1)
  }

  function Join3(c: Byte, b1: Byte, b2: Byte): bv32 {
    (((c & 0x0F) as bv32) << 12) | (Trail(b1) << 6) | Trail(b2)
  }

  function Join4(c: Byte, b1: Byte, b2: Byte, b3: Byte): bv32 {
    (((c & 0x07) as bv32) << 18) | (Trail(b1) << 12) | (Trail(b2) << 6) | Trail(b3)
  }

  function Join5(c: Byte, b1: Byte, b2: Byte, b3: Byte, b4: Byte): bv32 {
    (((c & 0x03) as bv32) << 24) | (Trail(b1) << 18) | (Trail(b2) << 12) | (Trail(b3) << 6) | Trail(b4)
  }

  function Join6(c: Byte, b1: Byte, b2: Byte, b3: Byte, b4: Byte, b5: Byte): bv32 {
    (((c & 0x01) as bv32) << 30) | (Trail(b1) << 24) | (Trail(b2) << 18) | (Trail(b3) << 12) |
      (Trail(b4) << 6) | Trail(b5)
  }

  /** No shorter form would do. */
  predicate NotOverlong3(c: Byte, b1: Byte) { c >= 0xE1 || b1 >= 0xA0 }

  predicate NotOverlong4(c: Byte, b1: Byte) { c >= 0xF1 || b1 >= 0x90 }

  predicate NotOverlong5(c: Byte, b1: Byte) { c >= 0xF9 || b1 >= 0x88 }

  predicate NotOverlong6(c: Byte, b1: Byte) { c >= 0xFD || b1 >= 0x84 }

  predicate Trails(s: seq<Byte>, n: nat) { n <= |s| && forall j :: 0 < j < n ==> IsTrail(s[j]) }

  /** `utf8_to_unicode`: the code point and its length, or EILSEQ. */
  function Decode(s: seq<Byte>): Option<(bv32, nat)>
    requires s != []
  {
    var c := s[0];
    if c < 0x80 then Some((c as bv32, 1))
    else if c < 0xC2 then None
    else if c < 0xE0 then
      if Trails(s, 2) then Some((Join2(c, s[1]), 2)) else None
    else if c < 0xF0 then
      if Trails(s, 3) && NotOverlong3(c, s[1]) then Some((Join3(c, s[1], s[2]), 3)) else None
    else if c < 0xF8 then
      if Trails(s, 4) && NotOverlong4(c, s[1]) then Some((Join4(c, s[1], s[2], s[3]), 4)) else None
    else if c < 0xFC then
      if Trails(s, 5) && NotOverlong5(c, s[1]) then Some((Join5(c, s[1], s[2], s[3], s[4]), 5)) else None
    else if c < 0xFE then
      if Trails(s, 6) &&
        NotOverlong6(c, s[1]) then Some((Join6(c, s[1], s[2], s[3], s[4], s[5]), 6)) else None
    else None
  }

  // ----- encoding one code point -----

  function Low(num: bv32): Byte { (num & 0xFF) as bv8 }

  /** A trailing byte with the low six bits. */
  function Tail(bits: bv32): Byte { Low(0x80 | (bits & 0x3F)) }

  function Lead2(num: bv32): Byte { Low(0xC0 | (num >> 6)) }

  function Lead3(num: bv32): Byte { Low(0xE0 | (num >> 12)) }

  function Lead4(num: bv32): Byte { Low(0xF0 | (num >> 18)) }

  function Lead5(num: bv32): Byte { Low(0xF8 | (num >> 24)) }

  function Lead6(num: bv32): Byte { Low(0xFC | (num >> 30)) }

  function Encode2(num: bv32): (r: seq<Byte>)
    ensures |r| == 2
  {
    [Lead2(num), Tail(num)]
  }

  function Encode3(num: bv32): (r: seq<Byte>)
    ensures |r| == 3
  {
    [Lead3(num), Tail(num >> 6), Tail(num)]
  }

  function Encode4(num: bv32): (r: seq<Byte>)
    ensures |r| == 4
  {
    [Lead4(num), Tail(num >> 12), Tail(num >> 6), Tail(num)]
  }

  function Encode5(num: bv32): (r: seq<Byte>)
    ensures |r| == 5
  {
    [Lead5(num), Tail(num >> 18), Tail(num >> 12), Tail(num >> 6), Tail(num)]
  }

  function Encode6(num: bv32): (r: seq<Byte>)
    ensures |r| == 6
  {
    [Lead6(num), Tail(num >> 24), Tail(num >> 18), Tail(num >> 12), Tail(num >> 6), Tail(num)]
  }

  /** The bytes of a code point below 2^31 as the standard lays them out. */
  function Encode(num: bv32): (r: seq<Byte>)
    ensures 1 <= |r| <= 6
  {
    if num < 0x80 then [Low(num)]
    else if num < 0x800 then Encode2(num)
    else if num < 0x10000 then Encode3(num)
    else if num < 0x200000 then Encode4(num)
    else if num < 0x4000000 then Encode5(num)
    else Encode6(num)
  }

  lemma TailIsTrail(bits: bv32)
    ensures IsTrail(Tail(bits)) && Trail(Tail(bits)) == bits & 0x3F
  {
  }

  lemma Lead2Bits(num: bv32)
    requires 0x80 <= num < 0x800
    ensures 0xC2 <= Lead2(num) < 0xE0
    ensures (((Lead2(num) & 0x1F) as bv32) << 6) | (num & 0x3F) == num
  {
  }

  lemma Bits2(num: bv32)
    requires 0x80 <= num < 0x800
    ensures 0xC2 <= Lead2(num) < 0xE0
    ensures Join2(Lead2(num), Tail(num)) == num
  {
    hide Tail, Trail, Lead2;
    Lead2Bits(num);
    TailIsTrail(num);
  }

  lemma Forth2(num: bv32, s: seq<Byte>)
    requires 0x80 <= num < 0x800 && Encode(num) <= s
    ensures Decode(s) == Some((num, 2))
  {
    hide IsTrail, Join2, Lead2, Tail, Low;
    Bits2(num);
    TailIsTrail(num);
    var e := Encode(num);
    assert s[0] == e[0] && s[1] == e[1];
  }

  lemma Bytes2Bits(c: Byte, b1: Byte)
    requires 0xC2 <= c < 0xE0 && IsTrail(b1)
    ensures var num := Join2(c, b1);
            0x80 <= num < 0x800 && Lead2(num) == c &&
            Tail(num) == b1
  {
  }

  lemma Bytes2(c: Byte, b1: Byte)
    requires 0xC2 <= c < 0xE0 && IsTrail(b1)
    ensures var num := Join2(c, b1);
            0x80 <= num < 0x800 && Encode2(num) == [c, b1]
  {
    hide IsTrail, Join2, Lead2, Tail;
    Bytes2Bits(c, b1);
  }

  lemma Back2(s: seq<Byte>)
    requires s != [] && 0xC2 <= s[0] < 0xE0 && Decode(s).Some?
    ensures var (num, n) := Decode(s).value;
            n == 2 && num <= 0x7FFF_FFFF && n <= |s| && Encode(num) == s[..n]
  {
    hide IsTrail, Join2, Encode2;
    Bytes2(s[0], s[1]);
    assert s[..2] == [s[0], s[1]];
  }

  lemma Lead3Bits(num: bv32)
    requires 0x800 <= num < 0x10000
    ensures 0xE0 <= Lead3(num) < 0xF0 && NotOverlong3(Lead3(num), Tail(num >> 6))
    ensures (((Lead3(num) & 0x0F) as bv32) << 12) | (((num >> 6) & 0x3F) << 6) | (num & 0x3F) == num
  {
  }

  lemma Bits3(num: bv32)
    requires 0x800 <= num < 0x10000
    ensures 0xE0 <= Lead3(num) < 0xF0 && NotOverlong3(Lead3(num), Tail(num >> 6))
    ensures Join3(Lead3(num), Tail(num >> 6), Tail(num)) == num
  {
    hide Tail, Trail, Lead3, NotOverlong3;
    Lead3Bits(num);
    TailIsTrail(num >> 6);
    TailIsTrail(num);
  }

  lemma Forth3(num: bv32, s: seq<Byte>)
    requires 0x800 <= num < 0x10000 && Encode(num) <= s
    ensures Decode(s) == Some((num, 3))
  {
    hide IsTrail, Join3, Lead3, Tail, Low, NotOverlong3;
    Bits3(num);
    TailIsTrail(num);
    TailIsTrail(num >> 6);
    var e := Encode(num);
    assert s[0] == e[0] && s[1] == e[1] && s[2] == e[2];
  }

  lemma Bytes3Bits(c: Byte, b1: Byte, b2: Byte)
    requires 0xE0 <= c < 0xF0 && IsTrail(b1) && IsTrail(b2) && NotOverlong3(c, b1)
    ensures var num := Join3(c, b1, b2);
            0x800 <= num < 0x10000 && Lead3(num) == c &&
            Tail(num >> 6) == b1 && Tail(num) == b2
  {
  }

  lemma Bytes3(c: Byte, b1: Byte, b2: Byte)
    requires 0xE0 <= c < 0xF0 && IsTrail(b1) && IsTrail(b2) && NotOverlong3(c, b1)
    ensures var num := Join3(c, b1, b2);
            0x800 <= num < 0x10000 && Encode3(num) == [c, b1, b2]
  {
    hide IsTrail, Join3, Lead3, Tail, NotOverlong3;
    Bytes3Bits(c, b1, b2);
  }

  lemma Back3(s: seq<Byte>)
    requires s != [] && 0xE0 <= s[0] < 0xF0 && Decode(s).Some?
    ensures var (num, n) := Decode(s).value;
            n == 3 && num <= 0x7FFF_FFFF && n <= |s| && Encode(num) == s[..n]
  {
    hide IsTrail, Join3, Encode3, NotOverlong3;
    Bytes3(s[0], s[1], s[2]);
    assert s[..3] == [s[0], s[1], s[2]];
  }

  lemma Lead4Bits(num: bv32)
    requires 0x10000 <= num < 0x200000
    ensures 0xF0 <= Lead4(num) < 0xF8 && NotOverlong4(Lead4(num), Tail(num >> 12))
    ensures (((Lead4(num) & 0x07) as bv32) << 18) | (((num >> 12) & 0x3F) << 12) |
      (((num >> 6) & 0x3F) << 6) | (num & 0x3F) == num
  {
  }

  lemma Bits4(num: bv32)
    requires 0x10000 <= num < 0x200000
    ensures 0xF0 <= Lead4(num) < 0xF8 && NotOverlong4(Lead4(num), Tail(num >> 12))
    ensures Join4(Lead4(num), Tail(num >> 12), Tail(num >> 6), Tail(num)) == num
  {
    hide Tail, Trail, Lead4, NotOverlong4;
    Lead4Bits(num);
    TailIsTrail(num >> 12);
    TailIsTrail(num >> 6);
    TailIsTrail(num);
  }

  lemma Forth4(num: bv32, s: seq<Byte>)
    requires 0x10000 <= num < 0x200000 && Encode(num) <= s
    ensures Decode(s) == Some((num, 4))
  {
    hide IsTrail, Join4, Lead4, Tail, Low, NotOverlong4;
    Bits4(num);
    TailIsTrail(num);
    TailIsTrail(num >> 6);
    TailIsTrail(num >> 12);
    var e := Encode(num);
    assert s[0] == e[0] && s[1] == e[1] && s[2] == e[2] && s[3] == e[3];
  }

  lemma Bytes4Bits(c: Byte, b1: Byte, b2: Byte, b3: Byte)
    requires 0xF0 <= c < 0xF8 && IsTrail(b1) && IsTrail(b2) && IsTrail(b3) && NotOverlong4(c, b1)
    ensures var num := Join4(c, b1, b2, b3);
            0x10000 <= num < 0x200000 && Lead4(num) == c &&
            Tail(num >> 12) == b1 && Tail(num >> 6) == b2 && Tail(num) == b3
  {
  }

  lemma Bytes4(c: Byte, b1: Byte, b2: Byte, b3: Byte)
    requires 0xF0 <= c < 0xF8 && IsTrail(b1) && IsTrail(b2) && IsTrail(b3) && NotOverlong4(c, b1)
    ensures var num := Join4(c, b1, b2, b3);
            0x10000 <= num < 0x200000 && Encode4(num) == [c, b1, b2, b3]
  {
    hide IsTrail, Join4, Lead4, Tail, NotOverlong4;
    Bytes4Bits(c, b1, b2, b3);
  }

  lemma Back4(s: seq<Byte>)
    requires s != [] && 0xF0 <= s[0] < 0xF8 && Decode(s).Some?
    ensures var (num, n) := Decode(s).value;
            n == 4 && num <= 0x7FFF_FFFF && n <= |s| && Encode(num) == s[..n]
  {
    hide IsTrail, Join4, Encode4, NotOverlong4;
    Bytes4(s[0], s[1], s[2], s[3]);
    assert s[..4] == [s[0], s[1], s[2], s[3]];
  }

  lemma Lead5Bits(num: bv32)
    requires 0x200000 <= num < 0x4000000
    ensures 0xF8 <= Lead5(num) < 0xFC && NotOverlong5(Lead5(num), Tail(num >> 18))
    ensures (((Lead5(num) & 0x03) as bv32) << 24) | (((num >> 18) & 0x3F) << 18) |
      (((num >> 12) & 0x3F) << 12) | (((num >> 6) & 0x3F) << 6) | (num & 0x3F) == num
  {
  }

  lemma Bits5(num: bv32)
    requires 0x200000 <= num < 0x4000000
    ensures 0xF8 <= Lead5(num) < 0xFC && NotOverlong5(Lead5(num), Tail(num >> 18))
    ensures Join5(Lead5(num), Tail(num >> 18), Tail(num >> 12), Tail(num >> 6), Tail(num)) == num
  {
    hide Tail, Trail, Lead5, NotOverlong5;
    Lead5Bits(num);
    TailIsTrail(num >> 18);
    TailIsTrail(num >> 12);
    TailIsTrail(num >> 6);
    TailIsTrail(num);
  }

  lemma Forth5(num: bv32, s: seq<Byte>)
    requires 0x200000 <= num < 0x4000000 && Encode(num) <= s
    ensures Decode(s) == Some((num, 5))
  {
    hide IsTrail, Join5, Lead5, Tail, Low, NotOverlong5;
    Bits5(num);
    TailIsTrail(num);
    TailIsTrail(num >> 6);
    TailIsTrail(num >> 12);
    TailIsTrail(num >> 18);
    var e := Encode(num);
    assert s[0] == e[0] && s[1] == e[1] && s[2] == e[2] && s[3] == e[3] && s[4] == e[4];
  }

  lemma Range5(c: Byte, b1: Byte, b2: Byte, b3: Byte, b4: Byte)
    requires 0xF8 <= c < 0xFC && IsTrail(b1) && IsTrail(b2) && IsTrail(b3) && IsTrail(b4) && NotOverlong5(c, b1)
    ensures 0x200000 <= Join5(c, b1, b2, b3, b4) < 0x4000000 && Lead5(Join5(c, b1, b2, b3, b4)) == c
  {
  }

  lemma Bits5At1(c: Byte, b1: Byte, b2: Byte, b3: Byte, b4: Byte)
    requires IsTrail(b1) && IsTrail(b2) && IsTrail(b3) && IsTrail(b4)
    ensures Tail(Join5(c, b1, b2, b3, b4) >> 18) == b1
  {
  }

  lemma Bits5At2(c: Byte, b1: Byte, b2: Byte, b3: Byte, b4: Byte)
    requires IsTrail(b2) && IsTrail(b3) && IsTrail(b4)
    ensures Tail(Join5(c, b1, b2, b3, b4) >> 12) == b2
  {
  }

  lemma Bits5At3(c: Byte, b1: Byte, b2: Byte, b3: Byte, b4: Byte)
    requires IsTrail(b3) && IsTrail(b4)
    ensures Tail(Join5(c, b1, b2, b3, b4) >> 6) == b3
  {
  }

  lemma Bits5At4(c: Byte, b1: Byte, b2: Byte, b3: Byte, b4: Byte)
    requires IsTrail(b4)
    ensures Tail(Join5(c, b1, b2, b3, b4)) == b4
  {
  }

  lemma Bytes5Bits(c: Byte, b1: Byte, b2: Byte, b3: Byte, b4: Byte)
    requires 0xF8 <= c < 0xFC && IsTrail(b1) && IsTrail(b2) && IsTrail(b3) && IsTrail(b4) &&
      NotOverlong5(c, b1)
    ensures var num := Join5(c, b1, b2, b3, b4);
            0x200000 <= num < 0x4000000 && Lead5(num) == c &&
            Tail(num >> 18) == b1 && Tail(num >> 12) == b2 && Tail(num >> 6) == b3 && Tail(num) == b4
  {
    hide *;
    Range5(c, b1, b2, b3, b4);
    Bits5At1(c, b1, b2, b3, b4);
    Bits5At2(c, b1, b2, b3, b4);
    Bits5At3(c, b1, b2, b3, b4);
    Bits5At4(c, b1, b2, b3, b4);
  }

  lemma Bytes5(c: Byte, b1: Byte, b2: Byte, b3: Byte, b4: Byte)
    requires 0xF8 <= c < 0xFC && IsTrail(b1) && IsTrail(b2) && IsTrail(b3) && IsTrail(b4) &&
      NotOverlong5(c, b1)
    ensures var num := Join5(c, b1, b2, b3, b4);
            0x200000 <= num < 0x4000000 && Encode5(num) == [c, b1, b2, b3, b4]
  {
    hide IsTrail, Join5, Lead5, Tail, NotOverlong5;
    Bytes5Bits(c, b1, b2, b3, b4);
  }

  lemma Back5(s: seq<Byte>)
    requires s != [] && 0xF8 <= s[0] < 0xFC && Decode(s).Some?
    ensures var (num, n) := Decode(s).value;
            n == 5 && num <= 0x7FFF_FFFF && n <= |s| && Encode(num) == s[..n]
  {
    hide IsTrail, Join5, Encode5, NotOverlong5;
    Bytes5(s[0], s[1], s[2], s[3], s[4]);
    assert s[..5] == [s[0], s[1], s[2], s[3], s[4]];
  }

  lemma Lead6Bits(num: bv32)
    requires 0x4000000 <= num < 0x8000_0000
    ensures 0xFC <= Lead6(num) < 0xFE && NotOverlong6(Lead6(num), Tail(num >> 24))
    ensures (((Lead6(num) & 0x01) as bv32) << 30) | (((num >> 24) & 0x3F) << 24) |
      (((num >> 18) & 0x3F) << 18) | (((num >> 12) & 0x3F) << 12) | (((num >> 6) & 0x3F) << 6) |
        (num & 0x3F) == num
  {
  }

  lemma Bits6(num: bv32)
    requires 0x4000000 <= num < 0x8000_0000
    ensures 0xFC <= Lead6(num) < 0xFE && NotOverlong6(Lead6(num), Tail(num >> 24))
    ensures Join6(Lead6(num), Tail(num >> 24), Tail(num >> 18), Tail(num >> 12), Tail(num >> 6), Tail(num)) == num
  {
    hide Tail, Trail, Lead6, NotOverlong6;
    Lead6Bits(num);
    TailIsTrail(num >> 24);
    TailIsTrail(num >> 18);
    TailIsTrail(num >> 12);
    TailIsTrail(num >> 6);
    TailIsTrail(num);
  }

  lemma Forth6(num: bv32, s: seq<Byte>)
    requires 0x4000000 <= num < 0x8000_0000 && Encode(num) <= s
    ensures Decode(s) == Some((num, 6))
  {
    hide IsTrail, Join6, Lead6, Tail, Low, NotOverlong6;
    Bits6(num);
    TailIsTrail(num);
    TailIsTrail(num >> 6);
    TailIsTrail(num >> 12);
    TailIsTrail(num >> 18);
    TailIsTrail(num >> 24);
    var e := Encode(num);
    assert s[0] == e[0] && s[1] == e[1] && s[2] == e[2] && s[3] == e[3] && s[4] == e[4] && s[5] == e[5];
  }

  lemma Range6(c: Byte, b1: Byte, b2: Byte, b3: Byte, b4: Byte, b5: Byte)
    requires 0xFC <= c < 0xFE && IsTrail(b1) && IsTrail(b2) && IsTrail(b3) && IsTrail(b4) && IsTrail(b5) && NotOverlong6(c, b1)
    ensures 0x4000000 <= Join6(c, b1, b2, b3, b4, b5) < 0x8000_0000 && Lead6(Join6(c, b1, b2, b3, b4, b5)) == c
  {
  }

  lemma Bits6At1(c: Byte, b1: Byte, b2: Byte, b3: Byte, b4: Byte, b5: Byte)
    requires IsTrail(b1) && IsTrail(b2) && IsTrail(b3) && IsTrail(b4) && IsTrail(b5)
    ensures Tail(Join6(c, b1, b2, b3, b4, b5) >> 24) == b1
  {
  }

  lemma Bits6At2(c: Byte, b1: Byte, b2: Byte, b3: Byte, b4: Byte, b5: Byte)
    requires IsTrail(b2) && IsTrail(b3) && IsTrail(b4) && IsTrail(b5)
    ensures Tail(Join6(c, b1, b2, b3, b4, b5) >> 18) == b2
  {
  }

  lemma Bits6At3(c: Byte, b1: Byte, b2: Byte, b3: Byte, b4: Byte, b5: Byte)
    requires IsTrail(b3) && IsTrail(b4) && IsTrail(b5)
    ensures Tail(Join6(c, b1, b2, b3, b4, b5) >> 12) == b3
  {
  }

  lemma Bits6At4(c: Byte, b1: Byte, b2: Byte, b3: Byte, b4: Byte, b5: Byte)
    requires IsTrail(b4) && IsTrail(b5)
    ensures Tail(Join6(c, b1, b2, b3, b4, b5) >> 6) == b4
  {
  }

  lemma Bits6At5(c: Byte, b1: Byte, b2: Byte, b3: Byte, b4: Byte, b5: Byte)
    requires IsTrail(b5)
    ensures Tail(Join6(c, b1, b2, b3, b4, b5)) == b5
  {
  }

  lemma Bytes6Bits(c: Byte, b1: Byte, b2: Byte, b3: Byte, b4: Byte, b5: Byte)
    requires 0xFC <= c < 0xFE && IsTrail(b1) && IsTrail(b2) && IsTrail(b3) && IsTrail(b4) &&
      IsTrail(b5) && NotOverlong6(c, b1)
    ensures var num := Join6(c, b1, b2, b3, b4, b5);
            0x4000000 <= num < 0x8000_0000 && Lead6(num) == c &&
            Tail(num >> 24) == b1 && Tail(num >> 18) == b2 && Tail(num >> 12) == b3 &&
            Tail(num >> 6) == b4 && Tail(num) == b5
  {
    hide *;
    Range6(c, b1, b2, b3, b4, b5);
    Bits6At1(c, b1, b2, b3, b4, b5);
    Bits6At2(c, b1, b2, b3, b4, b5);
    Bits6At3(c, b1, b2, b3, b4, b5);
    Bits6At4(c, b1, b2, b3, b4, b5);
    Bits6At5(c, b1, b2, b3, b4, b5);
  }

  lemma Bytes6(c: Byte, b1: Byte, b2: Byte, b3: Byte, b4: Byte, b5: Byte)
    requires 0xFC <= c < 0xFE && IsTrail(b1) && IsTrail(b2) && IsTrail(b3) && IsTrail(b4) &&
      IsTrail(b5) && NotOverlong6(c, b1)
    ensures var num := Join6(c, b1, b2, b3, b4, b5);
            0x4000000 <= num < 0x8000_0000 && Encode6(num) == [c, b1, b2, b3, b4, b5]
  {
    hide IsTrail, Join6, Lead6, Tail, NotOverlong6;
    Bytes6Bits(c, b1, b2, b3, b4, b5);
  }

  lemma Back6(s: seq<Byte>)
    requires s != [] && 0xFC <= s[0] < 0xFE && Decode(s).Some?
    ensures var (num, n) := Decode(s).value;
            n == 6 && num <= 0x7FFF_FFFF && n <= |s| && Encode(num) == s[..n]
  {
    hide IsTrail, Join6, Encode6, NotOverlong6;
    Bytes6(s[0], s[1], s[2], s[3], s[4], s[5]);
    assert s[..6] == [s[0], s[1], s[2], s[3], s[4], s[5]];
  }

  lemma Forth1(num: bv32, s: seq<Byte>)
    requires num < 0x80 && Encode(num) <= s
    ensures Decode(s) == Some((num, 1))
  {
    assert s[0] == Encode(num)[0];
  }

  lemma Back1(s: seq<Byte>)
    requires s != [] && s[0] < 0x80
    ensures Decode(s) == Some((s[0] as bv32, 1)) && Encode(s[0] as bv32) == s[..1]
  {
  }

  /** Decoding an encoded code point gives it back, whatever follows. */
  lemma DecodeEncode(num: bv32, s: seq<Byte>)
    requires num <= 0x7FFF_FFFF && Encode(num) <= s
    ensures Decode(s) == Some((num, |Encode(num)|))
  {
    hide Decode, Low, Tail;
    if num < 0x80 {
      Forth1(num, s);
    } else if num < 0x800 {
      Forth2(num, s);
    } else if num < 0x10000 {
      Forth3(num, s);
    } else if num < 0x200000 {
      Forth4(num, s);
    } else if num < 0x4000000 {
      Forth5(num, s);
    } else {
      Forth6(num, s);
    }
  }

  /** Whatever is decoded encodes to exactly the bytes read: no overlong form is accepted. */
  lemma EncodeDecode(s: seq<Byte>)
    requires s != [] && Decode(s).Some?
    ensures var (num, n) := Decode(s).value;
            num <= 0x7FFF_FFFF && 1 <= n <= |s| && Encode(num) == s[..n]
  {
    hide Encode, Decode;
    NotDecoded(s);
    if s[0] < 0x80 {
      Back1(s);
    } else if s[0] < 0xE0 {
      Back2(s);
    } else if s[0] < 0xF0 {
      Back3(s);
    } else if s[0] < 0xF8 {
      Back4(s);
    } else if s[0] < 0xFC {
      Back5(s);
    } else {
      Back6(s);
    }
  }

  lemma NotDecoded(s: seq<Byte>)
    requires s != [] && Decode(s).Some?
    ensures s[0] < 0x80 || 0xC2 <= s[0] < 0xFE
  {
  }

  // ----- the encoder's fall-through -----

  const EINVAL := 22

  /** `num = (num >> 6) | bit` */
  function Down(num: bv32, bit: bv32): bv32 { (num >> 6) | bit }

  lemma Fall2(num: bv32)
    requires num < 0x800
    ensures Low(Down(num, 0xC0)) == Lead2(num)
  {
  }

  lemma Fall3(num: bv32)
    requires num < 0x1_0000
    ensures Low(Down(Down(num, 0x800), 0xC0)) == Lead3(num)
    ensures Tail(Down(num, 0x800)) == Tail(num >> 6)
  {
  }

  lemma Fall4(num: bv32)
    requires num < 0x20_0000
    ensures var n1 := Down(num, 0x1_0000);
            var n2 := Down(n1, 0x800);
            Low(Down(n2, 0xC0)) == Lead4(num) && Tail(n2) == Tail(num >> 12) && Tail(n1) == Tail(num >> 6)
  {
  }

  lemma Fall5(num: bv32)
    requires num < 0x400_0000
    ensures var n1 := Down(num, 0x20_0000);
            var n2 := Down(n1, 0x1_0000);
            var n3 := Down(n2, 0x800);
            Low(Down(n3, 0xC0)) == Lead5(num) &&
            Tail(n3) == Tail(num >> 18) && Tail(n2) == Tail(num >> 12) && Tail(n1) == Tail(num >> 6)
  {
  }

  lemma Fall6(num: bv32)
    requires num < 0x8000_0000
    ensures var n1 := Down(num, 0x400_0000);
            var n2 := Down(n1, 0x20_0000);
            var n3 := Down(n2, 0x1_0000);
            var n4 := Down(n3, 0x800);
            Low(Down(n4, 0xC0)) == Lead6(num) && Tail(n4) == Tail(num >> 24) &&
            Tail(n3) == Tail(num >> 18) && Tail(n2) == Tail(num >> 12) && Tail(n1) == Tail(num >> 6)
  {
  }

  /** What the cases of the switch from `count` on leave in the first bytes. */
  function Fallen(num: bv32, count: nat): (r: seq<Byte>)
    requires 1 <= count <= 6
    ensures |r| == count
    decreases count
  {
    if count == 1 then [Low(num)] else Fallen(Down(num, MarkOf(count)), count - 1) + [Tail(num)]
  }

  function MarkOf(count: nat): bv32 {
    if count == 6 then 0x400_0000 else if count == 5 then 0x20_0000 else if count == 4 then 0x1_0000
    else if count == 3 then 0x800 else 0xC0
  }

  lemma FallenTwo(num: bv32)
    ensures Fallen(num, 2) == [Low(Down(num, 0xC0)), Tail(num)]
  {
    hide Low, Down, Tail;
    assert [Low(Down(num, 0xC0))] + [Tail(num)] == [Low(Down(num, 0xC0)), Tail(num)];
  }

  lemma FallenMore(num: bv32, count: nat)
    requires 2 < count <= 6
    ensures Fallen(num, count) == Fallen(Down(num, MarkOf(count)), count - 1) + [Tail(num)]
  {
    hide Low, Down, Tail, MarkOf;
  }

  lemma Fallen3(num: bv32)
    ensures var n1 := Down(num, 0x800);
            Fallen(num, 3) == [Low(Down(n1, 0xC0)), Tail(n1), Tail(num)]
  {
    hide Low, Down, Tail, Fallen;
    FallenMore(num, 3);
    FallenTwo(Down(num, 0x800));
  }

  lemma Fallen4(num: bv32)
    ensures var n1 := Down(num, 0x1_0000);
            var n2 := Down(n1, 0x800);
            Fallen(num, 4) == [Low(Down(n2, 0xC0)), Tail(n2), Tail(n1), Tail(num)]
  {
    hide Low, Down, Tail, Fallen;
    FallenMore(num, 4);
    Fallen3(Down(num, 0x1_0000));
  }

  lemma Fallen5(num: bv32)
    ensures var n1 := Down(num, 0x20_0000);
            var n2 := Down(n1, 0x1_0000);
            var n3 := Down(n2, 0x800);
            Fallen(num, 5) == [Low(Down(n3, 0xC0)), Tail(n3), Tail(n2), Tail(n1), Tail(num)]
  {
    hide Low, Down, Tail, Fallen;
    FallenMore(num, 5);
    Fallen4(Down(num, 0x20_0000));
  }

  lemma Fallen6(num: bv32)
    ensures var n1 := Down(num, 0x400_0000);
            var n2 := Down(n1, 0x20_0000);
            var n3 := Down(n2, 0x1_0000);
            var n4 := Down(n3, 0x800);
            Fallen(num, 6) == [Low(Down(n4, 0xC0)), Tail(n4), Tail(n3), Tail(n2), Tail(n1), Tail(num)]
  {
    hide Low, Down, Tail, Fallen;
    FallenMore(num, 6);
    Fallen5(Down(num, 0x400_0000));
  }

  /** Falling through the cases leaves the bytes of the standard. */
  lemma FallenEncode(num: bv32)
    requires num <= 0x7FFF_FFFF
    ensures Fallen(num, |Encode(num)|) == Encode(num)
  {
    hide Low, Down, Tail, Fallen, Lead2, Lead3, Lead4, Lead5, Lead6;
    if num < 0x80 {
      FallenOne(num);
    } else if num < 0x800 {
      Fall2(num);
      FallenTwo(num);
    } else if num < 0x1_0000 {
      Fall3(num);
      Fallen3(num);
    } else if num < 0x20_0000 {
      Fall4(num);
      Fallen4(num);
    } else if num < 0x400_0000 {
      Fall5(num);
      Fallen5(num);
    } else {
      Fall6(num);
      Fallen6(num);
    }
  }

  lemma FallenOne(num: bv32)
    ensures Fallen(num, 1) == [Low(num)]
  {
  }

  function Min(a: nat, b: nat): nat { if a < b then a else b }

  /** The bytes from the lesser of k and count on are in place, and what is left of the
      number gives those before. */
  ghost predicate Filled(num: bv32, rest: bv32, c: array<Byte>, count: nat, k: nat)
    requires 1 <= count <= 6 && 1 <= k && count <= c.Length
    reads c
  {
    var m := Min(count, k);
    Fallen(num, count) == Fallen(rest, m) + c[m..count]
  }

  /** `case k:` of the switch over the count. */
  method Case(k: nat, count: nat, num: bv32, c: array<Byte>, ghost whole: bv32) returns (rest: bv32)
    requires 2 <= k <= 6 && 1 <= count <= 6 && count <= c.Length && Filled(whole, num, c, count, k)
    modifies c
    ensures Filled(whole, rest, c, count, k - 1)
    ensures forall x :: count <= x < c.Length ==> c[x] == old(c[x])
  {
    hide Tail, Down, Fallen;
    rest := num;
    if count >= k {
      ghost var tail := c[k..count];
      c[k - 1] := Tail(num);
      rest := Down(num, MarkOf(k));
      FallenStep(num, k, tail);
      assert c[k - 1..count] == [Tail(num)] + tail;
    }
  }

  /** The length of the encoding; 0 for what has none. */
  function CountOf(num: bv32): nat {
    if num < 0x80 then 1 else if num < 0x800 then 2 else if num < 0x1_0000 then 3 else if num < 0x20_0000 then 4
    else if num < 0x400_0000 then 5 else if num <= 0x7FFF_FFFF then 6 else 0
  }

  lemma CountIsLength(num: bv32)
    requires num <= 0x7FFF_FFFF
    ensures CountOf(num) == |Encode(num)|
  {
  }

  /** `unicode_to_utf8` */
  method UnicodeToUtf8(num: bv32, c: array<Byte>, n: nat) returns (ret: int)
    requires n <= c.Length
    modifies c
    ensures num > 0x7FFF_FFFF || n < |Encode(num)| ==> ret == EINVAL && c[..] == old(c[..])
    ensures num <= 0x7FFF_FFFF && n >= |Encode(num)| ==> ret == |Encode(num)| && c[..ret] == Encode(num)
    ensures forall k :: |Encode(num)| <= k < c.Length ==> c[k] == old(c[k])
  {
    hide Down, Tail, Low, Encode, Fallen, MarkOf, CountOf;
    var count := CountOf(num);
    if num > 0x7FFF_FFFF { return EINVAL; }
    CountIsLength(num);
    if n < count { return EINVAL; }
    FallenEncode(num);
    assert Fallen(num, count) + c[count..count] == Fallen(num, count);
    var rest := Case(6, count, num, c, num);
    rest := Case(5, count, rest, c, num);
    rest := Case(4, count, rest, c, num);
    rest := Case(3, count, rest, c, num);
    rest := Case(2, count, rest, c, num);
    FallenOne(rest);
    ghost var tail := c[1..count];
    c[0] := Low(rest);
    assert c[..count] == [Low(rest)] + tail;
    ret := count;
  }

  lemma FallenStep(num: bv32, count: nat, tail: seq<Byte>)
    requires 2 <= count <= 6
    ensures Fallen(num, count) + tail == Fallen(Down(num, MarkOf(count)), count - 1) + ([Tail(num)] + tail)
  {
    hide Low, Down, Tail, MarkOf;
    assert Fallen(num, count) == Fallen(Down(num, MarkOf(count)), count - 1) + [Tail(num)];
  }

  // ----- strings -----

  /** What `is_valid_utf8_string` accepts: up to a NUL or the end every character decodes. */
  predicate ValidString(s: seq<Byte>)
    decreases |s|
  {
    if s == [] || s[0] == 0 then true
    else
      match Decode(s)
      case None => false
      case Some((_, n)) =>
        EncodeDecode(s);
        ValidString(s[n..])
  }

  method IsValidUtf8String(str: seq<Byte>) returns (ret: int)
    ensures ret == if ValidString(str) then 0 else -1
  {
    hide Decode;
    var ptr := 0;
    assert str[0..] == str;
    while ptr < |str| && str[ptr] != 0
      invariant 0 <= ptr <= |str| && ValidString(str) == ValidString(str[ptr..])
    {
      var d := Decode(str[ptr..]);
      if d.None? { return -1; }
      EncodeDecode(str[ptr..]);
      assert str[ptr..][d.value.1..] == str[ptr + d.value.1..];
      ptr := ptr + d.value.1;
    }
    ret := 0;
  }

  function EncodeAll(cps: seq<bv32>): seq<Byte> { if cps == [] then [] else Encode(cps[0]) + EncodeAll(cps[1..]) }

  ghost predicate CodePoints(cps: seq<bv32>) { forall k :: 0 <= k < |cps| ==> cps[k] <= 0x7FFF_FFFF }

  ghost predicate NulFree(s: seq<Byte>) { forall k :: 0 <= k < |s| ==> s[k] != 0 }

  /** An encoded sequence starts with the encoding of its first code point, and only it. */
  lemma FirstDecoded(cps: seq<bv32>)
    requires CodePoints(cps) && cps != []
    ensures EncodeAll(cps) != [] && Decode(EncodeAll(cps)) == Some((cps[0], |Encode(cps[0])|))
    ensures EncodeAll(cps)[|Encode(cps[0])|..] == EncodeAll(cps[1..])
  {
    hide Decode, Encode;
    DecodeEncode(cps[0], EncodeAll(cps));
  }

  /** A string is the encoding of at most one sequence. */
  lemma {:induction false} EncodeAllInjective(a: seq<bv32>, b: seq<bv32>)
    requires CodePoints(a) && CodePoints(b) && EncodeAll(a) == EncodeAll(b)
    ensures a == b
  {
    hide Decode, Encode;
    if a != [] && b != [] {
      FirstDecoded(a);
      FirstDecoded(b);
      EncodeAllInjective(a[1..], b[1..]);
      assert a == [a[0]] + a[1..] && b == [b[0]] + b[1..];
    } else if a != [] {
      FirstDecoded(a);
    } else if b != [] {
      FirstDecoded(b);
    }
  }

  lemma {:induction false} EncodedIsValid(cps: seq<bv32>)
    requires CodePoints(cps)
    ensures ValidString(EncodeAll(cps))
  {
    hide Decode, Encode;
    if cps != [] {
      FirstDecoded(cps);
      EncodedIsValid(cps[1..]);
    }
  }

  lemma {:induction false} ValidIsEncoded(s: seq<Byte>) returns (cps: seq<bv32>)
    requires NulFree(s) && ValidString(s)
    ensures CodePoints(cps) && EncodeAll(cps) == s
    decreases |s|
  {
    hide Decode, Encode;
    if s == [] {
      cps := [];
    } else {
      var d := Decode(s).value;
      EncodeDecode(s);
      var rest := ValidIsEncoded(s[d.1..]);
      cps := [d.0] + rest;
      assert cps[1..] == rest && s == s[..d.1] + s[d.1..];
    }
  }

  /** A NUL-free string is accepted exactly if it is the encoding of a sequence of code
      points, which by EncodeAllInjective is the only one. */
  lemma ValidExactly(s: seq<Byte>)
    requires NulFree(s)
    ensures ValidString(s) <==> exists cps :: CodePoints(cps) && EncodeAll(cps) == s
  {
    hide Decode, Encode, ValidString;
    if ValidString(s) {
      var cps := ValidIsEncoded(s);
    }
    forall cps | CodePoints(cps) && EncodeAll(cps) == s ensures ValidString(s) {
      EncodedIsValid(cps);
    }
  }
}
