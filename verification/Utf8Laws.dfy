/**
 The bytes of src/charconvert.c against the table of section 2 of RFC 2279, with no shift
 in the statement, and the samples of its section 4.

   0000 0000 - 0000 007F   0xxxxxxx
   0000 0080 - 0000 07FF   110xxxxx 10xxxxxx
   0000 0800 - 0000 FFFF   1110xxxx 10xxxxxx 10xxxxxx
   0001 0000 - 001F FFFF   11110xxx 10xxxxxx 10xxxxxx 10xxxxxx
   0020 0000 - 03FF FFFF   111110xx and four more
   0400 0000 - 7FFF FFFF   1111110x and five more

 The free bits, first byte first, are the number.
 */
module Utf8Laws {
  import opened Wrappers
  import opened Utf8

  /** 10xxxxxx */
  predicate Trailing(b: Byte) { b & 0xC0 == 0x80 }

  /** A first byte of n bytes: 0xxxxxxx, 110xxxxx, 1110xxxx, 11110xxx, 111110xx, 1111110x. */
  predicate Leading(c: Byte, n: nat) {
    match n
    case 1 => c < 0x80
    case 2 => c & 0xE0 == 0xC0
    case 3 => c & 0xF0 == 0xE0
    case 4 => c & 0xF8 == 0xF0
    case 5 => c & 0xFC == 0xF8
    case 6 => c & 0xFE == 0xFC
    case _ => false
  }

  /** The free bits of the first of n bytes. */
  function Free(c: Byte, n: nat): bv32 {
    match n
    case 1 => c as bv32
    case 2 => (c & 0x1F) as bv32
    case 3 => (c & 0x0F) as bv32
    case 4 => (c & 0x07) as bv32
    case 5 => (c & 0x03) as bv32
    case _ => (c & 0x01) as bv32
  }

  /** Each further byte appends its six free bits. */
  function Append(x: bv32, b: Byte): bv32 { x * 0x40 + (b & 0x3F) as bv32 }

  function Value(e: seq<Byte>, n: nat): bv32
    requires e != []
  {
    if |e| == 1 then Free(e[0], n) else Append(Value(e[..|e| - 1], n), e[|e| - 1])
  }

  /** The numbers that take n bytes, and no fewer. */
  predicate Takes(num: bv32, n: nat) {
    match n
    case 1 => num <= 0x7F
    case 2 => 0x80 <= num <= 0x7FF
    case 3 => 0x800 <= num <= 0xFFFF
    case 4 => 0x1_0000 <= num <= 0x1F_FFFF
    case 5 => 0x20_0000 <= num <= 0x3FF_FFFF
    case 6 => 0x400_0000 <= num <= 0x7FFF_FFFF
    case _ => false
  }

  /** The bytes of a number by the standard's table. */
  predicate LaidOut(num: bv32, e: seq<Byte>) {
    && e != [] && Takes(num, |e|) && Leading(e[0], |e|) && Value(e, |e|) == num
    && forall i :: 0 < i < |e| ==> Trailing(e[i])
  }

  function Rest(num: bv32): bv32 { num >> 6 }

  lemma AppendTail(num: bv32)
    ensures Append(Rest(num), Tail(num)) == num && Trailing(Tail(num))
  {
  }

  lemma Lead1Free(num: bv32)
    requires num <= 0x7F
    ensures Low(num) as bv32 == num && Low(num) < 0x80
  {
  }

  lemma LeadFree(num: bv32, c: Byte)
    ensures 0x80 <= num <= 0x7FF ==> (c == Lead2(num) <==> c & 0xE0 == 0xC0 && (c & 0x1F) as bv32 == num >> 6)
    ensures 0x800 <= num <= 0xFFFF ==> (c == Lead3(num) <==> c & 0xF0 == 0xE0 && (c & 0x0F) as bv32 == num >> 12)
    ensures 0x1_0000 <= num <= 0x1F_FFFF ==> (c == Lead4(num) <==> c & 0xF8 == 0xF0 && (c & 0x07) as bv32 == num >> 18)
    ensures 0x20_0000 <= num <= 0x3FF_FFFF ==> (c == Lead5(num) <==> c & 0xFC == 0xF8 && (c & 0x03) as bv32 == num >> 24)
    ensures 0x400_0000 <= num <= 0x7FFF_FFFF ==> (c == Lead6(num) <==> c & 0xFE == 0xFC && (c & 0x01) as bv32 == num >> 30)
  {
  }

  lemma Shifts(num: bv32)
    ensures Rest(num) == num >> 6 && Rest(num >> 6) == num >> 12 && Rest(num >> 12) == num >> 18
    ensures Rest(num >> 18) == num >> 24 && Rest(num >> 24) == num >> 30
  {
  }

  lemma Peel(x: bv32, b: Byte, most: bv32)
    requires Trailing(b) && x <= most <= 0x1FF_FFFF
    ensures Rest(Append(x, b)) == x && Tail(Append(x, b)) == b && Append(x, b) <= most * 0x40 + 0x3F
  {
  }

  lemma FreeMost(c: Byte, n: nat)
    requires 2 <= n <= 6
    ensures Free(c, n) <= match n case 2 => 0x1F case 3 => 0x0F case 4 => 0x07 case 5 => 0x03 case _ => 0x01
  {
  }

  lemma ValueSnoc(e: seq<Byte>, b: Byte, n: nat)
    requires e != []
    ensures Value(e + [b], n) == Append(Value(e, n), b)
  {
    assert (e + [b])[..|e|] == e;
  }

  lemma Value2(c: Byte, b1: Byte)
    ensures Value([c, b1], 2) == Append(Free(c, 2), b1)
  {
    hide Append, Free;
    ValueSnoc([c], b1, 2);
    assert [c] + [b1] == [c, b1];
  }

  lemma Form2(num: bv32)
    requires 0x80 <= num <= 0x7FF
    ensures Encode(num) == [Lead2(num), Tail(num)]
  {
    hide Lead2, Tail, Rest, Encode;
    Shifts(num);
    Branch2(num);
  }

  lemma Branch2(num: bv32)
    requires 0x80 <= num <= 0x7FF
    ensures Encode(num) == Encode2(num)
  {
    hide Encode2;
  }

  lemma Encoded2(num: bv32)
    requires 0x80 <= num <= 0x7FF
    ensures LaidOut(num, Encode(num))
  {
    hide Append, Free, Tail, Lead2, Trailing, Leading, Rest, Encode, Value;
    Form2(num);
    LeadIsFree2(num);
    AppendTail(num);
    Value2(Lead2(num), Tail(num));
  }

  lemma LeadIsFree2(num: bv32)
    requires 0x80 <= num <= 0x7FF
    ensures Free(Lead2(num), 2) == Rest(num) && Leading(Lead2(num), 2)
  {
    hide Lead2;
    LeadFree(num, Lead2(num));
    Shifts(num);
  }

  lemma LaidOut2(num: bv32, e: seq<Byte>)
    requires |e| == 2 && LaidOut(num, e)
    ensures e == Encode(num)
  {
    hide Append, Free, Tail, Lead2, Trailing, Value, Leading, Rest, Encode;
    var c, b1 := e[0], e[1];
    assert e == [c, b1];
    Value2(c, b1);
    FreeMost(c, 2);
    var x0 := Free(c, 2);
    Peel(x0, b1, 0x1F);
    Form2(num);
    LeadGiven2(num, c);
  }

  lemma LeadGiven2(num: bv32, c: Byte)
    requires 0x80 <= num <= 0x7FF && Leading(c, 2) && Free(c, 2) == Rest(num)
    ensures c == Lead2(num)
  {
    hide Lead2;
    LeadFree(num, c);
    Shifts(num);
  }

  lemma Value3(c: Byte, b1: Byte, b2: Byte)
    ensures Value([c, b1, b2], 3) == Append(Append(Free(c, 3), b1), b2)
  {
    hide Append, Free;
    ValueSnoc([c], b1, 3);
    assert [c] + [b1] == [c, b1];
    ValueSnoc([c, b1], b2, 3);
    assert [c, b1] + [b2] == [c, b1, b2];
  }

  lemma Form3(num: bv32)
    requires 0x800 <= num <= 0xFFFF
    ensures Encode(num) == [Lead3(num), Tail(Rest(num)), Tail(num)]
  {
    hide Lead3, Tail, Rest, Encode;
    Shifts(num);
    Branch3(num);
  }

  lemma Branch3(num: bv32)
    requires 0x800 <= num <= 0xFFFF
    ensures Encode(num) == Encode3(num)
  {
    hide Encode3;
  }

  lemma Encoded3(num: bv32)
    requires 0x800 <= num <= 0xFFFF
    ensures LaidOut(num, Encode(num))
  {
    hide Append, Free, Tail, Lead3, Trailing, Leading, Rest, Encode, Value;
    Form3(num);
    LeadIsFree3(num);
    AppendTail(Rest(num));
    AppendTail(num);
    Value3(Lead3(num), Tail(Rest(num)), Tail(num));
  }

  lemma LeadIsFree3(num: bv32)
    requires 0x800 <= num <= 0xFFFF
    ensures Free(Lead3(num), 3) == Rest(Rest(num)) && Leading(Lead3(num), 3)
  {
    hide Lead3;
    LeadFree(num, Lead3(num));
    Shifts(num);
  }

  lemma LaidOut3(num: bv32, e: seq<Byte>)
    requires |e| == 3 && LaidOut(num, e)
    ensures e == Encode(num)
  {
    hide Append, Free, Tail, Lead3, Trailing, Value, Leading, Rest, Encode;
    var c, b1, b2 := e[0], e[1], e[2];
    assert e == [c, b1, b2];
    Value3(c, b1, b2);
    FreeMost(c, 3);
    var x0 := Free(c, 3);
    Peel(x0, b1, 0xF);
    var x1 := Append(x0, b1);
    Peel(x1, b2, 0x3FF);
    Form3(num);
    LeadGiven3(num, c);
  }

  lemma LeadGiven3(num: bv32, c: Byte)
    requires 0x800 <= num <= 0xFFFF && Leading(c, 3) && Free(c, 3) == Rest(Rest(num))
    ensures c == Lead3(num)
  {
    hide Lead3;
    LeadFree(num, c);
    Shifts(num);
  }

  lemma Value4(c: Byte, b1: Byte, b2: Byte, b3: Byte)
    ensures Value([c, b1, b2, b3], 4) == Append(Append(Append(Free(c, 4), b1), b2), b3)
  {
    hide Append, Free;
    ValueSnoc([c], b1, 4);
    assert [c] + [b1] == [c, b1];
    ValueSnoc([c, b1], b2, 4);
    assert [c, b1] + [b2] == [c, b1, b2];
    ValueSnoc([c, b1, b2], b3, 4);
    assert [c, b1, b2] + [b3] == [c, b1, b2, b3];
  }

  lemma Form4(num: bv32)
    requires 0x1_0000 <= num <= 0x1F_FFFF
    ensures Encode(num) == [Lead4(num), Tail(Rest(Rest(num))), Tail(Rest(num)), Tail(num)]
  {
    hide Lead4, Tail, Rest, Encode;
    Shifts(num);
    Branch4(num);
  }

  lemma Branch4(num: bv32)
    requires 0x1_0000 <= num <= 0x1F_FFFF
    ensures Encode(num) == Encode4(num)
  {
    hide Encode4;
  }

  lemma Encoded4(num: bv32)
    requires 0x1_0000 <= num <= 0x1F_FFFF
    ensures LaidOut(num, Encode(num))
  {
    hide Append, Free, Tail, Lead4, Trailing, Leading, Rest, Encode, Value;
    Form4(num);
    LeadIsFree4(num);
    AppendTail(Rest(Rest(num)));
    AppendTail(Rest(num));
    AppendTail(num);
    Value4(Lead4(num), Tail(Rest(Rest(num))), Tail(Rest(num)), Tail(num));
  }

  lemma LeadIsFree4(num: bv32)
    requires 0x1_0000 <= num <= 0x1F_FFFF
    ensures Free(Lead4(num), 4) == Rest(Rest(Rest(num))) && Leading(Lead4(num), 4)
  {
    hide Lead4;
    LeadFree(num, Lead4(num));
    Shifts(num);
  }

  lemma LaidOut4(num: bv32, e: seq<Byte>)
    requires |e| == 4 && LaidOut(num, e)
    ensures e == Encode(num)
  {
    hide Append, Free, Tail, Lead4, Trailing, Value, Leading, Rest, Encode;
    var c, b1, b2, b3 := e[0], e[1], e[2], e[3];
    assert e == [c, b1, b2, b3];
    Value4(c, b1, b2, b3);
    FreeMost(c, 4);
    var x0 := Free(c, 4);
    Peel(x0, b1, 0x7);
    var x1 := Append(x0, b1);
    Peel(x1, b2, 0x1FF);
    var x2 := Append(x1, b2);
    Peel(x2, b3, 0x7FFF);
    Form4(num);
    LeadGiven4(num, c);
  }

  lemma LeadGiven4(num: bv32, c: Byte)
    requires 0x1_0000 <= num <= 0x1F_FFFF && Leading(c, 4) && Free(c, 4) == Rest(Rest(Rest(num)))
    ensures c == Lead4(num)
  {
    hide Lead4;
    LeadFree(num, c);
    Shifts(num);
  }

  lemma Value5(c: Byte, b1: Byte, b2: Byte, b3: Byte, b4: Byte)
    ensures Value([c, b1, b2, b3, b4], 5) == Append(Append(Append(Append(Free(c, 5), b1), b2), b3), b4)
  {
    hide Append, Free;
    ValueSnoc([c], b1, 5);
    assert [c] + [b1] == [c, b1];
    ValueSnoc([c, b1], b2, 5);
    assert [c, b1] + [b2] == [c, b1, b2];
    ValueSnoc([c, b1, b2], b3, 5);
    assert [c, b1, b2] + [b3] == [c, b1, b2, b3];
    ValueSnoc([c, b1, b2, b3], b4, 5);
    assert [c, b1, b2, b3] + [b4] == [c, b1, b2, b3, b4];
  }

  lemma Form5(num: bv32)
    requires 0x20_0000 <= num <= 0x3FF_FFFF
    ensures Encode(num) == [Lead5(num), Tail(Rest(Rest(Rest(num)))), Tail(Rest(Rest(num))), Tail(Rest(num)), Tail(num)]
  {
    hide Lead5, Tail, Rest, Encode;
    Shifts(num);
    Branch5(num);
  }

  lemma Branch5(num: bv32)
    requires 0x20_0000 <= num <= 0x3FF_FFFF
    ensures Encode(num) == Encode5(num)
  {
    hide Encode5;
  }

  lemma Encoded5(num: bv32)
    requires 0x20_0000 <= num <= 0x3FF_FFFF
    ensures LaidOut(num, Encode(num))
  {
    hide Append, Free, Tail, Lead5, Trailing, Leading, Rest, Encode, Value;
    Form5(num);
    LeadIsFree5(num);
    AppendTail(Rest(Rest(Rest(num))));
    AppendTail(Rest(Rest(num)));
    AppendTail(Rest(num));
    AppendTail(num);
    Value5(Lead5(num), Tail(Rest(Rest(Rest(num)))), Tail(Rest(Rest(num))), Tail(Rest(num)), Tail(num));
  }

  lemma LeadIsFree5(num: bv32)
    requires 0x20_0000 <= num <= 0x3FF_FFFF
    ensures Free(Lead5(num), 5) == Rest(Rest(Rest(Rest(num)))) && Leading(Lead5(num), 5)
  {
    hide Lead5;
    LeadFree(num, Lead5(num));
    Shifts(num);
  }

  lemma LaidOut5(num: bv32, e: seq<Byte>)
    requires |e| == 5 && LaidOut(num, e)
    ensures e == Encode(num)
  {
    hide Append, Free, Tail, Lead5, Trailing, Value, Leading, Rest, Encode;
    var c, b1, b2, b3, b4 := e[0], e[1], e[2], e[3], e[4];
    assert e == [c, b1, b2, b3, b4];
    Value5(c, b1, b2, b3, b4);
    FreeMost(c, 5);
    var x0 := Free(c, 5);
    Peel(x0, b1, 0x3);
    var x1 := Append(x0, b1);
    Peel(x1, b2, 0xFF);
    var x2 := Append(x1, b2);
    Peel(x2, b3, 0x3FFF);
    var x3 := Append(x2, b3);
    Peel(x3, b4, 0xFFFFF);
    Form5(num);
    LeadGiven5(num, c);
  }

  lemma LeadGiven5(num: bv32, c: Byte)
    requires 0x20_0000 <= num <= 0x3FF_FFFF && Leading(c, 5) && Free(c, 5) == Rest(Rest(Rest(Rest(num))))
    ensures c == Lead5(num)
  {
    hide Lead5;
    LeadFree(num, c);
    Shifts(num);
  }

  lemma Value6(c: Byte, b1: Byte, b2: Byte, b3: Byte, b4: Byte, b5: Byte)
    ensures Value([c, b1, b2, b3, b4, b5], 6) == Append(Append(Append(Append(Append(Free(c, 6), b1), b2), b3), b4), b5)
  {
    hide Append, Free;
    ValueSnoc([c], b1, 6);
    assert [c] + [b1] == [c, b1];
    ValueSnoc([c, b1], b2, 6);
    assert [c, b1] + [b2] == [c, b1, b2];
    ValueSnoc([c, b1, b2], b3, 6);
    assert [c, b1, b2] + [b3] == [c, b1, b2, b3];
    ValueSnoc([c, b1, b2, b3], b4, 6);
    assert [c, b1, b2, b3] + [b4] == [c, b1, b2, b3, b4];
    ValueSnoc([c, b1, b2, b3, b4], b5, 6);
    assert [c, b1, b2, b3, b4] + [b5] == [c, b1, b2, b3, b4, b5];
  }

  lemma Form6(num: bv32)
    requires 0x400_0000 <= num <= 0x7FFF_FFFF
    ensures Encode(num) == [Lead6(num), Tail(Rest(Rest(Rest(Rest(num))))), Tail(Rest(Rest(Rest(num)))), Tail(Rest(Rest(num))), Tail(Rest(num)), Tail(num)]
  {
    hide Lead6, Tail, Rest, Encode;
    Shifts(num);
    Branch6(num);
  }

  lemma Branch6(num: bv32)
    requires 0x400_0000 <= num <= 0x7FFF_FFFF
    ensures Encode(num) == Encode6(num)
  {
    hide Encode6;
  }

  lemma Encoded6(num: bv32)
    requires 0x400_0000 <= num <= 0x7FFF_FFFF
    ensures LaidOut(num, Encode(num))
  {
    hide Append, Free, Tail, Lead6, Trailing, Leading, Rest, Encode, Value;
    Form6(num);
    LeadIsFree6(num);
    AppendTail(Rest(Rest(Rest(Rest(num)))));
    AppendTail(Rest(Rest(Rest(num))));
    AppendTail(Rest(Rest(num)));
    AppendTail(Rest(num));
    AppendTail(num);
    Value6(Lead6(num), Tail(Rest(Rest(Rest(Rest(num))))), Tail(Rest(Rest(Rest(num)))), Tail(Rest(Rest(num))), Tail(Rest(num)), Tail(num));
  }

  lemma LeadIsFree6(num: bv32)
    requires 0x400_0000 <= num <= 0x7FFF_FFFF
    ensures Free(Lead6(num), 6) == Rest(Rest(Rest(Rest(Rest(num))))) && Leading(Lead6(num), 6)
  {
    hide Lead6;
    LeadFree(num, Lead6(num));
    Shifts(num);
  }

  lemma LaidOut6(num: bv32, e: seq<Byte>)
    requires |e| == 6 && LaidOut(num, e)
    ensures e == Encode(num)
  {
    hide Append, Free, Tail, Lead6, Trailing, Value, Leading, Rest, Encode;
    var c, b1, b2, b3, b4, b5 := e[0], e[1], e[2], e[3], e[4], e[5];
    assert e == [c, b1, b2, b3, b4, b5];
    Value6(c, b1, b2, b3, b4, b5);
    FreeMost(c, 6);
    var x0 := Free(c, 6);
    Peel(x0, b1, 0x1);
    var x1 := Append(x0, b1);
    Peel(x1, b2, 0x7F);
    var x2 := Append(x1, b2);
    Peel(x2, b3, 0x1FFF);
    var x3 := Append(x2, b3);
    Peel(x3, b4, 0x7FFFF);
    var x4 := Append(x3, b4);
    Peel(x4, b5, 0x1FFFFFF);
    Form6(num);
    LeadGiven6(num, c);
  }

  lemma LeadGiven6(num: bv32, c: Byte)
    requires 0x400_0000 <= num <= 0x7FFF_FFFF && Leading(c, 6) && Free(c, 6) == Rest(Rest(Rest(Rest(Rest(num)))))
    ensures c == Lead6(num)
  {
    hide Lead6;
    LeadFree(num, c);
    Shifts(num);
  }

  lemma Encoded1(num: bv32)
    requires num <= 0x7F
    ensures LaidOut(num, Encode(num))
  {
    hide Low;
    Lead1Free(num);
  }

  lemma LaidOut1(num: bv32, e: seq<Byte>)
    requires |e| == 1 && LaidOut(num, e)
    ensures e == Encode(num)
  {
    hide Low;
    Lead1Free(num);
    assert e[0] as bv32 == Low(num) as bv32;
  }

  /** The encoder writes exactly what the standard's table says. */
  lemma EncodeByTable(num: bv32, e: seq<Byte>)
    requires num <= 0x7FFF_FFFF
    ensures e == Encode(num) <==> LaidOut(num, e)
  {
    hide Encode, LaidOut;
    EncodeLaidOut(num);
    if LaidOut(num, e) {
      LaidOutEncode(num, e);
    }
  }

  lemma EncodeLaidOut(num: bv32)
    requires num <= 0x7FFF_FFFF
    ensures LaidOut(num, Encode(num))
  {
    hide Encode, LaidOut;
    if num <= 0x7F {
      Encoded1(num);
    } else if num <= 0x7FF {
      Encoded2(num);
    } else if num <= 0xFFFF {
      Encoded3(num);
    } else if num <= 0x1F_FFFF {
      Encoded4(num);
    } else if num <= 0x3FF_FFFF {
      Encoded5(num);
    } else {
      Encoded6(num);
    }
  }

  lemma LaidOutEncode(num: bv32, e: seq<Byte>)
    requires LaidOut(num, e)
    ensures e == Encode(num)
  {
    hide Encode, LaidOut;
    LaidOutLength(num, e);
    if |e| == 1 {
      LaidOut1(num, e);
    } else if |e| == 2 {
      LaidOut2(num, e);
    } else if |e| == 3 {
      LaidOut3(num, e);
    } else if |e| == 4 {
      LaidOut4(num, e);
    } else if |e| == 5 {
      LaidOut5(num, e);
    } else {
      LaidOut6(num, e);
    }
  }

  lemma LaidOutLength(num: bv32, e: seq<Byte>)
    requires LaidOut(num, e)
    ensures 1 <= |e| <= 6 && num <= 0x7FFF_FFFF
  {
    hide Value, Leading, Trailing;
  }

  /** The decoder accepts exactly the strings that start with bytes the table allows. */
  lemma DecodeByTable(s: seq<Byte>, num: bv32, n: nat)
    requires s != []
    ensures Decode(s) == Some((num, n)) <==> n <= |s| && LaidOut(num, s[..n])
  {
    hide Encode, LaidOut, Decode;
    if Decode(s) == Some((num, n)) {
      EncodeDecode(s);
      EncodeByTable(num, s[..n]);
    }
    if n <= |s| && LaidOut(num, s[..n]) {
      LaidOutLength(num, s[..n]);
      LaidOutEncode(num, s[..n]);
      DecodeEncode(num, s);
    }
  }

  /** Section 4 of RFC 2279: "A", "not identical to", a Greek capital alpha and a full stop. */
  lemma SampleAlpha()
    ensures EncodeAll([0x0041, 0x2262, 0x0391, 0x002E]) == [0x41, 0xE2, 0x89, 0xA2, 0xCE, 0x91, 0x2E]
  {
  }

  /** The word for the Korean language. */
  lemma SampleKorean()
    ensures EncodeAll([0xD55C, 0xAD6D, 0xC5B4]) == [0xED, 0x95, 0x9C, 0xEA, 0xB5, 0xAD, 0xEC, 0x96, 0xB4]
  {
  }

  /** The word for the Japanese language. */
  lemma SampleJapanese()
    ensures EncodeAll([0x65E5, 0x672C, 0x8A9E]) == [0xE6, 0x97, 0xA5, 0xE6, 0x9C, 0xAC, 0xE8, 0xAA, 0x9E]
  {
  }
}
