/** What the operations of the config VM compute, in terms of numbers and printed numbers. */
module CfgLaws {
  // The machine and the meaning of programs share one function for operations; these are the
  // laws it has, stated without it.

  import opened CfgText
  import opened CfgMachine

  // ----- numbers -----

  /** Sums, differences and products are right modulo 2^32. */
  lemma ArithmeticWraps(b: Build, op: BinOp, n: int, m: int, cfg: Config)
    requires op == Add || op == Sub || op == Mul
    ensures var exact := if op == Add then n + m else if op == Sub then n - m else n * m;
            var v := Apply(b, op, Num(n), Num(m), cfg);
            v.Ok? && v.value.Num? && -2147483648 <= v.value.i32 <= 2147483647 &&
            (v.value.i32 - exact) % 4294967296 == 0
  {
    WrapCongruent(if op == Add then n + m else if op == Sub then n - m else n * m);
    hide Wrap32;
  }

  lemma WrapCongruent(x: int)
    ensures -2147483648 <= Wrap32(x) <= 2147483647 && (Wrap32(x) - x) % 4294967296 == 0
  {
  }

  /** Division cuts off: the remainder is smaller than the divisor and has the sign of the
      dividend. */
  lemma DivisionTruncates(b: Build, n: int, m: int, cfg: Config) returns (q: int, r: int)
    requires IsInt32(n) && IsInt32(m) && m != 0 && !(n == -2147483648 && m == -1)
    ensures Apply(b, Div, Num(n), Num(m), cfg) == Ok(Num(q)) && IsInt32(q)
    ensures n == q * m + r && -Abs(m) < r < Abs(m) && (r == 0 || (r < 0 <==> n < 0))
  {
    q, r := TruncDiv(n, m), n - TruncDiv(n, m) * m;
    TruncDivCutsOff(n, m);
    QuotientInRange(n, m);
  }

  function Abs(x: int): int { if x < 0 then -x else x }

  lemma QuotientInRange(n: int, m: int)
    requires IsInt32(n) && m != 0 && !(n == -2147483648 && m == -1)
    ensures IsInt32(TruncDiv(n, m))
  {
    if Abs(m) >= 2 {
      HalfAtMost(Abs(n), Abs(m));
    }
  }

  lemma HalfAtMost(a: nat, c: nat)
    requires c >= 2
    ensures 0 <= 2 * (a / c) <= a
  {
    var k := EuclidParts(a, c);
    TwiceAtMost(k, c);
  }

  lemma TwiceAtMost(k: int, c: int)
    requires c >= 2
    ensures k >= 0 ==> k * c >= 2 * k
    ensures k < 0 ==> k * c <= -c
  {
    Distributes(k, c);
    if k >= 0 {
      ProductSign(k, c - 2);
    } else {
      ProductSign(-(k + 1), c);
    }
  }

  lemma Distributes(k: int, c: int)
    ensures k * c == 2 * k + k * (c - 2) && -(k + 1) * c == -(k * c) - c
  {
  }

  lemma ProductSign(x: int, y: int)
    requires x >= 0 && y >= 0
    ensures x * y >= 0
  {
  }

  /** And it stops exactly where that number is not there. */
  lemma DivisionStops(b: Build, n: int, m: int, cfg: Config)
    requires IsInt32(n) && IsInt32(m)
    ensures Apply(b, Div, Num(n), Num(m), cfg) == Stop(Trap) <==> m == 0 || (n == -2147483648 && m == -1)
  {
  }

  // ----- printed numbers -----

  /** Behind a number a printed one is the number itself, for + == !=. */
  lemma PrintedRight(b: Build, op: BinOp, n: int, m: int, cfg: Config)
    requires IsInt32(m) && (op == Add || op == Eq || op == Ne)
    ensures Apply(b, op, Num(n), Str(Dec(m)), cfg) == Apply(b, op, Num(n), Num(m), cfg)
  {
    DecRoundTrip(m);
    hide Dec, StrToLL, Wrap32;
  }

  /** The number itself, or a string with it. */
  predicate Writes(x: Val, n: int) { x == Num(n) || x == Str(Dec(n)) }

  lemma SameNumber(x: Val, n: int, y: Val, m: int)
    requires IsInt32(n) && IsInt32(m) && Writes(x, n) && Writes(y, m)
    ensures SameValue(x, y) <==> n == m
  {
    DecRoundTrip(n);
    DecRoundTrip(m);
    hide Dec, StrToLL, Wrap32;
  }

  /** However two numbers are written, == and != compare them. */
  lemma PrintedEqual(b: Build, x: Val, n: int, y: Val, m: int, cfg: Config)
    requires IsInt32(n) && IsInt32(m) && Writes(x, n) && Writes(y, m)
    ensures Apply(b, Eq, x, y, cfg) == Ok(Num(if n == m then 1 else 0))
    ensures Apply(b, Ne, x, y, cfg) == Ok(Num(if n == m then 0 else 1))
  {
    hide SameValue, Dec;
    SameNumber(x, n, y, m);
  }

  /** Behind a string everything is a string: + appends it, or the number as it is printed. */
  lemma StringsAppend(b: Build, s: string, t: string, m: int, cfg: Config)
    ensures Apply(b, Add, Str(s), Num(m), cfg) == Apply(b, Add, Str(s), Str(Dec(m)), cfg)
    ensures var v := Apply(b, Add, Str(s), Str(t), cfg);
            v.Ok? && v.value.Str? && |v.value.sval| == |s| + |t| && v.value.sval[..|s|] == s && v.value.sval[|s|..] == t
  {
  }

  /** Two strings are the same only if they are spelled alike. */
  lemma StringsCompare(b: Build, s: string, t: string, cfg: Config)
    ensures Apply(b, Eq, Str(s), Str(t), cfg) == Ok(Num(1)) <==> s == t
    ensures Apply(b, Ne, Str(s), Str(t), cfg) == Ok(Num(1)) <==> s != t
  {
  }

  /** The left operand decides how a number and a string compare: 1 == "01" but "01" != 1. */
  lemma LeftDecides(b: Build, cfg: Config)
    ensures Apply(b, Eq, Num(1), Str("01"), cfg) == Ok(Num(1)) && Apply(b, Eq, Str("01"), Num(1), cfg) == Ok(Num(0))
  {
    hide StrToLL, Dec, DigitsValue;
    LeadingNumber("", "", "01", "");
    assert "01" + "" == "01" && "" + "01" == "01" && "" + ("" + ("01" + "")) == "01";
    TwoDigits("01");
    OneDigit();
  }

  lemma OneDigit()
    ensures Dec(1) == "1"
  {
  }

  lemma TwoDigits(s: string)
    requires |s| == 2 && IsDigit(s[0]) && IsDigit(s[1])
    ensures DigitsValue(s) == 10 * DigitOf(s[0]) + DigitOf(s[1])
  {
    assert s[..1][..0] == [] && s[..1][0] == s[0];
    assert DigitsValue(s[..1]) == DigitOf(s[0]);
  }

  /** What is neither a number nor a string: no arithmetic, equal to nothing, false. */
  lemma NoValue(b: Build, op: BinOp, v: Val, cfg: Config)
    requires !v.Cfg?
    ensures (op == Add || op == Sub || op == Mul || op == Div) ==>
              Apply(b, op, Untyped, v, cfg) == Stop(Error) && Apply(b, op, v, Untyped, cfg) == Stop(Error)
    ensures Apply(b, Eq, Untyped, v, cfg) == Ok(Num(0)) && Apply(b, Eq, v, Untyped, cfg) == Ok(Num(0))
    ensures Apply(b, And, Untyped, v, cfg) == Ok(Num(0)) && Apply(b, And, v, Untyped, cfg) == Ok(Num(0))
    ensures Apply(b, Or, Untyped, v, cfg) == Apply(b, And, v, v, cfg)
  {
  }

  /** Strings do not subtract, multiply or divide. */
  lemma NoStringArithmetic(b: Build, op: BinOp, s: string, v: Val, cfg: Config)
    requires !v.Cfg? && (op == Sub || op == Mul || op == Div)
    ensures Apply(b, op, Str(s), v, cfg) == Stop(Error) && Apply(b, op, v, Str(s), cfg) == Stop(Error)
  {
  }

  /** Truth: a number other than 0, a string other than "". */
  lemma TruthLaws(b: Build, n: int, s: string, cfg: Config)
    ensures Apply(b, And, Num(n), Str(s), cfg) == Ok(Num(if n != 0 && |s| > 0 then 1 else 0))
    ensures Apply(b, Or, Num(n), Str(s), cfg) == Ok(Num(if n == 0 && |s| == 0 then 0 else 1))
  {
  }

  // ----- what SET stores -----

  /** A config value that is copied gives its value and its truth on, with its name unless
      that is repaired. */
  lemma CopiesWhole(b: Build, c: Cell, k: nat, cfg: Config)
    ensures var to := Copied(b, c, Cfg(k), cfg);
            CellValue(to) == CellValue(CellAt(cfg, k)) && (CellTruth(to) <==> CellTruth(CellAt(cfg, k))) &&
            to.name == if b.ownNames then c.name else CellAt(cfg, k).name
  {
  }

  /** A number or string is stored as such once SET stores types; before, the type stays. */
  lemma StoresValue(b: Build, c: Cell, v: Val, cfg: Config)
    requires v.Num? || v.Str?
    ensures var to := Copied(b, c, v, cfg);
            to.name == c.name && (!b.setTags ==> to.tag == c.tag) &&
            (b.setTags || c.tag == (if v.Num? then NumTag else StrTag) ==>
               CellValue(to) == v && (CellTruth(to) <==> Truth(v)))
  {
  }

  // ----- commands with three arguments -----

  /** EQ and NE with a register in front compare it with itself, whatever stands second. */
  lemma SelfCompared(b: Build, r: Byte, y: Arg, d: Byte, st: Store)
    requires st.Valid() && (st.regs[r].Num? || st.regs[r].Str?)
    ensures Exec(b, Cmd(0x7, [AReg(r), y, AReg(d)]), st) == Next(st.(regs := st.regs[d := Num(1)]))
    ensures Exec(b, Cmd(0x8, [AReg(r), y, AReg(d)]), st) == Next(st.(regs := st.regs[d := Num(0)]))
  {
  }

  /** Sums of immediates go to the third argument and leave the other registers alone. */
  lemma ImmediateSum(b: Build, n: int, m: int, d: Byte, st: Store)
    requires st.Valid() && IsInt32(n + m)
    ensures Exec(b, Cmd(0xD, [ANum(n), ANum(m), AReg(d)]), st) == Next(st.(regs := st.regs[d := Num(n + m)]))
  {
  }

  // ----- reading a number -----

  /** White space in the C locale. */
  predicate Blank(c: char) { c == ' ' || c == '\t' || c == '\n' || c == '\r' || c == 11 as char || c == 12 as char }

  predicate Spaces(w: string) { forall k :: 0 <= k < |w| ==> Blank(w[k]) }

  predicate Digits(d: string) { forall k :: 0 <= k < |d| ==> '0' <= d[k] <= '9' }

  lemma {:induction false} SkipsSpaces(w: string, rest: string)
    requires Spaces(w) && (rest == [] || !Blank(rest[0]))
    ensures SkipSpaces(w + rest) == rest
  {
    if w == [] {
      assert w + rest == rest;
    } else {
      SkipsSpaces(w[1..], rest);
      assert (w + rest)[1..] == w[1..] + rest;
    }
  }

  lemma {:induction false} StopsBehindDigits(d: string, rest: string)
    requires Digits(d) && (rest == [] || !('0' <= rest[0] <= '9'))
    ensures DigitPrefix(d + rest) == |d|
  {
    if d == [] {
      assert d + rest == rest;
    } else {
      StopsBehindDigits(d[1..], rest);
      assert (d + rest)[1..] == d[1..] + rest;
    }
  }

  function Pow10(n: nat): nat { if n == 0 then 1 else 10 * Pow10(n - 1) }

  /** The first digit counts most. */
  lemma {:induction false} DecimalPlaces(c: char, d: string)
    requires '0' <= c <= '9' && Digits(d)
    ensures DigitsValue([c] + d) == (c as int - 48) * Pow10(|d|) + DigitsValue(d)
  {
    if d == [] {
      assert [c] + d == [c] && [c][..0] == [];
    } else {
      var n := |d| - 1;
      DecimalPlaces(c, d[..n]);
      assert ([c] + d)[..|d|] == [c] + d[..n];
      PlaceValue((c as int - 48), Pow10(n));
    }
  }

  lemma PlaceValue(x: int, p: int)
    ensures x * (10 * p) == 10 * (x * p)
  {
  }

  /** Taking the sign off. */
  lemma SignOff(sign: string, u: string)
    requires sign == "" || sign == "+" || sign == "-"
    requires sign == "" ==> u == [] || (u[0] != '+' && u[0] != '-')
    ensures var t := sign + u;
            (t != [] && t[0] == '-' <==> sign == "-") &&
            u == if t != [] && (t[0] == '-' || t[0] == '+') then t[1..] else t
  {
    var t := sign + u;
    if sign == "" {
      assert t == u;
    } else {
      assert t[0] == sign[0] && t[1..] == u;
    }
  }

  /** White space, a sign, decimal digits, then anything: the number of the digits, within
      64 bits. */
  lemma LeadingNumber(w: string, sign: string, d: string, rest: string)
    requires Spaces(w) && Digits(d) && (rest == [] || !('0' <= rest[0] <= '9'))
    requires sign == "" || sign == "+" || sign == "-"
    requires d == [] && sign == "" ==> rest == [] || (!Blank(rest[0]) && rest[0] != '+' && rest[0] != '-')
    ensures var n := if sign == "-" then 0 - DigitsValue(d) else DigitsValue(d);
            StrToLL(w + (sign + (d + rest))) ==
            if n > 9223372036854775807 then 9223372036854775807 else if n < -9223372036854775808 then -9223372036854775808 else n
  {
    hide DigitsValue, SkipSpaces, DigitPrefix, Spaces;
    var u := d + rest;
    assert u != [] ==> u[0] == if d != [] then d[0] else rest[0];
    FirstNotBlank(sign, u);
    SkipsSpaces(w, sign + u);
    SignOff(sign, u);
    StopsBehindDigits(d, rest);
    assert u[..|d|] == d;
  }

  lemma FirstNotBlank(sign: string, u: string)
    requires sign == "" || sign == "+" || sign == "-"
    requires sign == "" ==> u == [] || !Blank(u[0])
    ensures sign + u == [] || !Blank((sign + u)[0])
  {
    assert sign == "" ==> sign + u == u;
  }

  /** A printed number has no leading zero. */
  lemma {:induction false} NoLeadingZero(n: nat)
    ensures DecNat(n)[0] == '0' <==> n == 0
  {
    if n >= 10 {
      NoLeadingZero(n / 10);
    }
  }
}
