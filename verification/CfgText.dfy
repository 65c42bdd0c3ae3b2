/**
 Numbers and strings as the config compiler prints and reads them.

 The `snprintf` and `strtoll` conversions and the string escapes of
 src/cfgcomp_codegenerator.c and src/cfgcomp_assembler.c.  A C string is a `string`
 without its terminating NUL.
 */
module CfgText {
  import opened Wrappers

  const NUL: char := 0 as char

  /** The bytes of a C string. */
  predicate CString(s: string) { forall k :: 0 <= k < |s| ==> s[k] != NUL && s[k] as int < 256 }

  type CStr = s: string | CString(s)

  predicate NulFree(s: string) { forall k :: 0 <= k < |s| ==> s[k] != NUL }

  // ----- decimals -----

  predicate IsDigit(c: char) { '0' <= c <= '9' }

  function DigitChar(d: int): (c: char)
    requires 0 <= d < 10
    ensures IsDigit(c) && DigitOf(c) == d
  {
    (('0' as int) + d) as char
  }

  function DigitOf(c: char): nat
    requires IsDigit(c)
  {
    c as int - '0' as int
  }

  /** `cf_uint16_to_str`, `cf_uint32_to_str`. */
  function DecNat(n: nat): (s: string)
    ensures s != [] && forall k :: 0 <= k < |s| ==> IsDigit(s[k])
  {
    if n < 10 then [DigitChar(n)] else DecNat(n / 10) + [DigitChar(n % 10)]
  }

  /** `snprintf` with "%" PRId32. */
  function Dec(n: int): (s: string)
    ensures s != [] && forall k :: 0 <= k < |s| ==> IsDigit(s[k]) || (k == 0 && s[k] == '-')
  {
    if n < 0 then "-" + DecNat(-n) else DecNat(n)
  }

  predicate IsSpace(c: char) { c == ' ' || 9 <= c as int <= 13 }

  function SkipSpaces(s: string): (r: string)
    ensures |r| <= |s|
    ensures r != [] ==> !IsSpace(r[0])
  {
    if s != [] && IsSpace(s[0]) then SkipSpaces(s[1..]) else s
  }

  function DigitPrefix(s: string): (k: nat)
    ensures k <= |s| && forall j :: 0 <= j < k ==> IsDigit(s[j])
    ensures k < |s| ==> !IsDigit(s[k])
  {
    if s != [] && IsDigit(s[0]) then 1 + DigitPrefix(s[1..]) else 0
  }

  function DigitsValue(s: string): (n: nat)
    requires forall k :: 0 <= k < |s| ==> IsDigit(s[k])
  {
    if s == [] then 0 else DigitsValue(s[..|s| - 1]) * 10 + DigitOf(s[|s| - 1])
  }

  const INT64_MAX := 0x7FFF_FFFF_FFFF_FFFF

  function Saturate64(n: int): int {
    if n > INT64_MAX then INT64_MAX else if n < -INT64_MAX - 1 then -INT64_MAX - 1 else n
  }

  /** `strtoll(s, NULL, 10)`. */
  function StrToLL(s: string): int {
    var t := SkipSpaces(s);
    var negative := t != [] && t[0] == '-';
    var u := if t != [] && (t[0] == '-' || t[0] == '+') then t[1..] else t;
    var n: int := DigitsValue(u[..DigitPrefix(u)]);
    Saturate64(if negative then 0 - n else n)
  }

  predicate IsInt32(n: int) { -0x8000_0000 <= n < 0x8000_0000 }

  /** Conversion to `int32_t`, and what a wrapping 32-bit operation leaves. */
  function Wrap32(n: int): (r: int)
    ensures IsInt32(r)
    ensures IsInt32(n) ==> r == n
  {
    var m := n % 0x1_0000_0000;
    if m < 0x8000_0000 then m else m - 0x1_0000_0000
  }

  lemma {:induction false} DecNatValue(n: nat)
    ensures DigitsValue(DecNat(n)) == n
  {
    if n >= 10 {
      DecNatValue(n / 10);
      assert DecNat(n)[..|DecNat(n)| - 1] == DecNat(n / 10);
    } else {
      assert DigitsValue(DecNat(n)[..0]) == 0;
    }
  }

  lemma {:induction false} DigitPrefixAll(s: string)
    requires forall k :: 0 <= k < |s| ==> IsDigit(s[k])
    ensures DigitPrefix(s) == |s|
  {
    if s != [] {
      DigitPrefixAll(s[1..]);
    }
  }

  /** Reading a printed number gives the number back. */
  lemma DecRoundTrip(n: int)
    requires IsInt32(n)
    ensures Wrap32(StrToLL(Dec(n))) == n
  {
    var m := if n < 0 then -n else n;
    DecNatValue(m);
    DigitPrefixAll(DecNat(m));
    var u := DecNat(m);
    assert u[..|u|] == u;
    assert n < 0 ==> Dec(n)[1..] == u;
    assert !IsSpace(Dec(n)[0]);
  }

  // ----- string literals -----

  function EscapeChar(c: char): string {
    if c == '"' then "\\\"" else if c == '\\' then "\\\\"
    else if c == '\n' then "\\n" else if c == '\r' then "\\r" else [c]
  }

  /** What `cf_cfg_codegen_append_str` appends for s. */
  function Escape(s: string): string {
    if s == [] then [] else EscapeChar(s[0]) + Escape(s[1..])
  }

  lemma EscapeStep(r: string, s: string, ptr: nat)
    requires ptr < |s|
    ensures r + EscapeChar(s[ptr]) + Escape(s[ptr + 1..]) == r + Escape(s[ptr..])
  {
    hide EscapeChar;
    assert s[ptr..][1..] == s[ptr + 1..];
    Associative(r, EscapeChar(s[ptr]), Escape(s[ptr + 1..]));
  }

  method AppendStr(str: string, s: string) returns (r: string)
    ensures r == str + Escape(s)
  {
    r := str;
    var ptr := 0;
    assert s[0..] == s;
    while ptr < |s|
      invariant 0 <= ptr <= |s| && r + Escape(s[ptr..]) == str + Escape(s)
    {
      hide Escape;
      EscapeStep(r, s, ptr);
      var piece;
      if s[ptr] == '"' { piece := "\\\""; }
      else if s[ptr] == '\\' { piece := "\\\\"; }
      else if s[ptr] == '\n' { piece := "\\n"; }
      else if s[ptr] == '\r' { piece := "\\r"; }
      else { piece := [s[ptr]]; }
      r := r + piece;
      ptr := ptr + 1;
    }
  }

  function UnescapeChar(c: char): char {
    if c == 'n' then '\n' else if c == 't' then '\t' else if c == 'r' then '\r' else c
  }

  /** Puts v in front of the string that has been read. */
  function InFront(v: string, r: Option<(string, string)>): Option<(string, string)> {
    if r.None? then None else Some((v + r.value.0, r.value.1))
  }

  /** `cf_cfg_asm_readstr` from behind the opening quote: the string, and the input from
      the closing quote on; None where the literal is not closed. */
  function ReadStr(s: string): (r: Option<(string, string)>)
    ensures r.Some? ==> |r.value.1| <= |s| && r.value.1 != [] && r.value.1[0] == '"'
  {
    if s == [] then None
    else if s[0] == '"' then Some(([], s))
    else if s[0] != '\\' then InFront([s[0]], ReadStr(s[1..]))
    else if |s| == 1 then None
    else InFront([UnescapeChar(s[1])], ReadStr(s[2..]))
  }

  lemma InFrontTwice(v: string, w: string, r: Option<(string, string)>)
    ensures InFront(v, InFront(w, r)) == InFront(v + w, r)
  {
    if r.Some? {
      assert v + (w + r.value.0) == v + w + r.value.0;
    }
  }

  lemma InFrontEmpty(v: string, r: Option<(string, string)>)
    ensures InFront([], r) == r
    ensures r.Some? && r.value.0 == [] ==> InFront(v, r) == Some((v, r.value.1))
  {
    if r.Some? {
      assert [] + r.value.0 == r.value.0;
      assert v + [] == v;
    }
  }

  /** The loop of `cf_cfg_asm_readstr` over ptr.  A backslash in front of the end of the
      input counts as a literal that is not closed: the source reads behind the NUL there. */
  method AsmReadStr(line: string, start: nat) returns (ok: bool, val: string, ptr: nat)
    requires start <= |line|
    ensures start <= ptr <= |line|
    ensures ReadStr(line[start..]) == if ok then Some((val, line[ptr..])) else None
    ensures ok ==> ptr < |line|
  {
    val, ptr := [], start;
    InFrontEmpty([], ReadStr(line[start..]));
    while ptr < |line| && line[ptr] != '"'
      invariant start <= ptr <= |line|
      invariant ReadStr(line[start..]) == InFront(val, ReadStr(line[ptr..]))
    {
      hide InFront;
      var c := line[ptr];
      if c == '\\' {
        ptr := ptr + 1;
        if ptr == |line| {
          InFrontNone(val);
          return false, val, ptr;
        }
        assert line[ptr - 1..][2..] == line[ptr + 1..];
        c := line[ptr];
        if c == 'n' { c := '\n'; }
        else if c == 't' { c := '\t'; }
        else if c == 'r' { c := '\r'; }
      } else {
        assert line[ptr..][1..] == line[ptr + 1..];
      }
      InFrontTwice(val, [c], ReadStr(line[ptr + 1..]));
      val := val + [c];
      ptr := ptr + 1;
    }
    ok := ptr < |line|;
    InFrontEmpty(val, ReadStr(line[ptr..]));
  }

  lemma InFrontNone(v: string)
    ensures InFront(v, None) == None
  {
  }

  lemma ReadEscapedChar(c: char, rest: string)
    ensures ReadStr(EscapeChar(c) + rest) == InFront([c], ReadStr(rest))
  {
    var t := EscapeChar(c) + rest;
    assert t[|EscapeChar(c)|..] == rest;
  }

  /** Every string survives being escaped and read back. */
  lemma {:induction false} EscapeRoundTrip(s: string, rest: string)
    requires rest != [] && rest[0] == '"'
    ensures ReadStr(Escape(s) + rest) == Some((s, rest))
  {
    if s == [] {
      assert Escape(s) + rest == rest;
    } else {
      hide ReadStr, Escape, EscapeChar;
      EscapeRoundTrip(s[1..], rest);
      ReadEscapedChar(s[0], Escape(s[1..]) + rest);
      EscapeCons(s, rest);
    }
  }

  lemma EscapeCons(s: string, rest: string)
    requires s != []
    ensures Escape(s) + rest == EscapeChar(s[0]) + (Escape(s[1..]) + rest)
    ensures s == [s[0]] + s[1..]
  {
    hide EscapeChar;
    Associative(EscapeChar(s[0]), Escape(s[1..]), rest);
  }

  lemma Associative(a: string, b: string, c: string)
    ensures a + b + c == a + (b + c)
  {
  }

  /** An escaped string spans no line break. */
  lemma {:induction false} EscapeHasNoNewline(s: string)
    ensures '\n' !in Escape(s)
    ensures NulFree(s) ==> NulFree(Escape(s))
  {
    if s != [] {
      EscapeHasNoNewline(s[1..]);
    }
  }
}
