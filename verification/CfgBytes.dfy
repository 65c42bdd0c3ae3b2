/**
 The bytecode src/cfgcomp_assembler.c produces, declaratively, and how src/cfgcomp_vm.c fetches it.

 Fetching follows the layout.  Integers are stored with the least significant byte first,
 as on the usual targets.  The bits that the sources join with `|` are disjoint, so they
 are added here.
 */
module CfgBytes {
  import opened Wrappers
  import opened CfgText
  import opened CfgMachine

  // ----- integers in bytes -----

  function LE32(n: int): (r: seq<Byte>)
    ensures |r| == 4
  {
    [n % 256, n / 256 % 256, n / 65536 % 256, n / 16777216 % 256]
  }

  function Word(a: int, b: int, c: int, d: int): int { a + 256 * b + 65536 * c + 16777216 * d }

  function ReadI32(bc: seq<Byte>, pos: nat): int
    requires pos + 4 <= |bc|
  {
    Wrap32(Word(bc[pos], bc[pos + 1], bc[pos + 2], bc[pos + 3]))
  }

  /** The bytes stand in the bytecode at pos. */
  ghost predicate BytesAt(bc: seq<Byte>, pos: nat, bytes: seq<Byte>) {
    pos + |bytes| <= |bc| && bc[pos..pos + |bytes|] == bytes
  }

  lemma BytesSplit(bc: seq<Byte>, pos: nat, b1: seq<Byte>, b2: seq<Byte>)
    requires BytesAt(bc, pos, b1 + b2)
    ensures BytesAt(bc, pos, b1) && BytesAt(bc, pos + |b1|, b2)
  {
    var s := bc[pos..pos + |b1| + |b2|];
    assert s[..|b1|] == b1 && s[|b1|..] == b2;
  }

  lemma ByteAt(bc: seq<Byte>, pos: nat, b: Byte)
    requires BytesAt(bc, pos, [b])
    ensures pos < |bc| && bc[pos] == b
  {
    assert bc[pos..pos + 1][0] == b;
  }

  lemma FourBytes(n: int)
    ensures n == n % 256 + 256 * (n / 256 % 256) + 65536 * (n / 65536 % 256) + 16777216 * (n / 16777216)
  {
    var a, b, c := n / 256, n / 65536, n / 16777216;
    assert a / 256 == b && b / 256 == c by { DivDiv(n); }
    assert n == 256 * a + n % 256;
    assert a == 256 * b + a % 256;
    assert b == 256 * c + b % 256;
  }

  lemma DivDiv(n: int)
    ensures n / 256 / 256 == n / 65536 && n / 65536 / 256 == n / 16777216
  {
  }

  lemma ReadBack(bc: seq<Byte>, pos: nat, n: int)
    requires BytesAt(bc, pos, LE32(n)) && IsInt32(n)
    ensures pos + 4 <= |bc| && ReadI32(bc, pos) == n
  {
    var s := bc[pos..pos + 4];
    assert s[0] == bc[pos] && s[1] == bc[pos + 1] && s[2] == bc[pos + 2] && s[3] == bc[pos + 3];
    FourBytes(n);
    TopByte(n);
  }

  lemma TopByte(n: int)
    requires IsInt32(n)
    ensures n / 16777216 % 256 == if n < 0 then n / 16777216 + 256 else n / 16777216
  {
  }

  // ----- fetching -----

  /** The characters before the first NUL. */
  function UpToNul(s: string): string {
    if s == [] || s[0] == NUL then [] else [s[0]] + UpToNul(s[1..])
  }

  function CharsAt(bc: seq<Byte>, pos: nat, len: nat): string
    requires pos + len <= |bc|
  {
    seq(len, k requires 0 <= k < len => bc[pos + k] as char)
  }

  /** One argument of the given type (1 register, 2 number, 3 string) and the position
      behind it; None where the source would read outside the bytecode. */
  function FetchArg(bc: seq<Byte>, pos: nat, t: int): Option<(Arg, nat)> {
    if t == 1 && pos < |bc| then Some((AReg(bc[pos]), pos + 1))
    else if t == 2 && pos + 4 <= |bc| then Some((ANum(ReadI32(bc, pos)), pos + 4))
    else if t == 3 && pos + 4 <= |bc| then
      var at := ReadI32(bc, pos);
      if 0 <= at && at + 4 <= |bc| then
        var len := ReadI32(bc, at);
        if 0 <= len && at + 4 + len <= |bc| then Some((AStr(UpToNul(CharsAt(bc, at + 4, len))), pos + 4)) else None
      else None
    else None
  }

  /** Two bits of the descriptor: the type of argument i. */
  function TypeOf(desc: int, i: nat): int { if i == 0 then desc / 2048 % 4 else if i == 1 then desc / 512 % 4 else desc / 128 % 4 }

  function FetchArgs(bc: seq<Byte>, pos: nat, desc: int, i: nat, count: nat): Option<(seq<Arg>, nat)>
    decreases count - i
  {
    if i >= count then Some(([], pos))
    else
      match FetchArg(bc, pos, TypeOf(desc, i))
      case None => None
      case Some((a, next)) =>
        match FetchArgs(bc, next, desc, i + 1, count)
        case None => None
        case Some((args, end)) => Some(([a] + args, end))
  }

  /** `cf_cfg_vm_fetch` for commands of at most three arguments. */
  function Fetch(bc: seq<Byte>, pos: nat): Option<(Cmd, nat)> {
    if pos + 3 > |bc| then None
    else
      var desc := Word(bc[pos + 2], bc[pos + 1], 0, 0);
      if desc / 8192 > 3 then None
      else
        match FetchArgs(bc, pos + 3, desc, 0, desc / 8192)
        case None => None
        case Some((args, end)) => Some((Cmd(bc[pos], args), end))
  }

  // ----- layout -----

  datatype AArg = AsReg(b: Byte) | AsNum(n: int) | AsStr(s: string)

  /** A line for the assembler: a label, or an opcode with, for jumps, the label its
      first argument names, and the other arguments. */
  datatype ALine =
    | ALabel(name: string)
    | ACmd(opcode: Byte, target: Option<string>, args: seq<AArg>)
  {
    ghost predicate Valid() {
      ACmd? ==> |args| + (if target.Some? then 1 else 0) <= 3 &&
                forall k :: 0 <= k < |args| ==> args[k].AsNum? ==> IsInt32(args[k].n)
    }
  }

  function StringBytes(s: string): (r: seq<Byte>)
    ensures |r| == |s|
  {
    seq(|s|, k requires 0 <= k < |s| => s[k] as int % 256)
  }

  /** The entry of the string pool. */
  function PoolEntry(s: string): (r: seq<Byte>)
    ensures |r| == 4 + |s|
  {
    LE32(|s|) + StringBytes(s)
  }

  function ArgPool(args: seq<AArg>): seq<Byte> {
    if args == [] then []
    else ArgPool(args[..|args| - 1]) + (if args[|args| - 1].AsStr? then PoolEntry(args[|args| - 1].s) else [])
  }

  function LinePool(line: ALine): seq<Byte> { if line.ACmd? then ArgPool(line.args) else [] }

  /** The pool entries of the first k lines. */
  function Pool(lines: seq<ALine>, k: nat): seq<Byte>
    requires k <= |lines|
  {
    if k == 0 then [] else Pool(lines, k - 1) + LinePool(lines[k - 1])
  }

  function ArgType(a: AArg): int { if a.AsReg? then 1 else if a.AsNum? then 2 else 3 }

  function Types(target: Option<string>, args: seq<AArg>): (r: seq<int>)
    ensures |r| == |args| + if target.Some? then 1 else 0
  {
    (if target.Some? then [2] else []) + seq(|args|, k requires 0 <= k < |args| => ArgType(args[k]))
  }

  /** Count and types of the arguments in 16 bits. */
  function Descriptor(types: seq<int>): int
    requires |types| <= 3
  {
    |types| * 8192 + (if |types| > 0 then types[0] * 2048 else 0) +
    (if |types| > 1 then types[1] * 512 else 0) + (if |types| > 2 then types[2] * 128 else 0)
  }

  /** An argument in the code; a string is the address of its pool entry. */
  function ArgBytes(a: AArg, at: int): seq<Byte> {
    match a
    case AsReg(b) => [b]
    case AsNum(n) => LE32(n)
    case AsStr(_) => LE32(at)
  }

  /** All arguments, `at` being where the line's first pool entry goes. */
  function ArgsBytes(args: seq<AArg>, at: nat): seq<Byte> {
    if args == [] then []
    else ArgsBytes(args[..|args| - 1], at) + ArgBytes(args[|args| - 1], at + |ArgPool(args[..|args| - 1])|)
  }

  type Env = string -> int

  function TargetBytes(target: Option<string>, env: Env): seq<Byte> {
    if target.Some? then LE32(env(target.value)) else []
  }

  function DescriptorBytes(line: ALine): (r: seq<Byte>)
    requires line.ACmd? && line.Valid()
    ensures |r| == 2
  {
    var d := Descriptor(Types(line.target, line.args));
    [d / 256 % 256, d % 256]
  }

  function CmdBytes(line: ALine, at: nat, env: Env): seq<Byte>
    requires line.ACmd? && line.Valid()
  {
    [line.opcode] + DescriptorBytes(line) + TargetBytes(line.target, env) + ArgsBytes(line.args, at)
  }

  ghost predicate ValidLines(lines: seq<ALine>) { forall k :: 0 <= k < |lines| ==> lines[k].Valid() }

  const PROLOGUE_SIZE: nat := 7

  /** Where the pool entries of line k go in the bytecode. */
  function PoolAt(lines: seq<ALine>, k: nat): nat
    requires k <= |lines|
  {
    PROLOGUE_SIZE + |Pool(lines, k)|
  }

  function LineCode(line: ALine, at: nat, env: Env): seq<Byte>
    requires line.Valid()
  {
    if line.ACmd? then CmdBytes(line, at, env) else []
  }

  /** The code of the first k lines, labels at the addresses of env. */
  ghost function Code(lines: seq<ALine>, k: nat, env: Env): seq<Byte>
    requires k <= |lines| && ValidLines(lines)
  {
    if k == 0 then [] else Code(lines, k - 1, env) + LineCode(lines[k - 1], PoolAt(lines, k - 1), env)
  }

  function ZeroEnv(): Env { (name: string) => 0 }

  /** The offset of line k behind the pool (it does not depend on the addresses). */
  ghost function Offset(lines: seq<ALine>, k: nat): nat
    requires k <= |lines| && ValidLines(lines)
  {
    |Code(lines, k, ZeroEnv())|
  }

  ghost function LabelOffset(lines: seq<ALine>, k: nat, name: string): nat
    requires k <= |lines| && ValidLines(lines)
  {
    if k == 0 then 0
    else if lines[k - 1] == ALabel(name) then Offset(lines, k - 1)
    else LabelOffset(lines, k - 1, name)
  }

  function Base(lines: seq<ALine>): nat { PoolAt(lines, |lines|) }

  /** The address of a label: that of its last definition, or of the code's start. */
  ghost function Address(lines: seq<ALine>): Env
    requires ValidLines(lines)
  {
    (name: string) => LabelOffset(lines, |lines|, name) + Base(lines)
  }

  /** The jump over the pool. */
  function Prologue(target: int): (r: seq<Byte>)
    ensures |r| == PROLOGUE_SIZE
  {
    [ASM_JMP, 0x30, 0x00] + LE32(target)
  }

  /** The bytecode of a program. */
  ghost function Layout(lines: seq<ALine>): seq<Byte>
    requires ValidLines(lines)
  {
    Prologue(Base(lines)) + Pool(lines, |lines|) + Code(lines, |lines|, Address(lines))
  }

  // ----- fetching follows the layout -----

  lemma {:induction false} CodeLength(lines: seq<ALine>, k: nat, env: Env)
    requires k <= |lines| && ValidLines(lines)
    ensures |Code(lines, k, env)| == Offset(lines, k)
  {
    hide DescriptorBytes, ArgsBytes;
    if k > 0 {
      CodeLength(lines, k - 1, env);
      CodeLength(lines, k - 1, ZeroEnv());
    }
  }

  lemma {:induction false} CodePrefix(lines: seq<ALine>, k: nat, m: nat, env: Env)
    requires k <= m <= |lines| && ValidLines(lines)
    ensures Code(lines, k, env) <= Code(lines, m, env)
    decreases m
  {
    hide CmdBytes;
    if k < m {
      CodePrefix(lines, k, m - 1, env);
    }
  }

  lemma {:induction false} PoolPrefix(lines: seq<ALine>, k: nat, m: nat)
    requires k <= m <= |lines|
    ensures Pool(lines, k) <= Pool(lines, m)
    decreases m
  {
    if k < m {
      PoolPrefix(lines, k, m - 1);
    }
  }

  lemma PrefixAt(bc: seq<Byte>, head: seq<Byte>, a: seq<Byte>, b: seq<Byte>, whole: seq<Byte>, tail: seq<Byte>)
    requires bc == head + whole + tail && a + b <= whole
    ensures BytesAt(bc, |head| + |a|, b)
  {
    var p := |head| + |a|;
    assert whole[|a|..|a| + |b|] == b by { assert (a + b)[|a|..] == b; }
    assert bc[p..p + |b|] == whole[|a|..|a| + |b|];
  }

  lemma LayoutSteps(lines: seq<ALine>, k: nat, env: Env)
    requires k < |lines| && ValidLines(lines)
    ensures Code(lines, k + 1, env) == Code(lines, k, env) + LineCode(lines[k], PoolAt(lines, k), env)
    ensures Pool(lines, k + 1) == Pool(lines, k) + LinePool(lines[k])
  {
  }

  /** The code and the pool entries of line k stand where the layout says. */
  lemma LineStands(lines: seq<ALine>, k: nat)
    requires k < |lines| && ValidLines(lines) && lines[k].ACmd?
    ensures BytesAt(Layout(lines), Base(lines) + Offset(lines, k), CmdBytes(lines[k], PoolAt(lines, k), Address(lines)))
    ensures Offset(lines, k + 1) == Offset(lines, k) + |CmdBytes(lines[k], PoolAt(lines, k), Address(lines))|
    ensures BytesAt(Layout(lines), PoolAt(lines, k), ArgPool(lines[k].args))
  {
    hide CmdBytes, ArgPool, Prologue, Code, Pool, BytesAt, Address;
    var env, n := Address(lines), |lines|;
    var pro, pool, code := Prologue(Base(lines)), Pool(lines, n), Code(lines, n, env);
    var bytes := CmdBytes(lines[k], PoolAt(lines, k), env);
    CodeLength(lines, k, env);
    CodeLength(lines, k + 1, env);
    CodePrefix(lines, k + 1, n, env);
    PoolPrefix(lines, k + 1, n);
    LayoutSteps(lines, k, env);
    assert pro + pool + code == (pro + pool) + code + [];
    PrefixAt(Layout(lines), pro + pool, Code(lines, k, env), bytes, code, []);
    PrefixAt(Layout(lines), pro, Pool(lines, k), ArgPool(lines[k].args), pool, code);
  }

  /** What a fetched argument is. */
  function ArgValue(a: AArg): Arg {
    match a
    case AsReg(b) => AReg(b)
    case AsNum(n) => ANum(n)
    case AsStr(s) => AStr(s)
  }

  /** A line as a command, labels at the addresses of env. */
  ghost function Command(line: ALine, env: Env): Cmd
    requires line.ACmd?
  {
    Cmd(line.opcode, (if line.target.Some? then [ANum(env(line.target.value))] else []) +
                     seq(|line.args|, k requires 0 <= k < |line.args| => ArgValue(line.args[k])))
  }

  ghost predicate CStrings(line: ALine) {
    line.ACmd? ==> forall k :: 0 <= k < |line.args| ==> line.args[k].AsStr? ==> CString(line.args[k].s)
  }

  lemma {:induction false} UpToNulAll(s: string)
    requires CString(s)
    ensures UpToNul(s) == s
  {
    if s != [] {
      UpToNulAll(s[1..]);
    }
  }

  /** The pool entry of a string reads as the string. */
  lemma ReadPoolEntry(bc: seq<Byte>, at: nat, s: string)
    requires BytesAt(bc, at, PoolEntry(s)) && CString(s) && |bc| < 0x8000_0000
    ensures at + 4 <= |bc| && ReadI32(bc, at) == |s| && at + 4 + |s| <= |bc|
    ensures UpToNul(CharsAt(bc, at + 4, |s|)) == s
  {
    hide LE32, ReadI32;
    BytesSplit(bc, at, LE32(|s|), StringBytes(s));
    ReadBack(bc, at, |s|);
    var chars := CharsAt(bc, at + 4, |s|);
    forall k | 0 <= k < |s| ensures chars[k] == s[k] {
      assert bc[at + 4..at + 4 + |s|][k] == StringBytes(s)[k];
    }
    assert chars == s;
    UpToNulAll(s);
  }

  /** Fetching one argument where its bytes stand. */
  lemma FetchOne(bc: seq<Byte>, pos: nat, a: AArg, at: nat)
    requires BytesAt(bc, pos, ArgBytes(a, at)) && |bc| < 0x8000_0000
    requires a.AsNum? ==> IsInt32(a.n)
    requires a.AsStr? ==> CString(a.s) && BytesAt(bc, at, PoolEntry(a.s))
    ensures FetchArg(bc, pos, ArgType(a)) == Some((ArgValue(a), pos + |ArgBytes(a, at)|))
  {
    hide ReadI32, LE32, UpToNul, PoolEntry;
    match a
    case AsReg(b) => ByteAt(bc, pos, b);
    case AsNum(n) => ReadBack(bc, pos, n);
    case AsStr(s) =>
      ReadPoolEntry(bc, at, s);
      ReadBack(bc, pos, at);
  }

  /** The types of a descriptor read back one by one. */
  lemma DescriptorFields(types: seq<int>)
    requires |types| <= 3 && forall k :: 0 <= k < |types| ==> 0 <= types[k] < 4
    ensures Descriptor(types) / 8192 == |types| && 0 <= Descriptor(types) < 0x1_0000
    ensures forall k :: 0 <= k < |types| ==> TypeOf(Descriptor(types), k) == types[k]
  {
    var t0 := if |types| > 0 then types[0] else 0;
    var t1 := if |types| > 1 then types[1] else 0;
    var t2 := if |types| > 2 then types[2] else 0;
    Field(|types|, t0 * 2048 + t1 * 512 + t2 * 128);
    Field0(|types|, t0, t1 * 512 + t2 * 128);
    Field1(|types|, t0, t1, t2 * 128);
    Field2(|types|, t0, t1, t2);
  }

  lemma Field(n: int, r: int)
    requires 0 <= n <= 3 && 0 <= r < 8192
    ensures (n * 8192 + r) / 8192 == n
  {
  }

  lemma Field0(n: int, t0: int, r: int)
    requires 0 <= n <= 3 && 0 <= t0 < 4 && 0 <= r < 2048
    ensures (n * 8192 + t0 * 2048 + r) / 2048 % 4 == t0
  {
    assert (n * 8192 + t0 * 2048 + r) / 2048 == n * 4 + t0;
  }

  lemma Field1(n: int, t0: int, t1: int, r: int)
    requires 0 <= n <= 3 && 0 <= t0 < 4 && 0 <= t1 < 4 && 0 <= r < 512
    ensures (n * 8192 + t0 * 2048 + t1 * 512 + r) / 512 % 4 == t1
  {
    assert (n * 8192 + t0 * 2048 + t1 * 512 + r) / 512 == (n * 4 + t0) * 4 + t1;
  }

  lemma Field2(n: int, t0: int, t1: int, t2: int)
    requires 0 <= n <= 3 && 0 <= t0 < 4 && 0 <= t1 < 4 && 0 <= t2 < 4
    ensures (n * 8192 + t0 * 2048 + t1 * 512 + t2 * 128) / 128 % 4 == t2
  {
    assert (n * 8192 + t0 * 2048 + t1 * 512 + t2 * 128) / 128 == ((n * 4 + t0) * 4 + t1) * 4 + t2;
  }

  /** Where argument j of a line and its pool entry stand. */
  lemma {:induction false} ArgAt(bc: seq<Byte>, pos: nat, args: seq<AArg>, at: nat, j: nat)
    requires j < |args| && BytesAt(bc, pos, ArgsBytes(args, at)) && BytesAt(bc, at, ArgPool(args))
    ensures BytesAt(bc, pos + |ArgsBytes(args[..j], at)|, ArgBytes(args[j], at + |ArgPool(args[..j])|))
    ensures args[j].AsStr? ==> BytesAt(bc, at + |ArgPool(args[..j])|, PoolEntry(args[j].s))
    ensures |ArgsBytes(args[..j + 1], at)| == |ArgsBytes(args[..j], at)| + |ArgBytes(args[j], at + |ArgPool(args[..j])|)|
  {
    hide ArgBytes, PoolEntry, ArgsBytes, ArgPool, BytesAt;
    var n := |args| - 1;
    var a := args[n];
    ArgsSnoc(args, at);
    BytesSplit(bc, pos, ArgsBytes(args[..n], at), ArgBytes(a, at + |ArgPool(args[..n])|));
    BytesSplit(bc, at, ArgPool(args[..n]), if a.AsStr? then PoolEntry(a.s) else []);
    if j < n {
      ArgAt(bc, pos, args[..n], at, j);
      assert args[..n][..j] == args[..j] && args[..n][..j + 1] == args[..j + 1];
    } else {
      assert args[..j + 1] == args;
    }
  }

  lemma ArgsSnoc(args: seq<AArg>, at: nat)
    requires args != []
    ensures var n := |args| - 1;
            ArgsBytes(args, at) == ArgsBytes(args[..n], at) + ArgBytes(args[n], at + |ArgPool(args[..n])|) &&
            ArgPool(args) == ArgPool(args[..n]) + if args[n].AsStr? then PoolEntry(args[n].s) else []
  {
  }

  function ArgValues(args: seq<AArg>): seq<Arg> { seq(|args|, k requires 0 <= k < |args| => ArgValue(args[k])) }

  lemma {:induction false} FetchFrom(bc: seq<Byte>, pos: nat, desc: int, i: nat, args: seq<AArg>, at: nat, j: nat)
    requires j <= |args| && |bc| < 0x8000_0000
    requires BytesAt(bc, pos, ArgsBytes(args, at)) && BytesAt(bc, at, ArgPool(args))
    requires forall k :: 0 <= k < |args| ==> TypeOf(desc, i + k) == ArgType(args[k])
    requires forall k :: 0 <= k < |args| ==> args[k].AsNum? ==> IsInt32(args[k].n)
    requires forall k :: 0 <= k < |args| ==> args[k].AsStr? ==> CString(args[k].s)
    ensures FetchArgs(bc, pos + |ArgsBytes(args[..j], at)|, desc, i + j, i + |args|) ==
            Some((ArgValues(args[j..]), pos + |ArgsBytes(args, at)|))
    decreases |args| - j
  {
    hide ArgsBytes, ArgPool, FetchArg, ArgBytes, ArgType, TypeOf, BytesAt, CString;
    if j == |args| {
      assert args[..j] == args;
    } else {
      ArgAt(bc, pos, args, at, j);
      FetchOne(bc, pos + |ArgsBytes(args[..j], at)|, args[j], at + |ArgPool(args[..j])|);
      FetchFrom(bc, pos, desc, i, args, at, j + 1);
      assert TypeOf(desc, i + j) == ArgType(args[j]);
      assert ArgValues(args[j..]) == [ArgValue(args[j])] + ArgValues(args[j + 1..]);
    }
  }

  lemma FetchTarget(bc: seq<Byte>, pos: nat, name: string, env: Env)
    requires BytesAt(bc, pos, TargetBytes(Some(name), env)) && IsInt32(env(name))
    ensures FetchArg(bc, pos, 2) == Some((ANum(env(name)), pos + 4))
  {
    ReadBack(bc, pos, env(name));
  }

  /** The head of a command, its target and its arguments. */
  lemma CmdPieces(bc: seq<Byte>, pos: nat, line: ALine, at: nat, env: Env)
    requires line.ACmd? && line.Valid() && BytesAt(bc, pos, CmdBytes(line, at, env))
    ensures var d := Descriptor(Types(line.target, line.args));
            pos + 3 <= |bc| && bc[pos] == line.opcode && bc[pos + 1] == d / 256 % 256 && bc[pos + 2] == d % 256
    ensures var t := TargetBytes(line.target, env);
            BytesAt(bc, pos + 3, t) && BytesAt(bc, pos + 3 + |t|, ArgsBytes(line.args, at)) &&
            |CmdBytes(line, at, env)| == 3 + |t| + |ArgsBytes(line.args, at)|
  {
    hide BytesAt, ArgsBytes, TargetBytes, Descriptor, Types;
    var d := Descriptor(Types(line.target, line.args));
    var t := TargetBytes(line.target, env);
    BytesSplit(bc, pos, [line.opcode] + DescriptorBytes(line) + t, ArgsBytes(line.args, at));
    BytesSplit(bc, pos, [line.opcode] + DescriptorBytes(line), t);
    assert [line.opcode] + DescriptorBytes(line) == [line.opcode, d / 256 % 256, d % 256];
    HeadBytes(bc, pos, line.opcode, d / 256 % 256, d % 256);
  }

  lemma TypesMatch(line: ALine, d: int, i: nat)
    requires line.ACmd? && line.Valid() && d == Descriptor(Types(line.target, line.args))
    requires i == if line.target.Some? then 1 else 0
    ensures 0 <= d < 0x1_0000 && d / 8192 == i + |line.args|
    ensures line.target.Some? ==> TypeOf(d, 0) == 2
    ensures forall k :: 0 <= k < |line.args| ==> TypeOf(d, i + k) == ArgType(line.args[k])
  {
    hide Descriptor, TypeOf;
    var types := Types(line.target, line.args);
    DescriptorFields(types);
    forall k | 0 <= k < |line.args| ensures TypeOf(d, i + k) == ArgType(line.args[k]) {
      assert types[i + k] == ArgType(line.args[k]);
    }
  }

  /** A command's bytes are fetched as the command. */
  lemma FetchCmd(bc: seq<Byte>, pos: nat, line: ALine, at: nat, env: Env)
    requires line.ACmd? && line.Valid() && CStrings(line) && |bc| < 0x8000_0000
    requires BytesAt(bc, pos, CmdBytes(line, at, env)) && BytesAt(bc, at, ArgPool(line.args))
    requires line.target.Some? ==> IsInt32(env(line.target.value))
    ensures Fetch(bc, pos) == Some((Command(line, env), pos + |CmdBytes(line, at, env)|))
  {
    hide ArgsBytes, ArgPool, Fetch, FetchArg, FetchArgs, Descriptor, TypeOf, BytesAt, LE32, CmdBytes, Types;
    var n, args := |line.args|, ArgValues(line.args);
    var d := Descriptor(Types(line.target, line.args));
    var i := if line.target.Some? then 1 else 0;
    var p, end := pos + 3 + |TargetBytes(line.target, env)|, pos + |CmdBytes(line, at, env)|;
    TypesMatch(line, d, i);
    CmdPieces(bc, pos, line, at, env);
    FetchFrom(bc, p, d, i, line.args, at, 0);
    assert line.args[..0] == [] && line.args[0..] == line.args;
    NoArgBytes(at);
    if line.target.Some? {
      var target := ANum(env(line.target.value));
      FetchTarget(bc, pos + 3, line.target.value, env);
      FetchMore(bc, pos + 3, d, 0, 1 + n, target, p, args, end);
      FetchWhole(bc, pos, d, [target] + args, end);
    } else {
      FetchWhole(bc, pos, d, args, end);
      assert [] + args == args;
    }
  }

  lemma FetchMore(bc: seq<Byte>, pos: nat, desc: int, i: nat, count: nat, a: Arg, next: nat, args: seq<Arg>, end: nat)
    requires i < count && FetchArg(bc, pos, TypeOf(desc, i)) == Some((a, next))
    requires FetchArgs(bc, next, desc, i + 1, count) == Some((args, end))
    ensures FetchArgs(bc, pos, desc, i, count) == Some(([a] + args, end))
  {
  }

  lemma FetchWhole(bc: seq<Byte>, pos: nat, d: int, args: seq<Arg>, end: nat)
    requires pos + 3 <= |bc| && 0 <= d < 0x1_0000 && d / 8192 <= 3
    requires bc[pos + 1] == d / 256 % 256 && bc[pos + 2] == d % 256
    requires FetchArgs(bc, pos + 3, d, 0, d / 8192) == Some((args, end))
    ensures Fetch(bc, pos) == Some((Cmd(bc[pos], args), end))
  {
    hide FetchArgs;
    DescriptorWord(d);
  }

  lemma NoArgBytes(at: nat)
    ensures ArgsBytes([], at) == []
  {
  }

  lemma DescriptorWord(d: int)
    requires 0 <= d < 0x1_0000
    ensures Word(d % 256, d / 256 % 256, 0, 0) == d
  {
  }

  lemma HeadBytes(bc: seq<Byte>, pos: nat, a: Byte, b: Byte, c: Byte)
    requires BytesAt(bc, pos, [a, b, c])
    ensures pos + 3 <= |bc| && bc[pos] == a && bc[pos + 1] == b && bc[pos + 2] == c
  {
    var s := bc[pos..pos + 3];
    assert s[0] == bc[pos] && s[1] == bc[pos + 1] && s[2] == bc[pos + 2];
  }

  lemma {:induction false} LabelOffsetBound(lines: seq<ALine>, k: nat, name: string)
    requires k <= |lines| && ValidLines(lines)
    ensures LabelOffset(lines, k, name) <= Offset(lines, k)
  {
    hide CmdBytes;
    if k > 0 {
      LabelOffsetBound(lines, k - 1, name);
    }
  }

  lemma LayoutSize(lines: seq<ALine>)
    requires ValidLines(lines)
    ensures |Layout(lines)| == Base(lines) + Offset(lines, |lines|)
    ensures forall name :: 0 <= Address(lines)(name) <= |Layout(lines)|
  {
    CodeLength(lines, |lines|, Address(lines));
    forall name ensures 0 <= Address(lines)(name) <= |Layout(lines)| {
      LabelOffsetBound(lines, |lines|, name);
    }
  }

  /** The layout theorem.  Fetching at the address of a line yields its command, jump
      targets being the addresses of their labels and strings read from the pool, and
      ends exactly where the next line starts. */
  lemma LayoutFetch(lines: seq<ALine>, k: nat)
    requires k < |lines| && ValidLines(lines) && lines[k].ACmd? && CStrings(lines[k])
    requires |Layout(lines)| < 0x8000_0000
    ensures Fetch(Layout(lines), Base(lines) + Offset(lines, k)) ==
            Some((Command(lines[k], Address(lines)), Base(lines) + Offset(lines, k + 1)))
  {
    hide CmdBytes, ArgPool, Fetch;
    LineStands(lines, k);
    LayoutSize(lines);
    FetchCmd(Layout(lines), Base(lines) + Offset(lines, k), lines[k], PoolAt(lines, k), Address(lines));
  }

  lemma PrologueBytes(n: int, rest: seq<Byte>)
    ensures var bc := Prologue(n) + rest;
            |bc| >= 7 && bc[0] == ASM_JMP && bc[1] == 0x30 && bc[2] == 0 && BytesAt(bc, 3, LE32(n))
  {
    hide LE32;
    var bc := Prologue(n) + rest;
    assert bc[3..7] == LE32(n);
  }

  /** The first command jumps over the pool to the code. */
  lemma PrologueFetch(lines: seq<ALine>)
    requires ValidLines(lines) && |Layout(lines)| < 0x8000_0000
    ensures Fetch(Layout(lines), 0) == Some((Cmd(ASM_JMP, [ANum(Base(lines))]), PROLOGUE_SIZE))
    ensures Offset(lines, 0) == 0
  {
    hide Pool, FetchArg, Fetch, Prologue, LE32, ReadI32;
    var bc := Layout(lines);
    LayoutSize(lines);
    var rest := Pool(lines, |lines|) + Code(lines, |lines|, Address(lines));
    assert bc == Prologue(Base(lines)) + rest;
    PrologueBytes(Base(lines), rest);
    ReadBack(bc, 3, Base(lines));
    PrologueArg(bc, Base(lines));
  }

  lemma PrologueArg(bc: seq<Byte>, n: int)
    requires |bc| >= 7 && bc[0] == ASM_JMP && bc[1] == 0x30 && bc[2] == 0 && ReadI32(bc, 3) == n
    ensures Fetch(bc, 0) == Some((Cmd(ASM_JMP, [ANum(n)]), 7))
  {
    hide ReadI32;
    assert FetchArgs(bc, 7, 0x3000, 1, 1) == Some(([], 7));
    assert [ANum(n)] + [] == [ANum(n)];
  }
}
