/**
 The assembler of src/cfgcomp_assembler.c.

 It reads assembly text line by line and grows the string pool and the code, leaving the
 addresses of jumps open.  A table notes for each label where it is defined and where it
 is used; at the end the addresses are patched in.  The invariants say that the pool, the
 code and the table are right for all lines read so far, so the result is the layout of
 CfgBytes.
 */
module CfgAssembler {
  import opened Wrappers
  import opened CfgText
  import opened CfgMachine
  import opened CfgAssembly
  import opened CfgListing
  import opened CfgTokens
  import opened CfgBytes

  // ----- directives -----

  const DIRECTIVES: nat := 24

  /** The directives in the order the source compares with them. */
  function Directive(i: nat): Mnemonic {
    if i == 0 then MODULE else if i == 1 then SET else if i == 2 then UNSET else if i == 3 then LOAD
    else if i == 4 then CPY else if i == 5 then EQ else if i == 6 then NE else if i == 7 then LT
    else if i == 8 then LTEQ else if i == 9 then GT else if i == 10 then GTEQ else if i == 11 then ADD
    else if i == 12 then SUB else if i == 13 then DIV else if i == 14 then MUL else if i == 15 then JMP
    else if i == 16 then JMPIF else if i == 17 then JMPIFNOT else if i == 18 then AND else if i == 19 then OR
    else if i == 20 then ARRAY else if i == 21 then ARRAYSUBS else if i == 22 then ARRAYPUSH else NEG
  }

  function DirectiveFrom(val: string, i: nat): Option<Mnemonic>
    requires i <= DIRECTIVES
    decreases DIRECTIVES - i
  {
    if i == DIRECTIVES then None
    else if Name(Directive(i)) == val then Some(Directive(i))
    else DirectiveFrom(val, i + 1)
  }

  function DirectiveOf(val: string): Option<Mnemonic> { DirectiveFrom(val, 0) }

  /** The number of arguments a directive must have. */
  function Arity(mn: Mnemonic): nat {
    if mn == LOAD then 3 else if mn == JMP || mn == NEG then 1 else 2
  }

  predicate IsJump(mn: Mnemonic) { mn == JMP || mn == JMPIF || mn == JMPIFNOT }

  /** CF_RETVAL_PARSEERROR for a wrong argument count, -1 for an unknown directive. */
  datatype Assembled<+T> = Done(value: T) | ParseError | UnknownDirective

  /** An argument token: a register is the character behind "reg", minus '0'. */
  function ArgOf(t: Tok): AArg {
    if t.kind == TStr then AsStr(t.val)
    else if "reg" <= t.val then AsReg(((if |t.val| > 3 then t.val[3] else NUL) as int - '0' as int) % 256)
    else AsNum(Wrap32(StrToLL(t.val)))
  }

  function ArgsOf(toks: seq<Tok>): (r: seq<AArg>)
    ensures |r| == |toks| && forall k :: 0 <= k < |toks| ==> r[k] == ArgOf(toks[k])
  {
    seq(|toks|, k requires 0 <= k < |toks| => ArgOf(toks[k]))
  }

  function ParseLine(b: Build, toks: seq<Tok>): (r: Assembled<ALine>)
    ensures r.Done? ==> r.value.Valid()
  {
    if toks == [] then UnknownDirective
    else
      match DirectiveOf(toks[0].val)
      case Some(mn) =>
        if |toks| != 1 + Arity(mn) then ParseError
        else if IsJump(mn) then Done(ACmd(Opcode(b, mn), Some(toks[1].val), ArgsOf(toks[2..])))
        else Done(ACmd(Opcode(b, mn), None, ArgsOf(toks[1..])))
      case None =>
        if toks[0].kind == TLbl then Done(ALabel(toks[0].val)) else UnknownDirective
  }

  function ParseFrom(b: Build, text: string, pos: nat, lines: seq<ALine>): Assembled<seq<ALine>>
    requires pos <= |text|
    decreases |text| - pos
  {
    match LineAt(text, pos)
    case None => Done(lines)
    case Some((line, next)) =>
      match Tokenize(line)
      case None => UnknownDirective
      case Some(toks) =>
        match ParseLine(b, toks)
        case ParseError => ParseError
        case UnknownDirective => UnknownDirective
        case Done(l) => ParseFrom(b, text, next, lines + [l])
  }

  /** The source never runs out of a line while tokenizing. */
  predicate Readable(text: string, pos: nat)
    requires pos <= |text|
    decreases |text| - pos
  {
    match LineAt(text, pos)
    case None => true
    case Some((line, next)) => Tokenize(line).Some? && Readable(text, next)
  }

  // ----- labels and their uses -----

  /** An address is left open at offset o of the code, for this label. */
  ghost predicate IsHole(lines: seq<ALine>, o: nat, name: string)
    requires ValidLines(lines)
  {
    exists k :: 0 <= k < |lines| && HoleOf(lines, k, o, name)
  }

  ghost predicate HoleOf(lines: seq<ALine>, k: nat, o: nat, name: string)
    requires k < |lines| && ValidLines(lines)
  {
    lines[k].ACmd? && lines[k].target == Some(name) && o == Offset(lines, k) + 3
  }

  lemma {:induction false} CodeStable(lines: seq<ALine>, more: seq<ALine>, k: nat, env: Env)
    requires k <= |lines| && ValidLines(lines) && ValidLines(lines + more)
    ensures Code(lines + more, k, env) == Code(lines, k, env) && Pool(lines + more, k) == Pool(lines, k)
  {
    hide LineCode, LinePool;
    if k > 0 {
      CodeStable(lines, more, k - 1, env);
    }
  }

  lemma {:induction false} LabelStable(lines: seq<ALine>, more: seq<ALine>, k: nat, name: string)
    requires k <= |lines| && ValidLines(lines) && ValidLines(lines + more)
    ensures LabelOffset(lines + more, k, name) == LabelOffset(lines, k, name)
  {
    hide Code;
    if k > 0 {
      LabelStable(lines, more, k - 1, name);
      CodeStable(lines, more, k - 1, ZeroEnv());
    }
  }

  lemma ValidSnoc(lines: seq<ALine>, l: ALine)
    requires ValidLines(lines) && l.Valid()
    ensures ValidLines(lines + [l])
  {
  }

  lemma PoolSnoc(lines: seq<ALine>, m: seq<ALine>, l: ALine)
    requires ValidLines(lines) && ValidLines(m) && m == lines + [l]
    ensures Pool(m, |lines| + 1) == Pool(lines, |lines|) + LinePool(l)
    ensures Code(m, |lines|, ZeroEnv()) == Code(lines, |lines|, ZeroEnv()) && Pool(m, |lines|) == Pool(lines, |lines|)
  {
    hide LinePool, Code, ZeroEnv, ValidLines;
    CodeStable(lines, [l], |lines|, ZeroEnv());
    assert m[|lines|] == l;
  }

  lemma CodeStep(m: seq<ALine>, k: nat, l: ALine, env: Env)
    requires k < |m| && ValidLines(m) && m[k] == l
    ensures l.Valid()
    ensures Code(m, k + 1, env) == Code(m, k, env) + LineCode(l, PoolAt(m, k), env)
  {
    hide LineCode, Pool;
  }

  /** One more line: its pool entries and its code. */
  lemma LayoutSnoc(lines: seq<ALine>, l: ALine)
    requires ValidLines(lines) && l.Valid()
    ensures ValidLines(lines + [l])
    ensures Pool(lines + [l], |lines| + 1) == Pool(lines, |lines|) + LinePool(l)
    ensures Offset(lines + [l], |lines|) == Offset(lines, |lines|)
    ensures Code(lines + [l], |lines| + 1, ZeroEnv()) ==
            Code(lines, |lines|, ZeroEnv()) + LineCode(l, PoolAt(lines, |lines|), ZeroEnv())
  {
    hide *;
    hide LineCode, LinePool, Code, Pool, ZeroEnv, ValidLines;
    ValidSnoc(lines, l);
    var m := lines + [l];
    PoolSnoc(lines, m, l);
    CodeStep(m, |lines|, l, ZeroEnv());
    SameStart(lines, m);
  }

  lemma SameStart(lines: seq<ALine>, m: seq<ALine>)
    requires |lines| <= |m| && ValidLines(lines) && ValidLines(m)
    requires Pool(m, |lines|) == Pool(lines, |lines|) && Code(m, |lines|, ZeroEnv()) == Code(lines, |lines|, ZeroEnv())
    ensures PoolAt(m, |lines|) == PoolAt(lines, |lines|) && Offset(m, |lines|) == Offset(lines, |lines|)
  {
    hide Code, Pool, ZeroEnv, ValidLines;
  }

  lemma HoleSnoc(lines: seq<ALine>, l: ALine, o: nat, name: string)
    requires ValidLines(lines) && l.Valid() && ValidLines(lines + [l])
    ensures IsHole(lines + [l], o, name) <==>
            IsHole(lines, o, name) || (l.ACmd? && l.target == Some(name) && o == Offset(lines, |lines|) + 3)
  {
    hide Code;
    var m := lines + [l];
    forall k | 0 <= k <= |lines| ensures Offset(m, k) == Offset(lines, k) {
      CodeStable(lines, [l], k, ZeroEnv());
    }
    if IsHole(lines, o, name) {
      var k :| 0 <= k < |lines| && HoleOf(lines, k, o, name);
      assert HoleOf(m, k, o, name);
    }
    if l.ACmd? && l.target == Some(name) && o == Offset(lines, |lines|) + 3 {
      assert HoleOf(m, |lines|, o, name);
    }
    if IsHole(m, o, name) {
      var k :| 0 <= k < |m| && HoleOf(m, k, o, name);
      assert k < |lines| ==> HoleOf(lines, k, o, name);
    }
  }

  /** `cf_asm_replacements_t`. */
  datatype Replacement = Replacement(name: string, lblOff: nat, offs: seq<nat>)

  ghost predicate Describes(r: Replacement, lines: seq<ALine>)
    requires ValidLines(lines)
  {
    && r.lblOff == LabelOffset(lines, |lines|, r.name)
    && forall o :: o in r.offs <==> IsHole(lines, o, r.name)
  }

  ghost predicate HasEntry(elems: seq<Replacement>, name: string) {
    exists i :: 0 <= i < |elems| && elems[i].name == name
  }

  /** The table knows all labels and all uses of the lines read so far. */
  ghost predicate Tabled(elems: seq<Replacement>, lines: seq<ALine>)
    requires ValidLines(lines)
  {
    && (forall i, j :: 0 <= i < j < |elems| ==> elems[i].name != elems[j].name)
    && (forall i :: 0 <= i < |elems| ==> Describes(elems[i], lines))
    && (forall name, o :: IsHole(lines, o, name) ==> HasEntry(elems, name))
    && (forall name :: LabelOffset(lines, |lines|, name) != 0 ==> HasEntry(elems, name))
  }

  /** What `cf_asm_register_replacement` does to the entry of the name. */
  function Updated(r: Replacement, lblOff: nat, replOff: nat): Replacement {
    Replacement(r.name, if lblOff != 0 then lblOff else r.lblOff, r.offs + if replOff != 0 then [replOff] else [])
  }

  ghost predicate UpdatedAt(elems: seq<Replacement>, elems': seq<Replacement>, j: nat, name: string, lblOff: nat, replOff: nat) {
    j < |elems| && elems[j].name == name && elems' == elems[j := Updated(elems[j], lblOff, replOff)]
  }

  /** The entry of the name is updated, or added. */
  ghost predicate Registered(elems: seq<Replacement>, elems': seq<Replacement>, name: string, lblOff: nat, replOff: nat) {
    if HasEntry(elems, name) then exists j :: UpdatedAt(elems, elems', j, name, lblOff, replOff)
    else elems' == elems + [Updated(Replacement(name, 0, []), lblOff, replOff)]
  }

  lemma LabelSnoc(lines: seq<ALine>, l: ALine, name: string)
    requires ValidLines(lines) && l.Valid() && ValidLines(lines + [l])
    ensures LabelOffset(lines + [l], |lines| + 1, name) ==
            if l == ALabel(name) then Offset(lines, |lines|) else LabelOffset(lines, |lines|, name)
  {
    hide Code;
    LabelStable(lines, [l], |lines|, name);
    CodeStable(lines, [l], |lines|, ZeroEnv());
  }

  /** Registering what a line defines or uses keeps the table right. */
  lemma TabledSnoc(elems: seq<Replacement>, elems': seq<Replacement>, lines: seq<ALine>, l: ALine,
                   name: string, lblOff: nat, replOff: nat)
    requires ValidLines(lines) && l.Valid() && ValidLines(lines + [l]) && Tabled(elems, lines)
    requires Registered(elems, elems', name, lblOff, replOff)
    requires (l == ALabel(name) && lblOff == Offset(lines, |lines|) && replOff == 0) ||
             (l.ACmd? && l.target == Some(name) && lblOff == 0 && replOff == Offset(lines, |lines|) + 3)
    ensures Tabled(elems', lines + [l])
  {
    hide IsHole, LabelOffset, Offset;
    var m := lines + [l];
    forall x ensures LabelOffset(m, |m|, x) == if l == ALabel(x) then Offset(lines, |lines|) else LabelOffset(lines, |lines|, x) {
      LabelSnoc(lines, l, x);
    }
    forall o, x
      ensures IsHole(m, o, x) <==>
              IsHole(lines, o, x) || (l.ACmd? && l.target == Some(x) && o == Offset(lines, |lines|) + 3)
    {
      HoleSnoc(lines, l, o, x);
    }
    LabelBelow(lines, name);
    if HasEntry(elems, name) {
      var j :| UpdatedAt(elems, elems', j, name, lblOff, replOff);
      TabledUpdate(elems, elems', lines, m, j, name, lblOff, replOff);
    } else {
      TabledAdd(elems, elems', lines, m, name, lblOff, replOff);
    }
  }

  lemma LabelBelow(lines: seq<ALine>, name: string)
    requires ValidLines(lines)
    ensures LabelOffset(lines, |lines|, name) <= Offset(lines, |lines|)
  {
    LabelOffsetBound(lines, |lines|, name);
  }

  /** What one more line changes for the labels. */
  ghost predicate Grows(lines: seq<ALine>, m: seq<ALine>, name: string, lblOff: nat, replOff: nat)
    requires ValidLines(lines) && ValidLines(m)
  {
    && (forall x :: x != name ==> LabelOffset(m, |m|, x) == LabelOffset(lines, |lines|, x))
    && LabelOffset(m, |m|, name) == (if lblOff != 0 then lblOff else LabelOffset(lines, |lines|, name))
    && (forall o, x :: IsHole(m, o, x) <==> IsHole(lines, o, x) || (replOff != 0 && x == name && o == replOff))
  }

  lemma TabledUpdate(elems: seq<Replacement>, elems': seq<Replacement>, lines: seq<ALine>, m: seq<ALine>,
                     j: nat, name: string, lblOff: nat, replOff: nat)
    requires ValidLines(lines) && ValidLines(m) && Tabled(elems, lines)
    requires UpdatedAt(elems, elems', j, name, lblOff, replOff) && Grows(lines, m, name, lblOff, replOff)
    ensures Tabled(elems', m)
  {
    hide IsHole, LabelOffset;
    forall i | 0 <= i < |elems'| ensures Describes(elems'[i], m) {
      assert Describes(elems[i], lines);
      assert i != j ==> elems[i].name != name;
    }
    forall x | HasEntry(elems, x) ensures HasEntry(elems', x) {
      var i :| 0 <= i < |elems| && elems[i].name == x;
      assert elems'[i].name == x;
    }
    assert elems'[j].name == name;
  }

  lemma TabledAdd(elems: seq<Replacement>, elems': seq<Replacement>, lines: seq<ALine>, m: seq<ALine>,
                  name: string, lblOff: nat, replOff: nat)
    requires ValidLines(lines) && ValidLines(m) && Tabled(elems, lines) && !HasEntry(elems, name)
    requires elems' == elems + [Updated(Replacement(name, 0, []), lblOff, replOff)]
    requires Grows(lines, m, name, lblOff, replOff)
    ensures Tabled(elems', m)
  {
    hide IsHole, LabelOffset;
    forall i | 0 <= i < |elems'| ensures Describes(elems'[i], m) {
      if i < |elems| {
        assert Describes(elems[i], lines) && elems[i].name != name;
      }
    }
    forall x | HasEntry(elems, x) || x == name ensures HasEntry(elems', x) {
      if x == name {
        assert elems'[|elems|].name == x;
      } else {
        var i :| 0 <= i < |elems| && elems[i].name == x;
        assert elems'[i].name == x;
      }
    }
  }

  class Replacements {
    var elems: seq<Replacement>

    constructor ()
      ensures elems == []
    {
      elems := [];
    }

    /** `cf_asm_register_replacement`. */
    method Register(name: string, lblOff: nat, replOff: nat)
      modifies this
      ensures Registered(old(elems), elems, name, lblOff, replOff)
    {
      var j := 0;
      while j < |elems|
        invariant 0 <= j <= |elems| && elems == old(elems)
        invariant forall i :: 0 <= i < j ==> elems[i].name != name
      {
        if elems[j].name == name {
          elems := elems[j := Updated(elems[j], lblOff, replOff)];
          assert UpdatedAt(old(elems), elems, j, name, lblOff, replOff);
          return;
        }
        j := j + 1;
      }
      elems := elems + [Updated(Replacement(name, 0, []), lblOff, replOff)];
    }
  }

  // ----- patching -----

  lemma {:induction false} OffsetMonotone(lines: seq<ALine>, k: nat, m: nat)
    requires k <= m <= |lines| && ValidLines(lines)
    ensures Offset(lines, k) <= Offset(lines, m)
    decreases m
  {
    hide CmdBytes;
    if k < m {
      OffsetMonotone(lines, k, m - 1);
    }
  }

  /** The hole of a line lies inside its code. */
  lemma HoleInside(lines: seq<ALine>, k: nat, o: nat, name: string)
    requires k < |lines| && ValidLines(lines) && HoleOf(lines, k, o, name)
    ensures o + 4 <= Offset(lines, k + 1)
  {
    hide ArgsBytes, DescriptorBytes;
  }

  /** Different holes do not overlap. */
  lemma HolesApart(lines: seq<ALine>, o: nat, name: string, o': nat, name': string)
    requires ValidLines(lines) && IsHole(lines, o, name) && IsHole(lines, o', name')
    ensures o == o' ==> name == name'
    ensures o != o' ==> o + 4 <= o' || o' + 4 <= o
    ensures o + 4 <= Offset(lines, |lines|)
  {
    hide Offset;
    var k :| 0 <= k < |lines| && HoleOf(lines, k, o, name);
    var k' :| 0 <= k' < |lines| && HoleOf(lines, k', o', name');
    HoleInside(lines, k, o, name);
    HoleInside(lines, k', o', name');
    OffsetMonotone(lines, k + 1, |lines|);
    if k < k' {
      OffsetMonotone(lines, k + 1, k');
    } else if k' < k {
      OffsetMonotone(lines, k' + 1, k);
    }
  }

  /** Index x of the code belongs to the hole at o. */
  predicate Covers(o: nat, x: nat) { o <= x < o + 4 }

  ghost predicate InHole(lines: seq<ALine>, x: nat)
    requires ValidLines(lines)
  {
    exists o, name :: IsHole(lines, o, name) && Covers(o, x)
  }

  lemma CmdBytesParts(line: ALine, at: nat, env: Env)
    requires line.ACmd? && line.Valid()
    ensures |CmdBytes(line, at, env)| == |CmdBytes(line, at, ZeroEnv())|
    ensures line.target.Some? ==> |CmdBytes(line, at, env)| >= 7 && CmdBytes(line, at, env)[3..7] == LE32(env(line.target.value))
    ensures forall x :: 0 <= x < |CmdBytes(line, at, env)| && (line.target.None? || !Covers(3, x)) ==>
              CmdBytes(line, at, env)[x] == CmdBytes(line, at, ZeroEnv())[x]
  {
    hide ArgsBytes, LE32;
    var head, args := [line.opcode] + DescriptorBytes(line), ArgsBytes(line.args, at);
    var t, z := TargetBytes(line.target, env), TargetBytes(line.target, ZeroEnv());
    assert CmdBytes(line, at, env) == head + t + args;
    assert CmdBytes(line, at, ZeroEnv()) == head + z + args;
    assert |head| == 3 && |t| == |z|;
  }

  /** Line k of the code, taken out. */
  lemma CodeSlice(lines: seq<ALine>, k: nat, env: Env)
    requires k < |lines| && ValidLines(lines) && lines[k].ACmd?
    ensures var n := |lines|;
            Offset(lines, k + 1) <= |Code(lines, n, env)| == Offset(lines, n) &&
            Offset(lines, k + 1) == Offset(lines, k) + |CmdBytes(lines[k], PoolAt(lines, k), env)| &&
            Code(lines, n, env)[Offset(lines, k)..Offset(lines, k + 1)] == CmdBytes(lines[k], PoolAt(lines, k), env)
  {
    hide CmdBytes, Code;
    var n := |lines|;
    CodeLength(lines, k, env);
    CodeLength(lines, k + 1, env);
    CodeLength(lines, n, env);
    CodePrefix(lines, k + 1, n, env);
    LayoutSteps(lines, k, env);
    var c := Code(lines, k + 1, env);
    assert c[|Code(lines, k, env)|..] == CmdBytes(lines[k], PoolAt(lines, k), env);
    assert Code(lines, n, env)[..|c|] == c;
  }

  /** At a hole the code holds the address of its label. */
  lemma CodeAtHole(lines: seq<ALine>, o: nat, name: string, env: Env)
    requires ValidLines(lines) && IsHole(lines, o, name)
    ensures o + 4 <= |Code(lines, |lines|, env)| && Code(lines, |lines|, env)[o..o + 4] == LE32(env(name))
  {
    hide CmdBytes, Code, LE32;
    var k :| 0 <= k < |lines| && HoleOf(lines, k, o, name);
    var bytes := CmdBytes(lines[k], PoolAt(lines, k), env);
    CodeSlice(lines, k, env);
    CmdBytesParts(lines[k], PoolAt(lines, k), env);
    var off, code := Offset(lines, k), Code(lines, |lines|, env);
    assert code[off..off + |bytes|] == bytes && bytes[3..7] == LE32(env(name));
    SliceOfSlice(code, off, off + |bytes|, 3, 7);
  }

  lemma SliceOfSlice(s: seq<Byte>, lo: nat, hi: nat, i: nat, j: nat)
    requires lo <= hi <= |s| && i <= j <= hi - lo
    ensures s[lo..hi][i..j] == s[lo + i..lo + j]
  {
    forall k | 0 <= k < j - i ensures s[lo..hi][i..j][k] == s[lo + i..lo + j][k] {
    }
  }

  /** The code of line k outside its hole. */
  lemma LineElsewhere(lines: seq<ALine>, k: nat, at: nat, env: Env, y: nat)
    requires k < |lines| && ValidLines(lines) && y < |LineCode(lines[k], at, env)|
    requires !InHole(lines, Offset(lines, k) + y)
    ensures |LineCode(lines[k], at, ZeroEnv())| == |LineCode(lines[k], at, env)|
    ensures LineCode(lines[k], at, env)[y] == LineCode(lines[k], at, ZeroEnv())[y]
  {
    hide CmdBytes, InHole, IsHole, Offset;
    var line := lines[k];
    CmdBytesParts(line, at, env);
    if line.target.Some? {
      HoleCovers(lines, k, line.target.value, Offset(lines, k) + y);
    }
  }

  lemma SameAt(a: seq<Byte>, b: seq<Byte>, a': seq<Byte>, b': seq<Byte>, x: nat)
    requires |a| == |a'| && |b| == |b'| && x < |a + b|
    requires x < |a| ==> a[x] == a'[x]
    requires x >= |a| ==> b[x - |a|] == b'[x - |a|]
    ensures |a' + b'| == |a + b| && (a + b)[x] == (a' + b')[x]
  {
  }

  /** Outside the holes the code does not depend on the addresses. */
  lemma {:induction false} CodeElsewhere(lines: seq<ALine>, k: nat, env: Env, x: nat)
    requires k <= |lines| && ValidLines(lines) && x < |Code(lines, k, env)| && !InHole(lines, x)
    ensures |Code(lines, k, ZeroEnv())| == |Code(lines, k, env)|
    ensures Code(lines, k, env)[x] == Code(lines, k, ZeroEnv())[x]
    decreases k
  {
    hide LineCode, InHole, Code, ZeroEnv;
    CodeLength(lines, k, env);
    CodeNothing(lines, env);
    CodeLength(lines, k - 1, env);
    var off := Offset(lines, k - 1);
    CodeStep(lines, k - 1, lines[k - 1], env);
    CodeStep(lines, k - 1, lines[k - 1], ZeroEnv());
    if x < off {
      CodeElsewhere(lines, k - 1, env, x);
    } else {
      LineElsewhere(lines, k - 1, PoolAt(lines, k - 1), env, x - off);
    }
    SameAt(Code(lines, k - 1, env), LineCode(lines[k - 1], PoolAt(lines, k - 1), env),
           Code(lines, k - 1, ZeroEnv()), LineCode(lines[k - 1], PoolAt(lines, k - 1), ZeroEnv()), x);
  }

  lemma CodeNothing(lines: seq<ALine>, env: Env)
    requires ValidLines(lines)
    ensures Code(lines, 0, env) == []
  {
  }

  lemma HoleCovers(lines: seq<ALine>, k: nat, name: string, x: nat)
    requires k < |lines| && ValidLines(lines) && lines[k].ACmd? && lines[k].target == Some(name)
    ensures Covers(Offset(lines, k) + 3, x) ==> InHole(lines, x)
  {
    hide Offset;
    assert HoleOf(lines, k, Offset(lines, k) + 3, name);
    assert IsHole(lines, Offset(lines, k) + 3, name);
  }

  /** `memcpy(itself.content + o, buff, 4)`. */
  function Overwrite(code: seq<Byte>, o: nat, bytes: seq<Byte>): (r: seq<Byte>)
    requires o + |bytes| <= |code|
    ensures |r| == |code|
    ensures forall x :: 0 <= x < |code| ==> r[x] == if o <= x < o + |bytes| then bytes[x - o] else code[x]
  {
    code[..o] + bytes + code[o + |bytes|..]
  }

  /** The code while it is patched: the holes of the labels in `done` hold their address,
      the others nothing yet, and everything else is as it was. */
  ghost predicate PatchedFor(lines: seq<ALine>, code: seq<Byte>, env: Env, done: iset<(nat, string)>)
    requires ValidLines(lines)
  {
    && |code| == Offset(lines, |lines|)
    && (forall o: nat, name :: IsHole(lines, o, name) && (o, name) in done ==>
          o + 4 <= |code| && code[o..o + 4] == LE32(env(name)))
    && (forall x :: 0 <= x < |code| && !InHole(lines, x) ==> code[x] == Code(lines, |lines|, ZeroEnv())[x])
  }

  /** One patch. */
  lemma PatchOne(lines: seq<ALine>, code: seq<Byte>, env: Env, done: iset<(nat, string)>, o: nat, name: string)
    requires ValidLines(lines) && PatchedFor(lines, code, env, done) && IsHole(lines, o, name)
    ensures o + 4 <= |code|
    ensures PatchedFor(lines, Overwrite(code, o, LE32(env(name))), env, done + iset{(o, name)})
  {
    hide IsHole, LE32, Code, Offset;
    HolesApart(lines, o, name, o, name);
    CodeLength(lines, |lines|, ZeroEnv());
    var r := Overwrite(code, o, LE32(env(name)));
    forall o': nat, name' | IsHole(lines, o', name') && (o', name') in done + iset{(o, name)}
      ensures o' + 4 <= |r| && r[o'..o' + 4] == LE32(env(name'))
    {
      HolesApart(lines, o, name, o', name');
      if o' != o {
        assert r[o'..o' + 4] == code[o'..o' + 4];
      }
    }
    forall x | 0 <= x < |r| && !InHole(lines, x) ensures r[x] == Code(lines, |lines|, ZeroEnv())[x] {
      assert !Covers(o, x);
    }
  }

  lemma PatchedIndex(lines: seq<ALine>, code: seq<Byte>, env: Env, done: iset<(nat, string)>, x: nat)
    requires ValidLines(lines) && PatchedFor(lines, code, env, done) && x < |code|
    requires forall o: nat, name :: IsHole(lines, o, name) ==> (o, name) in done
    ensures x < |Code(lines, |lines|, env)| && code[x] == Code(lines, |lines|, env)[x]
  {
    hide IsHole, LE32, Code, Offset;
    CodeLength(lines, |lines|, env);
    CodeLength(lines, |lines|, ZeroEnv());
    if InHole(lines, x) {
      var o: nat, name :| IsHole(lines, o, name) && Covers(o, x);
      CodeAtHole(lines, o, name, env);
      assert code[o..o + 4][x - o] == Code(lines, |lines|, env)[o..o + 4][x - o];
    } else {
      CodeElsewhere(lines, |lines|, env, x);
    }
  }

  /** Once every hole is patched the code is the final one. */
  lemma AllPatched(lines: seq<ALine>, code: seq<Byte>, env: Env, done: iset<(nat, string)>)
    requires ValidLines(lines) && PatchedFor(lines, code, env, done)
    requires forall o: nat, name :: IsHole(lines, o, name) ==> (o, name) in done
    ensures code == Code(lines, |lines|, env)
  {
    hide IsHole, Code, InHole, Offset;
    CodeLength(lines, |lines|, env);
    forall x | 0 <= x < |code| ensures code[x] == Code(lines, |lines|, env)[x] {
      PatchedIndex(lines, code, env, done, x);
    }
  }

  lemma NothingPatched(lines: seq<ALine>, env: Env)
    requires ValidLines(lines)
    ensures PatchedFor(lines, Code(lines, |lines|, ZeroEnv()), env, iset{})
  {
  }

  /** The table is right, and it is the one of the holes to patch. */
  lemma EntryHole(elems: seq<Replacement>, lines: seq<ALine>, i: nat, j: nat)
    requires ValidLines(lines) && Tabled(elems, lines) && i < |elems| && j < |elems[i].offs|
    ensures IsHole(lines, elems[i].offs[j], elems[i].name)
    ensures elems[i].lblOff == LabelOffset(lines, |lines|, elems[i].name)
  {
    hide IsHole;
    assert Describes(elems[i], lines);
    assert elems[i].offs[j] in elems[i].offs;
  }

  /** Second phase: the addresses are patched in, entry by entry. */
  method Patch(elems: seq<Replacement>, itself: seq<Byte>, stringLen: nat, ghost lines: seq<ALine>)
    returns (code: seq<Byte>)
    requires ValidLines(lines) && Tabled(elems, lines)
    requires itself == Code(lines, |lines|, ZeroEnv()) && stringLen == Base(lines)
    ensures code == Code(lines, |lines|, Address(lines))
  {
    hide Code, IsHole, LabelOffset, Base, InHole, Tabled, PatchedFor, LE32;
    ghost var env := Address(lines);
    ghost var done: iset<(nat, string)> := iset{};
    code := itself;
    NothingPatched(lines, env);
    var i := 0;
    while i < |elems|
      invariant 0 <= i <= |elems| && PatchedFor(lines, code, env, done)
      invariant forall i', j' :: 0 <= i' < i && 0 <= j' < |elems[i'].offs| ==> (elems[i'].offs[j'], elems[i'].name) in done
    {
      var repl := elems[i];
      var j := 0;
      while j < |repl.offs|
        invariant 0 <= j <= |repl.offs| && PatchedFor(lines, code, env, done)
        invariant forall i', j' :: 0 <= i' < i && 0 <= j' < |elems[i'].offs| ==> (elems[i'].offs[j'], elems[i'].name) in done
        invariant forall j' :: 0 <= j' < j ==> (repl.offs[j'], repl.name) in done
      {
        EntryHole(elems, lines, i, j);
        PatchOne(lines, code, env, done, repl.offs[j], repl.name);
        code := Overwrite(code, repl.offs[j], LE32(repl.lblOff + stringLen));
        done := done + iset{(repl.offs[j], repl.name)};
        j := j + 1;
      }
      i := i + 1;
    }
    forall o: nat, name | IsHole(lines, o, name) ensures (o, name) in done {
      HoleHasEntry(elems, lines, o, name);
      var i', j' :| 0 <= i' < |elems| && 0 <= j' < |elems[i'].offs| && elems[i'].offs[j'] == o && elems[i'].name == name;
      assert (elems[i'].offs[j'], elems[i'].name) in done;
    }
    AllPatched(lines, code, env, done);
  }

  lemma HoleHasEntry(elems: seq<Replacement>, lines: seq<ALine>, o: nat, name: string)
    requires ValidLines(lines) && Tabled(elems, lines) && IsHole(lines, o, name)
    ensures exists i, j :: 0 <= i < |elems| && 0 <= j < |elems[i].offs| && elems[i].offs[j] == o && elems[i].name == name
  {
    hide IsHole, LabelOffset;
    assert HasEntry(elems, name);
    var i :| 0 <= i < |elems| && elems[i].name == name;
    assert Describes(elems[i], lines);
    assert o in elems[i].offs;
  }

  // ----- the assembler -----

  method FindDirective(val: string) returns (r: Option<Mnemonic>)
    ensures r == DirectiveOf(val)
  {
    var i := 0;
    while i < DIRECTIVES
      invariant 0 <= i <= DIRECTIVES && DirectiveOf(val) == DirectiveFrom(val, i)
    {
      hide Name;
      if Name(Directive(i)) == val { return Some(Directive(i)); }
      i := i + 1;
    }
    r := None;
  }

  /** The argument descriptor of a command with these argument types. */
  method Describe(types: seq<int>) returns (argdesc: int)
    requires |types| <= 3
    ensures argdesc == Descriptor(types)
  {
    argdesc := |types| * 8192;
    var i, weight := 0, 2048;
    while i < |types|
      invariant 0 <= i <= |types|
      invariant weight == (if i == 0 then 2048 else if i == 1 then 512 else if i == 2 then 128 else 32)
      invariant argdesc == |types| * 8192 + (if i > 0 then types[0] * 2048 else 0) +
                           (if i > 1 then types[1] * 512 else 0) + (if i > 2 then types[2] * 128 else 0)
    {
      argdesc := argdesc + types[i] * weight;
      weight := weight / 4;
      i := i + 1;
    }
  }

  /** One argument more. */
  lemma EncodeStep(args: seq<AArg>, i: nat, at: nat, s: seq<Byte>, c: seq<Byte>)
    requires i < |args|
    ensures s + ArgPool(args[..i + 1]) ==
            s + ArgPool(args[..i]) + (if args[i].AsStr? then PoolEntry(args[i].s) else [])
    ensures c + ArgsBytes(args[..i + 1], at) ==
            c + ArgsBytes(args[..i], at) + ArgBytes(args[i], at + |ArgPool(args[..i])|)
  {
    hide ArgPool, ArgsBytes, PoolEntry, ArgBytes;
    ArgsSnoc(args[..i + 1], at);
    assert args[..i + 1][..i] == args[..i] && args[..i + 1][i] == args[i];
  }

  /** Encodes the arguments: numbers and registers in the code, strings in the pool. */
  method EncodeArgs(args: seq<AArg>, stringargs0: seq<Byte>, itself0: seq<Byte>)
    returns (stringargs: seq<Byte>, itself: seq<Byte>)
    ensures stringargs == stringargs0 + ArgPool(args)
    ensures itself == itself0 + ArgsBytes(args, |stringargs0|)
  {
    hide ArgPool, ArgsBytes, PoolEntry, ArgBytes;
    stringargs, itself := stringargs0, itself0;
    var i := 0;
    NothingEncoded(|stringargs0|);
    assert args[..0] == [] && stringargs0 + [] == stringargs0 && itself0 + [] == itself0;
    while i < |args|
      invariant 0 <= i <= |args|
      invariant stringargs == stringargs0 + ArgPool(args[..i])
      invariant itself == itself0 + ArgsBytes(args[..i], |stringargs0|)
    {
      EncodeStep(args, i, |stringargs0|, stringargs0, itself0);
      stringargs, itself := EncodeArg(args[i], stringargs, itself);
      i := i + 1;
    }
    assert args[..i] == args;
  }

  method EncodeArg(arg: AArg, stringargs0: seq<Byte>, itself0: seq<Byte>)
    returns (stringargs: seq<Byte>, itself: seq<Byte>)
    ensures stringargs == stringargs0 + if arg.AsStr? then PoolEntry(arg.s) else []
    ensures itself == itself0 + ArgBytes(arg, |stringargs0|)
  {
    hide LE32, StringBytes;
    stringargs := stringargs0;
    match arg {
      case AsReg(reg) => itself := itself0 + [reg];
      case AsNum(num) => itself := itself0 + LE32(num);
      case AsStr(val) =>
        itself := itself0 + LE32(|stringargs|);
        stringargs := stringargs + LE32(|val|) + StringBytes(val);
    }
  }

  lemma NothingEncoded(at: nat)
    ensures ArgPool([]) == [] && ArgsBytes([], at) == []
  {
  }

  /** Encodes one command behind the code so far; a jump's address is left 0. */
  method EncodeCommand(line: ALine, stringargs0: seq<Byte>, itself0: seq<Byte>)
    returns (stringargs: seq<Byte>, itself: seq<Byte>)
    requires line.ACmd? && line.Valid()
    ensures stringargs == stringargs0 + ArgPool(line.args)
    ensures itself == itself0 + CmdBytes(line, |stringargs0|, ZeroEnv())
  {
    hide ArgPool, ArgsBytes, LE32;
    var argdesc := Describe(Types(line.target, line.args));
    itself := itself0 + [line.opcode] + [argdesc / 256 % 256, argdesc % 256];
    if line.target.Some? { itself := itself + LE32(0); }
    stringargs, itself := EncodeArgs(line.args, stringargs0, itself);
  }

  lemma ParseLonger(b: Build, text: string, pos: nat, lines: seq<ALine>, line: string, next: nat, toks: seq<Tok>)
    requires pos <= |text| && CfgTokens.LineAt(text, pos) == Some((line, next)) && Tokenize(line) == Some(toks)
    ensures next <= |text|
    ensures ParseFrom(b, text, pos, lines) ==
            match ParseLine(b, toks)
            case ParseError => ParseError
            case UnknownDirective => UnknownDirective
            case Done(l) => ParseFrom(b, text, next, lines + [l])
  {
    hide ParseLine, Tokenize;
  }

  /** `cf_cfg_assembler`. */
  method Assemble(b: Build, text: string) returns (r: Assembled<seq<Byte>>)
    requires Readable(text, 0)
    ensures match ParseFrom(b, text, 0, [])
            case ParseError => r == ParseError
            case UnknownDirective => r == UnknownDirective
            case Done(lines) => ValidLines(lines) && r == Done(Layout(lines))
  {
    hide ParseLine, Tokenize, Tabled, Layout, LE32, CmdBytes, ArgPool;
    var table := new Replacements();
    var stringargs := Prologue(0);
    var itself: seq<Byte> := [];
    var pos := 0;
    ghost var lines: seq<ALine> := [];
    TabledEmpty();
    NothingYet();
    while true
      invariant 0 <= pos <= |text| && Readable(text, pos)
      invariant ParseFrom(b, text, 0, []) == ParseFrom(b, text, pos, lines)
      invariant ValidLines(lines) && Tabled(table.elems, lines)
      invariant stringargs == Prologue(0) + Pool(lines, |lines|)
      invariant itself == Code(lines, |lines|, ZeroEnv())
      decreases |text| - pos
    {
      hide ParseFrom, Code, Pool, Prologue, ValidLines;
      var line, next := AsmLine(text, pos);
      if line.None? {
        ParseEnd(b, text, pos, lines);
        break;
      }
      ReadableLine(text, pos, line.value, next);
      var toks := Tokenizer(line.value);
      ParseLonger(b, text, pos, lines, line.value, next, toks);
      var l := Parse(b, toks);
      match l {
        case ParseError => return ParseError;
        case UnknownDirective => return UnknownDirective;
        case Done(c) =>
          LayoutSnoc(lines, c);
          ghost var before := table.elems;
          match c {
            case ALabel(name) =>
              table.Register(name, |itself|, 0);
              TabledSnoc(before, table.elems, lines, c, name, |itself|, 0);
            case ACmd(opcode, target, args) =>
              if target.Some? {
                table.Register(target.value, 0, |itself| + 3);
                TabledSnoc(before, table.elems, lines, c, target.value, 0, |itself| + 3);
              } else {
                TabledPlain(before, lines, c);
              }
              stringargs, itself := EncodeCommand(c, stringargs, itself);
          }
          Joined(Prologue(0), lines, c);
          lines := lines + [c];
      }
      pos := next;
    }
    var code := Patch(table.elems, itself, |stringargs|, lines);
    LayoutWhole(lines, stringargs, code);
    r := Done(Overwrite(stringargs + code, 3, LE32(|stringargs|)));
  }

  lemma Joined(pro: seq<Byte>, lines: seq<ALine>, l: ALine)
    requires ValidLines(lines) && l.Valid() && ValidLines(lines + [l]) && |pro| == PROLOGUE_SIZE
    ensures pro + Pool(lines + [l], |lines| + 1) == pro + Pool(lines, |lines|) + LinePool(l)
    ensures l.ALabel? ==> pro + Pool(lines + [l], |lines| + 1) == pro + Pool(lines, |lines|)
    ensures l.ALabel? ==> Code(lines + [l], |lines| + 1, ZeroEnv()) == Code(lines, |lines|, ZeroEnv())
    ensures |pro + Pool(lines, |lines|)| == PoolAt(lines, |lines|) && |lines + [l]| == |lines| + 1
  {
    hide Pool, Code;
    LayoutSnoc(lines, l);
    assert Code(lines, |lines|, ZeroEnv()) + [] == Code(lines, |lines|, ZeroEnv());
    assert pro + Pool(lines, |lines|) + [] == pro + Pool(lines, |lines|);
    if l.ALabel? {
      assert LineCode(l, PoolAt(lines, |lines|), ZeroEnv()) == [] && LinePool(l) == [];
    }
    Associated(pro, Pool(lines, |lines|), LinePool(l));
  }

  lemma Associated(a: seq<Byte>, b: seq<Byte>, c: seq<Byte>)
    ensures a + (b + c) == a + b + c
  {
  }

  lemma TabledEmpty()
    ensures Tabled([], [])
  {
  }

  lemma NothingYet()
    ensures Pool([], 0) == [] && Code([], 0, ZeroEnv()) == [] && Prologue(0) + [] == Prologue(0)
  {
  }

  lemma TabledPlain(elems: seq<Replacement>, lines: seq<ALine>, l: ALine)
    requires ValidLines(lines) && l.Valid() && ValidLines(lines + [l]) && Tabled(elems, lines)
    requires l.ACmd? && l.target.None?
    ensures Tabled(elems, lines + [l])
  {
    hide IsHole, LabelOffset, Offset;
    var m := lines + [l];
    forall x ensures LabelOffset(m, |m|, x) == LabelOffset(lines, |lines|, x) {
      LabelSnoc(lines, l, x);
    }
    forall o, x ensures IsHole(m, o, x) <==> IsHole(lines, o, x) {
      HoleSnoc(lines, l, o, x);
    }
    forall i | 0 <= i < |elems| ensures Describes(elems[i], m) {
      assert Describes(elems[i], lines);
    }
  }

  lemma ParseEnd(b: Build, text: string, pos: nat, lines: seq<ALine>)
    requires pos <= |text| && CfgTokens.LineAt(text, pos).None?
    ensures ParseFrom(b, text, pos, lines) == Done(lines)
  {
  }

  lemma ReadableLine(text: string, pos: nat, line: string, next: nat)
    requires pos <= |text| && Readable(text, pos) && CfgTokens.LineAt(text, pos) == Some((line, next))
    ensures next <= |text| && Tokenize(line).Some? && Readable(text, next)
  {
  }

  lemma LayoutWhole(lines: seq<ALine>, stringargs: seq<Byte>, code: seq<Byte>)
    requires ValidLines(lines) && stringargs == Prologue(0) + Pool(lines, |lines|)
    requires code == Code(lines, |lines|, Address(lines))
    ensures |stringargs| == Base(lines) && 7 <= |stringargs + code|
    ensures Overwrite(stringargs + code, 3, LE32(|stringargs|)) == Layout(lines)
  {
    hide Pool, Code, LE32, Overwrite;
    PatchPrologue([ASM_JMP, 0x30, 0x00], LE32(0), Pool(lines, |lines|), code, LE32(|stringargs|));
  }

  lemma PatchPrologue(head: seq<Byte>, old4: seq<Byte>, pool: seq<Byte>, code: seq<Byte>, new4: seq<Byte>)
    requires |head| == 3 && |old4| == 4 && |new4| == 4
    ensures Overwrite(head + old4 + pool + code, 3, new4) == head + new4 + pool + code
  {
  }

  /** The directive and argument count of one tokenized line. */
  method Parse(b: Build, toks: seq<Tok>) returns (r: Assembled<ALine>)
    ensures r == ParseLine(b, toks)
  {
    hide DirectiveOf, ArgsOf, Opcode;
    if toks == [] { return UnknownDirective; }
    var d := FindDirective(toks[0].val);
    if d.Some? {
      if |toks| != 1 + Arity(d.value) { return ParseError; }
      if IsJump(d.value) { return Done(ACmd(Opcode(b, d.value), Some(toks[1].val), ArgsOf(toks[2..]))); }
      return Done(ACmd(Opcode(b, d.value), None, ArgsOf(toks[1..])));
    }
    if toks[0].kind == TLbl { return Done(ALabel(toks[0].val)); }
    return UnknownDirective;
  }
}
