/**
 The assembler reads the generator's text.

 Every generated line is parsed as the line it was written for: directives are told apart
 by their names, operands are read back, labels keep their names, and each line has the
 argument count its directive asks for.  So the bytecode of a compiled program is the
 layout of its lines.
 */
module CfgReading {
  import opened Wrappers
  import opened CfgText
  import opened CfgMachine
  import opened CfgAssembly
  import opened CfgCodegen
  import opened CfgStatements
  import opened CfgLabels
  import opened CfgListing
  import opened CfgTrees
  import opened CfgTokens
  import opened CfgBytes
  import opened CfgAssembler

  // ----- directives -----

  /** Length, first two and last character tell the directives apart. */
  function NameKey(mn: Mnemonic): (nat, char, char, char) {
    match mn
    case MODULE => (6, 'M', 'O', 'E')
    case SET => (3, 'S', 'E', 'T')
    case UNSET => (5, 'U', 'N', 'T')
    case LOAD => (4, 'L', 'O', 'D')
    case CPY => (3, 'C', 'P', 'Y')
    case EQ => (2, 'E', 'Q', 'Q')
    case NE => (2, 'N', 'E', 'E')
    case LT => (2, 'L', 'T', 'T')
    case LTEQ => (4, 'L', 'T', 'Q')
    case GT => (2, 'G', 'T', 'T')
    case GTEQ => (4, 'G', 'T', 'Q')
    case ADD => (3, 'A', 'D', 'D')
    case SUB => (3, 'S', 'U', 'B')
    case DIV => (3, 'D', 'I', 'V')
    case MUL => (3, 'M', 'U', 'L')
    case JMP => (3, 'J', 'M', 'P')
    case JMPIF => (5, 'J', 'M', 'F')
    case JMPIFNOT => (8, 'J', 'M', 'T')
    case AND => (3, 'A', 'N', 'D')
    case OR => (2, 'O', 'R', 'R')
    case ARRAY => (5, 'A', 'R', 'Y')
    case ARRAYSUBS => (9, 'A', 'R', 'S')
    case ARRAYPUSH => (9, 'A', 'R', 'H')
    case NEG => (3, 'N', 'E', 'G')
  }

  function KeyOf(s: string): (nat, char, char, char)
    requires |s| >= 2
  {
    (|s|, s[0], s[1], s[|s| - 1])
  }

  lemma KeyOfName(mn: Mnemonic)
    ensures |Name(mn)| >= 2 && KeyOf(Name(mn)) == NameKey(mn)
  {
  }

  lemma KeysDiffer(mn1: Mnemonic, mn2: Mnemonic)
    requires NameKey(mn1) == NameKey(mn2)
    ensures mn1 == mn2
  {
  }

  lemma NameInjective(mn1: Mnemonic, mn2: Mnemonic)
    requires Name(mn1) == Name(mn2)
    ensures mn1 == mn2
  {
    hide Name, NameKey;
    KeyOfName(mn1);
    KeyOfName(mn2);
    KeysDiffer(mn1, mn2);
  }

  /** The position of a directive in the source's comparisons. */
  function Position(mn: Mnemonic): (i: nat)
    ensures i < DIRECTIVES && Directive(i) == mn
  {
    match mn
    case MODULE => 0
    case SET => 1
    case UNSET => 2
    case LOAD => 3
    case CPY => 4
    case EQ => 5
    case NE => 6
    case LT => 7
    case LTEQ => 8
    case GT => 9
    case GTEQ => 10
    case ADD => 11
    case SUB => 12
    case DIV => 13
    case MUL => 14
    case JMP => 15
    case JMPIF => 16
    case JMPIFNOT => 17
    case AND => 18
    case OR => 19
    case ARRAY => 20
    case ARRAYSUBS => 21
    case ARRAYPUSH => 22
    case NEG => 23
  }

  lemma {:induction false} FoundFrom(mn: Mnemonic, i: nat)
    requires i <= Position(mn)
    ensures DirectiveFrom(Name(mn), i) == Some(mn)
    decreases Position(mn) - i
  {
    hide Name, Position, Directive;
    if Name(Directive(i)) == Name(mn) {
      NameInjective(Directive(i), mn);
    } else {
      FoundFrom(mn, i + 1);
    }
  }

  lemma {:induction false} FoundByName(val: string, i: nat)
    requires i <= DIRECTIVES
    ensures DirectiveFrom(val, i).Some? ==> val == Name(DirectiveFrom(val, i).value)
    decreases DIRECTIVES - i
  {
    hide Name, Directive;
    if i < DIRECTIVES {
      FoundByName(val, i + 1);
    }
  }

  /** Every directive is recognized by its name and by nothing else. */
  lemma DirectiveFound(val: string, mn: Mnemonic)
    ensures DirectiveOf(val) == Some(mn) <==> val == Name(mn)
  {
    hide Name, DirectiveFrom;
    FoundFrom(mn, 0);
    FoundByName(val, 0);
  }

  lemma {:induction false} NotFoundFrom(val: string, i: nat)
    requires i <= DIRECTIVES && val != [] && !('A' <= val[0] <= 'Z')
    ensures DirectiveFrom(val, i).None?
    decreases DIRECTIVES - i
  {
    hide Name;
    if i < DIRECTIVES {
      NotFoundFrom(val, i + 1);
    }
  }

  // ----- lines -----

  function AsArg(a: Operand): AArg {
    match a
    case Reg(r) => AsReg(r % 256)
    case Imm(n) => AsNum(n)
    case Lit(s) => AsStr(s)
    case Lbl(_) => AsNum(0)
  }

  /** A register of one digit, a number or a string. */
  predicate PlainOperand(a: Operand) { !a.Lbl? && (a.Reg? ==> a.r < 10) }

  function AsArgs(args: seq<Operand>): (r: seq<AArg>)
    ensures |r| == |args| && forall k :: 0 <= k < |args| ==> r[k] == AsArg(args[k])
  {
    seq(|args|, k requires 0 <= k < |args| => AsArg(args[k]))
  }

  /** Lines as the generator writes them: a jump names a label first; the argument count
      is the directive's. */
  predicate WellFormed(line: Line) {
    line.Instr? ==>
      && |line.args| == Arity(line.mn)
      && (IsJump(line.mn) ==> line.args[0].Lbl?)
      && forall k :: (if IsJump(line.mn) then 1 else 0) <= k < |line.args| ==> PlainOperand(line.args[k])
  }

  ghost predicate AllWellFormed(code: seq<Line>) { forall k :: 0 <= k < |code| ==> WellFormed(code[k]) }

  function ALineOf(b: Build, line: Line): (l: ALine)
    requires WellFormed(line)
    ensures l.Valid()
  {
    match line
    case Label(id) => ALabel(LabelName(id))
    case Instr(mn, args) =>
      if IsJump(mn) then ACmd(Opcode(b, mn), Some(LabelName(args[0].id)), AsArgs(args[1..]))
      else ACmd(Opcode(b, mn), None, AsArgs(args))
  }

  ghost function ALinesOf(b: Build, prog: seq<Line>): (r: seq<ALine>)
    requires AllWellFormed(prog)
    ensures |r| == |prog| && ValidLines(r) && forall k :: 0 <= k < |prog| ==> r[k] == ALineOf(b, prog[k])
  {
    seq(|prog|, k requires 0 <= k < |prog| => ALineOf(b, prog[k]))
  }

  lemma ReadRegister(r: nat)
    requires r < 10
    ensures ArgOf(Tok(TAtom, "reg" + DecNat(r))) == AsReg(r)
  {
    var s := "reg" + DecNat(r);
    assert DecNat(r) == [DigitChar(r)];
    assert s[..3] == "reg" && s[3] == DigitChar(r);
  }

  lemma ReadNumber(n: int)
    requires IsInt32(n)
    ensures ArgOf(Tok(TAtom, Dec(n))) == AsNum(n)
  {
    hide Dec, StrToLL, Wrap32;
    DecRoundTrip(n);
    assert Dec(n)[0] != 'r';
  }

  /** An operand's token is read as the operand. */
  lemma ReadOperand(a: Operand)
    requires PlainOperand(a)
    ensures ArgOf(TokOf(a)) == AsArg(a)
  {
    hide Dec, DecNat, StrToLL, Wrap32;
    match a
    case Reg(r) => ReadRegister(r);
    case Imm(n) => ReadNumber(n);
    case Lit(s) =>
  }

  lemma ReadOperands(args: seq<Operand>, toks: seq<Tok>)
    requires |toks| == |args| && forall k :: 0 <= k < |args| ==> toks[k] == TokOf(args[k]) && PlainOperand(args[k])
    ensures ArgsOf(toks) == AsArgs(args)
  {
    hide ArgOf, AsArg, TokOf, PlainOperand;
    forall k | 0 <= k < |args| ensures ArgsOf(toks)[k] == AsArgs(args)[k] {
      ReadOperand(args[k]);
    }
  }

  lemma LabelRead(b: Build, id: nat)
    ensures ParseLine(b, [Tok(TLbl, LabelName(id))]) == Done(ALabel(LabelName(id)))
  {
    hide DirectiveFrom, DecNat;
    assert LabelName(id)[0] == 'l';
    NotFoundFrom(LabelName(id), 0);
  }

  lemma DirectiveRead(b: Build, mn: Mnemonic, toks: seq<Tok>)
    requires toks != [] && toks[0].val == Name(mn) && |toks| == 1 + Arity(mn)
    ensures ParseLine(b, toks) ==
            if IsJump(mn) then Done(ACmd(Opcode(b, mn), Some(toks[1].val), ArgsOf(toks[2..])))
            else Done(ACmd(Opcode(b, mn), None, ArgsOf(toks[1..])))
  {
    hide DirectiveOf, Name, Opcode, ArgsOf;
    DirectiveFound(Name(mn), mn);
  }

  /** A generated line is parsed as the line it was written for. */
  lemma LineRead(b: Build, line: Line)
    requires WellFormed(line)
    ensures ParseLine(b, LineToks(line)) == Done(ALineOf(b, line))
  {
    hide ParseLine, DirectiveOf, Name, Opcode, ArgOf, AsArg, DecNat, PlainOperand, ArgsOf, AsArgs;
    match line
    case Label(id) => LabelRead(b, id);
    case Instr(mn, args) =>
      var toks := LineToks(line);
      DirectiveRead(b, mn, toks);
      if IsJump(mn) {
        assert toks[1] == TokOf(args[0]);
        ReadOperands(args[1..], toks[2..]);
      } else {
        ReadOperands(args, toks[1..]);
      }
  }

  // ----- the text -----

  lemma ALinesSnoc(b: Build, before: seq<Line>, line: Line)
    requires AllWellFormed(before + [line])
    ensures AllWellFormed(before) && WellFormed(line)
    ensures ALinesOf(b, before + [line]) == ALinesOf(b, before) + [ALineOf(b, line)]
  {
    hide WellFormed, ALineOf;
    var all := before + [line];
    assert forall k :: 0 <= k < |before| ==> before[k] == all[k];
    assert all[|before|] == line;
  }

  lemma FormedPrefix(a: seq<Line>, c: seq<Line>)
    requires AllWellFormed(a + c)
    ensures AllWellFormed(a) && AllWellFormed(c)
  {
    hide WellFormed;
    assert forall k :: 0 <= k < |a| ==> a[k] == (a + c)[k];
    assert forall k :: 0 <= k < |c| ==> c[k] == (a + c)[|a| + k];
  }

  lemma TextEnd(b: Build, text: string, lines: seq<ALine>)
    ensures ParseFrom(b, text, |text|, lines) == Done(lines) && Readable(text, |text|)
  {
  }

  lemma ReadableStep(text: string, pos: nat, line: string, next: nat)
    requires pos <= |text| && CfgTokens.LineAt(text, pos) == Some((line, next)) && next <= |text|
    requires Tokenize(line).Some? && Readable(text, next)
    ensures Readable(text, pos)
  {
    hide Tokenize;
  }

  /** From the start of any line on, the assembler reads the generated lines. */
  lemma {:induction false} TextRead(b: Build, before: seq<Line>, after: seq<Line>)
    requires AllWellFormed(before + after) && AllWellFormed(before)
    ensures |Text(before)| <= |Text(before + after)|
    ensures Readable(Text(before + after), |Text(before)|)
    ensures ParseFrom(b, Text(before + after), |Text(before)|, ALinesOf(b, before)) == Done(ALinesOf(b, before + after))
    decreases |after|
  {
    hide Text, WellFormed, ALineOf, ParseLine, Tokenize, ParseFrom, Readable, LineText, LineToks, ALinesOf, AllWellFormed;
    var text := Text(before + after);
    if after == [] {
      assert before + after == before;
      TextEnd(b, text, ALinesOf(b, before));
    } else {
      var line, rest := after[0], after[1..];
      assert after == [line] + rest && before + after == before + [line] + rest;
      FormedPrefix(before + [line], rest);
      ALinesSnoc(b, before, line);
      SplitText(before, line, rest);
      TokenizeLine(line);
      LineRead(b, line);
      TextRead(b, before + [line], rest);
      ParseLonger(b, text, |Text(before)|, ALinesOf(b, before), LineText(line), |Text(before + [line])|, LineToks(line));
      ReadableStep(text, |Text(before)|, LineText(line), |Text(before + [line])|);
    }
  }

  /** The whole text of a program is read back as the program. */
  lemma ProgramRead(b: Build, prog: seq<Line>)
    requires AllWellFormed(prog)
    ensures Readable(Text(prog), 0) && ParseFrom(b, Text(prog), 0, []) == Done(ALinesOf(b, prog))
  {
    hide Readable, ParseFrom, Text, WellFormed, ALinesOf;
    FormedNone();
    NothingRead(b);
    assert [] + prog == prog;
    TextRead(b, [], prog);
  }

  lemma NothingRead(b: Build)
    requires AllWellFormed([])
    ensures Text([]) == "" && ALinesOf(b, []) == []
  {
  }

  // ----- what the generator writes is well formed -----

  lemma FormedConcat(a: seq<Line>, c: seq<Line>)
    requires AllWellFormed(a) && AllWellFormed(c)
    ensures AllWellFormed(a + c)
  {
    hide WellFormed;
  }

  lemma FormedOne(line: Line)
    requires WellFormed(line)
    ensures AllWellFormed([line])
  {
    hide WellFormed;
  }

  lemma AtomFormed(args: seq<Operand>, mn: Mnemonic, used: Mask)
    requires |args| + 1 == Arity(mn) && !IsJump(mn) && forall k :: 0 <= k < |args| ==> PlainOperand(args[k])
    ensures AllWellFormed(GenAtom(args, mn, used).code)
  {
    hide FirstFree;
  }

  lemma {:induction false} ExprFormed(e: Expr, used: Mask)
    ensures GenExpr(e, used).reg < 8
    ensures GenExpr(e, used).reg >= 0 ==> AllWellFormed(GenExpr(e, used).code)
  {
    hide FirstFree, AllWellFormed, GenAtom, OpMnemonic, Reg16;
    match e
    case ENum(n) => AtomFormed([Imm(n)], CPY, used);
    case EStr(s) => AtomFormed([Lit(s)], CPY, used);
    case EIdent(x) => AtomFormed([Lit(x), Lit("global")], LOAD, used);
    case EBin(op, l, r) =>
      var g1 := GenExpr(l, used);
      var g2 := GenExpr(r, g1.used);
      ExprFormed(l, used);
      ExprFormed(r, g1.used);
      if g1.reg >= 0 && g2.reg >= 0 {
        FormedConcat(g1.code, g2.code);
        BinaryFormed(g1.code + g2.code, op, g1.reg, g2.reg);
      }
    case ENot(e1) =>
      var g := GenExpr(e1, used);
      ExprFormed(e1, used);
      if g.reg >= 0 {
        NegFormed(g.code, g.reg);
      }
  }

  lemma BinaryFormed(code: seq<Line>, op: BinOp, r1: int, r2: int)
    requires AllWellFormed(code) && 0 <= r1 < 8 && 0 <= r2 < 8
    ensures AllWellFormed(code + [Instr(OpMnemonic(op), [Reg16(r1), Reg16(r2)])])
  {
    hide AllWellFormed;
    var line := Instr(OpMnemonic(op), [Reg16(r1), Reg16(r2)]);
    FormedOne(line);
    FormedConcat(code, [line]);
  }

  lemma NegFormed(code: seq<Line>, r: int)
    requires AllWellFormed(code) && 0 <= r < 8
    ensures AllWellFormed(code + [Instr(NEG, [Reg16(r)])])
  {
    hide AllWellFormed;
    FormedOne(Instr(NEG, [Reg16(r)]));
    FormedConcat(code, [Instr(NEG, [Reg16(r)])]);
  }

  lemma AssignFormed(name: CStr, value: Expr, used: Mask, lbls: nat)
    requires GenAssign(name, value, used, lbls).ok
    ensures AllWellFormed(GenAssign(name, value, used, lbls).code)
  {
    hide AllWellFormed, GenExpr;
    var g1 := GenExpr(EIdent(name), used);
    var g2 := GenExpr(value, g1.used);
    var line := Instr(SET, [Reg16(g2.reg), Reg16(g1.reg)]);
    ExprFormed(EIdent(name), used);
    ExprFormed(value, g1.used);
    FormedOne(line);
    FormedConcat(g1.code, g2.code);
    FormedConcat(g1.code + g2.code, [line]);
  }

  lemma CondFormed(cond: Expr, falseLabel: nat, used: Mask, lbls: nat)
    requires GenCond(cond, falseLabel, used, lbls).ok
    ensures AllWellFormed(GenCond(cond, falseLabel, used, lbls).code)
  {
    hide AllWellFormed, GenExpr;
    var g := GenExpr(cond, used);
    ExprFormed(cond, used);
    var line := Instr(JMPIFNOT, [Lbl(falseLabel), Reg16(g.reg)]);
    FormedOne(line);
    FormedConcat(g.code, [line]);
  }

  lemma {:induction false} StmtsFormed(ss: Stmts, used: Mask, lbls: nat)
    requires GenStmts(ss, used, lbls).ok
    ensures AllWellFormed(GenStmts(ss, used, lbls).code)
    decreases ss
  {
    hide WellFormed, GenStmt;
    match ss
    case Nil =>
    case Cons(s, rest) =>
      var g := GenStmt(s, used, lbls);
      StmtFormed(s, used, lbls);
      StmtsFormed(rest, g.used, g.lbls);
      FormedConcat(g.code, GenStmts(rest, g.used, g.lbls).code);
  }

  lemma {:induction false} StmtFormed(s: Stmt, used: Mask, lbls: nat)
    requires GenStmt(s, used, lbls).ok
    ensures AllWellFormed(GenStmt(s, used, lbls).code)
    decreases s
  {
    hide AllWellFormed, GenAssign, GenStmts, GenChain, GenCond, HasElse;
    match s
    case Assign(name, value) => AssignFormed(name, value, used, lbls);
    case If(cond, body, chain) =>
      var falseLabel := if ChainLength(chain) == 1 then lbls + 1 else lbls;
      var gc := GenCond(cond, falseLabel, used, lbls + 3);
      var gb := GenStmts(body, gc.used, gc.lbls);
      var jump := Instr(JMP, [Lbl(if ChainLength(chain) > 1 then lbls + 2 else lbls)]);
      var jumps := if HasElse(chain) then [jump] else [];
      var ge := GenChain(chain, 1, HasElse(chain), lbls + 1, lbls + 2, lbls, gb.used, gb.lbls);
      var end := Label(if chain.Elif? then lbls + 2 else lbls);
      CondFormed(cond, falseLabel, used, lbls + 3);
      StmtsFormed(body, gc.used, gc.lbls);
      ChainFormed(chain, 1, HasElse(chain), lbls + 1, lbls + 2, lbls, gb.used, gb.lbls);
      FormedOne(jump);
      FormedOne(end);
      FormedNone();
      FormedConcat(gc.code, gb.code);
      FormedConcat(gc.code + gb.code, jumps);
      FormedConcat(gc.code + gb.code + jumps, ge.code);
      FormedConcat(gc.code + gb.code + jumps + ge.code, [end]);
  }

  lemma FormedNone()
    ensures AllWellFormed([])
  {
  }

  lemma {:induction false} ChainFormed(c: Chain, i: nat, hasElse: bool, lbl1: nat, lbl2: nat, lbl: nat, used: Mask, lbls: nat)
    requires GenChain(c, i, hasElse, lbl1, lbl2, lbl, used, lbls).ok
    ensures AllWellFormed(GenChain(c, i, hasElse, lbl1, lbl2, lbl, used, lbls).code)
    decreases c
  {
    hide AllWellFormed, GenStmts, GenCond;
    match c
    case End => FormedNone();
    case Else(body) =>
      StmtsFormed(body, used, lbls);
      FormedOne(Label(lbl1));
      FormedConcat([Label(lbl1)], GenStmts(body, used, lbls).code);
    case Elif(cond, body, rest) =>
      var falseLabel := if rest.Elif? || !hasElse then lbls else lbl1;
      var gc := GenCond(cond, falseLabel, used, lbls + 1);
      var gb := GenStmts(body, gc.used, gc.lbls);
      var jump := Instr(JMP, [Lbl(lbl2)]);
      var gr := GenChain(rest, i + 1, hasElse, lbl1, lbl2, lbls, gb.used - {i}, gb.lbls);
      CondFormed(cond, falseLabel, used, lbls + 1);
      StmtsFormed(body, gc.used, gc.lbls);
      ChainFormed(rest, i + 1, hasElse, lbl1, lbl2, lbls, gb.used - {i}, gb.lbls);
      FormedOne(Label(lbl));
      FormedOne(jump);
      FormedConcat([Label(lbl)], gc.code);
      FormedConcat([Label(lbl)] + gc.code, gb.code);
      FormedConcat([Label(lbl)] + gc.code + gb.code, [jump]);
      FormedConcat([Label(lbl)] + gc.code + gb.code + [jump], gr.code);
  }

  // ----- from source to bytecode -----

  /** The bytecode of a program. */
  ghost function Bytecode(b: Build, prog: seq<Line>): seq<Byte>
    requires AllWellFormed(prog)
  {
    Layout(ALinesOf(b, prog))
  }

  lemma CompiledFormed(ss: Stmts)
    requires FitsStmts(ss)
    ensures AllWellFormed(Compiled(ss))
  {
    ProgramFits(ss, 0);
    StmtsFormed(ss, {}, 0);
  }

  lemma SomeCode(s: Stmt, used: Mask, lbls: nat)
    requires GenStmt(s, used, lbls).ok
    ensures GenStmt(s, used, lbls).code != []
  {
    hide GenExpr, GenCond, GenStmts, GenChain;
  }

  lemma CompiledText(ss: Stmts)
    requires FitsStmts(ss)
    ensures Text(Compiled(ss)) == "" <==> ss.Nil?
  {
    hide GenStmt;
    ProgramFits(ss, 0);
    if ss.Cons? {
      SomeCode(ss.head, {}, 0);
    }
  }

  /** `cf_cfg_assemble` behind the parser: it yields the program's bytecode exactly if the
      expressions fit into the registers and there is a statement at all; the assembler
      does not complain about generated text. */
  method CompileProgram(b: Build, trees: Nodes) returns (r: Option<seq<Byte>>)
    requires InMemory(trees) && StmtsOf(trees).Some?
    ensures var ss := StmtsOf(trees).value; r.Some? <==> FitsStmts(ss) && ss != Nil
    ensures var ss := StmtsOf(trees).value;
            r.Some? ==> AllWellFormed(Compiled(ss)) && r.value == Bytecode(b, Compiled(ss))
  {
    hide Readable, ParseFrom, Text, GenStmts, FitsStmts, Layout, AllWellFormed, StmtsOf, InMemory;
    NodesThere(trees);
    var state := new Generator();
    ghost var ss := StmtsOf(trees).value;
    var ok := state.Trees(trees);
    ProgramFits(ss, 0);
    if !ok { return None; }
    CompiledFormed(ss);
    CompiledText(ss);
    ProgramRead(b, Compiled(ss));
    assert state.str == Text(Compiled(ss)) by { assert "" + Text(Compiled(ss)) == Text(Compiled(ss)); }
    if state.str == "" { return None; }
    var assembled := Assemble(b, state.str);
    r := Some(assembled.value);
  }
}
