/**
 The assembly text, and the generator that writes it.

 The generator is `cf_cfg_vmstate_t` of src/cfgcomp_codegenerator.c together with the
 output string: it marks and unmarks registers in a mask of eight bits, counts the labels
 it has taken, and appends line after line to one string.  Its methods follow the cases of
 the source and walk the token trees by their links; what they add is the text of the lines
 that the functions of CfgCodegen and CfgStatements give for the expressions and statements
 of CfgTrees.
 */
module CfgListing {
  import opened CfgText
  import opened CfgAssembly
  import opened CfgCodegen
  import opened CfgStatements
  import opened CfgTrees
  import P = CfgParser

  function Name(mn: Mnemonic): (s: string)
    ensures s != [] && forall k :: 0 <= k < |s| ==> 'A' <= s[k] <= 'Z'
  {
    match mn
    case MODULE => "MODULE"
    case SET => "SET"
    case UNSET => "UNSET"
    case LOAD => "LOAD"
    case CPY => "CPY"
    case EQ => "EQ"
    case NE => "NE"
    case LT => "LT"
    case LTEQ => "LTEQ"
    case GT => "GT"
    case GTEQ => "GTEQ"
    case ADD => "ADD"
    case SUB => "SUB"
    case DIV => "DIV"
    case MUL => "MUL"
    case JMP => "JMP"
    case JMPIF => "JMPIF"
    case JMPIFNOT => "JMPIFNOT"
    case AND => "AND"
    case OR => "OR"
    case ARRAY => "ARRAY"
    case ARRAYSUBS => "ARRAYSUBS"
    case ARRAYPUSH => "ARRAYPUSH"
    case NEG => "NEG"
  }

  function LabelName(id: nat): string { "label" + DecNat(id) }

  function OperandText(a: Operand): string {
    match a
    case Reg(r) => "reg" + DecNat(r)
    case Imm(n) => Dec(n)
    case Lit(s) => "\"" + Escape(s) + "\""
    case Lbl(id) => LabelName(id)
  }

  function ArgsText(sep: string, args: seq<Operand>): string
    decreases |args|
  {
    if args == [] then "" else sep + OperandText(args[0]) + ArgsText(",", args[1..])
  }

  function LineText(line: Line): string {
    match line
    case Instr(mn, args) => Name(mn) + ArgsText(" ", args)
    case Label(id) => LabelName(id) + ":"
  }

  function LineOut(line: Line): string { LineText(line) + "\n" }

  function Text(lines: seq<Line>): string {
    if lines == [] then "" else LineOut(lines[0]) + Text(lines[1..])
  }

  lemma {:induction false} TextConcat(a: seq<Line>, b: seq<Line>)
    ensures Text(a + b) == Text(a) + Text(b)
  {
    hide LineOut;
    if a == [] {
      assert a + b == b;
    } else {
      TextConcat(a[1..], b);
      assert (a + b)[1..] == a[1..] + b;
      Associative(LineOut(a[0]), Text(a[1..]), Text(b));
    }
  }

  lemma TextSnoc(s: string, code: seq<Line>, line: Line)
    ensures s + Text(code) + LineOut(line) == s + Text(code + [line])
    ensures s + LineOut(line) == s + Text([line])
  {
    hide LineOut;
    TextConcat(code, [line]);
    assert Text([line]) == LineOut(line) + "";
    Associative(s, Text(code), LineOut(line));
  }

  lemma TextAppend(s: string, a: seq<Line>, b: seq<Line>)
    ensures s + Text(a) + Text(b) == s + Text(a + b)
  {
    hide Text;
    TextConcat(a, b);
    Associative(s, Text(a), Text(b));
  }

  lemma AfterTwice(a: seq<Line>, b: seq<Line>, g: GenS)
    ensures After(a, After(b, g)) == After(a + b, g)
  {
    assert a + (b + g.code) == a + b + g.code;
  }

  /** `cf_cfg_vmstate_t` together with the output string. */
  class Generator {
    var registers: Mask
    var lblsUsed: nat
    var str: string

    constructor ()
      ensures registers == {} && lblsUsed == 0 && str == ""
    {
      registers, lblsUsed, str := {}, 0, "";
    }

    /** `cf_cfg_gencode_next_unused_register`: the loop runs to 1 << 8. */
    method NextUnusedRegister() returns (reg: int)
      ensures reg == FirstFree(registers)
    {
      var i := 0;
      while i < 256 && CheckUsed(registers, i)
        invariant 0 <= i <= 256
        invariant i <= 8 ==> FreeFrom(registers, i) == FirstFree(registers)
        invariant i > 8 ==> FirstFree(registers) == -1 && 7 in registers
      {
        i := i + 1;
      }
      if CheckUsed(registers, i) { return -1; }
      reg := i;
    }

    method Emit(line: Line)
      modifies this`str
      ensures str == old(str) + LineOut(line)
    {
      str := str + LineText(line) + "\n";
      Associative(old(str), LineText(line), "\n");
    }

    /** The cases CF_TOK_NUM, CF_TOK_STRING and CF_TOK_IDENT. */
    method Atom(args: seq<Operand>, mn: Mnemonic) returns (reg: int)
      modifies this
      ensures var g := GenAtom(args, mn, old(registers));
              reg == g.reg && registers == g.used && str == old(str) + Text(g.code)
      ensures lblsUsed == old(lblsUsed)
    {
      reg := NextUnusedRegister();
      if reg == -1 { return; }
      TextSnoc(str, [], Instr(mn, args + [Reg(reg)]));
      assert [] + [Instr(mn, args + [Reg(reg)])] == [Instr(mn, args + [Reg(reg)])];
      Emit(Instr(mn, args + [Reg(reg)]));
      registers := registers + {reg};
    }

    /** `cf_cfg_codegenerator_tokens`, for the tree t below a token. */
    method Tokens(tok: P.Token, ghost t: P.Tree) returns (reg: int)
      requires Children(t) && P.Root(t) == tok && ExprOf(t).Some?
      modifies this
      ensures var g := GenExpr(ExprOf(t).value, old(registers));
              reg == g.reg && registers == g.used && str == old(str) + Text(g.code)
      ensures lblsUsed == old(lblsUsed)
      decreases t, 1
    {
      hide Text, LineOut, FirstFree, GenAtom;
      if tok.typ == P.NUM { reg := Atom([Imm(tok.data.n)], CPY); }
      else if tok.typ == P.STRING { reg := Atom([Lit(tok.data.s)], CPY); }
      else if tok.typ == P.IDENT { reg := Atom([Lit(tok.data.s), Lit("global")], LOAD); }
      else if tok.typ == P.NOT { reg := Negation(tok, t); }
      else { reg := Operands(tok, t); }
    }

    /** The case CF_TOK_NOT: only the left link counts. */
    method Negation(tok: P.Token, ghost t: P.Tree) returns (reg: int)
      requires Children(t) && P.Root(t) == tok && ExprOf(t).Some? && tok.typ == P.NOT
      modifies this
      ensures var g := GenExpr(ExprOf(t).value, old(registers));
              reg == g.reg && registers == g.used && str == old(str) + Text(g.code)
      ensures lblsUsed == old(lblsUsed)
      decreases t, 0
    {
      hide Text, LineOut;
      ghost var t1 := if t.Pre? then t.r else t.l;
      ghost var g := GenExpr(ExprOf(t1).value, registers);
      reg := Tokens(tok.left, t1);
      TextSnoc(old(str), g.code, Instr(NEG, [Reg16(reg)]));
      Emit(Instr(NEG, [Reg16(reg)]));
    }

    /** The cases of the operators between two operands, which differ in the mnemonic. */
    method Operands(tok: P.Token, ghost t: P.Tree) returns (reg: int)
      requires Children(t) && P.Root(t) == tok && ExprOf(t).Some? && t.Bin? && OpOf(tok.typ).Some?
      modifies this
      ensures var g := GenExpr(ExprOf(t).value, old(registers));
              reg == g.reg && registers == g.used && str == old(str) + Text(g.code)
      ensures lblsUsed == old(lblsUsed)
      decreases t, 0
    {
      hide Text, LineOut, OpMnemonic;
      ghost var g1 := GenExpr(ExprOf(t.l).value, registers);
      ghost var g2 := GenExpr(ExprOf(t.r).value, g1.used);
      ToksThere(t.r);
      ghost var mem: set<object> := P.Toks(t.r);
      assert this !in mem;
      reg := Tokens(tok.left, t.l);
      var reg1 := Tokens(tok.right, t.r);
      TextAppend(old(str), g1.code, g2.code);
      if reg < 0 || reg1 < 0 { return -1; }
      var line := Instr(OpMnemonic(OpOf(tok.typ).value), [Reg16(reg), Reg16(reg1)]);
      TextSnoc(old(str), g1.code + g2.code, line);
      Emit(line);
      registers := registers - {reg as nat};
      return reg1;
    }

    /** The case CF_TOK_SET, for a statement. */
    method Assignment(tok: P.Token, ghost t: P.Tree) returns (ok: bool)
      requires Children(t) && P.Root(t) == tok && StmtOf(t).Some?
      modifies this
      ensures var s := StmtOf(t).value; var g := GenAssign(s.name, s.value, old(registers), old(lblsUsed));
              ok == g.ok && registers == g.used && lblsUsed == g.lbls && str == old(str) + Text(g.code)
    {
      hide Text, LineOut, GenExpr;
      ghost var g1 := GenExpr(ExprOf(t.l).value, registers);
      ghost var g2 := GenExpr(ExprOf(t.r).value, g1.used);
      ToksThere(t.r);
      ghost var mem: set<object> := P.Toks(t.r);
      assert this !in mem;
      var reg := Tokens(tok.left, t.l);
      var reg1 := Tokens(tok.right, t.r);
      TextAppend(old(str), g1.code, g2.code);
      if reg < 0 || reg1 < 0 { return false; }
      TextSnoc(old(str), g1.code + g2.code, Instr(SET, [Reg16(reg1), Reg16(reg)]));
      Emit(Instr(SET, [Reg16(reg1), Reg16(reg)]));
      registers := registers - {reg as nat} - {reg1 as nat};
      ok := true;
    }

    /** A condition and its JMPIFNOT. */
    method Condition(tok: P.Token, ghost t: P.Tree, falseLabel: nat) returns (ok: bool)
      requires Children(t) && P.Root(t) == tok && ExprOf(t).Some?
      modifies this
      ensures var g := GenCond(ExprOf(t).value, falseLabel, old(registers), old(lblsUsed));
              ok == g.ok && registers == g.used && lblsUsed == g.lbls && str == old(str) + Text(g.code)
    {
      hide Text, LineOut, GenExpr;
      ghost var g := GenExpr(ExprOf(t).value, registers);
      var i := Tokens(tok, t);
      if i < 0 { return false; }
      TextSnoc(old(str), g.code, Instr(JMPIFNOT, [Lbl(falseLabel), Reg16(i)]));
      Emit(Instr(JMPIFNOT, [Lbl(falseLabel), Reg16(i)]));
      registers := registers - {i as nat};
      ok := true;
    }

    /** `cf_cfg_codegenerator`: the loop over the statements. */
    method Trees(trees: Nodes) returns (ok: bool)
      requires InMemory(trees) && StmtsOf(trees).Some?
      modifies this
      ensures var g := GenStmts(StmtsOf(trees).value, old(registers), old(lblsUsed));
              ok == g.ok && registers == g.used && lblsUsed == g.lbls && str == old(str) + Text(g.code)
      decreases trees, 1
    {
      hide Text, GenStmt, ItemOf, ItemInMemory;
      var tr := trees;
      ghost var code: seq<Line> := [];
      AfterNothing(GenStmts(StmtsOf(trees).value, registers, lblsUsed), str);
      while tr.Node?
        invariant tr == trees || tr < trees
        invariant InMemory(tr) && StmtsOf(tr).Some?
        invariant str == old(str) + Text(code)
        invariant GenStmts(StmtsOf(trees).value, old(registers), old(lblsUsed)) ==
                  After(code, GenStmts(StmtsOf(tr).value, registers, lblsUsed))
        decreases tr
      {
        NodesThere(tr.next);
        ghost var mem: set<object> := NodeToks(tr.next);
        assert this !in mem;
        ghost var g := GenStmt(ItemOf(tr.head).value, registers, lblsUsed);
        TextAppend(old(str), code, g.code);
        AfterTwice(code, g.code, GenStmts(StmtsOf(tr.next).value, g.used, g.lbls));
        ok := Statement(tr.head);
        code := code + g.code;
        if !ok { return; }
        tr := tr.next;
      }
      assert code + [] == code;
      ok := true;
    }

    method Statement(item: Item) returns (ok: bool)
      requires ItemInMemory(item) && ItemOf(item).Some?
      modifies this
      ensures var g := GenStmt(ItemOf(item).value, old(registers), old(lblsUsed));
              ok == g.ok && registers == g.used && lblsUsed == g.lbls && str == old(str) + Text(g.code)
      decreases item, 1
    {
      match item {
        case Plain(tree) => ok := Assignment(P.Root(tree), tree);
        case When(_, _, _) => ok := IfStatement(item);
      }
    }

    /** The case CF_TOK_IF. */
    method IfStatement(item: Item) returns (ok: bool)
      requires ItemInMemory(item) && ItemOf(item).Some? && item.When?
      modifies this
      ensures var g := GenStmt(ItemOf(item).value, old(registers), old(lblsUsed));
              ok == g.ok && registers == g.used && lblsUsed == g.lbls && str == old(str) + Text(g.code)
      decreases item, 0
    {
      hide Text, LineOut, GenCond, GenStmts, GenChain, HasElse, ChainLength, EndsInElse, CountOthers, InMemory, OthersInMemory;
      var When(tree, body, others) := item;
      ghost var chain := OthersOf(others).value;
      ItemThere(item);
      ghost var mem: set<object> := ItemToks(item);
      assert this !in mem;
      OthersShape(others);
      var lbl, lbl1, lbl2 := lblsUsed, lblsUsed + 1, lblsUsed + 2;
      var arglen := 1 + CountOthers(others);
      ghost var gc := GenCond(ExprOf(tree).value, if arglen == 2 then lbl1 else lbl, registers, lblsUsed + 3);
      ghost var gb := GenStmts(StmtsOf(body).value, gc.used, gc.lbls);
      ghost var ge := GenChain(chain, 1, HasElse(chain), lbl1, lbl2, lbl, gb.used, gb.lbls);
      lblsUsed := lblsUsed + 3;
      ok := Condition(P.Root(tree), tree, if arglen == 2 then lbl1 else lbl);
      if !ok { return; }
      ok := Trees(body);
      TextAppend(old(str), gc.code, gb.code);
      if !ok { return; }
      ghost var code := gc.code + gb.code;
      if EndsInElse(others) {
        var jump := Instr(JMP, [Lbl(if arglen > 2 then lbl2 else lbl)]);
        TextSnoc(old(str), code, jump);
        Emit(jump);
        code := code + [jump];
      } else {
        assert code + [] == code;
      }
      ok := ChainParts(others, lbl, lbl1, lbl2);
      TextAppend(old(str), code, ge.code);
      if !ok { return; }
      TextSnoc(old(str), code + ge.code, Label(if others.OrWhen? then lbl2 else lbl));
      Emit(Label(if others.OrWhen? then lbl2 else lbl));
    }

    /** One turn of the `elseif` loop: the lines it adds, and the next false label. */
    method ElifPart(o: Others, i: nat, hasElse: bool, lbl: nat, lbl1: nat, lbl2: nat)
      returns (ok: bool, newLbl: nat, ghost piece: seq<Line>)
      requires o.OrWhen? && OthersInMemory(o) && OthersOf(o).Some?
      modifies this
      ensures str == old(str) + Text(piece)
      ensures GenChain(OthersOf(o).value, i, hasElse, lbl1, lbl2, lbl, old(registers), old(lblsUsed)) ==
              if ok then After(piece, GenChain(OthersOf(o.rest).value, i + 1, hasElse, lbl1, lbl2, newLbl, registers, lblsUsed))
              else GenS(piece, false, registers, lblsUsed)
      decreases o, 0
    {
      hide Text, LineOut, GenCond, GenStmts, InMemory, StmtsOf, ExprOf;
      var OrWhen(tree, body, rest) := o;
      OthersThere(o);
      ghost var mem: set<object> := OtherToks(o);
      assert this !in mem;
      newLbl := lblsUsed;
      var falseLabel := if rest.OrWhen? || !hasElse then newLbl else lbl1;
      ghost var gc := GenCond(ExprOf(tree).value, falseLabel, registers, lblsUsed + 1);
      ghost var gb := GenStmts(StmtsOf(body).value, gc.used, gc.lbls);
      TextSnoc(str, [], Label(lbl));
      Emit(Label(lbl));
      piece := [Label(lbl)];
      lblsUsed := lblsUsed + 1;
      assert !tree.Nil? by { NoExprOfNil(tree); }
      ok := Condition(P.Root(tree), tree, falseLabel);
      TextAppend(old(str), piece, gc.code);
      piece := piece + gc.code;
      if !ok { return; }
      ok := Trees(body);
      TextAppend(old(str), piece, gb.code);
      piece := piece + gb.code;
      if !ok { return; }
      TextSnoc(old(str), piece, Instr(JMP, [Lbl(lbl2)]));
      Emit(Instr(JMP, [Lbl(lbl2)]));
      piece := piece + [Instr(JMP, [Lbl(lbl2)])];
      registers := registers - {i};
    }

    /** The loop over `elseif` and what follows it for `else`. */
    method ChainParts(others: Others, lbl0: nat, lbl1: nat, lbl2: nat) returns (ok: bool)
      requires OthersInMemory(others) && OthersOf(others).Some?
      modifies this
      ensures var chain := OthersOf(others).value;
              var g := GenChain(chain, 1, HasElse(chain), lbl1, lbl2, lbl0, old(registers), old(lblsUsed));
              ok == g.ok && registers == g.used && lblsUsed == g.lbls && str == old(str) + Text(g.code)
      decreases others, 1
    {
      hide Text, LineOut, GenCond, GenStmts, HasElse, InMemory, ExprOf, EndsInElse;
      ghost var chain := OthersOf(others).value;
      OthersShape(others);
      var hasElse, lbl, i, o := EndsInElse(others), lbl0, 1, others;
      ghost var code: seq<Line> := [];
      AfterNothing(GenChain(chain, 1, hasElse, lbl1, lbl2, lbl0, registers, lblsUsed), str);
      while o.OrWhen?
        invariant o == others || o < others
        invariant OthersInMemory(o) && OthersOf(o).Some?
        invariant str == old(str) + Text(code)
        invariant GenChain(chain, 1, hasElse, lbl1, lbl2, lbl0, old(registers), old(lblsUsed)) ==
                  After(code, GenChain(OthersOf(o).value, i, hasElse, lbl1, lbl2, lbl, registers, lblsUsed))
        decreases o
      {
        OthersThere(o.rest);
        ghost var mem: set<object> := OtherToks(o.rest);
        assert this !in mem;
        ghost var piece;
        ok, lbl, piece := ElifPart(o, i, hasElse, lbl, lbl1, lbl2);
        TextAppend(old(str), code, piece);
        if !ok { return; }
        AfterTwice(code, piece, GenChain(OthersOf(o.rest).value, i + 1, hasElse, lbl1, lbl2, lbl, registers, lblsUsed));
        code := code + piece;
        o, i := o.rest, i + 1;
      }
      if o.Otherwise? {
        NodesThere(o.body);
        ghost var mem: set<object> := NodeToks(o.body);
        assert this !in mem;
        TextSnoc(old(str), code, Label(lbl1));
        Emit(Label(lbl1));
        ghost var gb := GenStmts(StmtsOf(o.body).value, registers, lblsUsed);
        AfterTwice(code, [Label(lbl1)], gb);
        ok := Trees(o.body);
        TextAppend(old(str), code + [Label(lbl1)], gb.code);
      } else {
        assert code + [] == code;
        ok := true;
      }
    }
  }

  lemma AfterNothing(g: GenS, s: string)
    ensures After([], g) == g && s + Text([]) == s
  {
    assert [] + g.code == g.code;
  }
}
