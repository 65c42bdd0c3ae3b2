/**
 One small program from its tree to its bytes: `if (a) b = 1; end`.

   LOAD "a","global",reg0
   JMPIFNOT label0,reg0
   LOAD "b","global",reg0
   CPY 1,reg1
   SET reg1,reg0
   label0:

 Each line is printed and laid out by itself and the pieces are put together.  Also here:
 the numbers and names of the commands, and the escapes in string literals.
 */
module CfgSample {
  import opened Wrappers
  import opened CfgText
  import opened CfgMachine
  import opened CfgAssembly
  import opened CfgCodegen
  import opened CfgStatements
  import opened CfgLabels
  import opened CfgListing
  import opened CfgBytes
  import opened CfgReading

  /** The opcodes of src/cfgcomp.h; 3 is not used, and as written JMP gets the 6 of CPY. */
  function OpcodeNumber(b: Build, mn: Mnemonic): int {
    match mn
    case MODULE => 1 case SET => 2 case UNSET => 4 case LOAD => 5 case CPY => 6 case EQ => 7 case NE => 8
    case LT => 9 case LTEQ => 10 case GT => 11 case GTEQ => 12 case ADD => 13 case SUB => 14 case DIV => 15
    case MUL => 16 case JMP => if b.jmpOpcode then 17 else 6 case JMPIF => 18 case JMPIFNOT => 19 case AND => 20
    case OR => 21 case NEG => 22 case ARRAY => 23 case ARRAYSUBS => 24 case ARRAYPUSH => 25
  }

  lemma Opcodes(b: Build, mn: Mnemonic)
    ensures Opcode(b, mn) == OpcodeNumber(b, mn)
  {
  }

  /** The directives are written as they are called. */
  lemma Directives()
    ensures Name(MODULE) == "MODULE" && Name(SET) == "SET" && Name(UNSET) == "UNSET" && Name(LOAD) == "LOAD"
    ensures Name(CPY) == "CPY" && Name(EQ) == "EQ" && Name(NE) == "NE" && Name(LT) == "LT" && Name(LTEQ) == "LTEQ"
    ensures Name(GT) == "GT" && Name(GTEQ) == "GTEQ" && Name(ADD) == "ADD" && Name(SUB) == "SUB" && Name(DIV) == "DIV"
    ensures Name(MUL) == "MUL" && Name(JMP) == "JMP" && Name(JMPIF) == "JMPIF" && Name(JMPIFNOT) == "JMPIFNOT"
    ensures Name(AND) == "AND" && Name(OR) == "OR" && Name(NEG) == "NEG"
  {
  }

  /** What the escaped characters are written as. */
  lemma Escapes()
    ensures Escape("\"") == "\\\"" && Escape("\\") == "\\\\" && Escape("\n") == "\\n" && Escape("\r") == "\\r"
  {
  }

  /** A string literal may also have a tab as `t`; before any other character the backslash is dropped. */
  lemma OtherEscapes(c: char)
    ensures ReadStr("\\t\"") == Some(("\t", "\""))
    ensures c != 'n' && c != 't' && c != 'r' ==> ReadStr("\\" + [c] + "\"") == Some(([c], "\""))
  {
    assert "\\t\""[2..] == "\"" && ("\\" + [c] + "\"")[2..] == "\"";
    assert ReadStr("\"") == Some(("", "\""));
    assert ['\t'] + "" == "\t" && [c] + "" == [c];
  }

  function Sample(): Stmts {
    Cons(If(EIdent("a"), Cons(Assign("b", ENum(1)), Nil), End), Nil)
  }

  function Load(name: CStr): Line { Instr(LOAD, [Lit(name), Lit("global"), Reg(0)]) }

  function SampleLines(): seq<Line> {
    [Load("a"), Instr(JMPIFNOT, [Lbl(0), Reg(0)]), Load("b"), Instr(CPY, [Imm(1), Reg(1)]),
     Instr(SET, [Reg(1), Reg(0)]), Label(0)]
  }

  lemma Loads(name: CStr)
    ensures GenExpr(EIdent(name), {}) == Gen([Load(name)], 0, {0})
  {
    assert FirstFree({}) == 0;
    assert [Lit(name), Lit("global")] + [Reg(0)] == [Lit(name), Lit("global"), Reg(0)];
    assert {} + {0} == {0};
  }

  lemma CopiesOne()
    ensures GenExpr(ENum(1), {0}) == Gen([Instr(CPY, [Imm(1), Reg(1)])], 1, {0, 1})
  {
    assert FirstFree({0}) == 1;
    assert [Imm(1)] + [Reg(1)] == [Imm(1), Reg(1)];
    assert {0} + {1} == {0, 1};
  }

  lemma AssignGenerated()
    ensures GenAssign("b", ENum(1), {}, 3) ==
            GenS([Load("b"), Instr(CPY, [Imm(1), Reg(1)]), Instr(SET, [Reg(1), Reg(0)])], true, {}, 3)
  {
    Loads("b");
    CopiesOne();
    hide GenExpr;
    assert [Load("b")] + [Instr(CPY, [Imm(1), Reg(1)])] + [Instr(SET, [Reg(1), Reg(0)])] ==
           [Load("b"), Instr(CPY, [Imm(1), Reg(1)]), Instr(SET, [Reg(1), Reg(0)])];
    assert {0, 1} - {0} - {1} == {};
  }

  lemma CondGenerated()
    ensures GenCond(EIdent("a"), 0, {}, 3) == GenS([Load("a"), Instr(JMPIFNOT, [Lbl(0), Reg(0)])], true, {}, 3)
  {
    Loads("a");
    hide GenExpr;
    assert [Load("a")] + [Instr(JMPIFNOT, [Lbl(0), Reg(0)])] == [Load("a"), Instr(JMPIFNOT, [Lbl(0), Reg(0)])];
    assert {0} - {0} == {};
  }

  lemma Generated()
    ensures Compiled(Sample()) == SampleLines()
  {
    CondGenerated();
    AssignGenerated();
    hide GenCond, GenAssign;
    var body := Cons(Assign("b", ENum(1)), Nil);
    assert GenStmts(Nil, {}, 3) == GenS([], true, {}, 3);
    assert GenStmts(body, {}, 3) == After(GenAssign("b", ENum(1), {}, 3).code, GenS([], true, {}, 3));
    assert GenStmt(If(EIdent("a"), body, End), {}, 0).code == SampleLines();
  }

  lemma Digits()
    ensures Dec(1) == "1" && DecNat(0) == "0" && DecNat(1) == "1" && LabelName(0) == "label0"
  {
  }

  lemma LastArg(a: Operand)
    ensures ArgsText(",", [a]) == "," + OperandText(a)
  {
    hide OperandText;
    assert [a][1..] == [] && ArgsText(",", []) == "";
    assert "," + OperandText(a) + "" == "," + OperandText(a);
  }

  lemma TwoArgs(sep: string, a: Operand, b: Operand)
    ensures ArgsText(sep, [a, b]) == sep + OperandText(a) + ("," + OperandText(b))
  {
    hide OperandText;
    assert [a, b][1..] == [b];
    LastArg(b);
  }

  lemma ThreeArgs(a: Operand, b: Operand, c: Operand)
    ensures ArgsText(" ", [a, b, c]) == " " + OperandText(a) + ("," + OperandText(b) + ("," + OperandText(c)))
  {
    hide OperandText;
    assert [a, b, c][1..] == [b, c];
    TwoArgs(",", b, c);
  }

  lemma Operands()
    ensures OperandText(Reg(0)) == "reg0" && OperandText(Reg(1)) == "reg1" && OperandText(Imm(1)) == "1"
    ensures OperandText(Lbl(0)) == "label0"
  {
    Digits();
  }

  lemma Quoted()
    ensures OperandText(Lit("global")) == "\"global\""
    ensures OperandText(Lit("a")) == "\"a\"" && OperandText(Lit("b")) == "\"b\""
  {
    hide Escape;
    PlainEscaped("a");
    PlainEscaped("b");
    PlainEscaped("global");
  }

  lemma {:induction false} PlainEscaped(s: string)
    requires forall k :: 0 <= k < |s| ==> 'a' <= s[k] <= 'z'
    ensures Escape(s) == s
  {
    if s != [] {
      PlainEscaped(s[1..]);
    }
  }

  lemma LoadPrinted(name: CStr, quoted: string)
    requires OperandText(Lit(name)) == quoted
    ensures LineOut(Load(name)) == "LOAD " + quoted + ",\"global\",reg0\n"
  {
    hide OperandText, ArgsText;
    Operands();
    Quoted();
    ThreeArgs(Lit(name), Lit("global"), Reg(0));
    assert "LOAD" + (" " + quoted + (",\"global\"" + ",reg0")) + "\n" == "LOAD " + quoted + ",\"global\",reg0\n";
  }

  lemma OthersPrinted()
    ensures LineOut(Instr(JMPIFNOT, [Lbl(0), Reg(0)])) == "JMPIFNOT label0,reg0\n"
    ensures LineOut(Instr(CPY, [Imm(1), Reg(1)])) == "CPY 1,reg1\n"
    ensures LineOut(Instr(SET, [Reg(1), Reg(0)])) == "SET reg1,reg0\n"
    ensures LineOut(Label(0)) == "label0:\n"
  {
    hide OperandText, ArgsText, LabelName;
    Operands();
    Digits();
    TwoArgs(" ", Lbl(0), Reg(0));
    TwoArgs(" ", Imm(1), Reg(1));
    TwoArgs(" ", Reg(1), Reg(0));
  }

  lemma NamesPrinted()
    ensures LineOut(Load("a")) == "LOAD \"a\",\"global\",reg0\n"
    ensures LineOut(Load("b")) == "LOAD \"b\",\"global\",reg0\n"
  {
    hide LineOut, Load, OperandText;
    Quoted();
    LoadPrinted("a", "\"a\"");
    LoadPrinted("b", "\"b\"");
  }

  lemma Printed()
    ensures Text(SampleLines()) ==
            "LOAD \"a\",\"global\",reg0\n" + ("JMPIFNOT label0,reg0\n" + ("LOAD \"b\",\"global\",reg0\n" +
            ("CPY 1,reg1\n" + ("SET reg1,reg0\n" + "label0:\n"))))
  {
    hide LineOut, Load, Text;
    NamesPrinted();
    OthersPrinted();
    SixLines(SampleLines());
  }

  lemma SixLines(t: seq<Line>)
    requires |t| == 6
    ensures Text(t) == LineOut(t[0]) + (LineOut(t[1]) + (LineOut(t[2]) + (LineOut(t[3]) + (LineOut(t[4]) + LineOut(t[5])))))
  {
    hide LineOut;
    assert t[1..][1..] == t[2..] && t[2..][1..] == t[3..] && t[3..][1..] == t[4..] && t[4..][1..] == t[5..] && t[5..][1..] == [];
    assert LineOut(t[5]) + "" == LineOut(t[5]);
    assert Text(t[5..]) == LineOut(t[5]);
    assert Text(t[4..]) == LineOut(t[4]) + Text(t[5..]);
    assert Text(t[3..]) == LineOut(t[3]) + Text(t[4..]);
    assert Text(t[2..]) == LineOut(t[2]) + Text(t[3..]);
    assert Text(t[1..]) == LineOut(t[1]) + Text(t[2..]);
  }

  // ----- the bytecode -----

  function LoadCommand(name: string): ALine { ACmd(0x5, None, [AsStr(name), AsStr("global"), AsReg(0)]) }

  function SampleCommands(): seq<ALine> {
    [LoadCommand("a"), ACmd(0x13, Some("label0"), [AsReg(0)]), LoadCommand("b"), ACmd(0x6, None, [AsNum(1), AsReg(1)]),
     ACmd(0x2, None, [AsReg(1), AsReg(0)]), ALabel("label0")]
  }

  lemma LoadIs(b: Build, name: CStr)
    ensures WellFormed(Load(name)) && ALineOf(b, Load(name)) == LoadCommand(name)
  {
    assert AsArgs(Load(name).args) == LoadCommand(name).args;
  }

  lemma JumpIs(b: Build)
    ensures var l := Instr(JMPIFNOT, [Lbl(0), Reg(0)]);
            WellFormed(l) && ALineOf(b, l) == ACmd(0x13, Some("label0"), [AsReg(0)])
  {
    hide LabelName;
    Digits();
    assert [Lbl(0), Reg(0)][1..] == [Reg(0)];
    assert AsArgs([Reg(0)]) == [AsReg(0)];
  }

  lemma CopyIs(b: Build)
    ensures var l := Instr(CPY, [Imm(1), Reg(1)]); WellFormed(l) && ALineOf(b, l) == ACmd(0x6, None, [AsNum(1), AsReg(1)])
  {
    assert AsArgs([Imm(1), Reg(1)]) == [AsNum(1), AsReg(1)];
  }

  lemma SetIs(b: Build)
    ensures var l := Instr(SET, [Reg(1), Reg(0)]); WellFormed(l) && ALineOf(b, l) == ACmd(0x2, None, [AsReg(1), AsReg(0)])
  {
    assert AsArgs([Reg(1), Reg(0)]) == [AsReg(1), AsReg(0)];
  }

  lemma LabelIs(b: Build)
    ensures WellFormed(Label(0)) && ALineOf(b, Label(0)) == ALabel("label0")
  {
    Digits();
  }

  lemma Commands(b: Build)
    ensures AllWellFormed(SampleLines()) && ALinesOf(b, SampleLines()) == SampleCommands()
  {
    hide Load, LoadCommand, WellFormed, ALineOf, LabelName, ALinesOf;
    LoadIs(b, "a");
    LoadIs(b, "b");
    JumpIs(b);
    CopyIs(b);
    SetIs(b);
    LabelIs(b);
    var t, c := SampleLines(), SampleCommands();
    assert ALineOf(b, t[0]) == c[0] && ALineOf(b, t[1]) == c[1] && ALineOf(b, t[2]) == c[2];
    assert ALineOf(b, t[3]) == c[3] && ALineOf(b, t[4]) == c[4] && ALineOf(b, t[5]) == c[5];
    assert forall k :: 0 <= k < |t| ==> ALineOf(b, t[k]) == c[k];
  }

  lemma LoadBytes(name: string, c: Byte, at: nat, env: Env)
    requires name == [c as char]
    ensures LoadCommand(name).Valid()
    ensures LinePool(LoadCommand(name)) == [1, 0, 0, 0, c] + [6, 0, 0, 0, 103, 108, 111, 98, 97, 108]
    ensures LineCode(LoadCommand(name), at, env) == [0x5, 0x7E, 0x80] + LE32(at) + LE32(at + 5) + [0]
  {
    hide LE32, ArgPool, ArgsBytes, DescriptorBytes;
    LoadArgs(name, c, at);
    LoadDescriptor(name);
    assert [0x5] + [0x7E, 0x80] == [0x5, 0x7E, 0x80];
  }

  lemma LoadDescriptor(name: string)
    ensures LoadCommand(name).Valid() && DescriptorBytes(LoadCommand(name)) == [0x7E, 0x80]
  {
    assert Types(None, LoadCommand(name).args) == [3, 3, 1];
  }

  lemma PoolEntries(name: string, c: Byte)
    requires name == [c as char]
    ensures PoolEntry(name) == [1, 0, 0, 0, c] && PoolEntry("global") == [6, 0, 0, 0, 103, 108, 111, 98, 97, 108]
  {
    assert StringBytes(name) == [c];
    assert StringBytes("global") == [103, 108, 111, 98, 97, 108];
  }

  lemma LoadArgs(name: string, c: Byte, at: nat)
    requires name == [c as char]
    ensures var args := [AsStr(name), AsStr("global"), AsReg(0)];
            ArgPool(args) == [1, 0, 0, 0, c] + [6, 0, 0, 0, 103, 108, 111, 98, 97, 108] &&
            ArgsBytes(args, at) == LE32(at) + LE32(at + 5) + [0]
  {
    hide PoolEntry, LE32;
    PoolEntries(name, c);
    var args := [AsStr(name), AsStr("global"), AsReg(0)];
    assert args[..2][..1] == [AsStr(name)] && args[..1][..0] == [] && args[..2] == [AsStr(name), AsStr("global")];
    assert ArgPool(args[..1]) == [1, 0, 0, 0, c];
    assert ArgsBytes(args[..1], at) == LE32(at);
    assert ArgPool(args[..2]) == [1, 0, 0, 0, c] + [6, 0, 0, 0, 103, 108, 111, 98, 97, 108];
    assert ArgsBytes(args[..2], at) == LE32(at) + LE32(at + 5);
  }

  lemma JumpBytes(at: nat, env: Env)
    ensures var l := ACmd(0x13, Some("label0"), [AsReg(0)]);
            l.Valid() && LinePool(l) == [] && LineCode(l, at, env) == [0x13, 0x52, 0x00] + LE32(env("label0")) + [0]
  {
    hide LE32;
    assert [AsReg(0)][..0] == [];
    assert Types(Some("label0"), [AsReg(0)]) == [2, 1];
    assert ArgsBytes([AsReg(0)], at) == [0];
    assert [0x13] + [0x52, 0x00] == [0x13, 0x52, 0x00];
  }

  lemma CopyBytes(at: nat, env: Env)
    ensures var l := ACmd(0x6, None, [AsNum(1), AsReg(1)]);
            l.Valid() && LinePool(l) == [] && LineCode(l, at, env) == [0x6, 0x52, 0x00, 1, 0, 0, 0, 1]
  {
    assert [AsNum(1)][..0] == [] && [AsNum(1), AsReg(1)][..1] == [AsNum(1)];
    assert Types(None, [AsNum(1), AsReg(1)]) == [2, 1];
    assert ArgsBytes([AsNum(1)], at) == [1, 0, 0, 0];
  }

  lemma SetBytes(at: nat, env: Env)
    ensures var l := ACmd(0x2, None, [AsReg(1), AsReg(0)]);
            l.Valid() && LinePool(l) == [] && LineCode(l, at, env) == [0x2, 0x4A, 0x00, 1, 0]
  {
    assert [AsReg(1)][..0] == [] && [AsReg(1), AsReg(0)][..1] == [AsReg(1)];
    assert Types(None, [AsReg(1), AsReg(0)]) == [1, 1];
    assert ArgsBytes([AsReg(1)], at) == [1];
  }

  lemma OthersBytes(at: nat, env: Env)
    ensures var l := ACmd(0x13, Some("label0"), [AsReg(0)]);
            l.Valid() && LinePool(l) == [] && LineCode(l, at, env) == [0x13, 0x52, 0x00] + LE32(env("label0")) + [0]
    ensures var l := ACmd(0x6, None, [AsNum(1), AsReg(1)]);
            l.Valid() && LinePool(l) == [] && LineCode(l, at, env) == [0x6, 0x52, 0x00, 1, 0, 0, 0, 1]
    ensures var l := ACmd(0x2, None, [AsReg(1), AsReg(0)]);
            l.Valid() && LinePool(l) == [] && LineCode(l, at, env) == [0x2, 0x4A, 0x00, 1, 0]
    ensures LinePool(ALabel("label0")) == [] && LineCode(ALabel("label0"), at, env) == []
  {
    hide CmdBytes, ArgPool;
    JumpBytes(at, env);
    CopyBytes(at, env);
    SetBytes(at, env);
  }

  lemma SamplePool()
    ensures ValidLines(SampleCommands())
    ensures var c := SampleCommands();
            var a, b: seq<Byte> := [1, 0, 0, 0, 97] + [6, 0, 0, 0, 103, 108, 111, 98, 97, 108],
                                   [1, 0, 0, 0, 98] + [6, 0, 0, 0, 103, 108, 111, 98, 97, 108];
            Pool(c, 6) == a + b && Base(c) == 37 && PoolAt(c, 0) == 7 && PoolAt(c, 2) == 22
  {
    hide LinePool, LoadCommand, LineCode, LE32;
    var c := SampleCommands();
    LoadBytes("a", 97, 0, ZeroEnv());
    LoadBytes("b", 98, 0, ZeroEnv());
    OthersBytes(0, ZeroEnv());
    assert ALabel("label0").Valid();
    assert Pool(c, 1) == LinePool(c[0]) && Pool(c, 2) == LinePool(c[0]) + [];
    assert Pool(c, 3) == LinePool(c[0]) + LinePool(c[2]);
    assert Pool(c, 4) == Pool(c, 3) + [] && Pool(c, 5) == Pool(c, 4) + [] && Pool(c, 6) == Pool(c, 5) + [];
  }

  lemma SampleCode(env: Env)
    requires ValidLines(SampleCommands())
    ensures var c := SampleCommands();
            var first := [0x5, 0x7E, 0x80] + LE32(7) + LE32(12) + [0];
            var second := [0x13, 0x52, 0x00] + LE32(env("label0")) + [0];
            var third := [0x5, 0x7E, 0x80] + LE32(22) + LE32(27) + [0];
            Code(c, 5, env) == first + second + third + [0x6, 0x52, 0x00, 1, 0, 0, 0, 1] + [0x2, 0x4A, 0x00, 1, 0] &&
            Code(c, 6, env) == Code(c, 5, env)
  {
    hide LinePool, LoadCommand, LineCode, LE32, Pool, Code;
    var c := SampleCommands();
    SamplePool();
    LoadBytes("a", 97, 7, env);
    LoadBytes("b", 98, 22, env);
    OthersBytes(PoolAt(c, 1), env);
    OthersBytes(PoolAt(c, 3), env);
    OthersBytes(PoolAt(c, 4), env);
    OthersBytes(PoolAt(c, 5), env);
    CodeRows(c, env);
  }

  lemma CodeRows(c: seq<ALine>, env: Env)
    requires |c| == 6 && ValidLines(c)
    ensures Code(c, 5, env) ==
            LineCode(c[0], PoolAt(c, 0), env) + LineCode(c[1], PoolAt(c, 1), env) + LineCode(c[2], PoolAt(c, 2), env) +
            LineCode(c[3], PoolAt(c, 3), env) + LineCode(c[4], PoolAt(c, 4), env)
    ensures LineCode(c[5], PoolAt(c, 5), env) == [] ==> Code(c, 6, env) == Code(c, 5, env)
  {
    hide LineCode, PoolAt;
    assert Code(c, 1, env) == [] + LineCode(c[0], PoolAt(c, 0), env) == LineCode(c[0], PoolAt(c, 0), env);
    assert Code(c, 2, env) == Code(c, 1, env) + LineCode(c[1], PoolAt(c, 1), env);
    assert Code(c, 3, env) == Code(c, 2, env) + LineCode(c[2], PoolAt(c, 2), env);
    assert Code(c, 4, env) == Code(c, 3, env) + LineCode(c[3], PoolAt(c, 3), env);
    assert Code(c, 6, env) == Code(c, 5, env) + LineCode(c[5], PoolAt(c, 5), env);
  }

  lemma SampleAddress()
    requires ValidLines(SampleCommands())
    ensures Address(SampleCommands())("label0") == 82
  {
    hide LE32, Code, Pool, LoadCommand;
    var c := SampleCommands();
    SamplePool();
    SampleCode(ZeroEnv());
    assert Offset(c, 5) == 45;
    assert LabelOffset(c, 6, "label0") == 45;
  }

  /** A jump over the pool, the pool, and one row of code for each command. */
  lemma SampleBytes(b: Build)
    ensures AllWellFormed(Compiled(Sample()))
    ensures Bytecode(b, Compiled(Sample())) ==
            [0x11, 0x30, 0x00, 37, 0, 0, 0] +
            ([1, 0, 0, 0, 97] + [6, 0, 0, 0, 103, 108, 111, 98, 97, 108] +
             ([1, 0, 0, 0, 98] + [6, 0, 0, 0, 103, 108, 111, 98, 97, 108])) +
            ([0x5, 0x7E, 0x80, 7, 0, 0, 0, 12, 0, 0, 0, 0] +
             [0x13, 0x52, 0x00, 82, 0, 0, 0, 0] +
             [0x5, 0x7E, 0x80, 22, 0, 0, 0, 27, 0, 0, 0, 0] +
             [0x6, 0x52, 0x00, 1, 0, 0, 0, 1] +
             [0x2, 0x4A, 0x00, 1, 0])
  {
    hide Pool, Code, Address, AllWellFormed, ALinesOf, SampleCommands, SampleLines, Compiled;
    Generated();
    Commands(b);
    SamplePool();
    SampleAddress();
    SampleCode(Address(SampleCommands()));
    Rows();
    assert |SampleCommands()| == 6 by { SixCommands(); }
  }

  lemma SixCommands()
    ensures |SampleCommands()| == 6
  {
  }

  lemma Rows()
    ensures Prologue(37) == [0x11, 0x30, 0x00, 37, 0, 0, 0]
    ensures [0x5, 0x7E, 0x80] + LE32(7) + LE32(12) + [0] == [0x5, 0x7E, 0x80, 7, 0, 0, 0, 12, 0, 0, 0, 0]
    ensures [0x13, 0x52, 0x00] + LE32(82) + [0] == [0x13, 0x52, 0x00, 82, 0, 0, 0, 0]
    ensures [0x5, 0x7E, 0x80] + LE32(22) + LE32(27) + [0] == [0x5, 0x7E, 0x80, 22, 0, 0, 0, 27, 0, 0, 0, 0]
  {
  }
}
