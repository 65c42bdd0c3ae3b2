/**
 Symbolic assembly: the lines the code generator of src/cfgcomp_codegenerator.c writes,
 and what a program of such lines does when it is run line by line.
 */
module CfgAssembly {
  import opened CfgText
  import opened CfgMachine

  type Int32 = x: int | IsInt32(x)

  datatype Mnemonic =
    | MODULE | SET | UNSET | LOAD | CPY | EQ | NE | LT | LTEQ | GT | GTEQ | ADD | SUB | DIV | MUL
    | JMP | JMPIF | JMPIFNOT | AND | OR | ARRAY | ARRAYSUBS | ARRAYPUSH | NEG

  datatype Operand = Reg(r: nat) | Imm(n: Int32) | Lit(s: CStr) | Lbl(id: nat)

  datatype Line = Instr(mn: Mnemonic, args: seq<Operand>) | Label(id: nat)

  /** The opcode the assembler emits for a directive. */
  function Opcode(b: Build, mn: Mnemonic): Byte {
    match mn
    case MODULE => ASM_MODULE
    case SET => ASM_SET
    case UNSET => ASM_UNSET
    case LOAD => ASM_LOAD
    case CPY => ASM_CPY
    case EQ => ASM_EQ
    case NE => ASM_NE
    case LT => ASM_LT
    case LTEQ => ASM_LTEQ
    case GT => ASM_GT
    case GTEQ => ASM_GTEQ
    case ADD => ASM_ADD
    case SUB => ASM_SUB
    case DIV => ASM_DIV
    case MUL => ASM_MUL
    case JMP => if b.jmpOpcode then ASM_JMP else ASM_CPY
    case JMPIF => ASM_JMPIF
    case JMPIFNOT => ASM_JMPIFNOT
    case AND => ASM_AND
    case OR => ASM_OR
    case ARRAY => ASM_ARRAY
    case ARRAYSUBS => ASM_ARRAYSUBS
    case ARRAYPUSH => ASM_ARRAYPUSH
    case NEG => ASM_NEG
  }

  /** The line of the last definition of a label; 0 if there is none. */
  function Target(prog: seq<Line>, id: nat): (k: nat)
    ensures k == 0 || (k < |prog| && prog[k] == Label(id))
  {
    if prog == [] then 0
    else if prog[|prog| - 1] == Label(id) then |prog| - 1
    else Target(prog[..|prog| - 1], id)
  }

  function ResolveArg(prog: seq<Line>, a: Operand): Arg {
    match a
    case Reg(r) => AReg(r % 256)
    case Imm(n) => ANum(n)
    case Lit(s) => AStr(s)
    case Lbl(id) => ANum(Target(prog, id))
  }

  /** A line as a command whose jump targets are line numbers. */
  function Resolve(b: Build, prog: seq<Line>, line: Line): Cmd
    requires line.Instr?
  {
    Cmd(Opcode(b, line.mn), seq(|line.args|, k requires 0 <= k < |line.args| => ResolveArg(prog, line.args[k])))
  }

  // ----- runs -----

  datatype Machine = At(pc: int, store: Store) | Halted(reason: Reason)
  {
    ghost predicate Valid() { At? ==> store.Valid() }
  }

  function AfterOutcome(o: Outcome, pc: int): Machine {
    match o
    case Next(st) => At(pc + 1, st)
    case Goto(t, st) => At(t, st)
    case Halt(r) => Halted(r)
  }

  /** One line.  Labels do nothing; outside the program, and once stopped, nothing changes. */
  function Step(b: Build, prog: seq<Line>, m: Machine): (m': Machine)
    requires m.Valid()
    ensures m'.Valid()
  {
    if m.Halted? || !(0 <= m.pc < |prog|) then m
    else if prog[m.pc].Label? then At(m.pc + 1, m.store)
    else AfterOutcome(Exec(b, Resolve(b, prog, prog[m.pc]), m.store), m.pc)
  }

  function Run(b: Build, prog: seq<Line>, m: Machine, steps: nat): (m': Machine)
    requires m.Valid()
    ensures m'.Valid()
    decreases steps
  {
    if steps == 0 then m else Run(b, prog, Step(b, prog, m), steps - 1)
  }

  lemma {:induction false} RunCompose(b: Build, prog: seq<Line>, m: Machine, n1: nat, n2: nat)
    requires m.Valid()
    ensures Run(b, prog, m, n1 + n2) == Run(b, prog, Run(b, prog, m, n1), n2)
    decreases n1
  {
    if n1 > 0 {
      RunCompose(b, prog, Step(b, prog, m), n1 - 1, n2);
    }
  }

  lemma {:induction false} RunHalted(b: Build, prog: seq<Line>, reason: Reason, n: nat)
    ensures Run(b, prog, Halted(reason), n) == Halted(reason)
  {
    if n > 0 {
      RunHalted(b, prog, reason, n - 1);
    }
  }

  /** The piece of code stands in the program at line pc, its labels being the program's. */
  ghost predicate Placed(prog: seq<Line>, pc: nat, code: seq<Line>) {
    && pc + |code| <= |prog|
    && (forall k :: 0 <= k < |code| ==> prog[pc + k] == code[k])
    && (forall k :: 0 <= k < |code| && code[k].Label? ==> Target(prog, code[k].id) == pc + k)
  }

  lemma PlacedSplit(prog: seq<Line>, pc: nat, c1: seq<Line>, c2: seq<Line>)
    requires Placed(prog, pc, c1 + c2)
    ensures Placed(prog, pc, c1) && Placed(prog, pc + |c1|, c2)
  {
    var c := c1 + c2;
    forall k | 0 <= k < |c2|
      ensures prog[pc + |c1| + k] == c2[k]
      ensures c2[k].Label? ==> Target(prog, c2[k].id) == pc + |c1| + k
    {
      assert c[|c1| + k] == c2[k];
    }
    forall k | 0 <= k < |c1|
      ensures prog[pc + k] == c1[k]
      ensures c1[k].Label? ==> Target(prog, c1[k].id) == pc + k
    {
      assert c[k] == c1[k];
    }
  }

  // ----- labels -----

  ghost function Defs(code: seq<Line>): set<nat> { set k | 0 <= k < |code| && code[k].Label? :: code[k].id }

  /** No label is defined twice. */
  ghost predicate DefinedOnce(code: seq<Line>) {
    forall k, l :: 0 <= k < l < |code| && code[k].Label? && code[l].Label? ==> code[k].id != code[l].id
  }

  lemma DefsConcat(c1: seq<Line>, c2: seq<Line>)
    ensures Defs(c1 + c2) == Defs(c1) + Defs(c2)
  {
    var c := c1 + c2;
    forall id | id in Defs(c1) + Defs(c2) ensures id in Defs(c) {
      if id in Defs(c1) {
        var k :| 0 <= k < |c1| && c1[k].Label? && c1[k].id == id;
        assert c[k] == c1[k];
      } else {
        var k :| 0 <= k < |c2| && c2[k].Label? && c2[k].id == id;
        assert c[|c1| + k] == c2[k];
      }
    }
  }

  lemma DefinedOnceConcat(c1: seq<Line>, c2: seq<Line>)
    requires DefinedOnce(c1) && DefinedOnce(c2) && Defs(c1) !! Defs(c2)
    ensures DefinedOnce(c1 + c2)
  {
    var c := c1 + c2;
    forall k, l | 0 <= k < l < |c| && c[k].Label? && c[l].Label? ensures c[k].id != c[l].id {
      if k < |c1| <= l {
        assert c1[k].id in Defs(c1) && c2[l - |c1|].id in Defs(c2);
      }
    }
  }

  lemma {:induction false} TargetUnique(prog: seq<Line>, k: nat)
    requires k < |prog| && prog[k].Label? && DefinedOnce(prog)
    ensures Target(prog, prog[k].id) == k
    decreases |prog|
  {
    var last := |prog| - 1;
    if k < last {
      assert prog[last] != Label(prog[k].id);
      TargetUnique(prog[..last], k);
    }
  }

  /** A whole program whose labels are unique is placed at line 0. */
  lemma PlacedWhole(prog: seq<Line>)
    requires DefinedOnce(prog)
    ensures Placed(prog, 0, prog)
  {
    forall k | 0 <= k < |prog| && prog[k].Label? ensures Target(prog, prog[k].id) == k {
      TargetUnique(prog, k);
    }
  }
}
