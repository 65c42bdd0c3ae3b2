/** The fetch loop of src/cfgcomp_vm.c over bytes: it does, step for step, what the symbolic lines do. */
module CfgVm {
  import opened Wrappers
  import opened CfgText
  import opened CfgMachine
  import opened CfgAssembly
  import opened CfgStatements
  import opened CfgLabels
  import opened CfgRuns
  import opened CfgListing
  import opened CfgBytes
  import opened CfgAssembler
  import opened CfgReading

  // ----- the machine over bytes -----

  datatype Vm = VmAt(pos: int, store: Store) | VmHalted(reason: Reason)
  {
    ghost predicate Valid() { VmAt? ==> store.Valid() }
  }

  function AfterExec(o: Outcome, next: int): Vm {
    match o
    case Next(st) => VmAt(next, st)
    case Goto(t, st) => VmAt(t, st)
    case Halt(reason) => VmHalted(reason)
  }

  /** One turn of the loop of `cf_cfg_vm_start`; at the end of the bytecode it stays. */
  function VmStep(b: Build, bc: seq<Byte>, v: Vm): (v': Vm)
    requires v.Valid()
    ensures v'.Valid()
  {
    if v.VmHalted? || v.pos >= |bc| then v
    else if v.pos < 0 then VmHalted(Unmodelled)
    else
      match Fetch(bc, v.pos)
      case None => VmHalted(Unmodelled)
      case Some((cmd, next)) => AfterExec(Exec(b, cmd, v.store), next)
  }

  function VmRun(b: Build, bc: seq<Byte>, v: Vm, n: nat): (v': Vm)
    requires v.Valid()
    ensures v'.Valid()
    decreases n
  {
    if n == 0 then v else VmRun(b, bc, VmStep(b, bc, v), n - 1)
  }

  // ----- addresses -----

  lemma DecNatInjective(n: nat, m: nat)
    requires DecNat(n) == DecNat(m)
    ensures n == m
  {
    DecNatValue(n);
    DecNatValue(m);
  }

  lemma LabelNameInjective(i: nat, j: nat)
    ensures LabelName(i) == LabelName(j) <==> i == j
  {
    hide DecNat;
    if LabelName(i) == LabelName(j) {
      assert LabelName(i)[5..] == DecNat(i) && LabelName(j)[5..] == DecNat(j);
      DecNatInjective(i, j);
    }
  }

  lemma OffsetNothing(lines: seq<ALine>)
    requires ValidLines(lines)
    ensures Offset(lines, 0) == 0
  {
  }

  lemma LabelLine(b: Build, line: Line, id: nat)
    requires WellFormed(line)
    ensures ALineOf(b, line) == ALabel(LabelName(id)) <==> line == Label(id)
  {
    hide LabelName, Opcode;
    if line.Label? {
      LabelNameInjective(line.id, id);
    }
  }

  /** The address of a label is that of the line its jumps go to. */
  lemma {:induction false} TargetOffset(b: Build, prog: seq<Line>, k: nat, id: nat)
    requires AllWellFormed(prog) && k <= |prog|
    ensures LabelOffset(ALinesOf(b, prog), k, LabelName(id)) == Offset(ALinesOf(b, prog), Target(prog[..k], id))
    decreases k
  {
    hide Offset, ALineOf, LabelName, WellFormed;
    var lines := ALinesOf(b, prog);
    if k == 0 {
      OffsetNothing(lines);
    } else {
      assert lines[k - 1] == ALineOf(b, prog[k - 1]);
      LabelLine(b, prog[k - 1], id);
      assert prog[..k][..k - 1] == prog[..k - 1] && prog[..k][k - 1] == prog[k - 1];
      TargetOffset(b, prog, k - 1, id);
    }
  }

  lemma LabelAddress(b: Build, prog: seq<Line>, id: nat)
    requires AllWellFormed(prog)
    ensures var lines := ALinesOf(b, prog);
            Address(lines)(LabelName(id)) == Base(lines) + Offset(lines, Target(prog, id))
  {
    hide Offset, LabelName, Target, LabelOffset, AllWellFormed, ALinesOf, Base;
    TargetOffset(b, prog, |prog|, id);
    assert prog[..|prog|] == prog;
  }

  // ----- one command -----

  /** The outcome with another jump target. */
  function Retarget(o: Outcome, t: int): Outcome { if o.Goto? then Goto(t, o.store) else o }

  /** Only the target of a jump depends on its first argument. */
  lemma JumpExec(b: Build, mn: Mnemonic, x: int, y: int, rest: seq<Arg>, st: Store)
    requires IsJump(mn) && |rest| + 1 == Arity(mn) && st.Valid()
    ensures Exec(b, Cmd(Opcode(b, mn), [ANum(y)] + rest), st) ==
            Retarget(Exec(b, Cmd(Opcode(b, mn), [ANum(x)] + rest), st), y)
    ensures var o := Exec(b, Cmd(Opcode(b, mn), [ANum(x)] + rest), st);
            o.Goto? ==> o.target == x
  {
    var args, args' := [ANum(x)] + rest, [ANum(y)] + rest;
    assert forall k :: 0 < k < |args| ==> args[k] == args'[k];
  }

  lemma PlainExec(b: Build, mn: Mnemonic, args: seq<Arg>, st: Store)
    requires !IsJump(mn) && st.Valid()
    ensures !Exec(b, Cmd(Opcode(b, mn), args), st).Goto?
  {
  }

  lemma PlainValue(prog: seq<Line>, a: Operand)
    requires PlainOperand(a)
    ensures ArgValue(AsArg(a)) == ResolveArg(prog, a)
  {
  }

  lemma PlainValues(prog: seq<Line>, args: seq<Operand>)
    requires forall k :: 0 <= k < |args| ==> PlainOperand(args[k])
    ensures ArgValues(AsArgs(args)) == seq(|args|, k requires 0 <= k < |args| => ResolveArg(prog, args[k]))
  {
    hide ArgValue, AsArg, ResolveArg, PlainOperand;
    forall k | 0 <= k < |args| ensures ArgValues(AsArgs(args))[k] == ResolveArg(prog, args[k]) {
      PlainValue(prog, args[k]);
    }
  }

  /** A plain line is fetched as what it resolves to. */
  lemma PlainCommand(b: Build, prog: seq<Line>, line: Line, env: Env)
    requires line.Instr? && WellFormed(line) && !IsJump(line.mn)
    ensures Command(ALineOf(b, line), env) == Resolve(b, prog, line)
  {
    hide PlainOperand, ResolveArg, AsArg, ArgValue, Opcode;
    PlainValues(prog, line.args);
    assert [] + ArgValues(AsArgs(line.args)) == ArgValues(AsArgs(line.args));
  }

  /** A jump is fetched as what it resolves to, but for the target. */
  lemma JumpCommand(b: Build, prog: seq<Line>, line: Line, env: Env) returns (rest: seq<Arg>)
    requires line.Instr? && WellFormed(line) && IsJump(line.mn)
    ensures |rest| + 1 == Arity(line.mn)
    ensures Resolve(b, prog, line) == Cmd(Opcode(b, line.mn), [ANum(Target(prog, line.args[0].id))] + rest)
    ensures Command(ALineOf(b, line), env) == Cmd(Opcode(b, line.mn), [ANum(env(LabelName(line.args[0].id)))] + rest)
  {
    hide PlainOperand, AsArg, ArgValue, Opcode, Target, LabelName;
    var args := line.args[1..];
    PlainValues(prog, args);
    rest := ArgValues(AsArgs(args));
    ResolveFirst(prog, line.args, rest);
  }

  lemma ResolveFirst(prog: seq<Line>, args: seq<Operand>, rest: seq<Arg>)
    requires args != [] && args[0].Lbl?
    requires rest == seq(|args| - 1, k requires 0 <= k < |args| - 1 => ResolveArg(prog, args[1..][k]))
    ensures seq(|args|, k requires 0 <= k < |args| => ResolveArg(prog, args[k])) == [ANum(Target(prog, args[0].id))] + rest
  {
    hide Target;
  }

  // ----- the simulation -----

  ghost predicate InProgram(prog: seq<Line>, m: Machine) { m.At? ==> m.store.Valid() && 0 <= m.pc <= |prog| }

  /** Where the bytes of the machine's line are. */
  ghost function Place(lines: seq<ALine>, m: Machine): Vm
    requires ValidLines(lines) && (m.At? ==> 0 <= m.pc <= |lines|)
  {
    match m
    case At(pc, st) => VmAt(Base(lines) + Offset(lines, pc), st)
    case Halted(reason) => VmHalted(reason)
  }

  lemma LineStrings(b: Build, line: Line)
    requires WellFormed(line)
    ensures CStrings(ALineOf(b, line))
  {
    hide Opcode, LabelName;
  }

  /** What the VM fetches at a line. */
  lemma FetchLine(b: Build, prog: seq<Line>, k: nat)
    requires AllWellFormed(prog) && k < |prog| && prog[k].Instr? && |Bytecode(b, prog)| < 0x8000_0000
    ensures var lines := ALinesOf(b, prog);
            Fetch(Bytecode(b, prog), Base(lines) + Offset(lines, k)) ==
            Some((Command(ALineOf(b, prog[k]), Address(lines)), Base(lines) + Offset(lines, k + 1)))
  {
    hide Layout, Fetch, Offset, Base, Address, WellFormed, Command;
    LineStrings(b, prog[k]);
    IsCommand(b, prog[k]);
    LayoutFetch(ALinesOf(b, prog), k);
  }

  lemma IsCommand(b: Build, line: Line)
    requires WellFormed(line)
    ensures line.Instr? ==> ALineOf(b, line).ACmd?
    ensures line.Label? ==> ALineOf(b, line).ALabel?
  {
  }

  lemma FetchInside(bc: seq<Byte>, pos: nat)
    requires Fetch(bc, pos).Some?
    ensures pos < |bc|
  {
  }

  /** One instruction: the VM's turn and the symbolic step end at the same place. */
  lemma InstrSimulated(b: Build, prog: seq<Line>, pc: nat, st: Store)
    requires AllWellFormed(prog) && pc < |prog| && prog[pc].Instr? && st.Valid()
    requires |Bytecode(b, prog)| < 0x8000_0000
    ensures var lines := ALinesOf(b, prog);
            var m' := Step(b, prog, At(pc, st));
            InProgram(prog, m') && VmStep(b, Bytecode(b, prog), Place(lines, At(pc, st))) == Place(lines, m')
  {
    hide Bytecode, Fetch, Exec, Offset, Base, Address, WellFormed, Command, ALineOf, Resolve, AllWellFormed, Target, Opcode, Arity;
    var lines, line := ALinesOf(b, prog), prog[pc];
    assert WellFormed(line) by { LineFormed(prog, pc); }
    FetchLine(b, prog, pc);
    FetchInside(Bytecode(b, prog), Base(lines) + Offset(lines, pc));
    if IsJump(line.mn) {
      JumpFormed(line);
      var id := line.args[0].id;
      var rest := JumpCommand(b, prog, line, Address(lines));
      JumpExec(b, line.mn, Target(prog, id), Address(lines)(LabelName(id)), rest, st);
      LabelAddress(b, prog, id);
    } else {
      PlainCommand(b, prog, line, Address(lines));
      PlainStep(b, prog, line, st);
    }
  }

  lemma LineFormed(prog: seq<Line>, k: nat)
    requires AllWellFormed(prog) && k < |prog|
    ensures WellFormed(prog[k])
  {
    hide WellFormed;
  }

  lemma JumpFormed(line: Line)
    requires line.Instr? && WellFormed(line) && IsJump(line.mn)
    ensures line.args != [] && line.args[0].Lbl?
  {
  }

  lemma PlainStep(b: Build, prog: seq<Line>, line: Line, st: Store)
    requires line.Instr? && !IsJump(line.mn) && st.Valid()
    ensures !Exec(b, Resolve(b, prog, line), st).Goto?
  {
    hide Exec, Opcode, ResolveArg;
    PlainExec(b, line.mn, Resolve(b, prog, line).args, st);
  }

  /** A label takes no bytes. */
  lemma LabelStutters(b: Build, prog: seq<Line>, pc: nat)
    requires AllWellFormed(prog) && pc < |prog| && prog[pc].Label?
    ensures var lines := ALinesOf(b, prog); Offset(lines, pc + 1) == Offset(lines, pc)
  {
    hide WellFormed, ALineOf, Pool;
    var lines := ALinesOf(b, prog);
    IsCommand(b, prog[pc]);
    LayoutSteps(lines, pc, ZeroEnv());
  }

  /** Stopped, or behind the last line, neither machine moves. */
  lemma EndStays(b: Build, prog: seq<Line>, m: Machine)
    requires AllWellFormed(prog) && InProgram(prog, m) && (m.Halted? || m.pc == |prog|)
    ensures var lines := ALinesOf(b, prog);
            Step(b, prog, m) == m && VmStep(b, Bytecode(b, prog), Place(lines, m)) == Place(lines, m)
  {
    hide Fetch, Exec, Layout, Offset, Base, AllWellFormed;
    LayoutSize(ALinesOf(b, prog));
  }

  predicate AtLabel(prog: seq<Line>, m: Machine) { m.At? && 0 <= m.pc < |prog| && prog[m.pc].Label? }

  lemma StepSimulated(b: Build, prog: seq<Line>, m: Machine)
    requires AllWellFormed(prog) && InProgram(prog, m) && |Bytecode(b, prog)| < 0x8000_0000
    ensures var lines := ALinesOf(b, prog);
            var m' := Step(b, prog, m);
            InProgram(prog, m') &&
            Place(lines, m') == if AtLabel(prog, m) then Place(lines, m) else VmStep(b, Bytecode(b, prog), Place(lines, m))
  {
    hide Bytecode, AllWellFormed, Offset, Base, Exec, Resolve, VmStep;
    if m.Halted? || m.pc == |prog| {
      EndStays(b, prog, m);
    } else if prog[m.pc].Label? {
      LabelStutters(b, prog, m.pc);
    } else {
      InstrSimulated(b, prog, m.pc, m.store);
    }
  }

  /** How many of the first n steps are not labels. */
  ghost function Commands(b: Build, prog: seq<Line>, m: Machine, n: nat): nat
    requires m.Valid()
    decreases n
  {
    if n == 0 then 0
    else (if AtLabel(prog, m) then 0 else 1) + Commands(b, prog, Step(b, prog, m), n - 1)
  }

  /** Byte-level and symbolic runs agree step for step, from any line on. */
  lemma {:induction false} RunSimulated(b: Build, prog: seq<Line>, m: Machine, n: nat)
    requires AllWellFormed(prog) && InProgram(prog, m) && |Bytecode(b, prog)| < 0x8000_0000
    ensures InProgram(prog, Run(b, prog, m, n))
    ensures VmRun(b, Bytecode(b, prog), Place(ALinesOf(b, prog), m), Commands(b, prog, m, n)) ==
            Place(ALinesOf(b, prog), Run(b, prog, m, n))
    decreases n
  {
    hide Bytecode, AllWellFormed, Step, VmStep, Place, AtLabel;
    if n > 0 {
      StepSimulated(b, prog, m);
      RunSimulated(b, prog, Step(b, prog, m), n - 1);
    }
  }

  /** The first turn jumps over the pool to the first line. */
  lemma Entry(b: Build, prog: seq<Line>, st: Store)
    requires AllWellFormed(prog) && st.Valid() && |Bytecode(b, prog)| < 0x8000_0000
    ensures VmStep(b, Bytecode(b, prog), VmAt(0, st)) == Place(ALinesOf(b, prog), At(0, st))
  {
    hide Layout, Fetch, Offset, Base, AllWellFormed;
    PrologueFetch(ALinesOf(b, prog));
    FetchInside(Bytecode(b, prog), 0);
  }

  /** Running assembled bytecode from its first byte is running the lines from the first. */
  lemma BytecodeRuns(b: Build, prog: seq<Line>, st: Store, n: nat)
    requires AllWellFormed(prog) && st.Valid() && |Bytecode(b, prog)| < 0x8000_0000
    ensures InProgram(prog, Run(b, prog, At(0, st), n))
    ensures VmRun(b, Bytecode(b, prog), VmAt(0, st), 1 + Commands(b, prog, At(0, st), n)) ==
            Place(ALinesOf(b, prog), Run(b, prog, At(0, st), n))
  {
    hide Bytecode, AllWellFormed, Step, VmStep, Place, AtLabel, Run, Commands;
    Entry(b, prog, st);
    RunSimulated(b, prog, At(0, st), n);
  }

  /** From source to the end of a round: the bytecode of any program, run by the VM, gets to
      its end, stops, or gets back to its first line, as the statements do. */
  lemma SourceRound(b: Build, ss: Stmts, st: Store) returns (n: nat)
    requires st.Valid() && FitsStmts(ss)
    requires AllWellFormed(Compiled(ss)) && |Bytecode(b, Compiled(ss))| < 0x8000_0000
    ensures var bc := Bytecode(b, Compiled(ss));
            var v := VmRun(b, bc, VmAt(0, st), n);
            match RoundStmts(b, ss, st.cfg)
            case Past(Stop(reason)) => v == VmHalted(reason)
            case Past(Ok(cfg)) => v.VmAt? && v.pos == |bc| && v.store.cfg == cfg
            case Again(cfg) => v.VmAt? && v.pos == Base(ALinesOf(b, Compiled(ss))) && v.store.cfg == cfg
  {
    hide Bytecode, AllWellFormed, Run, VmRun, RoundStmts, FitsStmts, Compiled, Offset, Base, Commands;
    var prog := Compiled(ss);
    var m := ProgramRun(b, ss, st);
    var k: nat :| Run(b, prog, At(0, st), k) == m;
    BytecodeRuns(b, prog, st, k);
    n := 1 + Commands(b, prog, At(0, st), k);
    BytecodeSize(b, prog);
    OffsetNothing(ALinesOf(b, prog));
  }

  /** From source to the end of the run: the bytecode of a program with closed chains, run by
      the VM, gets to its end with the config the statements leave, or stops for the reason
      they stop. */
  lemma SourceToRun(b: Build, ss: Stmts, st: Store) returns (n: nat)
    requires st.Valid() && FitsStmts(ss) && ChainsClosed(ss)
    requires AllWellFormed(Compiled(ss)) && |Bytecode(b, Compiled(ss))| < 0x8000_0000
    ensures var bc := Bytecode(b, Compiled(ss));
            var v := VmRun(b, bc, VmAt(0, st), n);
            match ExecStmts(b, ss, st.cfg)
            case Stop(reason) => v == VmHalted(reason)
            case Ok(cfg) => v.VmAt? && v.pos == |bc| && v.store.cfg == cfg
  {
    hide Bytecode, AllWellFormed, VmRun, ExecStmts, RoundStmts, FitsStmts, ChainsClosed, Compiled;
    n := SourceRound(b, ss, st);
    ClosedRound(b, ss, st.cfg);
  }

  lemma BytecodeSize(b: Build, prog: seq<Line>)
    requires AllWellFormed(prog)
    ensures var lines := ALinesOf(b, prog);
            |Bytecode(b, prog)| == Base(lines) + Offset(lines, |prog|)
  {
    hide Layout, Offset, Base;
    LayoutSize(ALinesOf(b, prog));
  }
}
