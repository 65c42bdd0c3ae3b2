/**
 The code generator of src/cfgcomp_codegenerator.c for expressions, and what the code computes.

 A function from syntax trees to symbolic assembly, the meaning of the trees, and the
 proof that running the generated lines computes that meaning.
 */
module CfgCodegen {
  import opened CfgText
  import opened CfgMachine
  import opened CfgAssembly

  // ----- expressions -----

  datatype Expr =
    | ENum(n: Int32)
    | EStr(s: CStr)
    | EIdent(name: CStr)
    | EBin(op: BinOp, l: Expr, r: Expr)
    | ENot(e: Expr)

  /** The value of a tree and the config behind it, which may have more config values. */
  datatype Computing = Computing(val: Val, cfg: Config)

  /** What a tree does, evaluated left to right: a name that has no value yet gets one that
      is not in the tree. */
  function Eval(b: Build, e: Expr, cfg: Config): Result<Computing> {
    match e
    case ENum(n) => Ok(Computing(if b.cpyTags then Num(n) else Untyped, cfg))
    case EStr(s) => Ok(Computing(if b.cpyTags then Str(s) else Untyped, cfg))
    case EIdent(name) => Ok(Computing(Cfg(CellOf(name, cfg)), Loaded(name, cfg)))
    case EBin(op, l, r) =>
      (match Eval(b, l, cfg)
       case Stop(reason) => Stop(reason)
       case Ok(x) =>
         match Eval(b, r, x.cfg)
         case Stop(reason) => Stop(reason)
         case Ok(y) => WithConfig(Apply(b, op, x.val, y.val, y.cfg), y.cfg))
    case ENot(e1) =>
      match Eval(b, e1, cfg)
      case Stop(reason) => Stop(reason)
      case Ok(x) => Ok(Computing(Bool(!IsTrue(x.val, x.cfg)), x.cfg))
  }

  function WithConfig(v: Result<Val>, cfg: Config): Result<Computing> {
    match v
    case Stop(reason) => Stop(reason)
    case Ok(x) => Ok(Computing(x, cfg))
  }

  /** The marked bits of the eight-bit register mask. */
  type Mask = s: set<nat> | forall r :: r in s ==> r < 8

  /** `registers & (1 << i)`: the mask is a signed char, so the top bit is extended. */
  predicate CheckUsed(used: Mask, i: nat) { (if i < 7 then i else 7) in used }

  function FreeFrom(used: Mask, i: nat): (r: int)
    requires i <= 8
    ensures r == -1 || (i <= r < 8 && r !in used)
    ensures forall k :: i <= k < (if r == -1 then 8 else r) ==> k in used
    decreases 8 - i
  {
    if i == 8 then -1 else if i !in used then i else FreeFrom(used, i + 1)
  }

  /** The first unmarked register, or -1. */
  function FirstFree(used: Mask): (r: int)
    ensures r == -1 || (0 <= r < 8 && r !in used)
    ensures r == -1 ==> forall k: nat :: k < 8 ==> k in used
  {
    FreeFrom(used, 0)
  }

  function OpMnemonic(op: BinOp): Mnemonic {
    match op
    case Add => ADD
    case Sub => SUB
    case Mul => MUL
    case Div => DIV
    case Eq => EQ
    case Ne => NE
    case And => AND
    case Or => OR
  }

  /** Generated lines, the register with the value (-1: out of registers), the new mask. */
  datatype Gen = Gen(code: seq<Line>, reg: int, used: Mask)

  /** An atom takes the first free register. */
  function GenAtom(args: seq<Operand>, mn: Mnemonic, used: Mask): (g: Gen)
    ensures g.reg == FirstFree(used)
  {
    var r := FirstFree(used);
    if r == -1 then Gen([], -1, used) else Gen([Instr(mn, args + [Reg(r)])], r, used + {r as nat})
  }

  /** `(u_int16_t) reg`. */
  function Reg16(r: int): Operand { Reg(r % 0x1_0000) }

  /** `cf_cfg_codegenerator_tokens` outside `with`.  A failing left operand does not keep
      the right one from being generated. */
  function GenExpr(e: Expr, used: Mask): Gen
  {
    match e
    case ENum(n) => GenAtom([Imm(n)], CPY, used)
    case EStr(s) => GenAtom([Lit(s)], CPY, used)
    case EIdent(name) => GenAtom([Lit(name), Lit("global")], LOAD, used)
    case EBin(op, l, r) =>
      var g1 := GenExpr(l, used);
      var g2 := GenExpr(r, g1.used);
      if g1.reg < 0 || g2.reg < 0 then Gen(g1.code + g2.code, -1, g2.used)
      else Gen(g1.code + g2.code + [Instr(OpMnemonic(op), [Reg16(g1.reg), Reg16(g2.reg)])],
               g2.reg, g2.used - {g1.reg as nat})
    case ENot(e1) =>
      var g := GenExpr(e1, used);
      Gen(g.code + [Instr(NEG, [Reg16(g.reg)])], g.reg, g.used)
  }

  /** How many registers a tree needs. */
  function Need(e: Expr): nat {
    match e
    case EBin(_, l, r) => if Need(l) > 1 + Need(r) then Need(l) else 1 + Need(r)
    case ENot(e1) => Need(e1)
    case _ => 1
  }

  lemma MaskSize(used: Mask)
    ensures |used| <= 8
    ensures FirstFree(used) == -1 <==> |used| == 8
  {
    var all: set<nat> := {0, 1, 2, 3, 4, 5, 6, 7};
    assert used <= all;
    SubsetSize(used, all);
    if FirstFree(used) == -1 {
      assert used == all;
    } else {
      SubsetSize(used + {FirstFree(used) as nat}, all);
    }
  }

  lemma {:induction false} SubsetSize(a: set<nat>, b: set<nat>)
    requires a <= b
    ensures |a| <= |b|
    decreases a
  {
    if x :| x in a {
      SubsetSize(a - {x}, b - {x});
    }
  }

  /** Code generation succeeds exactly when the tree fits into the free registers; then it
      marks one register more, an unmarked one, and no other. */
  lemma {:induction false} RegisterBound(e: Expr, used: Mask)
    ensures GenExpr(e, used).reg >= 0 <==> Need(e) <= 8 - |used|
    ensures GenExpr(e, used).reg == -1 || 0 <= GenExpr(e, used).reg < 8
    ensures GenExpr(e, used).reg >= 0 ==>
              GenExpr(e, used).reg !in used && GenExpr(e, used).used == used + {GenExpr(e, used).reg as nat}
  {
    MaskSize(used);
    match e
    case EBin(op, l, r) =>
      RegisterBound(l, used);
      RegisterBound(r, GenExpr(l, used).used);
    case ENot(e1) =>
      RegisterBound(e1, used);
    case _ =>
  }

  // ----- running generated expressions -----

  lemma StepInstr(b: Build, prog: seq<Line>, pc: nat, code: seq<Line>, k: nat, st: Store)
    requires st.Valid() && Placed(prog, pc, code) && k < |code| && code[k].Instr?
    ensures Run(b, prog, At(pc + k, st), 1) == AfterOutcome(Exec(b, Resolve(b, prog, code[k]), st), pc + k)
  {
    assert Run(b, prog, At(pc + k, st), 1) == Run(b, prog, Step(b, prog, At(pc + k, st)), 0);
  }

  lemma StepLabel(b: Build, prog: seq<Line>, pc: nat, code: seq<Line>, k: nat, st: Store)
    requires st.Valid() && Placed(prog, pc, code) && k < |code| && code[k].Label?
    ensures Run(b, prog, At(pc + k, st), 1) == At(pc + k + 1, st)
  {
    assert Run(b, prog, At(pc + k, st), 1) == Run(b, prog, Step(b, prog, At(pc + k, st)), 0);
  }

  lemma ExecBinaryInstr(b: Build, prog: seq<Line>, op: BinOp, r1: nat, r2: nat, st: Store)
    requires st.Valid() && r1 < 8 && r2 < 8
    ensures Exec(b, Resolve(b, prog, Instr(OpMnemonic(op), [Reg16(r1), Reg16(r2)])), st) ==
            Write(r2, Apply(b, op, st.regs[r1], st.regs[r2], st.cfg), st)
  {
    hide Apply;
    var cmd := Resolve(b, prog, Instr(OpMnemonic(op), [Reg16(r1), Reg16(r2)]));
    assert cmd.args == [AReg(r1), AReg(r2)];
    assert Exec(b, cmd, st) == ExecBinary(b, op, cmd.args, st);
  }

  lemma ExecNegInstr(b: Build, prog: seq<Line>, r: nat, st: Store)
    requires st.Valid() && r < 8
    ensures Exec(b, Resolve(b, prog, Instr(NEG, [Reg16(r)])), st) ==
            Write(r, Ok(Bool(!IsTrue(st.regs[r], st.cfg))), st)
  {
    assert Resolve(b, prog, Instr(NEG, [Reg16(r)])).args == [AReg(r)];
  }

  lemma ExecCpyInstr(b: Build, prog: seq<Line>, a: Operand, r: nat, st: Store)
    requires st.Valid() && r < 8 && !a.Reg? && !a.Lbl?
    ensures Exec(b, Resolve(b, prog, Instr(CPY, [a, Reg(r)])), st) ==
            Write(r, Ok(if !b.cpyTags then Untyped else if a.Imm? then Num(a.n) else Str(a.s)), st)
  {
    assert Resolve(b, prog, Instr(CPY, [a, Reg(r)])).args == [ResolveArg(prog, a), AReg(r)];
  }

  lemma ExecLoadInstr(b: Build, prog: seq<Line>, name: CStr, r: nat, st: Store)
    requires st.Valid() && r < 8
    ensures Exec(b, Resolve(b, prog, Instr(LOAD, [Lit(name), Lit("global"), Reg(r)])), st) ==
            Next(Store(st.regs[r := Cfg(CellOf(name, st.cfg))], Loaded(name, st.cfg)))
  {
    assert Resolve(b, prog, Instr(LOAD, [Lit(name), Lit("global"), Reg(r)])).args ==
           [AStr(name), AStr("global"), AReg(r)];
  }

  /** The state behind the code of a tree: its value in reg, the used registers untouched. */
  ghost predicate Computed(m: Machine, v: Result<Computing>, pc: int, reg: int, used: Mask, st: Store)
    requires st.Valid()
  {
    match v
    case Stop(reason) => m == Halted(reason)
    case Ok(x) =>
      && m.At? && m.store.Valid() && m.pc == pc && m.store.cfg == x.cfg
      && 0 <= reg < 8 && m.store.regs[reg] == x.val
      && forall r :: r in used ==> m.store.regs[r] == st.regs[r]
  }

  lemma AtomCorrect(b: Build, e: Expr, prog: seq<Line>, pc: nat, used: Mask, st: Store)
    requires e.ENum? || e.EStr? || e.EIdent?
    requires st.Valid() && GenExpr(e, used).reg >= 0 && Placed(prog, pc, GenExpr(e, used).code)
    ensures Computed(Run(b, prog, At(pc, st), |GenExpr(e, used).code|), Eval(b, e, st.cfg),
                     pc + |GenExpr(e, used).code|, GenExpr(e, used).reg, used, st)
  {
    hide Exec, Resolve, FirstFree;
    var code, r := GenExpr(e, used).code, FirstFree(used);
    StepInstr(b, prog, pc, code, 0, st);
    match e
    case ENum(n) =>
      assert code[0] == Instr(CPY, [Imm(n), Reg(r)]);
      ExecCpyInstr(b, prog, Imm(n), r, st);
    case EStr(s) =>
      assert code[0] == Instr(CPY, [Lit(s), Reg(r)]);
      ExecCpyInstr(b, prog, Lit(s), r, st);
    case EIdent(name) =>
      assert code[0] == Instr(LOAD, [Lit(name), Lit("global"), Reg(r)]);
      ExecLoadInstr(b, prog, name, r, st);
  }

  /** Running the code of a tree computes the tree's value, or stops for the tree's reason. */
  lemma {:induction false} ExprCorrect(b: Build, e: Expr, prog: seq<Line>, pc: nat, used: Mask, st: Store)
    requires st.Valid() && GenExpr(e, used).reg >= 0 && Placed(prog, pc, GenExpr(e, used).code)
    ensures Computed(Run(b, prog, At(pc, st), |GenExpr(e, used).code|), Eval(b, e, st.cfg),
                     pc + |GenExpr(e, used).code|, GenExpr(e, used).reg, used, st)
    decreases e, 1
  {
    hide *;
    match e
    case EBin(op, l, r) => BinCorrect(b, op, l, r, prog, pc, used, st);
    case ENot(e1) => NotCorrect(b, e1, prog, pc, used, st);
    case _ => AtomCorrect(b, e, prog, pc, used, st);
  }

  lemma {:induction false} BinCorrect(b: Build, op: BinOp, l: Expr, r: Expr, prog: seq<Line>, pc: nat, used: Mask, st: Store)
    requires var g := GenExpr(EBin(op, l, r), used); st.Valid() && g.reg >= 0 && Placed(prog, pc, g.code)
    ensures var g := GenExpr(EBin(op, l, r), used);
            Computed(Run(b, prog, At(pc, st), |g.code|), Eval(b, EBin(op, l, r), st.cfg), pc + |g.code|, g.reg, used, st)
    decreases EBin(op, l, r), 0
  {
    hide Placed, Run, Exec, Resolve, Computed, Apply, OpMnemonic, GenExpr, Eval, Reg16, WithConfig;
    BinCorrectPieces(b, EBin(op, l, r), prog, pc, used, st);
    var g1 := GenExpr(l, used);
    var g2 := GenExpr(r, g1.used);
    ExprCorrect(b, l, prog, pc, used, st);
    var m1 := Run(b, prog, At(pc, st), |g1.code|);
    if m1.At? {
      ComputedStore(m1, Eval(b, l, st.cfg), pc + |g1.code|, g1.reg, used, st);
      ExprCorrect(b, r, prog, pc + |g1.code|, g1.used, m1.store);
    }
    RunCompose(b, prog, At(pc, st), |g1.code|, |g2.code|);
    RunCompose(b, prog, At(pc, st), |g1.code| + |g2.code|, 1);
    var x := Eval(b, l, st.cfg);
    var y := if x.Ok? then Eval(b, r, x.value.cfg) else x;
    BinaryStep(b, op, prog, pc + |g1.code|, g1.reg, g2.reg, |g2.code|, used, st, m1, x, y);
    EvalBin(b, op, l, r, st.cfg);
  }

  lemma {:induction false} NotCorrect(b: Build, e: Expr, prog: seq<Line>, pc: nat, used: Mask, st: Store)
    requires var g := GenExpr(ENot(e), used); st.Valid() && g.reg >= 0 && Placed(prog, pc, g.code)
    ensures var g := GenExpr(ENot(e), used);
            Computed(Run(b, prog, At(pc, st), |g.code|), Eval(b, ENot(e), st.cfg), pc + |g.code|, g.reg, used, st)
    decreases ENot(e), 0
  {
    hide Placed, Run, Exec, Resolve, Computed, IsTrue, GenExpr, Eval, Reg16;
    var g := GenExpr(e, used);
    GenNot(e, used);
    EvalNot(b, e, st.cfg);
    PlacedSplit(prog, pc, g.code, [Instr(NEG, [Reg16(g.reg)])]);
    ExprCorrect(b, e, prog, pc, used, st);
    RunCompose(b, prog, At(pc, st), |g.code|, 1);
    RegisterBound(e, used);
    NotStep(b, prog, pc + |g.code|, g.reg, used, st, Run(b, prog, At(pc, st), |g.code|), Eval(b, e, st.cfg));
  }

  lemma GenNot(e: Expr, used: Mask)
    ensures var g := GenExpr(e, used);
            GenExpr(ENot(e), used) == Gen(g.code + [Instr(NEG, [Reg16(g.reg)])], g.reg, g.used)
  {
    hide Reg16;
  }

  lemma EvalNot(b: Build, e: Expr, cfg: Config)
    ensures var x := Eval(b, e, cfg);
            Eval(b, ENot(e), cfg) == if x.Stop? then x else Ok(Computing(Bool(!IsTrue(x.value.val, x.value.cfg)), x.value.cfg))
  {
    hide IsTrue;
  }

  /** The meaning of an operation, one step unfolded. */
  lemma EvalBin(b: Build, op: BinOp, l: Expr, r: Expr, cfg: Config)
    ensures var x := Eval(b, l, cfg);
            Eval(b, EBin(op, l, r), cfg) ==
            if x.Stop? then x
            else
              var y := Eval(b, r, x.value.cfg);
              if y.Stop? then y else WithConfig(Apply(b, op, x.value.val, y.value.val, y.value.cfg), y.value.cfg)
  {
    hide Apply;
  }

  lemma ComputedStore(m: Machine, v: Result<Computing>, pc: int, reg: int, used: Mask, st: Store)
    requires st.Valid() && Computed(m, v, pc, reg, used, st) && m.At?
    ensures v.Ok? && m == At(pc, m.store) && m.store.Valid() && m.store.cfg == v.value.cfg
  {
  }

  /** The generated operation, one step unfolded. */
  lemma GenBin(e: Expr, used: Mask)
    requires e.EBin? && GenExpr(e, used).reg >= 0
    ensures var g1 := GenExpr(e.l, used); var g2 := GenExpr(e.r, g1.used);
            g1.reg >= 0 && g2.reg >= 0 && GenExpr(e, used).reg == g2.reg &&
            GenExpr(e, used).code == g1.code + g2.code + [Instr(OpMnemonic(e.op), [Reg16(g1.reg), Reg16(g2.reg)])]
  {
    hide OpMnemonic, Reg16;
  }

  lemma BinCorrectPieces(b: Build, e: Expr, prog: seq<Line>, pc: nat, used: Mask, st: Store)
    requires e.EBin? && GenExpr(e, used).reg >= 0 && Placed(prog, pc, GenExpr(e, used).code)
    ensures var g1 := GenExpr(e.l, used); var g2 := GenExpr(e.r, g1.used);
            g1.reg >= 0 && g2.reg >= 0 && g1.used == used + {g1.reg} && g1.reg < 8 && g2.reg < 8 &&
            g1.reg !in used && g2.reg !in g1.used &&
            GenExpr(e, used).reg == g2.reg &&
            GenExpr(e, used).code == g1.code + g2.code + [Instr(OpMnemonic(e.op), [Reg16(g1.reg), Reg16(g2.reg)])] &&
            Placed(prog, pc, g1.code) && Placed(prog, pc + |g1.code|, g2.code) &&
            Placed(prog, pc + |g1.code| + |g2.code|, [Instr(OpMnemonic(e.op), [Reg16(g1.reg), Reg16(g2.reg)])])
  {
    hide Placed, OpMnemonic, Reg16, Need, GenExpr;
    var g1 := GenExpr(e.l, used);
    var g2 := GenExpr(e.r, g1.used);
    GenBin(e, used);
    RegisterBound(e.l, used);
    RegisterBound(e.r, g1.used);
    PlacedSplit(prog, pc, g1.code + g2.code, [Instr(OpMnemonic(e.op), [Reg16(g1.reg), Reg16(g2.reg)])]);
    PlacedSplit(prog, pc, g1.code, g2.code);
  }

  /** The left operand has been computed at m1, the right one n2 steps later; now the
      operation itself. */
  lemma BinaryStep(b: Build, op: BinOp, prog: seq<Line>, pc1: nat, r1: nat, r2: nat, n2: nat, used: Mask,
                   st: Store, m1: Machine, x: Result<Computing>, y: Result<Computing>)
    requires st.Valid() && m1.Valid() && r1 < 8 && r2 < 8 && r1 !in used && r2 !in used && r1 != r2
    requires Placed(prog, pc1 + n2, [Instr(OpMnemonic(op), [Reg16(r1), Reg16(r2)])])
    requires Computed(m1, x, pc1, r1, used, st)
    requires m1.At? ==> Computed(Run(b, prog, m1, n2), y, pc1 + n2, r2, used + {r1}, m1.store)
    ensures Computed(Run(b, prog, Run(b, prog, m1, n2), 1),
                     if x.Stop? then x else if y.Stop? then y
                     else WithConfig(Apply(b, op, x.value.val, y.value.val, y.value.cfg), y.value.cfg),
                     pc1 + n2 + 1, r2, used, st)
  {
    hide Placed, Run, Exec, Resolve, Apply, OpMnemonic, Reg16;
    if m1.Halted? {
      RunHalted(b, prog, m1.reason, n2);
      RunHalted(b, prog, m1.reason, 1);
    } else {
      var m2 := Run(b, prog, m1, n2);
      if m2.Halted? {
        RunHalted(b, prog, m2.reason, 1);
      } else {
        StepInstr(b, prog, pc1 + n2, [Instr(OpMnemonic(op), [Reg16(r1), Reg16(r2)])], 0, m2.store);
        ExecBinaryInstr(b, prog, op, r1, r2, m2.store);
        assert m2.store.regs[r1] == m1.store.regs[r1];
      }
    }
  }

  lemma NotStep(b: Build, prog: seq<Line>, pc1: nat, r: nat, used: Mask, st: Store, m1: Machine, x: Result<Computing>)
    requires st.Valid() && r < 8 && r !in used && Placed(prog, pc1, [Instr(NEG, [Reg16(r)])])
    requires m1.Valid() && Computed(m1, x, pc1, r, used, st)
    ensures Computed(Run(b, prog, m1, 1),
                     if x.Stop? then x else Ok(Computing(Bool(!IsTrue(x.value.val, x.value.cfg)), x.value.cfg)),
                     pc1 + 1, r, used, st)
  {
    hide Placed, Run, Exec, Resolve, IsTrue, Reg16;
    if m1.Halted? {
      RunHalted(b, prog, m1.reason, 1);
    } else {
      StepInstr(b, prog, pc1, [Instr(NEG, [Reg16(r)])], 0, m1.store);
      ExecNegInstr(b, prog, r, m1.store);
    }
  }
}
