/**
 Statements of the config language, and the proof that a compiled program takes their branches.

 Assignments and `if` with `elseif` and `else`, as `cf_cfg_codegenerator` compiles them
 (outside `with`).
 */
module CfgStatements {
  import opened CfgText
  import opened CfgMachine
  import opened CfgAssembly
  import opened CfgCodegen

  /** A list of statements: `cf_cfg_trees_t` linked by `next`. */
  datatype Stmts = Nil | Cons(head: Stmt, tail: Stmts)

  datatype Stmt =
    | Assign(name: CStr, value: Expr)
    | If(cond: Expr, body: Stmts, chain: Chain)

  /** What follows the body of an `if`: any number of `elseif`, then perhaps an `else`. */
  datatype Chain = End | Else(body: Stmts) | Elif(cond: Expr, body: Stmts, rest: Chain)

  // ----- meaning -----

  /** A branch that is followed by another one ends in JMP, which works only if the
      assembler emits the opcode for it. */
  function LeaveBranch(b: Build, r: Result<Config>): Result<Config> {
    if r.Ok? && !b.jmpOpcode then Stop(Error) else r
  }

  function ExecStmts(b: Build, ss: Stmts, cfg: Config): Result<Config> {
    match ss
    case Nil => Ok(cfg)
    case Cons(s, rest) =>
      match ExecStmt(b, s, cfg)
      case Stop(reason) => Stop(reason)
      case Ok(cfg') => ExecStmts(b, rest, cfg')
  }

  function ExecStmt(b: Build, s: Stmt, cfg: Config): Result<Config> {
    match s
    case Assign(name, value) =>
      (match Eval(b, value, Loaded(name, cfg))
       case Stop(reason) => Stop(reason)
       case Ok(v) => Ok(Assigned(b, CellOf(name, cfg), v.val, v.cfg)))
    case If(cond, body, chain) =>
      match Eval(b, cond, cfg)
      case Stop(reason) => Stop(reason)
      case Ok(v) =>
        if !IsTrue(v.val, v.cfg) then ExecChain(b, chain, v.cfg)
        else if HasElse(chain) then LeaveBranch(b, ExecStmts(b, body, v.cfg))
        else ExecStmts(b, body, v.cfg)
  }

  /** The first `elseif` whose condition holds, or the `else` part. */
  function ExecChain(b: Build, c: Chain, cfg: Config): Result<Config> {
    match c
    case End => Ok(cfg)
    case Else(body) => ExecStmts(b, body, cfg)
    case Elif(cond, body, rest) =>
      match Eval(b, cond, cfg)
      case Stop(reason) => Stop(reason)
      case Ok(v) =>
        if IsTrue(v.val, v.cfg) then LeaveBranch(b, ExecStmts(b, body, v.cfg)) else ExecChain(b, rest, v.cfg)
  }

  // ----- code generation -----

  predicate HasElse(c: Chain) {
    match c
    case End => false
    case Else(_) => true
    case Elif(_, _, rest) => HasElse(rest)
  }

  function ChainLength(c: Chain): nat {
    match c
    case End => 0
    case Else(_) => 1
    case Elif(_, _, rest) => 1 + ChainLength(rest)
  }

  /** Generated lines, whether generation succeeded, the register mask, `lbls_used`. */
  datatype GenS = GenS(code: seq<Line>, ok: bool, used: Mask, lbls: nat)

  /** Puts lines in front of what is generated. */
  function After(code: seq<Line>, g: GenS): GenS { g.(code := code + g.code) }

  function GenStmts(ss: Stmts, used: Mask, lbls: nat): GenS {
    match ss
    case Nil => GenS([], true, used, lbls)
    case Cons(s, rest) =>
      var g := GenStmt(s, used, lbls);
      if !g.ok then g else After(g.code, GenStmts(rest, g.used, g.lbls))
  }

  function GenAssign(name: CStr, value: Expr, used: Mask, lbls: nat): GenS {
    var g1 := GenExpr(EIdent(name), used);
    var g2 := GenExpr(value, g1.used);
    if g1.reg < 0 || g2.reg < 0 then GenS(g1.code + g2.code, false, g2.used, lbls)
    else GenS(g1.code + g2.code + [Instr(SET, [Reg16(g2.reg), Reg16(g1.reg)])], true,
              g2.used - {g1.reg as nat} - {g2.reg as nat}, lbls)
  }

  /** A condition and the branch around its body; the register is free again behind it. */
  function GenCond(cond: Expr, falseLabel: nat, used: Mask, lbls: nat): GenS {
    var g := GenExpr(cond, used);
    if g.reg < 0 then GenS(g.code, false, g.used, lbls)
    else GenS(g.code + [Instr(JMPIFNOT, [Lbl(falseLabel), Reg16(g.reg)])], true, g.used - {g.reg as nat}, lbls)
  }

  function GenStmt(s: Stmt, used: Mask, lbls: nat): GenS {
    match s
    case Assign(name, value) => GenAssign(name, value, used, lbls)
    case If(cond, body, chain) =>
      var lbl, lbl1, lbl2 := lbls, lbls + 1, lbls + 2;
      var arglen := 1 + ChainLength(chain);
      var gc := GenCond(cond, if arglen == 2 then lbl1 else lbl, used, lbls + 3);
      if !gc.ok then gc
      else
        var gb := GenStmts(body, gc.used, gc.lbls);
        if !gb.ok then After(gc.code, gb)
        else
          var jump := if HasElse(chain) then [Instr(JMP, [Lbl(if arglen > 2 then lbl2 else lbl)])] else [];
          var ge := GenChain(chain, 1, HasElse(chain), lbl1, lbl2, lbl, gb.used, gb.lbls);
          var g := After(gc.code + gb.code + jump, ge);
          if !ge.ok then g
          else g.(code := g.code + [Label(if chain.Elif? then lbl2 else lbl)])
  }

  /** The `elseif` loop from its index i on, and the `else` part behind it.  As in the
      source, the loop also unmarks the register whose number is the loop index. */
  function GenChain(c: Chain, i: nat, hasElse: bool, lbl1: nat, lbl2: nat, lbl: nat, used: Mask, lbls: nat): GenS {
    match c
    case End => GenS([], true, used, lbls)
    case Else(body) => After([Label(lbl1)], GenStmts(body, used, lbls))
    case Elif(cond, body, rest) =>
      var gc := GenCond(cond, if rest.Elif? || !hasElse then lbls else lbl1, used, lbls + 1);
      if !gc.ok then After([Label(lbl)], gc)
      else
        var gb := GenStmts(body, gc.used, gc.lbls);
        if !gb.ok then After([Label(lbl)] + gc.code, gb)
        else
          After([Label(lbl)] + gc.code + gb.code + [Instr(JMP, [Lbl(lbl2)])],
                GenChain(rest, i + 1, hasElse, lbl1, lbl2, lbls, gb.used - {i}, gb.lbls))
  }

  // ----- which programs get all their labels -----

  /** Every `elseif` chain ends in an `else`. */
  predicate ChainsClosed(ss: Stmts) {
    match ss
    case Nil => true
    case Cons(s, rest) => StmtClosed(s) && ChainsClosed(rest)
  }

  predicate StmtClosed(s: Stmt) {
    s.If? ==> ChainsClosed(s.body) && ChainClosed(s.chain) && (s.chain.Elif? ==> HasElse(s.chain))
  }

  predicate ChainClosed(c: Chain) {
    match c
    case End => true
    case Else(body) => ChainsClosed(body)
    case Elif(_, body, rest) => ChainsClosed(body) && ChainClosed(rest)
  }

  // ----- running compiled statements -----

  ghost predicate Reaches(b: Build, prog: seq<Line>, m: Machine, m': Machine)
    requires m.Valid()
  {
    exists n: nat :: Run(b, prog, m, n) == m'
  }

  lemma ReachesIn(b: Build, prog: seq<Line>, m: Machine, n: nat)
    requires m.Valid()
    ensures Reaches(b, prog, m, Run(b, prog, m, n))
  {
  }

  lemma ReachesTrans(b: Build, prog: seq<Line>, m: Machine, m': Machine, m'': Machine)
    requires m.Valid() && m'.Valid() && Reaches(b, prog, m, m') && Reaches(b, prog, m', m'')
    ensures Reaches(b, prog, m, m'')
  {
    var n: nat :| Run(b, prog, m, n) == m';
    var n': nat :| Run(b, prog, m', n') == m'';
    RunCompose(b, prog, m, n, n');
  }

  /** Finished(r) at line pc: stopped for r's reason, or there with r's config. */
  ghost predicate Finished(m: Machine, r: Result<Config>, pc: int) {
    match r
    case Stop(reason) => m == Halted(reason)
    case Ok(cfg) => m.At? && m.store.Valid() && m.pc == pc && m.store.cfg == cfg
  }

  lemma AssignCorrect(b: Build, name: CStr, value: Expr, used: Mask, lbls: nat, prog: seq<Line>, pc: nat, st: Store)
    returns (m: Machine)
    requires st.Valid() && GenAssign(name, value, used, lbls).ok
    requires Placed(prog, pc, GenAssign(name, value, used, lbls).code)
    ensures Reaches(b, prog, At(pc, st), m)
    ensures Finished(m, ExecStmt(b, Assign(name, value), st.cfg), pc + |GenAssign(name, value, used, lbls).code|)
  {
    hide Placed, Run, Exec, Resolve, Reaches, GenExpr, Eval, CellOf, Loaded, Assigned;
    var g1 := GenExpr(EIdent(name), used);
    var g2 := GenExpr(value, g1.used);
    var line := Instr(SET, [Reg16(g2.reg), Reg16(g1.reg)]);
    RegisterBound(EIdent(name), used);
    RegisterBound(value, g1.used);
    PlacedSplit(prog, pc, g1.code + g2.code, [line]);
    PlacedSplit(prog, pc, g1.code, g2.code);
    ExprCorrect(b, EIdent(name), prog, pc, used, st);
    var m1 := Run(b, prog, At(pc, st), |g1.code|);
    EvalIdent(b, name, st.cfg);
    ReachesIn(b, prog, At(pc, st), |g1.code|);
    ExprCorrect(b, value, prog, pc + |g1.code|, g1.used, m1.store);
    var m2 := Run(b, prog, m1, |g2.code|);
    ReachesIn(b, prog, m1, |g2.code|);
    ReachesTrans(b, prog, At(pc, st), m1, m2);
    m := m2;
    if m2.At? {
      StepInstr(b, prog, pc + |g1.code| + |g2.code|, [line], 0, m2.store);
      ExecSetInstr(b, prog, g2.reg, g1.reg, m2.store);
      m := Run(b, prog, m2, 1);
      ReachesIn(b, prog, m2, 1);
      ReachesTrans(b, prog, At(pc, st), m2, m);
    }
  }

  lemma EvalIdent(b: Build, name: CStr, cfg: Config)
    ensures Eval(b, EIdent(name), cfg) == Ok(Computing(Cfg(CellOf(name, cfg)), Loaded(name, cfg)))
  {
  }

  lemma ExecSetInstr(b: Build, prog: seq<Line>, src: nat, dst: nat, st: Store)
    requires st.Valid() && src < 8 && dst < 8 && st.regs[dst].Cfg?
    ensures Exec(b, Resolve(b, prog, Instr(SET, [Reg16(src), Reg16(dst)])), st) ==
            Next(st.(cfg := Assigned(b, st.regs[dst].cell, st.regs[src], st.cfg)))
  {
    hide Assigned;
    assert Resolve(b, prog, Instr(SET, [Reg16(src), Reg16(dst)])).args == [AReg(src), AReg(dst)];
  }

  lemma ExecJmpIfNotInstr(b: Build, prog: seq<Line>, id: nat, r: nat, st: Store)
    requires st.Valid() && r < 8
    ensures Exec(b, Resolve(b, prog, Instr(JMPIFNOT, [Lbl(id), Reg16(r)])), st) ==
            if IsTrue(st.regs[r], st.cfg) then Next(st) else Goto(Target(prog, id), st)
  {
    hide IsTrue, Target;
    assert Resolve(b, prog, Instr(JMPIFNOT, [Lbl(id), Reg16(r)])).args == [ANum(Target(prog, id)), AReg(r)];
  }

  lemma ExecJmpInstr(b: Build, prog: seq<Line>, id: nat, st: Store)
    requires st.Valid()
    ensures Exec(b, Resolve(b, prog, Instr(JMP, [Lbl(id)])), st) ==
            if b.jmpOpcode then Goto(Target(prog, id), st) else Halt(Error)
  {
    assert Resolve(b, prog, Instr(JMP, [Lbl(id)])).args == [ANum(Target(prog, id))];
  }

  /** Behind the code of a condition: in the body, or at the label for "false". */
  lemma CondCorrect(b: Build, cond: Expr, falseLabel: nat, used: Mask, lbls: nat, prog: seq<Line>, pc: nat, st: Store)
    returns (m: Machine)
    requires st.Valid() && GenCond(cond, falseLabel, used, lbls).ok
    requires Placed(prog, pc, GenCond(cond, falseLabel, used, lbls).code)
    ensures Reaches(b, prog, At(pc, st), m)
    ensures match Eval(b, cond, st.cfg)
            case Stop(reason) => m == Halted(reason)
            case Ok(v) =>
              Finished(m, Ok(v.cfg), if IsTrue(v.val, v.cfg) then pc + |GenCond(cond, falseLabel, used, lbls).code|
                                     else Target(prog, falseLabel))
  {
    hide Placed, Run, Exec, Resolve, Reaches, GenExpr, IsTrue, Eval, Target;
    var g := GenExpr(cond, used);
    var branch := Instr(JMPIFNOT, [Lbl(falseLabel), Reg16(g.reg)]);
    RegisterBound(cond, used);
    PlacedSplit(prog, pc, g.code, [branch]);
    ExprCorrect(b, cond, prog, pc, used, st);
    m := Run(b, prog, At(pc, st), |g.code|);
    ReachesIn(b, prog, At(pc, st), |g.code|);
    if m.At? {
      var m1 := m;
      StepInstr(b, prog, pc + |g.code|, [branch], 0, m1.store);
      ExecJmpIfNotInstr(b, prog, falseLabel, g.reg, m1.store);
      m := Run(b, prog, m1, 1);
      ReachesIn(b, prog, m1, 1);
      ReachesTrans(b, prog, At(pc, st), m1, m);
    }
  }

  /** The jump at the end of a branch. */
  lemma JumpCorrect(b: Build, id: nat, prog: seq<Line>, pc: nat, m0: Machine, m: Machine, r: Result<Config>)
    returns (m': Machine)
    requires m0.Valid() && Reaches(b, prog, m0, m) && Finished(m, r, pc) && Placed(prog, pc, [Instr(JMP, [Lbl(id)])])
    ensures Reaches(b, prog, m0, m') && Finished(m', LeaveBranch(b, r), Target(prog, id))
  {
    hide Placed, Run, Exec, Resolve, Reaches, Target;
    m' := m;
    if m.At? {
      StepInstr(b, prog, pc, [Instr(JMP, [Lbl(id)])], 0, m.store);
      ExecJmpInstr(b, prog, id, m.store);
      m' := Run(b, prog, m, 1);
      ReachesIn(b, prog, m, 1);
      ReachesTrans(b, prog, m0, m, m');
    }
  }

  /** Running into a label. */
  lemma LabelCorrect(b: Build, id: nat, prog: seq<Line>, pc: nat, m0: Machine, m: Machine, r: Result<Config>)
    returns (m': Machine)
    requires m0.Valid() && Reaches(b, prog, m0, m) && Finished(m, r, pc) && Placed(prog, pc, [Label(id)])
    ensures Reaches(b, prog, m0, m') && Finished(m', r, pc + 1)
  {
    hide Placed, Run, Reaches;
    m' := m;
    if m.At? {
      StepLabel(b, prog, pc, [Label(id)], 0, m.store);
      m' := Run(b, prog, m, 1);
      ReachesIn(b, prog, m, 1);
      ReachesTrans(b, prog, m0, m, m');
    }
  }

  /** The label behind an `if` as a whole. */
  function EndLabel(chain: Chain, lbls: nat): nat { if chain.Elif? then lbls + 2 else lbls }

  /** The label a false condition jumps to. */
  function FalseLabel(chain: Chain, lbls: nat): nat { if ChainLength(chain) == 1 then lbls + 1 else lbls }

  /** The pieces of a compiled `if` and where they stand. */
  lemma IfPieces(cond: Expr, body: Stmts, chain: Chain, used: Mask, lbls: nat, prog: seq<Line>, pc: nat)
    returns (gc: GenS, gb: GenS, jump: seq<Line>, ge: GenS)
    requires GenStmt(If(cond, body, chain), used, lbls).ok
    requires Placed(prog, pc, GenStmt(If(cond, body, chain), used, lbls).code)
    ensures gc == GenCond(cond, FalseLabel(chain, lbls), used, lbls + 3) && gc.ok
    ensures gb == GenStmts(body, gc.used, gc.lbls) && gb.ok
    ensures jump == if HasElse(chain) then [Instr(JMP, [Lbl(EndLabel(chain, lbls))])] else []
    ensures ge == GenChain(chain, 1, HasElse(chain), lbls + 1, lbls + 2, lbls, gb.used, gb.lbls) && ge.ok
    ensures |GenStmt(If(cond, body, chain), used, lbls).code| == |gc.code| + |gb.code| + |jump| + |ge.code| + 1
    ensures Placed(prog, pc, gc.code) && Placed(prog, pc + |gc.code|, gb.code)
    ensures Placed(prog, pc + |gc.code| + |gb.code|, jump)
    ensures Placed(prog, pc + |gc.code| + |gb.code| + |jump|, ge.code)
    ensures Placed(prog, pc + |gc.code| + |gb.code| + |jump| + |ge.code|, [Label(EndLabel(chain, lbls))])
  {
    hide Placed, GenStmts, GenChain, GenCond;
    gc := GenCond(cond, FalseLabel(chain, lbls), used, lbls + 3);
    gb := GenStmts(body, gc.used, gc.lbls);
    jump := if HasElse(chain) then [Instr(JMP, [Lbl(EndLabel(chain, lbls))])] else [];
    ge := GenChain(chain, 1, HasElse(chain), lbls + 1, lbls + 2, lbls, gb.used, gb.lbls);
    LongerChain(chain);
    PlacedSplit(prog, pc, gc.code + gb.code + jump + ge.code, [Label(EndLabel(chain, lbls))]);
    PlacedSplit(prog, pc, gc.code + gb.code + jump, ge.code);
    PlacedSplit(prog, pc, gc.code + gb.code, jump);
    PlacedSplit(prog, pc, gc.code, gb.code);
  }

  lemma LongerChain(c: Chain)
    ensures c.Elif? && HasElse(c) ==> ChainLength(c) >= 2
    ensures c.Elif? ==> (ChainLength(c) == 1 <==> c.rest == End)
  {
    if c.Elif? {
      assert HasElse(c) == HasElse(c.rest);
      assert c.rest != End ==> ChainLength(c.rest) >= 1;
    }
  }

  /** A placed label is where jumps to it go. */
  lemma PlacedLabel(prog: seq<Line>, pc: nat, code: seq<Line>)
    requires Placed(prog, pc, code) && code != [] && code[0].Label?
    ensures Target(prog, code[0].id) == pc
  {
  }

  lemma RunNothing(b: Build, prog: seq<Line>, m: Machine)
    requires m.Valid()
    ensures Run(b, prog, m, 0) == m
  {
  }

  lemma AssignIs(name: CStr, value: Expr, used: Mask, lbls: nat)
    ensures GenStmt(Assign(name, value), used, lbls) == GenAssign(name, value, used, lbls)
  {
  }

  /** The code of a chain starts with the label the previous condition jumps to. */
  lemma ChainStarts(c: Chain, i: nat, hasElse: bool, lbl1: nat, lbl2: nat, lbl: nat, used: Mask, lbls: nat)
    requires c != End
    ensures var code := GenChain(c, i, hasElse, lbl1, lbl2, lbl, used, lbls).code;
            code != [] && code[0] == Label(if c.Else? then lbl1 else lbl)
  {
  }

  lemma ElifPieces(cond: Expr, body: Stmts, rest: Chain, i: nat, hasElse: bool, lbl1: nat, lbl2: nat, lbl: nat,
                   used: Mask, lbls: nat, prog: seq<Line>, pc: nat)
    returns (gc: GenS, gb: GenS, gr: GenS)
    requires GenChain(Elif(cond, body, rest), i, hasElse, lbl1, lbl2, lbl, used, lbls).ok
    requires Placed(prog, pc, GenChain(Elif(cond, body, rest), i, hasElse, lbl1, lbl2, lbl, used, lbls).code)
    ensures gc == GenCond(cond, if rest.Elif? || !hasElse then lbls else lbl1, used, lbls + 1) && gc.ok
    ensures gb == GenStmts(body, gc.used, gc.lbls) && gb.ok
    ensures gr == GenChain(rest, i + 1, hasElse, lbl1, lbl2, lbls, gb.used - {i}, gb.lbls) && gr.ok
    ensures |GenChain(Elif(cond, body, rest), i, hasElse, lbl1, lbl2, lbl, used, lbls).code| ==
            |gc.code| + |gb.code| + |gr.code| + 2
    ensures Placed(prog, pc, [Label(lbl)]) && Placed(prog, pc + 1, gc.code)
    ensures Placed(prog, pc + 1 + |gc.code|, gb.code)
    ensures Placed(prog, pc + 1 + |gc.code| + |gb.code|, [Instr(JMP, [Lbl(lbl2)])])
    ensures Placed(prog, pc + 2 + |gc.code| + |gb.code|, gr.code)
  {
    hide Placed, GenStmts, GenCond;
    gc := GenCond(cond, if rest.Elif? || !hasElse then lbls else lbl1, used, lbls + 1);
    gb := GenStmts(body, gc.used, gc.lbls);
    gr := GenChain(rest, i + 1, hasElse, lbl1, lbl2, lbls, gb.used - {i}, gb.lbls);
    PlacedSplit(prog, pc, [Label(lbl)] + gc.code + gb.code + [Instr(JMP, [Lbl(lbl2)])], gr.code);
    PlacedSplit(prog, pc, [Label(lbl)] + gc.code + gb.code, [Instr(JMP, [Lbl(lbl2)])]);
    PlacedSplit(prog, pc, [Label(lbl)] + gc.code, gb.code);
    PlacedSplit(prog, pc, [Label(lbl)], gc.code);
  }
}
