/** What compiled programs do when they run, with closed `elseif` chains or without. */
module CfgRuns {
  // A chain that has an `elseif` and no `else` jumps to a label that is defined nowhere, which
  // is the first line: the program starts anew with the config it has by then.

  import opened CfgText
  import opened CfgMachine
  import opened CfgAssembly
  import opened CfgCodegen
  import opened CfgStatements
  import opened CfgLabels

  // ----- one round -----

  /** Behind the statements, or stopped; or back at the first line. */
  datatype Round = Past(r: Result<Config>) | Again(cfg: Config)

  function LeaveRound(b: Build, r: Round): Round { if r.Past? then Past(LeaveBranch(b, r.r)) else r }

  function RoundStmts(b: Build, ss: Stmts, cfg: Config): Round {
    match ss
    case Nil => Past(Ok(cfg))
    case Cons(s, rest) =>
      var r := RoundStmt(b, s, cfg);
      if r.Past? && r.r.Ok? then RoundStmts(b, rest, r.r.value) else r
  }

  /** Without a final `else` the first branch runs into the test of the next. */
  function RoundStmt(b: Build, s: Stmt, cfg: Config): Round {
    match s
    case Assign(_, _) => Past(ExecStmt(b, s, cfg))
    case If(cond, body, chain) =>
      match Eval(b, cond, cfg)
      case Stop(reason) => Past(Stop(reason))
      case Ok(v) =>
        if IsTrue(v.val, v.cfg) then
          var r := RoundStmts(b, body, v.cfg);
          if HasElse(chain) then LeaveRound(b, r)
          else if r.Past? && r.r.Ok? then RoundChain(b, chain, r.r.value)
          else r
        else if chain.Elif? && chain.rest.End? then Again(v.cfg)
        else RoundChain(b, chain, v.cfg)
  }

  function RoundChain(b: Build, c: Chain, cfg: Config): Round {
    match c
    case End => Past(Ok(cfg))
    case Else(body) => RoundStmts(b, body, cfg)
    case Elif(cond, body, rest) =>
      match Eval(b, cond, cfg)
      case Stop(reason) => Past(Stop(reason))
      case Ok(v) =>
        if IsTrue(v.val, v.cfg) then LeaveRound(b, RoundStmts(b, body, v.cfg))
        else if rest.End? then Again(v.cfg)
        else RoundChain(b, rest, v.cfg)
  }

  /** Where every chain is closed there is one round, which does what the statements do. */
  lemma {:induction false} ClosedRound(b: Build, ss: Stmts, cfg: Config)
    requires ChainsClosed(ss)
    ensures RoundStmts(b, ss, cfg) == Past(ExecStmts(b, ss, cfg))
    decreases ss
  {
    hide ExecStmt, RoundStmt, StmtClosed;
    match ss
    case Nil =>
    case Cons(s, rest) =>
      ClosedStmtRound(b, s, cfg);
      if ExecStmt(b, s, cfg).Ok? {
        ClosedRound(b, rest, ExecStmt(b, s, cfg).value);
      }
  }

  lemma {:induction false} ClosedStmtRound(b: Build, s: Stmt, cfg: Config)
    requires StmtClosed(s)
    ensures RoundStmt(b, s, cfg) == Past(ExecStmt(b, s, cfg))
    decreases s
  {
    hide Eval, IsTrue, ExecStmts, RoundStmts, ChainsClosed, ChainClosed;
    if s.If? && Eval(b, s.cond, cfg).Ok? {
      var v := Eval(b, s.cond, cfg).value;
      ClosedRound(b, s.body, v.cfg);
      ClosedChainRound(b, s.chain, v.cfg);
    }
  }

  lemma {:induction false} ClosedChainRound(b: Build, c: Chain, cfg: Config)
    requires ChainClosed(c) && (c.Elif? ==> HasElse(c))
    ensures RoundChain(b, c, cfg) == Past(ExecChain(b, c, cfg))
    decreases c
  {
    hide Eval, IsTrue, ExecStmts, RoundStmts, ChainsClosed;
    match c
    case End =>
    case Else(body) => ClosedRound(b, body, cfg);
    case Elif(cond, body, rest) =>
      if Eval(b, cond, cfg).Ok? {
        ClosedRound(b, body, Eval(b, cond, cfg).value.cfg);
        ClosedChainRound(b, rest, Eval(b, cond, cfg).value.cfg);
      }
  }

  // ----- labels that are defined nowhere -----

  /** Nothing else in the program defines the labels this piece has taken. */
  ghost predicate Alone(prog: seq<Line>, code: seq<Line>, lo: nat, hi: nat) {
    forall id: nat :: lo <= id < hi && id !in Defs(code) ==> Target(prog, id) == 0
  }

  /** Or the piece misses no label at all. */
  ghost predicate Settled(prog: seq<Line>, code: seq<Line>, lo: nat, hi: nat, closed: bool) {
    closed || Alone(prog, code, lo, hi)
  }

  lemma SettledPart(prog: seq<Line>, code: seq<Line>, lo: nat, hi: nat, closed: bool,
                    part: seq<Line>, lo': nat, hi': nat, closed': bool)
    requires Settled(prog, code, lo, hi, closed) && lo <= lo' && hi' <= hi && (closed ==> closed')
    requires forall id: nat :: lo' <= id < hi' && id in Defs(code) ==> id in Defs(part)
    ensures Settled(prog, part, lo', hi', closed')
  {
  }

  lemma {:induction false} Undefined(prog: seq<Line>, id: nat)
    ensures id !in Defs(prog) ==> Target(prog, id) == 0
  {
    if Target(prog, id) != 0 {
      assert prog[Target(prog, id)].Label?;
    }
  }

  lemma SettledWhole(prog: seq<Line>, hi: nat, closed: bool)
    ensures Settled(prog, prog, 0, hi, closed)
  {
    forall id: nat | id !in Defs(prog) ensures Target(prog, id) == 0 {
      Undefined(prog, id);
    }
  }

  lemma IdsWithin(ids: set<nat>, D: set<nat>, M: set<nat>, lo: nat, hi: nat)
    requires ids == D && Within(D + M, lo, hi)
    ensures Within(ids, lo, hi)
  {
    forall x | x in ids ensures lo <= x < hi {
      assert x in D + M;
    }
  }

  lemma StmtsRange(ss: Stmts, used: Mask, lbls: nat)
    requires GenStmts(ss, used, lbls).ok
    ensures lbls <= GenStmts(ss, used, lbls).lbls && Within(Defs(GenStmts(ss, used, lbls).code), lbls, GenStmts(ss, used, lbls).lbls)
  {
    hide GenStmts, Within;
    var D, M := StmtsShape(ss, used, lbls);
    IdsWithin(Defs(GenStmts(ss, used, lbls).code), D, M, lbls, GenStmts(ss, used, lbls).lbls);
  }

  lemma StmtRange(s: Stmt, used: Mask, lbls: nat)
    requires GenStmt(s, used, lbls).ok
    ensures lbls <= GenStmt(s, used, lbls).lbls && Within(Defs(GenStmt(s, used, lbls).code), lbls, GenStmt(s, used, lbls).lbls)
  {
    hide GenStmt, Within;
    var D, M := StmtShape(s, used, lbls);
    IdsWithin(Defs(GenStmt(s, used, lbls).code), D, M, lbls, GenStmt(s, used, lbls).lbls);
  }

  /** The labels a chain defines: those it is entered at, and its own. */
  lemma ChainRange(c: Chain, i: nat, hasElse: bool, lbl1: nat, lbl2: nat, lbl: nat, used: Mask, lbls: nat)
    requires hasElse == HasElse(c) && lbl != lbl1 && lbl != lbl2 && lbl1 != lbl2 && lbl < lbls && lbl1 < lbls && lbl2 < lbls
    requires GenChain(c, i, hasElse, lbl1, lbl2, lbl, used, lbls).ok
    ensures var g := GenChain(c, i, hasElse, lbl1, lbl2, lbl, used, lbls);
            lbls <= g.lbls && (forall id :: id in Defs(g.code) ==> id == lbl || (id == lbl1 && hasElse) || lbls <= id < g.lbls)
  {
    hide GenChain, HasElse;
    var D, M := ChainShape(c, i, hasElse, lbl1, lbl2, lbl, used, lbls);
    var g := GenChain(c, i, hasElse, lbl1, lbl2, lbl, used, lbls);
    forall id | id in Defs(g.code) ensures id == lbl || (id == lbl1 && hasElse) || lbls <= id < g.lbls {
      assert id in D;
      assert id != lbl && id != lbl1 ==> id in D - {lbl, lbl1};
    }
  }

  lemma CondRange(cond: Expr, falseLabel: nat, used: Mask, lbls: nat)
    requires GenCond(cond, falseLabel, used, lbls).ok
    ensures Defs(GenCond(cond, falseLabel, used, lbls).code) == {} && GenCond(cond, falseLabel, used, lbls).lbls == lbls
  {
    hide GenCond;
    CondShape(cond, falseLabel, used, lbls);
  }

  lemma DefsOne(line: Line)
    ensures Defs([line]) == if line.Label? then {line.id} else {}
  {
    if line.Label? { assert [line][0].Label?; }
  }

  lemma DefsOfThree(a: seq<Line>, c: seq<Line>, d: seq<Line>)
    ensures Defs(a + c + d) == Defs(a) + Defs(c) + Defs(d)
  {
    DefsConcat(a + c, d);
    DefsConcat(a, c);
  }

  // ----- running compiled statements -----

  /** Behind the piece, stopped, or at the first line. */
  ghost predicate Rounded(m: Machine, r: Round, pc: int) {
    match r
    case Past(x) => Finished(m, x, pc)
    case Again(cfg) => m.At? && m.store.Valid() && m.pc == 0 && m.store.cfg == cfg
  }

  /** A compiled statement list runs its round. */
  lemma {:induction false} StmtsRun(b: Build, ss: Stmts, used: Mask, lbls: nat, prog: seq<Line>, pc: nat, st: Store)
    returns (m: Machine)
    requires st.Valid() && GenStmts(ss, used, lbls).ok && Placed(prog, pc, GenStmts(ss, used, lbls).code)
    requires Settled(prog, GenStmts(ss, used, lbls).code, lbls, GenStmts(ss, used, lbls).lbls, ChainsClosed(ss))
    ensures Reaches(b, prog, At(pc, st), m)
    ensures Rounded(m, RoundStmts(b, ss, st.cfg), pc + |GenStmts(ss, used, lbls).code|)
    decreases ss
  {
    hide Placed, Run, Reaches, GenStmt, RoundStmt, Settled, StmtClosed;
    match ss
    case Nil =>
      ReachesIn(b, prog, At(pc, st), 0);
      RunNothing(b, prog, At(pc, st));
      m := At(pc, st);
    case Cons(s, rest) =>
      var g := GenStmt(s, used, lbls);
      var g2 := GenStmts(rest, g.used, g.lbls);
      PlacedSplit(prog, pc, g.code, g2.code);
      SettledSplit(prog, s, rest, used, lbls);
      m := StmtRun(b, s, used, lbls, prog, pc, st);
      if m.At? && RoundStmt(b, s, st.cfg).Past? {
        var m1 := m;
        m := StmtsRun(b, rest, g.used, g.lbls, prog, pc + |g.code|, m1.store);
        ReachesTrans(b, prog, At(pc, st), m1, m);
      }
  }

  lemma SettledSplit(prog: seq<Line>, s: Stmt, rest: Stmts, used: Mask, lbls: nat)
    requires var g := GenStmts(Cons(s, rest), used, lbls);
             g.ok && Settled(prog, g.code, lbls, g.lbls, ChainsClosed(Cons(s, rest)))
    ensures var g := GenStmt(s, used, lbls); var g2 := GenStmts(rest, g.used, g.lbls);
            Settled(prog, g.code, lbls, g.lbls, StmtClosed(s)) && Settled(prog, g2.code, g.lbls, g2.lbls, ChainsClosed(rest))
  {
    hide GenStmt, Settled, StmtClosed;
    var g := GenStmt(s, used, lbls);
    var g2 := GenStmts(rest, g.used, g.lbls);
    StmtRange(s, used, lbls);
    StmtsRange(rest, g.used, g.lbls);
    DefsConcat(g.code, g2.code);
    var closed := ChainsClosed(Cons(s, rest));
    SettledPart(prog, g.code + g2.code, lbls, g2.lbls, closed, g.code, lbls, g.lbls, StmtClosed(s));
    SettledPart(prog, g.code + g2.code, lbls, g2.lbls, closed, g2.code, g.lbls, g2.lbls, ChainsClosed(rest));
  }

  lemma {:induction false} StmtRun(b: Build, s: Stmt, used: Mask, lbls: nat, prog: seq<Line>, pc: nat, st: Store)
    returns (m: Machine)
    requires st.Valid() && GenStmt(s, used, lbls).ok && Placed(prog, pc, GenStmt(s, used, lbls).code)
    requires Settled(prog, GenStmt(s, used, lbls).code, lbls, GenStmt(s, used, lbls).lbls, StmtClosed(s))
    ensures Reaches(b, prog, At(pc, st), m)
    ensures Rounded(m, RoundStmt(b, s, st.cfg), pc + |GenStmt(s, used, lbls).code|)
    decreases s, 2
  {
    hide *;
    match s
    case Assign(name, value) =>
      AssignIs(name, value, used, lbls);
      m := AssignCorrect(b, name, value, used, lbls, prog, pc, st);
      AssignRounds(b, name, value, st.cfg, m, pc + |GenStmt(s, used, lbls).code|);
    case If(cond, body, chain) =>
      m := IfRun(b, s, used, lbls, prog, pc, st);
  }

  lemma AssignRounds(b: Build, name: CStr, value: Expr, cfg: Config, m: Machine, pc: int)
    requires Finished(m, ExecStmt(b, Assign(name, value), cfg), pc)
    ensures Rounded(m, RoundStmt(b, Assign(name, value), cfg), pc)
  {
  }

  lemma JumpRound(b: Build, id: nat, prog: seq<Line>, pc: nat, m0: Machine, m: Machine, r: Round) returns (m': Machine)
    requires m0.Valid() && Reaches(b, prog, m0, m) && Rounded(m, r, pc) && Placed(prog, pc, [Instr(JMP, [Lbl(id)])])
    ensures Reaches(b, prog, m0, m') && Rounded(m', LeaveRound(b, r), Target(prog, id))
  {
    hide Placed, Reaches, Target, Finished;
    m' := m;
    if r.Past? {
      m' := JumpCorrect(b, id, prog, pc, m0, m, r.r);
    }
  }

  lemma LabelRound(b: Build, id: nat, prog: seq<Line>, pc: nat, m0: Machine, m: Machine, r: Round) returns (m': Machine)
    requires m0.Valid() && Reaches(b, prog, m0, m) && Rounded(m, r, pc) && Placed(prog, pc, [Label(id)])
    ensures Reaches(b, prog, m0, m') && Rounded(m', r, pc + 1)
  {
    hide Placed, Reaches, Finished;
    m' := m;
    if r.Past? {
      m' := LabelCorrect(b, id, prog, pc, m0, m, r.r);
    }
  }

  predicate ChainSettled(c: Chain) { ChainClosed(c) && (c.Elif? ==> HasElse(c)) }

  /** A condition that jumps nowhere: that of an `if` with one `elseif` and nothing else. */
  predicate Lost(chain: Chain) { chain.Elif? && chain.rest.End? }

  /** The label a lone `elseif` lacks is not defined by anything else. */
  lemma IfSettled(cond: Expr, body: Stmts, chain: Chain, used: Mask, lbls: nat, prog: seq<Line>,
                  gc: GenS, gb: GenS, jump: seq<Line>, ge: GenS)
    requires gc == GenCond(cond, FalseLabel(chain, lbls), used, lbls + 3) && gc.ok
    requires gb == GenStmts(body, gc.used, gc.lbls) && gb.ok
    requires jump == if HasElse(chain) then [Instr(JMP, [Lbl(EndLabel(chain, lbls))])] else []
    requires ge == GenChain(chain, 1, HasElse(chain), lbls + 1, lbls + 2, lbls, gb.used, gb.lbls) && ge.ok
    requires var code := gc.code + gb.code + jump + ge.code + [Label(EndLabel(chain, lbls))];
             Settled(prog, code, lbls, ge.lbls, ChainsClosed(body) && ChainSettled(chain))
    ensures lbls + 3 <= gb.lbls && Settled(prog, gb.code, gc.lbls, gb.lbls, ChainsClosed(body))
    ensures Settled(prog, ge.code, gb.lbls, ge.lbls, ChainSettled(chain))
    ensures Lost(chain) ==> Target(prog, lbls + 1) == 0
  {
    hide GenCond, GenStmts, GenChain, Within, Settled, ChainsClosed, FalseLabel, HasElse;
    var end := EndLabel(chain, lbls);
    var code := gc.code + gb.code + jump + ge.code + [Label(end)];
    var closed := ChainsClosed(body) && ChainSettled(chain);
    CondRange(cond, FalseLabel(chain, lbls), used, lbls + 3);
    StmtsRange(body, gc.used, gc.lbls);
    ChainRange(chain, 1, HasElse(chain), lbls + 1, lbls + 2, lbls, gb.used, gb.lbls);
    DefsOfIf(gc.code, gb.code, jump, ge.code, end);
    BelowOrAbove(Defs(gb.code), gc.lbls, gb.lbls);
    SettledPart(prog, code, lbls, ge.lbls, closed, gb.code, gc.lbls, gb.lbls, ChainsClosed(body));
    SettledPart(prog, code, lbls, ge.lbls, closed, ge.code, gb.lbls, ge.lbls, ChainSettled(chain));
    if Lost(chain) {
      LostOpen(chain);
      MissedLabel(prog, code, lbls, ge.lbls, closed, lbls + 1);
    }
  }

  lemma LostOpen(c: Chain)
    ensures Lost(c) ==> !HasElse(c) && !ChainSettled(c)
  {
  }

  lemma MissedLabel(prog: seq<Line>, code: seq<Line>, lo: nat, hi: nat, closed: bool, id: nat)
    requires Settled(prog, code, lo, hi, closed) && !closed && lo <= id < hi && id !in Defs(code)
    ensures Target(prog, id) == 0
  {
  }

  lemma BelowOrAbove(ids: set<nat>, lo: nat, hi: nat)
    requires Within(ids, lo, hi)
    ensures forall id :: id in ids ==> lo <= id < hi
  {
  }

  lemma DefsOfIf(c: seq<Line>, d: seq<Line>, jump: seq<Line>, e: seq<Line>, end: nat)
    requires jump == [] || (|jump| == 1 && jump[0].Instr?)
    ensures Defs(c + d + jump + e + [Label(end)]) == Defs(c) + Defs(d) + Defs(e) + {end}
  {
    DefsOne(Label(end));
    assert Defs(jump) == {};
    DefsOfThree(c, d, jump);
    DefsOfThree(c + d + jump, e, [Label(end)]);
  }

  lemma {:induction false} IfRun(b: Build, s: Stmt, used: Mask, lbls: nat, prog: seq<Line>, pc: nat, st: Store)
    returns (m: Machine)
    requires st.Valid() && s.If? && GenStmt(s, used, lbls).ok && Placed(prog, pc, GenStmt(s, used, lbls).code)
    requires Settled(prog, GenStmt(s, used, lbls).code, lbls, GenStmt(s, used, lbls).lbls, StmtClosed(s))
    ensures Reaches(b, prog, At(pc, st), m)
    ensures Rounded(m, RoundStmt(b, s, st.cfg), pc + |GenStmt(s, used, lbls).code|)
    decreases s, 1
  {
    hide Placed, Run, Reaches, GenStmt, GenStmts, GenChain, GenCond, IsTrue, Eval, RoundStmts, RoundChain, Target;
    hide RoundStmt, StmtClosed, ChainsClosed, HasElse, FalseLabel, EndLabel, LeaveBranch, Settled, ChainSettled, Lost;
    var If(cond, body, chain) := s;
    RoundIf(b, s, st.cfg);
    var gc, gb, jump, ge := IfPieces(cond, body, chain, used, lbls, prog, pc);
    IfWhole(s, used, lbls, gc, gb, jump, ge);
    IfSettled(cond, body, chain, used, lbls, prog, gc, gb, jump, ge);
    var p1 := pc + |gc.code|;
    var p4 := p1 + |gb.code| + |jump| + |ge.code|;
    PlacedLabel(prog, p4, [Label(EndLabel(chain, lbls))]);
    m := CondCorrect(b, cond, FalseLabel(chain, lbls), used, lbls + 3, prog, pc, st);
    if m.At? {
      var m1 := m;
      if IsTrue(Eval(b, cond, st.cfg).value.val, m1.store.cfg) {
        m := TrueRun(b, s, lbls, gc, gb, jump, ge, prog, p1, m1.store);
      } else {
        m := FalseRun(b, s, lbls, gb, ge, prog, p4 - |ge.code|, m1.store);
      }
      ReachesTrans(b, prog, At(pc, st), m1, m);
      m := LabelRound(b, EndLabel(chain, lbls), prog, p4, At(pc, st), m, RoundStmt(b, s, st.cfg));
    }
  }

  /** The code of an `if` as a whole. */
  lemma IfWhole(s: Stmt, used: Mask, lbls: nat, gc: GenS, gb: GenS, jump: seq<Line>, ge: GenS)
    requires s.If? && GenStmt(s, used, lbls).ok
    requires gc == GenCond(s.cond, FalseLabel(s.chain, lbls), used, lbls + 3) && gc.ok
    requires gb == GenStmts(s.body, gc.used, gc.lbls) && gb.ok
    requires jump == if HasElse(s.chain) then [Instr(JMP, [Lbl(EndLabel(s.chain, lbls))])] else []
    requires ge == GenChain(s.chain, 1, HasElse(s.chain), lbls + 1, lbls + 2, lbls, gb.used, gb.lbls) && ge.ok
    ensures GenStmt(s, used, lbls).code == gc.code + gb.code + jump + ge.code + [Label(EndLabel(s.chain, lbls))]
    ensures GenStmt(s, used, lbls).lbls == ge.lbls
    ensures StmtClosed(s) == (ChainsClosed(s.body) && ChainSettled(s.chain))
  {
    hide GenStmts, GenChain, GenCond;
    LongerChain(s.chain);
  }

  /** The round of an `if`, one step unfolded. */
  lemma RoundIf(b: Build, s: Stmt, cfg: Config)
    requires s.If?
    ensures Eval(b, s.cond, cfg).Stop? ==> RoundStmt(b, s, cfg) == Past(Stop(Eval(b, s.cond, cfg).reason))
    ensures Eval(b, s.cond, cfg).Ok? ==>
              var v := Eval(b, s.cond, cfg).value;
              RoundStmt(b, s, cfg) ==
              if IsTrue(v.val, v.cfg) then TrueRound(b, s.body, s.chain, v.cfg)
              else if Lost(s.chain) then Again(v.cfg) else RoundChain(b, s.chain, v.cfg)
  {
  }

  function TrueRound(b: Build, body: Stmts, chain: Chain, cfg: Config): Round {
    var r := RoundStmts(b, body, cfg);
    if HasElse(chain) then LeaveRound(b, r) else if r.Past? && r.r.Ok? then RoundChain(b, chain, r.r.value) else r
  }

  /** From the body of an `if` to its final label, through the `elseif` parts if there is no
      `else`. */
  lemma {:induction false} TrueRun(b: Build, s: Stmt, lbls: nat, gc: GenS, gb: GenS, jump: seq<Line>, ge: GenS,
                                   prog: seq<Line>, p1: nat, st: Store)
    returns (m: Machine)
    requires st.Valid() && s.If? && gb == GenStmts(s.body, gc.used, gc.lbls) && gb.ok && Placed(prog, p1, gb.code)
    requires Settled(prog, gb.code, gc.lbls, gb.lbls, ChainsClosed(s.body))
    requires jump == if HasElse(s.chain) then [Instr(JMP, [Lbl(EndLabel(s.chain, lbls))])] else []
    requires Placed(prog, p1 + |gb.code|, jump) && Placed(prog, p1 + |gb.code| + |jump|, ge.code)
    requires ge == GenChain(s.chain, 1, HasElse(s.chain), lbls + 1, lbls + 2, lbls, gb.used, gb.lbls) && ge.ok
    requires lbls + 3 <= gb.lbls && Settled(prog, ge.code, gb.lbls, ge.lbls, ChainSettled(s.chain))
    requires Target(prog, EndLabel(s.chain, lbls)) == p1 + |gb.code| + |jump| + |ge.code|
    ensures Reaches(b, prog, At(p1, st), m)
    ensures Rounded(m, TrueRound(b, s.body, s.chain, st.cfg), p1 + |gb.code| + |jump| + |ge.code|)
    decreases s, 0
  {
    hide Placed, Run, Reaches, GenStmts, GenChain, RoundStmts, RoundChain, Target, Settled, ChainsClosed, ChainSettled, HasElse;
    var r := RoundStmts(b, s.body, st.cfg);
    m := StmtsRun(b, s.body, gc.used, gc.lbls, prog, p1, st);
    if HasElse(s.chain) {
      m := JumpRound(b, EndLabel(s.chain, lbls), prog, p1 + |gb.code|, At(p1, st), m, r);
    } else if m.At? && r.Past? {
      var m1 := m;
      m := ChainEnter(b, s.chain, HasElse(s.chain), lbls, gb.used, gb.lbls, prog, p1 + |gb.code|, m1.store);
      ReachesTrans(b, prog, At(p1, st), m1, m);
    }
  }

  /** From where a false condition jumps. */
  lemma {:induction false} FalseRun(b: Build, s: Stmt, lbls: nat, gb: GenS, ge: GenS, prog: seq<Line>, p3: nat, st: Store)
    returns (m: Machine)
    requires st.Valid() && s.If? && lbls + 3 <= gb.lbls
    requires ge == GenChain(s.chain, 1, HasElse(s.chain), lbls + 1, lbls + 2, lbls, gb.used, gb.lbls) && ge.ok
    requires Placed(prog, p3, ge.code) && Settled(prog, ge.code, gb.lbls, ge.lbls, ChainSettled(s.chain))
    requires Target(prog, EndLabel(s.chain, lbls)) == p3 + |ge.code|
    requires Lost(s.chain) ==> Target(prog, lbls + 1) == 0
    ensures Reaches(b, prog, At(Target(prog, FalseLabel(s.chain, lbls)), st), m)
    ensures Rounded(m, if Lost(s.chain) then Again(st.cfg) else RoundChain(b, s.chain, st.cfg), p3 + |ge.code|)
    decreases s, 0
  {
    hide Placed, Run, Reaches, GenChain, Target, Settled, ChainSettled, HasElse, RoundChain;
    LongerChain(s.chain);
    if Lost(s.chain) {
      m := At(Target(prog, FalseLabel(s.chain, lbls)), st);
      ReachesIn(b, prog, m, 0);
      RunNothing(b, prog, m);
    } else {
      FalseTarget(s.chain, lbls, gb.used, gb.lbls, prog, p3);
      m := ChainEnter(b, s.chain, HasElse(s.chain), lbls, gb.used, gb.lbls, prog, p3, st);
    }
  }

  lemma FalseTarget(chain: Chain, lbls: nat, used: Mask, n: nat, prog: seq<Line>, p3: nat)
    requires var code := GenChain(chain, 1, HasElse(chain), lbls + 1, lbls + 2, lbls, used, n).code;
             Placed(prog, p3, code) && Target(prog, EndLabel(chain, lbls)) == p3 + |code| && !Lost(chain)
    ensures Target(prog, FalseLabel(chain, lbls)) == p3
  {
    hide Placed, GenStmts, GenCond, Target;
    LongerChain(chain);
    if !chain.End? {
      ChainStarts(chain, 1, HasElse(chain), lbls + 1, lbls + 2, lbls, used, n);
      PlacedLabel(prog, p3, GenChain(chain, 1, HasElse(chain), lbls + 1, lbls + 2, lbls, used, n).code);
    }
  }

  /** The chain of an `if`, from its first line. */
  lemma {:induction false} ChainEnter(b: Build, c: Chain, hasElse: bool, lbls: nat, used: Mask, n: nat,
                                      prog: seq<Line>, pc: nat, st: Store)
    returns (m: Machine)
    requires st.Valid() && hasElse == HasElse(c) && lbls + 3 <= n
    requires var g := GenChain(c, 1, hasElse, lbls + 1, lbls + 2, lbls, used, n);
             g.ok && Placed(prog, pc, g.code) && Settled(prog, g.code, n, g.lbls, ChainSettled(c)) &&
             Target(prog, EndLabel(c, lbls)) == pc + |g.code|
    ensures Reaches(b, prog, At(pc, st), m)
    ensures Rounded(m, RoundChain(b, c, st.cfg), pc + |GenChain(c, 1, hasElse, lbls + 1, lbls + 2, lbls, used, n).code|)
    decreases c, 2
  {
    hide Placed, Run, Reaches, GenStmts, GenCond, Settled, ChainSettled, HasElse, Target, RoundStmts, Eval, IsTrue;
    if c.End? {
      m := At(pc, st);
      ReachesIn(b, prog, m, 0);
      RunNothing(b, prog, m);
    } else {
      m := ChainRun(b, c, 1, hasElse, lbls + 1, lbls + 2, lbls, used, n, prog, pc, st);
    }
  }

  /** A chain entered at its first label; the label lbl2 is behind it. */
  lemma {:induction false} ChainRun(b: Build, c: Chain, i: nat, hasElse: bool, lbl1: nat, lbl2: nat, lbl: nat,
                                    used: Mask, lbls: nat, prog: seq<Line>, pc: nat, st: Store)
    returns (m: Machine)
    requires st.Valid() && !c.End? && hasElse == HasElse(c)
    requires lbl != lbl1 && lbl != lbl2 && lbl1 != lbl2 && lbl < lbls && lbl1 < lbls && lbl2 < lbls
    requires var g := GenChain(c, i, hasElse, lbl1, lbl2, lbl, used, lbls);
             g.ok && Placed(prog, pc, g.code) && Settled(prog, g.code, lbls, g.lbls, ChainSettled(c)) &&
             (c.Elif? ==> Target(prog, lbl2) == pc + |g.code|)
    ensures Reaches(b, prog, At(pc, st), m)
    ensures Rounded(m, RoundChain(b, c, st.cfg), pc + |GenChain(c, i, hasElse, lbl1, lbl2, lbl, used, lbls).code|)
    decreases c, 1
  {
    hide Placed, Run, Reaches, GenStmts, GenCond, IsTrue, Eval, RoundStmts, Target, Settled, Within, HasElse;
    match c
    case Else(body) =>
      ReachesIn(b, prog, At(pc, st), 0);
      RunNothing(b, prog, At(pc, st));
      PlacedSplit(prog, pc, [Label(lbl1)], GenStmts(body, used, lbls).code);
      ElseSettled(body, lbl1, used, lbls, prog);
      var m1 := LabelCorrect(b, lbl1, prog, pc, At(pc, st), At(pc, st), Ok(st.cfg));
      m := StmtsRun(b, body, used, lbls, prog, pc + 1, m1.store);
      ReachesTrans(b, prog, At(pc, st), m1, m);
    case Elif(cond, body, rest) =>
      m := ElifRun(b, c, i, hasElse, lbl1, lbl2, lbl, used, lbls, prog, pc, st);
  }

  lemma ElseSettled(body: Stmts, lbl1: nat, used: Mask, lbls: nat, prog: seq<Line>)
    requires var g := GenStmts(body, used, lbls);
             g.ok && Settled(prog, [Label(lbl1)] + g.code, lbls, g.lbls, ChainsClosed(body)) && lbl1 < lbls
    ensures Settled(prog, GenStmts(body, used, lbls).code, lbls, GenStmts(body, used, lbls).lbls, ChainsClosed(body))
  {
    hide GenStmts, Settled;
    var g := GenStmts(body, used, lbls);
    DefsConcat([Label(lbl1)], g.code);
    DefsOne(Label(lbl1));
    SettledPart(prog, [Label(lbl1)] + g.code, lbls, g.lbls, ChainsClosed(body), g.code, lbls, g.lbls, ChainsClosed(body));
  }

  /** The label the last `elseif` lacks is not defined by anything else. */
  lemma ElifSettled(c: Chain, i: nat, hasElse: bool, lbl1: nat, lbl2: nat, lbl: nat, used: Mask, lbls: nat, prog: seq<Line>,
                    gc: GenS, gb: GenS, gr: GenS)
    requires c.Elif? && hasElse == HasElse(c)
    requires lbl != lbl1 && lbl != lbl2 && lbl1 != lbl2 && lbl < lbls && lbl1 < lbls && lbl2 < lbls
    requires gc == GenCond(c.cond, if c.rest.Elif? || !hasElse then lbls else lbl1, used, lbls + 1) && gc.ok
    requires gb == GenStmts(c.body, gc.used, gc.lbls) && gb.ok
    requires gr == GenChain(c.rest, i + 1, hasElse, lbl1, lbl2, lbls, gb.used - {i}, gb.lbls) && gr.ok
    requires Settled(prog, [Label(lbl)] + gc.code + gb.code + [Instr(JMP, [Lbl(lbl2)])] + gr.code, lbls, gr.lbls, ChainSettled(c))
    ensures lbls + 1 <= gb.lbls
    ensures Settled(prog, gb.code, gc.lbls, gb.lbls, ChainsClosed(c.body))
    ensures Settled(prog, gr.code, gb.lbls, gr.lbls, ChainSettled(c.rest))
    ensures c.rest.End? ==> Target(prog, lbls) == 0
  {
    hide GenCond, GenStmts, GenChain, Within, Settled, ChainsClosed, HasElse;
    var code := [Label(lbl)] + gc.code + gb.code + [Instr(JMP, [Lbl(lbl2)])] + gr.code;
    ElifClosed(c);
    CondRange(c.cond, if c.rest.Elif? || !hasElse then lbls else lbl1, used, lbls + 1);
    StmtsRange(c.body, gc.used, gc.lbls);
    ChainRange(c.rest, i + 1, hasElse, lbl1, lbl2, lbls, gb.used - {i}, gb.lbls);
    DefsOfElif(lbl, gc.code, gb.code, lbl2, gr.code);
    BelowOrAbove(Defs(gb.code), gc.lbls, gb.lbls);
    SettledPart(prog, code, lbls, gr.lbls, ChainSettled(c), gb.code, gc.lbls, gb.lbls, ChainsClosed(c.body));
    SettledPart(prog, code, lbls, gr.lbls, ChainSettled(c), gr.code, gb.lbls, gr.lbls, ChainSettled(c.rest));
    if c.rest.End? {
      EndDefines(i + 1, hasElse, lbl1, lbl2, lbls, gb.used - {i}, gb.lbls);
      MissedLabel(prog, code, lbls, gr.lbls, ChainSettled(c), lbls);
    }
  }

  lemma ElifClosed(c: Chain)
    requires c.Elif?
    ensures ChainSettled(c) ==> ChainsClosed(c.body) && ChainSettled(c.rest)
    ensures HasElse(c) == HasElse(c.rest) && (c.rest.End? ==> !ChainSettled(c))
  {
  }

  lemma EndDefines(i: nat, hasElse: bool, lbl1: nat, lbl2: nat, lbl: nat, used: Mask, lbls: nat)
    ensures Defs(GenChain(End, i, hasElse, lbl1, lbl2, lbl, used, lbls).code) == {}
  {
  }

  lemma DefsOfElif(lbl: nat, c: seq<Line>, d: seq<Line>, lbl2: nat, e: seq<Line>)
    ensures Defs([Label(lbl)] + c + d + [Instr(JMP, [Lbl(lbl2)])] + e) == {lbl} + Defs(c) + Defs(d) + Defs(e)
  {
    DefsOne(Label(lbl));
    DefsOne(Instr(JMP, [Lbl(lbl2)]));
    DefsOfThree([Label(lbl)], c, d);
    DefsOfThree([Label(lbl)] + c + d, [Instr(JMP, [Lbl(lbl2)])], e);
  }

  lemma {:induction false} ElifRun(b: Build, c: Chain, i: nat, hasElse: bool, lbl1: nat, lbl2: nat, lbl: nat,
                                   used: Mask, lbls: nat, prog: seq<Line>, pc: nat, st: Store)
    returns (m: Machine)
    requires st.Valid() && c.Elif? && hasElse == HasElse(c)
    requires lbl != lbl1 && lbl != lbl2 && lbl1 != lbl2 && lbl < lbls && lbl1 < lbls && lbl2 < lbls
    requires var g := GenChain(c, i, hasElse, lbl1, lbl2, lbl, used, lbls);
             g.ok && Placed(prog, pc, g.code) && Settled(prog, g.code, lbls, g.lbls, ChainSettled(c)) &&
             Target(prog, lbl2) == pc + |g.code|
    ensures Reaches(b, prog, At(pc, st), m)
    ensures Rounded(m, RoundChain(b, c, st.cfg), pc + |GenChain(c, i, hasElse, lbl1, lbl2, lbl, used, lbls).code|)
    decreases c, 0
  {
    hide Placed, Run, Reaches, GenStmts, GenCond, GenChain, IsTrue, Eval, RoundStmts, RoundChain, Target, Settled, ChainSettled,
         ChainsClosed, HasElse, LeaveRound;
    var Elif(cond, body, rest) := c;
    var falseLabel := if rest.Elif? || !hasElse then lbls else lbl1;
    RoundElif(b, c, st.cfg);
    ElifClosed(c);
    var gc, gb, gr := ElifPieces(cond, body, rest, i, hasElse, lbl1, lbl2, lbl, used, lbls, prog, pc);
    ElifWhole(c, i, hasElse, lbl1, lbl2, lbl, used, lbls, gc, gb, gr);
    ElifSettled(c, i, hasElse, lbl1, lbl2, lbl, used, lbls, prog, gc, gb, gr);
    ReachesIn(b, prog, At(pc, st), 0);
    RunNothing(b, prog, At(pc, st));
    var m0 := LabelCorrect(b, lbl, prog, pc, At(pc, st), At(pc, st), Ok(st.cfg));
    m := CondCorrect(b, cond, falseLabel, used, lbls + 1, prog, pc + 1, m0.store);
    ReachesTrans(b, prog, At(pc, st), m0, m);
    if m.At? {
      var m1 := m;
      if IsTrue(Eval(b, cond, st.cfg).value.val, m1.store.cfg) {
        m := StmtsRun(b, body, gc.used, gc.lbls, prog, pc + 1 + |gc.code|, m1.store);
        ReachesTrans(b, prog, At(pc, st), m1, m);
        m := JumpRound(b, lbl2, prog, pc + 1 + |gc.code| + |gb.code|, At(pc, st), m, RoundStmts(b, body, m1.store.cfg));
      } else if !rest.End? {
        ChainStarts(rest, i + 1, hasElse, lbl1, lbl2, lbls, gb.used - {i}, gb.lbls);
        PlacedLabel(prog, pc + 2 + |gc.code| + |gb.code|, gr.code);
        ElseThere(rest);
        m := ChainRun(b, rest, i + 1, hasElse, lbl1, lbl2, lbls, gb.used - {i}, gb.lbls, prog,
                      pc + 2 + |gc.code| + |gb.code|, m1.store);
        ReachesTrans(b, prog, At(pc, st), m1, m);
      } else {
        ElseThere(rest);
      }
    }
  }

  lemma ElseThere(c: Chain)
    ensures c.Else? ==> HasElse(c)
    ensures c.End? ==> !HasElse(c)
  {
  }

  lemma ElifWhole(c: Chain, i: nat, hasElse: bool, lbl1: nat, lbl2: nat, lbl: nat, used: Mask, lbls: nat, gc: GenS, gb: GenS, gr: GenS)
    requires c.Elif? && GenChain(c, i, hasElse, lbl1, lbl2, lbl, used, lbls).ok
    requires gc == GenCond(c.cond, if c.rest.Elif? || !hasElse then lbls else lbl1, used, lbls + 1) && gc.ok
    requires gb == GenStmts(c.body, gc.used, gc.lbls) && gb.ok
    requires gr == GenChain(c.rest, i + 1, hasElse, lbl1, lbl2, lbls, gb.used - {i}, gb.lbls)
    ensures var g := GenChain(c, i, hasElse, lbl1, lbl2, lbl, used, lbls);
            g.code == [Label(lbl)] + gc.code + gb.code + [Instr(JMP, [Lbl(lbl2)])] + gr.code && g.lbls == gr.lbls
  {
    hide GenStmts, GenCond;
  }

  /** The round of an `elseif`, one step unfolded. */
  lemma RoundElif(b: Build, c: Chain, cfg: Config)
    requires c.Elif?
    ensures Eval(b, c.cond, cfg).Stop? ==> RoundChain(b, c, cfg) == Past(Stop(Eval(b, c.cond, cfg).reason))
    ensures Eval(b, c.cond, cfg).Ok? ==>
              var v := Eval(b, c.cond, cfg).value;
              RoundChain(b, c, cfg) ==
              if IsTrue(v.val, v.cfg) then LeaveRound(b, RoundStmts(b, c.body, v.cfg))
              else if c.rest.End? then Again(v.cfg) else RoundChain(b, c.rest, v.cfg)
  {
  }

  // ----- whole programs -----

  /** Every compiled program, run from its first line with any registers, gets through its
      round: behind its last line, stopped, or at its first line again. */
  lemma ProgramRun(b: Build, ss: Stmts, st: Store) returns (m: Machine)
    requires st.Valid() && FitsStmts(ss)
    ensures Reaches(b, Compiled(ss), At(0, st), m)
    ensures Rounded(m, RoundStmts(b, ss, st.cfg), |Compiled(ss)|)
  {
    hide Reaches, RoundStmts, GenStmts;
    ProgramFits(ss, 0);
    LabelsDefined(ss);
    PlacedWhole(Compiled(ss));
    SettledWhole(Compiled(ss), GenStmts(ss, {}, 0).lbls, ChainsClosed(ss));
    m := StmtsRun(b, ss, {}, 0, Compiled(ss), 0, st);
  }

  /** With closed chains it ends behind its last line with the config the statements leave, or
      stops for the reason they stop. */
  lemma ProgramCorrect(b: Build, ss: Stmts, st: Store) returns (m: Machine)
    requires st.Valid() && FitsStmts(ss) && ChainsClosed(ss)
    ensures Reaches(b, Compiled(ss), At(0, st), m)
    ensures Finished(m, ExecStmts(b, ss, st.cfg), |Compiled(ss)|)
  {
    hide Reaches, RoundStmts, ExecStmts, Compiled;
    m := ProgramRun(b, ss, st);
    ClosedRound(b, ss, st.cfg);
  }
}
