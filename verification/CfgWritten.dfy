/** What the config compiler and its VM do as they are written, and when that is what is meant. */
module CfgWritten {
  // CPY and SET store no types, so a config that starts untyped stays so, and every name
  // reads as a value without a type.

  import opened Wrappers
  import opened CfgText
  import opened CfgMachine
  import opened CfgCodegen
  import opened CfgStatements
  import opened CfgLabels
  import opened CfgBytes
  import opened CfgReading
  import opened CfgVm
  import opened CfgMeaning
  import opened Traces

  // ----- no config value ever gets a type -----

  ghost predicate Untagged(cfg: Config) { forall k :: 0 <= k < |cfg.cells| ==> cfg.cells[k].tag == NoTag }

  lemma UntaggedCell(cfg: Config, k: nat)
    requires Untagged(cfg)
    ensures CellAt(cfg, k).tag == NoTag && Deref(Cfg(k), cfg) == Untyped && !IsTrue(Cfg(k), cfg)
  {
  }

  lemma UntaggedAssigned(b: Build, k: nat, v: Val, cfg: Config)
    requires !b.setTags && Untagged(cfg)
    ensures Untagged(Assigned(b, k, v, cfg))
  {
    if v.Cfg? {
      UntaggedCell(cfg, v.cell);
    }
  }

  lemma UntaggedLoaded(name: string, cfg: Config)
    requires Untagged(cfg)
    ensures Untagged(Loaded(name, cfg))
  {
  }

  ghost predicate UntaggedOutcome(o: Outcome) { (o.Next? ==> Untagged(o.store.cfg)) && (o.Goto? ==> Untagged(o.store.cfg)) }

  /** No command gives a config value a type unless SET is repaired. */
  lemma UntaggedExec(b: Build, cmd: Cmd, st: Store)
    requires st.Valid() && !b.setTags && Untagged(st.cfg)
    ensures UntaggedOutcome(Exec(b, cmd, st))
  {
    hide Apply, IsTrue, Assigned, Loaded, CellOf, Untagged;
    if |cmd.args| == 2 && cmd.args[0].AReg? && cmd.args[1].AReg? && st.regs[cmd.args[1].bval].Cfg? {
      UntaggedAssigned(b, st.regs[cmd.args[1].bval].cell, st.regs[cmd.args[0].bval], st.cfg);
    }
    if |cmd.args| == 3 && cmd.args[0].AStr? {
      UntaggedLoaded(cmd.args[0].cval, st.cfg);
    }
  }

  /** In every run of every bytecode. */
  lemma {:induction false} UntaggedRun(b: Build, bc: seq<Byte>, v: Vm, n: nat)
    requires v.Valid() && !b.setTags && (v.VmAt? ==> Untagged(v.store.cfg))
    ensures var e := VmRun(b, bc, v, n); e.VmAt? ==> Untagged(e.store.cfg)
    decreases n
  {
    hide Exec, Untagged, Fetch;
    if n > 0 {
      if v.VmAt? && 0 <= v.pos < |bc| && Fetch(bc, v.pos).Some? {
        UntaggedExec(b, Fetch(bc, v.pos).value.0, v.store);
      }
      UntaggedRun(b, bc, VmStep(b, bc, v), n - 1);
    }
  }

  // ----- expressions -----

  /** The value of a tree as written: a number, or None for a value without a type. */
  function Written(e: Expr): Result<Option<int>> {
    match e
    case EBin(op, l, r) =>
      (match Written(l)
       case Stop(reason) => Stop(reason)
       case Ok(x) =>
         match Written(r)
         case Stop(reason) => Stop(reason)
         case Ok(y) => WrittenOp(op, x, y))
    case ENot(e1) =>
      (match Written(e1)
       case Stop(reason) => Stop(reason)
       case Ok(x) => Ok(Some(if Holds(x) then 0 else 1)))
    case _ => Ok(None)
  }

  predicate Holds(x: Option<int>) { x.Some? && x.value != 0 }

  function WrittenOp(op: BinOp, x: Option<int>, y: Option<int>): Result<Option<int>> {
    match op
    case Eq => Ok(Some(if x.Some? && x == y then 1 else 0))
    case Ne => Ok(Some(if x.Some? && x == y then 0 else 1))
    case And => Ok(Some(if Holds(x) && Holds(y) then 1 else 0))
    case Or => Ok(Some(if Holds(x) || Holds(y) then 1 else 0))
    case _ =>
      match (x, y)
      case (Some(n), Some(m)) => WrittenNumbers(op, n, m)
      case _ => Stop(Error)
  }

  /** + - * / on two numbers. */
  function WrittenNumbers(op: BinOp, n: int, m: int): Result<Option<int>> {
    if op == Add then Ok(Some(Wrap32(n + m)))
    else if op == Sub then Ok(Some(Wrap32(n - m)))
    else if op == Mul then Ok(Some(Wrap32(n * m)))
    else if BadDivision(n, m) then Stop(Trap)
    else Ok(Some(TruncDiv(n, m)))
  }

  predicate BadDivision(n: int, m: int) { m == 0 || (n == -0x8000_0000 && m == -1) }

  /** A register that holds the value as written. */
  predicate Matches(v: Val, x: Option<int>) { if x.Some? then v == Num(x.value) else v.Untyped? || v.Cfg? }

  lemma CombineWritten(b: Build, op: BinOp, v: Val, w: Val, cfg: Config, x: Option<int>, y: Option<int>)
    requires Untagged(cfg) && Matches(v, x) && Matches(w, y)
    ensures match WrittenOp(op, x, y)
            case Stop(reason) => Apply(b, op, v, w, cfg) == Stop(reason)
            case Ok(z) => z.Some? && Apply(b, op, v, w, cfg) == Ok(Num(z.value))
  {
    hide TruncDiv, Wrap32, CellAt;
    if v.Cfg? { UntaggedCell(cfg, v.cell); }
    if w.Cfg? { UntaggedCell(cfg, w.cell); }
  }

  /** Only new config values that no key leads to. */
  ghost predicate Added(cfg: Config, cfg': Config) { cfg'.tree == cfg.tree && cfg.cells <= cfg'.cells && Untagged(cfg') }

  lemma AddedTwice(a: Config, b: Config, c: Config)
    requires Added(a, b) && Added(b, c)
    ensures Added(a, c)
  {
  }

  ghost predicate AsWritten(v: Result<Computing>, cfg: Config, x: Result<Option<int>>) {
    match x
    case Stop(reason) => v == Stop(reason)
    case Ok(y) => v.Ok? && Matches(v.value.val, y) && Added(cfg, v.value.cfg)
  }

  /** As long as CPY drops the type and no config value has one, an expression computes what
      its text alone says. */
  lemma {:induction false} EvalWritten(b: Build, e: Expr, cfg: Config)
    requires !b.cpyTags && Untagged(cfg)
    ensures AsWritten(Eval(b, e, cfg), cfg, Written(e))
  {
    hide Apply, WrittenOp, Untagged, IsTrue, Holds;
    match e
    case EIdent(name) => UntaggedLoaded(name, cfg);
    case EBin(op, l, r) =>
      EvalWritten(b, l, cfg);
      var x := Eval(b, l, cfg);
      if x.Ok? {
        EvalWritten(b, r, x.value.cfg);
        var y := Eval(b, r, x.value.cfg);
        if y.Ok? {
          AddedTwice(cfg, x.value.cfg, y.value.cfg);
          CombineWritten(b, op, x.value.val, y.value.val, y.value.cfg, Written(l).value, Written(r).value);
        }
      }
    case ENot(e1) =>
      EvalWritten(b, e1, cfg);
      var x := Eval(b, e1, cfg);
      if x.Ok? {
        TruthWritten(x.value.val, x.value.cfg, Written(e1).value);
      }
    case _ =>
  }

  lemma TruthWritten(v: Val, cfg: Config, x: Option<int>)
    requires Untagged(cfg) && Matches(v, x)
    ensures IsTrue(v, cfg) == Holds(x)
  {
    if v.Cfg? { UntaggedCell(cfg, v.cell); }
  }

  predicate IsAtom(e: Expr) { e.ENum? || e.EStr? || e.EIdent? }

  /** No operand of + - * / is a literal or a name itself. */
  predicate NoAtomOperand(e: Expr) {
    match e
    case EBin(op, l, r) =>
      NoAtomOperand(l) && NoAtomOperand(r) &&
      (op == Add || op == Sub || op == Mul || op == Div ==> !IsAtom(l) && !IsAtom(r))
    case ENot(e1) => NoAtomOperand(e1)
    case _ => true
  }

  predicate BadQuotient(x: Option<int>, y: Option<int>) { x.Some? && y.Some? && BadDivision(x.value, y.value) }

  /** No division by 0, nor of the least number by -1. */
  predicate NoBadDivision(e: Expr) {
    match e
    case EBin(op, l, r) =>
      NoBadDivision(l) && NoBadDivision(r) &&
      (op == Div ==> !(Written(l).Ok? && Written(r).Ok? && BadQuotient(Written(l).value, Written(r).value)))
    case ENot(e1) => NoBadDivision(e1)
    case _ => true
  }

  lemma {:induction false} WrittenRuns(e: Expr)
    ensures Written(e).Ok? <==> NoAtomOperand(e) && NoBadDivision(e)
    ensures Written(e).Ok? ==> (Written(e).value.None? <==> IsAtom(e))
  {
    hide BadDivision, Wrap32, TruncDiv;
    match e
    case EBin(op, l, r) =>
      WrittenRuns(l);
      WrittenRuns(r);
    case ENot(e1) => WrittenRuns(e1);
    case _ =>
  }

  /** As written, an expression runs to its end exactly if no + - * / has a literal or a name
      as an operand and no division is by 0 or leaves 32 bits. */
  lemma AsWrittenRuns(b: Build, e: Expr, cfg: Config)
    requires !b.cpyTags && Untagged(cfg)
    ensures Eval(b, e, cfg).Ok? <==> NoAtomOperand(e) && NoBadDivision(e)
  {
    hide Untagged, NoAtomOperand, NoBadDivision, Written, Eval, Matches, Added;
    EvalWritten(b, e, cfg);
    WrittenRuns(e);
  }

  /** So 1 + 2 is an error as written, and 3 once CPY stores the type. */
  lemma OnePlusTwo(b: Build)
    ensures Eval(b, EBin(Add, ENum(1), ENum(2)), EMPTY_CONFIG) ==
            if b.cpyTags then Ok(Computing(Num(3), EMPTY_CONFIG)) else Stop(Error)
  {
    if b.cpyTags {
      EvalIsValue(b, EBin(Add, ENum(1), ENum(2)), EMPTY_CONFIG);
    }
  }

  // ----- what a run shows -----

  /** What happens statement by statement: the values by name behind an assignment, the
      branch a condition selects, leaving a branch, an end before the end. */
  datatype Event = Stored(m: Values) | Branched(truth: bool) | Left | Stopped(reason: Reason)

  function TraceStmts(b: Build, ss: Stmts, cfg: Config): seq<Event>
    decreases ss, 0
  {
    match ss
    case Nil => []
    case Cons(s, rest) =>
      var r := ExecStmt(b, s, cfg);
      TraceStmt(b, s, cfg) + if r.Ok? then TraceStmts(b, rest, r.value) else []
  }

  function TraceStmt(b: Build, s: Stmt, cfg: Config): seq<Event>
    decreases s, 0
  {
    match s
    case Assign(_, _) =>
      var r := ExecStmt(b, s, cfg);
      if r.Ok? then [Stored(View(r.value))] else [Stopped(r.reason)]
    case If(cond, body, chain) =>
      var v := Eval(b, cond, cfg);
      if v.Stop? then [Stopped(v.reason)]
      else
        var truth := IsTrue(v.value.val, v.value.cfg);
        [Branched(truth)] +
        if truth then TraceBody(b, body, HasElse(chain), v.value.cfg) else TraceChain(b, chain, v.value.cfg)
  }

  /** A body, and the jump behind it if there is one. */
  function TraceBody(b: Build, body: Stmts, jumps: bool, cfg: Config): seq<Event>
    decreases body, 1
  {
    TraceStmts(b, body, cfg) +
    if jumps && ExecStmts(b, body, cfg).Ok? then [if b.jmpOpcode then Left else Stopped(Error)] else []
  }

  function TraceChain(b: Build, c: Chain, cfg: Config): seq<Event>
    decreases c, 0
  {
    match c
    case End => []
    case Else(body) => TraceStmts(b, body, cfg)
    case Elif(cond, body, rest) =>
      var v := Eval(b, cond, cfg);
      if v.Stop? then [Stopped(v.reason)]
      else
        var truth := IsTrue(v.value.val, v.value.cfg);
        [Branched(truth)] + if truth then TraceBody(b, body, true, v.value.cfg) else TraceChain(b, rest, v.value.cfg)
  }

  /** What the program is meant to show. */
  function MeantStmts(ss: Stmts, m: Values): seq<Event>
    decreases ss, 0
  {
    match ss
    case Nil => []
    case Cons(s, rest) =>
      var r := MeanStmt(s, m);
      MeantStmt(s, m) + if r.Ok? then MeantStmts(rest, r.value) else []
  }

  function MeantStmt(s: Stmt, m: Values): seq<Event>
    decreases s, 0
  {
    match s
    case Assign(_, _) =>
      var r := MeanStmt(s, m);
      if r.Ok? then [Stored(r.value)] else [Stopped(r.reason)]
    case If(cond, body, chain) =>
      var v := MeanExpr(cond, m);
      if v.Stop? then [Stopped(v.reason)]
      else [Branched(Truth(v.value))] + if Truth(v.value) then MeantBody(body, HasElse(chain), m) else MeantChain(chain, m)
  }

  function MeantBody(body: Stmts, jumps: bool, m: Values): seq<Event>
    decreases body, 1
  {
    MeantStmts(body, m) + if jumps && MeanStmts(body, m).Ok? then [Left] else []
  }

  function MeantChain(c: Chain, m: Values): seq<Event>
    decreases c, 0
  {
    match c
    case End => []
    case Else(body) => MeantStmts(body, m)
    case Elif(cond, body, rest) =>
      var v := MeanExpr(cond, m);
      if v.Stop? then [Stopped(v.reason)]
      else [Branched(Truth(v.value))] + if Truth(v.value) then MeantBody(body, true, m) else MeantChain(rest, m)
  }

  // ----- which programs show what they mean -----

  /** The program is seen to differ, stops as it is meant to, or goes on; then the names
      that have values, with the names their config values carry. */
  datatype Check = Differs | Halts | Goes(names: map<string, string>)

  function Meant(e: Expr): Result<Val> { MeanExpr(e, map[]) }

  /** The name a config value carries, or will carry. */
  function Carried(x: string, names: map<string, string>): string { if x in names then names[x] else x }

  /** An assignment must copy a name to one that still carries the name of a value, or the
      expression must fail as it is meant to. */
  function CheckAssign(name: string, value: Expr, names: map<string, string>): Check {
    if value.EIdent? then
      if name in names && Carried(name, names) !in names then Differs
      else Goes(names[name := Carried(value.name, names)])
    else if Written(value).Stop? && Meant(value).Stop? && Written(value).reason == Meant(value).reason then Halts
    else Differs
  }

  function CheckStmts(ss: Stmts, names: map<string, string>): Check {
    match ss
    case Nil => Goes(names)
    case Cons(s, rest) =>
      match CheckStmt(s, names)
      case Goes(names') => CheckStmts(rest, names')
      case Halts => Halts
      case Differs => Differs
  }

  function CheckStmt(s: Stmt, names: map<string, string>): Check {
    match s
    case Assign(name, value) => CheckAssign(name, value, names)
    case If(cond, body, chain) =>
      CheckChosen(cond, CheckLeave(HasElse(chain), CheckStmts(body, names)), CheckChain(chain, names))
  }

  /** None: as written the condition comes out differently; Some(None): both ways it fails. */
  function CheckCond(cond: Expr): Option<Option<bool>> {
    match (Written(cond), Meant(cond))
    case (Stop(r), Stop(r')) => if r == r' then Some(None) else None
    case (Ok(x), Ok(y)) => if Holds(x) == Truth(y) then Some(Some(Truth(y))) else None
    case _ => None
  }

  function CheckChosen(cond: Expr, c: Check, c': Check): Check {
    match CheckCond(cond)
    case None => Differs
    case Some(None) => Halts
    case Some(Some(truth)) => if truth then c else c'
  }

  /** A branch that is left by JMP ends in an error as written. */
  function CheckLeave(jumps: bool, c: Check): Check { if jumps && c.Goes? then Differs else c }

  function CheckChain(c: Chain, names: map<string, string>): Check {
    match c
    case End => Goes(names)
    case Else(body) => CheckStmts(body, names)
    case Elif(cond, body, rest) =>
      CheckChosen(cond, CheckLeave(true, CheckStmts(body, names)), CheckChain(rest, names))
  }

  // ----- the check is exact -----

  /** Every key leads to a config value of the name that is known, and no two to the same. */
  ghost predicate Named(cfg: Config, names: map<string, string>) {
    && cfg.tree.Keys == names.Keys
    && (forall x :: x in cfg.tree ==> cfg.tree[x] < |cfg.cells| && cfg.cells[cfg.tree[x]].name == names[x])
    && (forall x, y :: x in cfg.tree && y in cfg.tree && x != y ==> cfg.tree[x] != cfg.tree[y])
  }

  /** The config as it is while nothing has differed yet. */
  ghost predicate Follows(cfg: Config, names: map<string, string>) { Untagged(cfg) && Named(cfg, names) }

  ghost predicate Right(c: Check, t: seq<Event>, u: seq<Event>, r: Result<Config>, m: Result<Values>) {
    match c
    case Differs => Diverge(t, u)
    case Halts => t == u && r.Stop? && m.Stop? && r.reason == m.reason
    case Goes(names) => t == u && r.Ok? && m.Ok? && Follows(r.value, names) && m.value == View(r.value)
  }

  ghost predicate AllUntyped(m: Values) { forall x :: x in m ==> m[x] == Untyped }

  lemma UntaggedView(cfg: Config)
    requires Untagged(cfg)
    ensures AllUntyped(View(cfg)) && View(cfg).Keys == cfg.tree.Keys
  {
    hide CellAt;
    forall x | x in cfg.tree ensures View(cfg)[x] == Untyped {
      UntaggedCell(cfg, cfg.tree[x]);
    }
  }

  lemma SameViews(m: Values, m': Values)
    requires AllUntyped(m) && AllUntyped(m') && m.Keys == m'.Keys
    ensures m == m'
  {
  }

  /** Where no name has a type the meaning of an expression is fixed by its text. */
  lemma {:induction false} MeantByText(e: Expr, m: Values)
    requires AllUntyped(m)
    ensures MeanExpr(e, m) == Meant(e)
  {
    hide Operation;
    match e
    case EBin(op, l, r) =>
      MeantByText(l, m);
      MeantByText(r, m);
    case ENot(e1) => MeantByText(e1, m);
    case _ =>
  }

  lemma MeantHasType(e: Expr)
    requires Meant(e).Ok? && !e.EIdent?
    ensures Meant(e).value != Untyped
  {
    hide Wrap32, StrToLL, Dec, TruncDiv, SameValue;
  }

  lemma FollowsAdded(cfg: Config, cfg': Config, names: map<string, string>)
    requires Follows(cfg, names) && Added(cfg, cfg')
    ensures Follows(cfg', names) && View(cfg') == View(cfg)
  {
    UntaggedView(cfg);
    UntaggedView(cfg');
    SameViews(View(cfg), View(cfg'));
  }

  /** Two names loaded one after the other. */
  lemma LoadTwice(name: string, y: string, cfg: Config, names: map<string, string>)
    requires Follows(cfg, names)
    ensures var k, c1 := CellOf(name, cfg), Loaded(name, cfg);
            var j, c2 := CellOf(y, c1), Loaded(y, c1);
            Added(cfg, c2) && k < |c2.cells| && j < |c2.cells| &&
            c2.cells[k].name == Carried(name, names) && c2.cells[j].name == Carried(y, names) &&
            (if name in names then k == cfg.tree[name] else k >= |cfg.cells|)
  {
    UntaggedLoaded(name, cfg);
    UntaggedLoaded(y, Loaded(name, cfg));
  }

  /** Config value k, found or new under a name, overwritten by another with its name. */
  lemma NamedOverwritten(name: string, k: nat, cell: Cell, cfg: Config, cells: seq<Cell>, names: map<string, string>)
    requires Named(cfg, names) && cfg.cells <= cells && k < |cells|
    requires if name in names then k == cfg.tree[name] else k >= |cfg.cells|
    ensures Named(Config(cells[k := cell], cfg.tree[name := k]), names[name := cell.name])
  {
    forall x | x in cfg.tree ensures cells[cfg.tree[x]].name == names[x] {
      assert cfg.cells[cfg.tree[x]].name == names[x];
    }
  }

  /** The copy overwrites the name as well. */
  lemma CopyFollows(name: string, y: string, k: nat, j: nat, cfg: Config, c2: Config, names: map<string, string>)
    requires Follows(cfg, names) && Added(cfg, c2) && k < |c2.cells| && j < |c2.cells|
    requires c2.cells[k].name == Carried(name, names) && c2.cells[j].name == Carried(y, names)
    requires if name in names then k == cfg.tree[name] else k >= |cfg.cells|
    requires name in names ==> Carried(name, names) in names
    ensures Follows(Assigned(AS_WRITTEN, k, Cfg(j), c2), names[name := Carried(y, names)])
  {
    UntaggedAssigned(AS_WRITTEN, k, Cfg(j), c2);
    hide Untagged, Carried, Named;
    NotCarried(name, names);
    NamedOverwritten(name, k, c2.cells[j], cfg, c2.cells, names);
    assert name in names ==> cfg.tree[name := k] == cfg.tree;
  }

  lemma CopyKeys(name: string, y: string, k: nat, j: nat, cfg: Config, c2: Config, names: map<string, string>)
    requires Follows(cfg, names) && Added(cfg, c2) && k < |c2.cells| && c2.cells[k].name == Carried(name, names)
    ensures Assigned(AS_WRITTEN, k, Cfg(j), c2).tree.Keys == names.Keys + {Carried(name, names)}
  {
    hide Untagged, Carried;
  }

  lemma NotCarried(name: string, names: map<string, string>)
    ensures name !in names ==> Carried(name, names) == name
  {
  }

  /** Copying a name. */
  lemma CopyRight(name: CStr, y: CStr, cfg: Config, names: map<string, string>)
    requires Follows(cfg, names)
    ensures var r := ExecStmt(AS_WRITTEN, Assign(name, EIdent(y)), cfg);
            r.Ok? && Untagged(r.value) && r.value.tree.Keys == names.Keys + {Carried(name, names)}
    ensures CheckAssign(name, EIdent(y), names).Goes? ==>
              Follows(ExecStmt(AS_WRITTEN, Assign(name, EIdent(y)), cfg).value, CheckAssign(name, EIdent(y), names).names)
  {
    hide Loaded, CellOf, Untagged, Assigned, Follows, Added;
    var k, c1 := CellOf(name, cfg), Loaded(name, cfg);
    var j, c2 := CellOf(y, c1), Loaded(y, c1);
    CopySteps(name, y, cfg);
    LoadTwice(name, y, cfg, names);
    AddedUntagged(cfg, c2);
    UntaggedAssigned(AS_WRITTEN, k, Cfg(j), c2);
    CopyKeys(name, y, k, j, cfg, c2, names);
    if name in names ==> Carried(name, names) in names {
      CopyFollows(name, y, k, j, cfg, c2, names);
    }
  }

  lemma AddedUntagged(cfg: Config, cfg': Config)
    requires Added(cfg, cfg')
    ensures Untagged(cfg')
  {
  }

  lemma CopySteps(name: CStr, y: CStr, cfg: Config)
    ensures var c1 := Loaded(name, cfg);
            ExecStmt(AS_WRITTEN, Assign(name, EIdent(y)), cfg) ==
            Ok(Assigned(AS_WRITTEN, CellOf(name, cfg), Cfg(CellOf(y, c1)), Loaded(y, c1)))
  {
    hide Loaded, CellOf, Assigned;
  }

  lemma AssignRight(name: CStr, value: Expr, cfg: Config, names: map<string, string>)
    requires Follows(cfg, names)
    ensures var s := Assign(name, value);
            Right(CheckAssign(name, value, names), TraceStmt(AS_WRITTEN, s, cfg), MeantStmt(s, View(cfg)),
                  ExecStmt(AS_WRITTEN, s, cfg), MeanStmt(s, View(cfg)))
  {
    hide Eval, Written, Meant, MeanExpr, Assigned, CellOf, View, Follows, Untagged, Diverge;
    var s, m := Assign(name, value), View(cfg);
    var r, q := ExecStmt(AS_WRITTEN, s, cfg), MeanStmt(s, m);
    assert Untagged(cfg) && m.Keys == names.Keys by { FollowsKeys(cfg, names); }
    UntaggedView(cfg);
    MeantByText(value, m);
    if value.EIdent? {
      CopyRight(name, value.name, cfg, names);
      MeantName(value, m);
      UntaggedView(r.value);
      if CheckAssign(name, value, names).Goes? {
        SameViews(View(r.value), m[name := Untyped]);
      } else {
        assert Carried(name, names) in View(r.value) && Carried(name, names) !in m[name := Untyped];
        DivergeFirst(Stored(View(r.value)), [], Stored(m[name := Untyped]), []);
      }
    } else {
      ComputedRight(name, value, cfg, names);
    }
  }

  lemma FollowsKeys(cfg: Config, names: map<string, string>)
    requires Follows(cfg, names)
    ensures Untagged(cfg) && View(cfg).Keys == names.Keys
  {
    UntaggedView(cfg);
  }

  lemma MeantName(e: Expr, m: Values)
    requires e.EIdent? && AllUntyped(m)
    ensures MeanExpr(e, m) == Ok(Untyped)
  {
  }

  /** Assigning what is not a name. */
  lemma ComputedRight(name: CStr, value: Expr, cfg: Config, names: map<string, string>)
    requires Follows(cfg, names) && !value.EIdent?
    ensures var s := Assign(name, value);
            Right(CheckAssign(name, value, names), TraceStmt(AS_WRITTEN, s, cfg), MeantStmt(s, View(cfg)),
                  ExecStmt(AS_WRITTEN, s, cfg), MeanStmt(s, View(cfg)))
  {
    hide Eval, Written, Meant, MeanExpr, Assigned, CellOf, Loaded, View, Follows, Untagged, Diverge, Matches, Added;
    var s, m := Assign(name, value), View(cfg);
    var r, q := ExecStmt(AS_WRITTEN, s, cfg), MeanStmt(s, m);
    FollowsKeys(cfg, names);
    UntaggedView(cfg);
    MeantByText(value, m);
    UntaggedLoaded(name, cfg);
    EvalWritten(AS_WRITTEN, value, Loaded(name, cfg));
    if r.Ok? {
      StaysUntagged(name, value, cfg);
      UntaggedView(r.value);
    }
    if Meant(value).Ok? { MeantHasType(value); }
    if r.Ok? && q.Ok? {
      assert q.value[name] != Untyped;
      assert View(r.value) != q.value;
      DivergeFirst(Stored(View(r.value)), [], Stored(q.value), []);
    } else if r.Ok? {
      DivergeFirst(Stored(View(r.value)), [], Stopped(q.reason), []);
    } else if q.Ok? {
      DivergeFirst(Stopped(r.reason), [], Stored(q.value), []);
    } else if r.reason != q.reason {
      DivergeFirst(Stopped(r.reason), [], Stopped(q.reason), []);
    }
  }

  lemma StaysUntagged(name: CStr, value: Expr, cfg: Config)
    requires Untagged(cfg) && ExecStmt(AS_WRITTEN, Assign(name, value), cfg).Ok?
    ensures Untagged(ExecStmt(AS_WRITTEN, Assign(name, value), cfg).value)
  {
    hide Eval, Written, Assigned, CellOf, Loaded, Untagged, Matches;
    UntaggedLoaded(name, cfg);
    EvalWritten(AS_WRITTEN, value, Loaded(name, cfg));
    var v := Eval(AS_WRITTEN, value, Loaded(name, cfg)).value;
    UntaggedAssigned(AS_WRITTEN, CellOf(name, cfg), v.val, v.cfg);
  }

  /** A condition as written and as meant. */
  lemma CondRight(cond: Expr, cfg: Config, names: map<string, string>)
    requires Follows(cfg, names)
    ensures var v, x := Eval(AS_WRITTEN, cond, cfg), MeanExpr(cond, View(cfg));
            match CheckCond(cond)
            case None => Shown(v) != Meaning(x)
            case Some(None) => v.Stop? && x.Stop? && v.reason == x.reason
            case Some(Some(truth)) =>
              v.Ok? && x.Ok? && IsTrue(v.value.val, v.value.cfg) == truth == Truth(x.value) &&
              Follows(v.value.cfg, names) && View(v.value.cfg) == View(cfg)
  {
    hide Eval, Written, Meant, MeanExpr, View, Follows, Untagged, Matches, Added, IsTrue, Holds;
    FollowsKeys(cfg, names);
    UntaggedView(cfg);
    MeantByText(cond, View(cfg));
    EvalWritten(AS_WRITTEN, cond, cfg);
    var v := Eval(AS_WRITTEN, cond, cfg);
    if v.Ok? {
      FollowsAdded(cfg, v.value.cfg, names);
      AddedUntagged(cfg, v.value.cfg);
      TruthWritten(v.value.val, v.value.cfg, Written(cond).value);
    }
  }

  /** What a condition shows. */
  function Shown(v: Result<Computing>): Event {
    if v.Ok? then Branched(IsTrue(v.value.val, v.value.cfg)) else Stopped(v.reason)
  }

  function Meaning(x: Result<Val>): Event { if x.Ok? then Branched(Truth(x.value)) else Stopped(x.reason) }

  /** What a run shows, how it ends, and both as meant. */
  datatype Sides = Sides(t: seq<Event>, u: seq<Event>, r: Result<Config>, m: Result<Values>)

  ghost predicate RightSides(c: Check, s: Sides) { Right(c, s.t, s.u, s.r, s.m) }

  /** One behind the other. */
  lemma SeqRight(c: Check, s: Sides, c': Check, s': Sides)
    requires RightSides(c, s) && (c.Goes? ==> RightSides(c', s'))
    ensures RightSides(if c.Goes? then c' else c,
                       Sides(s.t + if s.r.Ok? then s'.t else [], s.u + if s.m.Ok? then s'.u else [],
                             if s.r.Ok? then s'.r else s.r, if s.m.Ok? then s'.m else s.m))
  {
    hide Diverge, Follows, View;
    if c.Differs? {
      DivergeMore([], s.t, if s.r.Ok? then s'.t else [], s.u, if s.m.Ok? then s'.u else []);
    } else if c.Goes? && c'.Differs? {
      DivergeMore(s.t, s'.t, [], s'.u, []);
    }
  }

  /** A body and the jump behind it. */
  lemma LeaveRight(jumps: bool, c: Check, s: Sides)
    requires RightSides(c, s)
    ensures RightSides(CheckLeave(jumps, c),
                       Sides(s.t + if jumps && s.r.Ok? then [Stopped(Error)] else [],
                             s.u + if jumps && s.m.Ok? then [Left] else [],
                             if jumps then LeaveBranch(AS_WRITTEN, s.r) else s.r, s.m))
  {
    hide Diverge, Follows, View;
    if c.Differs? {
      DivergeMore([], s.t, if jumps && s.r.Ok? then [Stopped(Error)] else [], s.u, if jumps && s.m.Ok? then [Left] else []);
    } else if c.Goes? && jumps {
      DivergeFirst(Stopped(Error), [], Left, []);
      DivergeMore(s.t, [Stopped(Error)], [], [Left], []);
    } else {
      assert s.t + [] == s.t && s.u + [] == s.u;
    }
  }

  /** A condition and the branches it selects from. */
  ghost function Chosen(cond: Expr, cfg: Config, s: Sides, s': Sides): Sides {
    var v, x := Eval(AS_WRITTEN, cond, cfg), MeanExpr(cond, View(cfg));
    Sides([Shown(v)] + (if v.Stop? then [] else if IsTrue(v.value.val, v.value.cfg) then s.t else s'.t),
          [Meaning(x)] + (if x.Stop? then [] else if Truth(x.value) then s.u else s'.u),
          if v.Stop? then Stop(v.reason) else if IsTrue(v.value.val, v.value.cfg) then s.r else s'.r,
          if x.Stop? then Stop(x.reason) else if Truth(x.value) then s.m else s'.m)
  }

  lemma ChosenRight(cond: Expr, cfg: Config, names: map<string, string>, c: Check, s: Sides, c': Check, s': Sides)
    requires Follows(cfg, names)
    requires CheckCond(cond) == Some(Some(true)) ==> RightSides(c, s)
    requires CheckCond(cond) == Some(Some(false)) ==> RightSides(c', s')
    ensures RightSides(CheckChosen(cond, c, c'), Chosen(cond, cfg, s, s'))
  {
    hide Diverge, Follows, View, Eval, MeanExpr, IsTrue, Truth, CheckCond;
    CondRight(cond, cfg, names);
    var v, x := Eval(AS_WRITTEN, cond, cfg), MeanExpr(cond, View(cfg));
    match CheckCond(cond)
    case None =>
      DivergeFirst(Shown(v), if v.Stop? then [] else if IsTrue(v.value.val, v.value.cfg) then s.t else s'.t,
                   Meaning(x), if x.Stop? then [] else if Truth(x.value) then s.u else s'.u);
    case Some(None) =>
    case Some(Some(truth)) =>
      BranchRight(Branched(truth), if truth then c else c', if truth then s else s');
  }

  /** A branch behind an event both show. */
  lemma BranchRight(e: Event, c: Check, s: Sides)
    requires RightSides(c, s)
    ensures RightSides(c, Sides([e] + s.t, [e] + s.u, s.r, s.m))
  {
    hide Diverge, Follows, View;
    if c.Differs? {
      DivergeMore([e], s.t, [], s.u, []);
    }
  }

  ghost function StmtsSides(ss: Stmts, cfg: Config): Sides {
    Sides(TraceStmts(AS_WRITTEN, ss, cfg), MeantStmts(ss, View(cfg)), ExecStmts(AS_WRITTEN, ss, cfg), MeanStmts(ss, View(cfg)))
  }

  ghost function StmtSides(s: Stmt, cfg: Config): Sides {
    Sides(TraceStmt(AS_WRITTEN, s, cfg), MeantStmt(s, View(cfg)), ExecStmt(AS_WRITTEN, s, cfg), MeanStmt(s, View(cfg)))
  }

  ghost function BodySides(body: Stmts, jumps: bool, cfg: Config): Sides {
    Sides(TraceBody(AS_WRITTEN, body, jumps, cfg), MeantBody(body, jumps, View(cfg)),
          if jumps then LeaveBranch(AS_WRITTEN, ExecStmts(AS_WRITTEN, body, cfg)) else ExecStmts(AS_WRITTEN, body, cfg),
          MeanStmts(body, View(cfg)))
  }

  ghost function ChainSides(c: Chain, cfg: Config): Sides {
    Sides(TraceChain(AS_WRITTEN, c, cfg), MeantChain(c, View(cfg)), ExecChain(AS_WRITTEN, c, cfg), MeanChain(c, View(cfg)))
  }

  /** The config behind a condition. */
  function Behind(cond: Expr, cfg: Config): Config {
    var v := Eval(AS_WRITTEN, cond, cfg);
    if v.Ok? then v.value.cfg else cfg
  }

  /** The check says of every program how what it does as written relates to what it means. */
  lemma {:induction false} StmtsRight(ss: Stmts, cfg: Config, names: map<string, string>)
    requires Follows(cfg, names)
    ensures RightSides(CheckStmts(ss, names), StmtsSides(ss, cfg))
    decreases ss, 0
  {
    hide Diverge, Follows, View, ExecStmt, MeanStmt, TraceStmt, MeantStmt, CheckStmt;
    match ss
    case Nil =>
    case Cons(s, rest) =>
      StmtRight(s, cfg, names);
      var c, r := CheckStmt(s, names), ExecStmt(AS_WRITTEN, s, cfg);
      if c.Goes? {
        StmtsRight(rest, r.value, c.names);
        SeqRight(c, StmtSides(s, cfg), CheckStmts(rest, c.names), StmtsSides(rest, r.value));
      } else {
        StopsRight(s, rest, cfg, c);
      }
  }

  lemma StopsRight(s: Stmt, rest: Stmts, cfg: Config, c: Check)
    requires !c.Goes? && RightSides(c, StmtSides(s, cfg))
    ensures RightSides(c, StmtsSides(Cons(s, rest), cfg))
  {
    hide Diverge, Follows, View, ExecStmt, MeanStmt, TraceStmt, MeantStmt;
    var a := StmtSides(s, cfg);
    if c.Differs? {
      DivergeMore([], a.t, if a.r.Ok? then TraceStmts(AS_WRITTEN, rest, a.r.value) else [],
                  a.u, if a.m.Ok? then MeantStmts(rest, a.m.value) else []);
    }
  }

  lemma {:induction false} StmtRight(s: Stmt, cfg: Config, names: map<string, string>)
    requires Follows(cfg, names)
    ensures RightSides(CheckStmt(s, names), StmtSides(s, cfg))
    decreases s, 0
  {
    hide Follows, View, CheckCond, CheckStmts, CheckChain, CheckLeave, CheckChosen, Chosen, StmtSides, BodySides, ChainSides, RightSides;
    match s
    case Assign(name, value) => AssignSides(name, value, cfg, names);
    case If(cond, body, chain) =>
      var cfg' := Behind(cond, cfg);
      CondBehind(cond, cfg, names);
      BodyRight(body, HasElse(chain), cfg', names);
      ChainRight(chain, cfg', names);
      ChosenRight(cond, cfg, names, CheckLeave(HasElse(chain), CheckStmts(body, names)), BodySides(body, HasElse(chain), cfg'),
                  CheckChain(chain, names), ChainSides(chain, cfg'));
      IfSides(cond, body, chain, cfg);
  }

  lemma {:induction false} BodyRight(body: Stmts, jumps: bool, cfg: Config, names: map<string, string>)
    requires Follows(cfg, names)
    ensures RightSides(CheckLeave(jumps, CheckStmts(body, names)), BodySides(body, jumps, cfg))
    decreases body, 1
  {
    StmtsRight(body, cfg, names);
    hide Follows, View, ExecStmts, MeanStmts, TraceStmts, MeantStmts, CheckStmts, Right, CheckLeave;
    LeaveRight(jumps, CheckStmts(body, names), StmtsSides(body, cfg));
  }

  lemma {:induction false} ChainRight(c: Chain, cfg: Config, names: map<string, string>)
    requires Follows(cfg, names)
    ensures RightSides(CheckChain(c, names), ChainSides(c, cfg))
    decreases c, 0
  {
    hide Follows, View, Eval, MeanExpr, CheckCond, ExecStmts, MeanStmts, TraceStmts, MeantStmts, CheckStmts, Diverge, BodySides, CheckLeave;
    match c
    case End =>
    case Else(body) => StmtsRight(body, cfg, names);
    case Elif(cond, body, rest) =>
      var cfg' := Behind(cond, cfg);
      CondBehind(cond, cfg, names);
      BodyRight(body, true, cfg', names);
      ChainRight(rest, cfg', names);
      ChosenRight(cond, cfg, names, CheckLeave(true, CheckStmts(body, names)), BodySides(body, true, cfg'),
                  CheckChain(rest, names), ChainSides(rest, cfg'));
      ElifSides(cond, body, rest, cfg);
  }

  lemma AssignSides(name: CStr, value: Expr, cfg: Config, names: map<string, string>)
    requires Follows(cfg, names)
    ensures RightSides(CheckStmt(Assign(name, value), names), StmtSides(Assign(name, value), cfg))
  {
    AssignRight(name, value, cfg, names);
    hide Follows, View, ExecStmt, MeanStmt, TraceStmt, MeantStmt, CheckAssign, Right;
  }

  lemma CondBehind(cond: Expr, cfg: Config, names: map<string, string>)
    requires Follows(cfg, names)
    ensures Follows(Behind(cond, cfg), names) && View(Behind(cond, cfg)) == View(cfg)
  {
    hide Eval, Written, View, Follows, Untagged, Matches, Added;
    FollowsKeys(cfg, names);
    EvalWritten(AS_WRITTEN, cond, cfg);
    if Eval(AS_WRITTEN, cond, cfg).Ok? {
      FollowsAdded(cfg, Behind(cond, cfg), names);
    }
  }

  lemma IfSides(cond: Expr, body: Stmts, chain: Chain, cfg: Config)
    requires View(Behind(cond, cfg)) == View(cfg)
    ensures StmtSides(If(cond, body, chain), cfg) ==
            Chosen(cond, cfg, BodySides(body, HasElse(chain), Behind(cond, cfg)), ChainSides(chain, Behind(cond, cfg)))
  {
    hide View, Eval, MeanExpr, IsTrue, ExecStmts, MeanStmts, ExecChain, MeanChain, TraceBody, TraceChain, MeantBody, MeantChain;
  }

  lemma ElifSides(cond: Expr, body: Stmts, rest: Chain, cfg: Config)
    requires View(Behind(cond, cfg)) == View(cfg)
    ensures ChainSides(Elif(cond, body, rest), cfg) ==
            Chosen(cond, cfg, BodySides(body, true, Behind(cond, cfg)), ChainSides(rest, Behind(cond, cfg)))
  {
    hide View, Eval, MeanExpr, IsTrue, ExecStmts, MeanStmts, TraceBody, MeantBody;
  }

  /** Which programs do as written what they mean: exactly those the check passes.  They end
      as they are meant to. */
  lemma AgreesExactly(ss: Stmts, cfg: Config, names: map<string, string>)
    requires Follows(cfg, names)
    ensures TraceStmts(AS_WRITTEN, ss, cfg) == MeantStmts(ss, View(cfg)) <==> !CheckStmts(ss, names).Differs?
    ensures !CheckStmts(ss, names).Differs? ==> Ends(ExecStmts(AS_WRITTEN, ss, cfg), MeanStmts(ss, View(cfg)))
  {
    StmtsRight(ss, cfg, names);
    hide Follows, View, ExecStmts, MeanStmts, TraceStmts, MeantStmts, CheckStmts, Diverge;
    if CheckStmts(ss, names).Differs? {
      DivergeMore([], TraceStmts(AS_WRITTEN, ss, cfg), [], MeantStmts(ss, View(cfg)), []);
    }
  }

  /** Stopped for the same reason, or with the names having the values meant. */
  ghost predicate Ends(r: Result<Config>, m: Result<Values>) {
    match m
    case Stop(reason) => r == Stop(reason)
    case Ok(v) => r.Ok? && View(r.value) == v
  }

  lemma AgreesFromStart(ss: Stmts)
    ensures TraceStmts(AS_WRITTEN, ss, EMPTY_CONFIG) == MeantStmts(ss, map[]) <==> !CheckStmts(ss, map[]).Differs?
  {
    hide TraceStmts, MeantStmts, CheckStmts, ExecStmts, MeanStmts;
    assert View(EMPTY_CONFIG) == map[];
    AgreesExactly(ss, EMPTY_CONFIG, map[]);
  }

  /** A program that gets to its end as it is meant to is meant to give no name a value. */
  lemma AgreeingStoreNothing(ss: Stmts, cfg: Config, names: map<string, string>)
    requires Follows(cfg, names) && MeanStmts(ss, View(cfg)).Ok?
    ensures TraceStmts(AS_WRITTEN, ss, cfg) == MeantStmts(ss, View(cfg)) ==> AllUntyped(MeanStmts(ss, View(cfg)).value)
  {
    StmtsRight(ss, cfg, names);
    AgreesExactly(ss, cfg, names);
    hide Follows, View, ExecStmts, MeanStmts, TraceStmts, MeantStmts, CheckStmts, Diverge;
    var c := CheckStmts(ss, names);
    if c.Goes? {
      FollowsKeys(ExecStmts(AS_WRITTEN, ss, cfg).value, c.names);
      UntaggedView(ExecStmts(AS_WRITTEN, ss, cfg).value);
    }
  }

  /** The VM as written, on the bytecode of a program that passes the check. */
  lemma SourceAgrees(ss: Stmts, st: Store, names: map<string, string>) returns (n: nat)
    requires st.Valid() && Follows(st.cfg, names) && !CheckStmts(ss, names).Differs?
    requires FitsStmts(ss) && ChainsClosed(ss)
    requires AllWellFormed(Compiled(ss)) && |Bytecode(AS_WRITTEN, Compiled(ss))| < 0x8000_0000
    ensures var bc := Bytecode(AS_WRITTEN, Compiled(ss));
            var v := VmRun(AS_WRITTEN, bc, VmAt(0, st), n);
            match MeanStmts(ss, View(st.cfg))
            case Stop(reason) => v == VmHalted(reason)
            case Ok(m) => v.VmAt? && v.pos == |bc| && View(v.store.cfg) == m
  {
    hide Follows, View, ExecStmts, MeanStmts, Bytecode, AllWellFormed, VmRun, FitsStmts, ChainsClosed, Compiled,
         TraceStmts, MeantStmts, CheckStmts;
    n := SourceToRun(AS_WRITTEN, ss, st);
    AgreesExactly(ss, st.cfg, names);
  }

  // ----- three programs -----

  const X: CStr := "x"
  const Y: CStr := "y"

  /** if (x) y = v; end; */
  function IfX(v: Expr): Stmt { If(EIdent(X), Cons(Assign(Y, v), Nil), End) }

  lemma LoadFirst(name: string)
    ensures CellOf(name, EMPTY_CONFIG) == 0 && Loaded(name, EMPTY_CONFIG) == Config([NewCell(name)], map[])
  {
    assert [] + [NewCell(name)] == [NewCell(name)];
  }

  lemma AssignNumber(b: Build, name: string, n: int)
    requires !b.setTags
    ensures Assigned(b, 0, Num(n), Config([NewCell(name)], map[])) == Config([Cell(NoTag, n, None, name)], map[name := 0])
  {
    assert [NewCell(name)][0 := Cell(NoTag, n, None, name)] == [Cell(NoTag, n, None, name)];
  }

  /** x = 1 != 1; if (x) y = 1 != 1; end;  As written 1 != 1 is 1, the payload of x is 1 and
      its type still none, so the branch is not taken. */
  lemma NumberLosesType()
    ensures var e := EBin(Ne, ENum(1), ENum(1));
            ExecStmts(AS_WRITTEN, Cons(Assign(X, e), Cons(IfX(e), Nil)), EMPTY_CONFIG) ==
            Ok(Config([Cell(NoTag, 1, None, X)], map[X := 0]))
  {
    var e := EBin(Ne, ENum(1), ENum(1));
    var cfg := Config([Cell(NoTag, 1, None, X)], map[X := 0]);
    LoadFirst(X);
    AssignNumber(AS_WRITTEN, X, 1);
    assert ExecStmt(AS_WRITTEN, Assign(X, e), EMPTY_CONFIG) == Ok(cfg);
    assert ExecStmt(AS_WRITTEN, IfX(e), cfg) == Ok(cfg);
    assert ExecStmts(AS_WRITTEN, Cons(IfX(e), Nil), cfg) == Ok(cfg);
  }

  /** x = 1; if (x) y = 2; end;  With CPY and JMP repaired the branch is still not taken. */
  lemma BranchNotTaken()
    ensures var ss := Cons(Assign(X, ENum(1)), Cons(IfX(ENum(2)), Nil));
            ExecStmts(Build(true, true, false, false, false), ss, EMPTY_CONFIG) ==
              Ok(Config([Cell(NoTag, 1, None, X)], map[X := 0])) &&
            MeanStmts(ss, map[]) == Ok(map[X := Num(1), Y := Num(2)])
  {
    var b, s := Build(true, true, false, false, false), IfX(ENum(2));
    var cfg := Config([Cell(NoTag, 1, None, X)], map[X := 0]);
    LoadFirst(X);
    AssignNumber(b, X, 1);
    assert ExecStmt(b, s, cfg) == Ok(cfg);
    assert ExecStmts(b, Cons(s, Nil), cfg) == Ok(cfg);
    var m: Values := map[X := Num(1)];
    assert MeanStmts(Cons(Assign(Y, ENum(2)), Nil), m) == Ok(m[Y := Num(2)]) by {
      assert MeanStmt(Assign(Y, ENum(2)), m) == Ok(m[Y := Num(2)]);
    }
    assert MeanStmt(s, m) == Ok(m[Y := Num(2)]);
    assert MeanStmts(Cons(s, Nil), m) == Ok(m[Y := Num(2)]);
    assert MeanStmt(Assign(X, ENum(1)), map[]) == Ok(m);
  }

  /** x = y; x = 1 != 1;  The first copies the name y as well, so the second puts the config
      value of x under the key y, which no statement assigns. */
  lemma NameIsCopied()
    ensures var ss := Cons(Assign(X, EIdent(Y)), Cons(Assign(X, EBin(Ne, ENum(1), ENum(1))), Nil));
            var r := ExecStmts(AS_WRITTEN, ss, EMPTY_CONFIG);
            r.Ok? && r.value.tree == map[X := 0, Y := 0] && r.value.cells[0] == Cell(NoTag, 1, None, Y)
  {
    var e := EBin(Ne, ENum(1), ENum(1));
    var cfg := Config([NewCell(Y), NewCell(Y)], map[X := 0]);
    var cfg' := Config([Cell(NoTag, 1, None, Y), NewCell(Y)], map[X := 0, Y := 0]);
    LoadFirst(X);
    assert [NewCell(X)] + [NewCell(Y)] == [NewCell(X), NewCell(Y)];
    assert [NewCell(X), NewCell(Y)][0 := NewCell(Y)] == cfg.cells;
    assert cfg.cells[0 := Cell(NoTag, 1, None, Y)] == cfg'.cells;
    assert ExecStmt(AS_WRITTEN, Assign(X, EIdent(Y)), EMPTY_CONFIG) == Ok(cfg);
    assert map[X := 0][Y := 0] == cfg'.tree;
    assert ExecStmt(AS_WRITTEN, Assign(X, e), cfg) == Ok(cfg');
    assert ExecStmts(AS_WRITTEN, Cons(Assign(X, e), Nil), cfg) == Ok(cfg');
  }
}
