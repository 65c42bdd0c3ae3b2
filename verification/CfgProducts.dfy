/** What the config VM does while SUB multiplies, and when that is what is meant. */
module CfgProducts {
  // Everything else is repaired: the build PRODUCTS.  A step is what one operation leaves in
  // its register, what an assignment leaves in the config, or which way a condition goes.

  import opened Wrappers
  import opened CfgText
  import opened CfgMachine
  import opened CfgCodegen
  import opened CfgStatements
  import opened CfgMeaning
  import opened Traces

  // ----- steps -----

  datatype Step = Computes(v: Result<Val>) | Stores(m: Values) | Tests(truth: bool)

  /** The operations of an expression in their order, up to one that fails. */
  function Ops(b: Build, e: Expr, cfg: Config): seq<Step>
    decreases e, 1
  {
    match e
    case EBin(op, l, r) => Ops(b, l, cfg) + RightOps(b, op, l, r, cfg)
    case ENot(e1) => Ops(b, e1, cfg) + NotOp(Eval(b, e1, cfg))
    case _ => []
  }

  /** Those behind the left operand. */
  function RightOps(b: Build, op: BinOp, l: Expr, r: Expr, cfg: Config): seq<Step>
    decreases r, 2
  {
    match Eval(b, l, cfg)
    case Stop(_) => []
    case Ok(x) => Ops(b, r, x.cfg) + LastOp(b, op, x.val, Eval(b, r, x.cfg))
  }

  function LastOp(b: Build, op: BinOp, x: Val, y: Result<Computing>): seq<Step> {
    if y.Stop? then [] else [Computes(Apply(b, op, x, y.value.val, y.value.cfg))]
  }

  function NotOp(x: Result<Computing>): seq<Step> {
    if x.Stop? then [] else [Computes(Ok(Bool(!IsTrue(x.value.val, x.value.cfg))))]
  }

  function MeantOps(e: Expr, m: Values): seq<Step>
    decreases e, 1
  {
    match e
    case EBin(op, l, r) => MeantOps(l, m) + MeantRightOps(op, l, r, m)
    case ENot(e1) => MeantOps(e1, m) + MeantNotOp(MeanExpr(e1, m))
    case _ => []
  }

  function MeantRightOps(op: BinOp, l: Expr, r: Expr, m: Values): seq<Step>
    decreases r, 2
  {
    match MeanExpr(l, m)
    case Stop(_) => []
    case Ok(x) => MeantOps(r, m) + MeantLastOp(op, x, MeanExpr(r, m))
  }

  function MeantLastOp(op: BinOp, x: Val, y: Result<Val>): seq<Step> {
    if y.Stop? then [] else [Computes(Operation(op, x, y.value))]
  }

  function MeantNotOp(x: Result<Val>): seq<Step> { if x.Stop? then [] else [Computes(Ok(Bool(!Truth(x.value))))] }

  function Steps(b: Build, ss: Stmts, cfg: Config): seq<Step> {
    match ss
    case Nil => []
    case Cons(s, rest) => StepsStmt(b, s, cfg) + if ExecStmt(b, s, cfg).Stop? then [] else Steps(b, rest, ExecStmt(b, s, cfg).value)
  }

  function StepsStmt(b: Build, s: Stmt, cfg: Config): seq<Step> {
    match s
    case Assign(name, value) => Ops(b, value, Loaded(name, cfg)) + StoreStep(ExecStmt(b, s, cfg))
    case If(cond, body, chain) =>
      Ops(b, cond, cfg) +
      TestSteps(Eval(b, cond, cfg), Steps(b, body, Behind(b, cond, cfg)), StepsChain(b, chain, Behind(b, cond, cfg)))
  }

  function StepsChain(b: Build, c: Chain, cfg: Config): seq<Step> {
    match c
    case End => []
    case Else(body) => Steps(b, body, cfg)
    case Elif(cond, body, rest) =>
      Ops(b, cond, cfg) +
      TestSteps(Eval(b, cond, cfg), Steps(b, body, Behind(b, cond, cfg)), StepsChain(b, rest, Behind(b, cond, cfg)))
  }

  function StoreStep(r: Result<Config>): seq<Step> { if r.Stop? then [] else [Stores(View(r.value))] }

  /** The config behind a condition. */
  function Behind(b: Build, cond: Expr, cfg: Config): Config {
    if Eval(b, cond, cfg).Ok? then Eval(b, cond, cfg).value.cfg else cfg
  }

  /** Which way a condition goes, and the steps of that branch. */
  function TestSteps(v: Result<Computing>, t: seq<Step>, f: seq<Step>): seq<Step> {
    if v.Stop? then []
    else [Tests(IsTrue(v.value.val, v.value.cfg))] + if IsTrue(v.value.val, v.value.cfg) then t else f
  }

  function MeantSteps(ss: Stmts, m: Values): seq<Step> {
    match ss
    case Nil => []
    case Cons(s, rest) => MeantStepsStmt(s, m) + if MeanStmt(s, m).Stop? then [] else MeantSteps(rest, MeanStmt(s, m).value)
  }

  function MeantStepsStmt(s: Stmt, m: Values): seq<Step> {
    match s
    case Assign(name, value) => MeantOps(value, m) + MeantStoreStep(MeanStmt(s, m))
    case If(cond, body, chain) =>
      MeantOps(cond, m) + MeantTestSteps(MeanExpr(cond, m), MeantSteps(body, m), MeantStepsChain(chain, m))
  }

  function MeantStepsChain(c: Chain, m: Values): seq<Step> {
    match c
    case End => []
    case Else(body) => MeantSteps(body, m)
    case Elif(cond, body, rest) =>
      MeantOps(cond, m) + MeantTestSteps(MeanExpr(cond, m), MeantSteps(body, m), MeantStepsChain(rest, m))
  }

  function MeantStoreStep(r: Result<Values>): seq<Step> { if r.Stop? then [] else [Stores(r.value)] }

  function MeantTestSteps(v: Result<Val>, t: seq<Step>, f: seq<Step>): seq<Step> {
    if v.Stop? then [] else [Tests(Truth(v.value))] + if Truth(v.value) then t else f
  }

  // ----- expressions -----

  /** One operation leaves what is meant exactly if no product shows. */
  lemma ApplyExactly(op: BinOp, l: Expr, r: Expr, v: Val, w: Val, cfg: Config, x: Val, y: Val)
    requires Kept(cfg) && Stands(v, cfg, l, x) && Stands(w, cfg, r, y)
    ensures Apply(PRODUCTS, op, v, w, cfg) == Operation(op, x, y) <==> OpHarmless(op, l, r, x, y)
  {
    hide Wrap32, StrToLL, Dec, TruncDiv, SameValue, Kept;
    if OpHarmless(op, l, r, x, y) {
      ApplyMeans(PRODUCTS, op, l, r, v, w, cfg, x, y);
    }
  }

  /** The operations of an expression leave what is meant exactly if no product shows. */
  lemma {:induction false} OpsFollow(e: Expr, cfg: Config)
    requires Kept(cfg)
    ensures Followed(Harmless(e, View(cfg)), Ops(PRODUCTS, e, cfg), MeantOps(e, View(cfg)))
    decreases e, 1
  {
    hide Followed, Kept, View, RightOps, MeantRightOps, NotOp, MeantNotOp, Eval, MeanExpr, OpHarmless, Means;
    match e
    case EBin(op, l, r) =>
      OpsFollow(l, cfg);
      if Harmless(l, View(cfg)) {
        RightOpsFollow(op, l, r, cfg);
      }
      FollowedBoth(Harmless(l, View(cfg)), Ops(PRODUCTS, l, cfg), MeantOps(l, View(cfg)),
                   RightHarmless(op, l, r, View(cfg)), RightOps(PRODUCTS, op, l, r, cfg), MeantRightOps(op, l, r, View(cfg)));
    case ENot(e1) =>
      OpsFollow(e1, cfg);
      if Harmless(e1, View(cfg)) {
        NotFollows(e1, cfg);
      }
      FollowedBoth(Harmless(e1, View(cfg)), Ops(PRODUCTS, e1, cfg), MeantOps(e1, View(cfg)),
                   true, NotOp(Eval(PRODUCTS, e1, cfg)), MeantNotOp(MeanExpr(e1, View(cfg))));
    case _ => FollowedNothing();
  }

  predicate RightHarmless(op: BinOp, l: Expr, r: Expr, m: Values) {
    var x, y := MeanExpr(l, m), MeanExpr(r, m);
    x.Ok? ==> (Harmless(r, m) && (y.Ok? ==> OpHarmless(op, l, r, x.value, y.value)))
  }

  lemma FollowedNothing()
    ensures Followed<Step>(true, [], [])
  {
  }

  lemma NotFollows(e: Expr, cfg: Config)
    requires Kept(cfg) && Harmless(e, View(cfg))
    ensures Followed(true, NotOp(Eval(PRODUCTS, e, cfg)), MeantNotOp(MeanExpr(e, View(cfg))))
  {
    hide Kept, View, Eval, MeanExpr, Harmless, IsTrue, Truth;
    ExprMeans(PRODUCTS, e, cfg);
  }

  lemma {:induction false} RightOpsFollow(op: BinOp, l: Expr, r: Expr, cfg: Config)
    requires Kept(cfg) && Harmless(l, View(cfg))
    ensures Followed(RightHarmless(op, l, r, View(cfg)), RightOps(PRODUCTS, op, l, r, cfg), MeantRightOps(op, l, r, View(cfg)))
    decreases r, 2
  {
    hide Followed, Kept, View, Ops, MeantOps, LastOp, MeantLastOp, Eval, MeanExpr, OpHarmless, Harmless, Stands;
    ExprMeans(PRODUCTS, l, cfg);
    var x, m := Eval(PRODUCTS, l, cfg), View(cfg);
    if x.Ok? {
      GrownView(cfg, x.value.cfg);
      GrownKept(cfg, x.value.cfg);
      OpsFollow(r, x.value.cfg);
      if Harmless(r, m) {
        LastFollows(op, l, r, x.value.val, x.value.cfg, MeanExpr(l, m).value);
      }
      FollowedBoth(Harmless(r, m), Ops(PRODUCTS, r, x.value.cfg), MeantOps(r, m),
                   MeanExpr(r, m).Ok? ==> OpHarmless(op, l, r, MeanExpr(l, m).value, MeanExpr(r, m).value),
                   LastOp(PRODUCTS, op, x.value.val, Eval(PRODUCTS, r, x.value.cfg)),
                   MeantLastOp(op, MeanExpr(l, m).value, MeanExpr(r, m)));
    } else {
      FollowedNothing();
    }
  }

  lemma GrownKept(cfg: Config, cfg': Config)
    requires Grown(cfg, cfg')
    ensures Kept(cfg')
  {
  }

  lemma LastFollows(op: BinOp, l: Expr, r: Expr, v: Val, cfg: Config, x: Val)
    requires Kept(cfg) && Stands(v, cfg, l, x) && Harmless(r, View(cfg))
    ensures var m := View(cfg);
            Followed(MeanExpr(r, m).Ok? ==> OpHarmless(op, l, r, x, MeanExpr(r, m).value),
                     LastOp(PRODUCTS, op, v, Eval(PRODUCTS, r, cfg)), MeantLastOp(op, x, MeanExpr(r, m)))
  {
    hide Kept, View, Eval, MeanExpr, Harmless, Apply, Operation, Followed, OpHarmless, IsTrue, Truth, Deref;
    ExprMeans(PRODUCTS, r, cfg);
    var y, z := Eval(PRODUCTS, r, cfg), MeanExpr(r, View(cfg));
    if y.Ok? {
      GrownKept(cfg, y.value.cfg);
      GrownValue(cfg, y.value.cfg, v);
      ApplyExactly(op, l, r, v, y.value.val, y.value.cfg, x, z.value);
      FollowedOne(Computes(Apply(PRODUCTS, op, v, y.value.val, y.value.cfg)), Computes(Operation(op, x, z.value)));
    } else {
      FollowedNothing();
    }
  }

  // ----- programs -----

  lemma AssignFollows(name: CStr, value: Expr, cfg: Config)
    requires Kept(cfg)
    ensures Followed(Harmless(value, View(cfg)), StepsStmt(PRODUCTS, Assign(name, value), cfg),
                     MeantStepsStmt(Assign(name, value), View(cfg)))
  {
    hide Kept, View, Eval, MeanExpr, Harmless, Ops, MeantOps, Followed, Loaded, ExecStmt, MeanStmt;
    LoadedKept(name, cfg);
    GrownView(cfg, Loaded(name, cfg));
    GrownKept(cfg, Loaded(name, cfg));
    OpsFollow(value, Loaded(name, cfg));
    var s := Assign(name, value);
    if Harmless(value, View(cfg)) {
      AssignMeans(PRODUCTS, name, value, cfg);
      StoreFollows(ExecStmt(PRODUCTS, s, cfg), MeanStmt(s, View(cfg)));
    }
    FollowedBoth(Harmless(value, View(cfg)), Ops(PRODUCTS, value, Loaded(name, cfg)), MeantOps(value, View(cfg)),
                 true, StoreStep(ExecStmt(PRODUCTS, s, cfg)), MeantStoreStep(MeanStmt(s, View(cfg))));
  }

  lemma StoreFollows(r: Result<Config>, q: Result<Values>)
    requires Reads(r, q)
    ensures Followed(true, StoreStep(r), MeantStoreStep(q))
  {
    hide Kept, View;
  }

  /** A condition and the branches it selects from. */
  predicate TestHarmless(cond: Expr, m: Values, ok: bool, ok': bool) {
    Harmless(cond, m) && (MeanExpr(cond, m).Ok? ==> if Truth(MeanExpr(cond, m).value) then ok else ok')
  }

  lemma TestFollows(cond: Expr, cfg: Config, ok: bool, t: seq<Step>, u: seq<Step>, ok': bool, t': seq<Step>, u': seq<Step>)
    requires Kept(cfg)
    requires Harmless(cond, View(cfg)) && MeanExpr(cond, View(cfg)).Ok? ==>
               if Truth(MeanExpr(cond, View(cfg)).value) then Followed(ok, t, u) else Followed(ok', t', u')
    ensures Followed(TestHarmless(cond, View(cfg), ok, ok'),
                     Ops(PRODUCTS, cond, cfg) + TestSteps(Eval(PRODUCTS, cond, cfg), t, t'),
                     MeantOps(cond, View(cfg)) + MeantTestSteps(MeanExpr(cond, View(cfg)), u, u'))
  {
    hide Kept, View, Eval, MeanExpr, Harmless, Ops, MeantOps, Followed, IsTrue, Truth;
    OpsFollow(cond, cfg);
    var v, m := Eval(PRODUCTS, cond, cfg), View(cfg);
    var x := MeanExpr(cond, m);
    var good := x.Ok? ==> if Truth(x.value) then ok else ok';
    if Harmless(cond, m) {
      CondMeans(PRODUCTS, cond, cfg);
      if x.Ok? {
        FollowedOne(Tests(IsTrue(v.value.val, v.value.cfg)), Tests(Truth(x.value)));
        FollowedBoth(true, [Tests(IsTrue(v.value.val, v.value.cfg))], [Tests(Truth(x.value))], good,
                     if Truth(x.value) then t else t', if Truth(x.value) then u else u');
      } else {
        FollowedNothing();
      }
    }
    FollowedBoth(Harmless(cond, m), Ops(PRODUCTS, cond, cfg), MeantOps(cond, m), good, TestSteps(v, t, t'), MeantTestSteps(x, u, u'));
  }

  lemma BehindKept(cond: Expr, cfg: Config)
    requires Kept(cfg) && Harmless(cond, View(cfg))
    ensures Kept(Behind(PRODUCTS, cond, cfg)) && View(Behind(PRODUCTS, cond, cfg)) == View(cfg)
  {
    hide Kept, View, Eval, MeanExpr, Harmless, IsTrue, Truth;
    CondMeans(PRODUCTS, cond, cfg);
  }

  lemma {:induction false} StmtsFollow(ss: Stmts, cfg: Config)
    requires Kept(cfg)
    ensures Followed(HarmlessStmts(ss, View(cfg)), Steps(PRODUCTS, ss, cfg), MeantSteps(ss, View(cfg)))
    decreases ss
  {
    hide Kept, View, Followed, HarmlessStmt, StepsStmt, MeantStepsStmt, ExecStmt, MeanStmt;
    match ss
    case Nil => FollowedNothing();
    case Cons(s, rest) =>
      var r, q := ExecStmt(PRODUCTS, s, cfg), MeanStmt(s, View(cfg));
      StmtFollows(s, cfg);
      if HarmlessStmt(s, View(cfg)) {
        StmtMeans(PRODUCTS, s, cfg);
        if r.Ok? {
          StmtsFollow(rest, r.value);
        } else {
          FollowedNothing();
        }
      }
      FollowedBoth(HarmlessStmt(s, View(cfg)), StepsStmt(PRODUCTS, s, cfg), MeantStepsStmt(s, View(cfg)),
                   q.Ok? ==> HarmlessStmts(rest, q.value), if r.Stop? then [] else Steps(PRODUCTS, rest, r.value),
                   if q.Stop? then [] else MeantSteps(rest, q.value));
  }

  lemma {:induction false} StmtFollows(s: Stmt, cfg: Config)
    requires Kept(cfg)
    ensures Followed(HarmlessStmt(s, View(cfg)), StepsStmt(PRODUCTS, s, cfg), MeantStepsStmt(s, View(cfg)))
    decreases s
  {
    hide Kept, View, Followed, Ops, MeantOps, Eval, MeanExpr, Harmless, Behind, Truth, HarmlessStmts, HarmlessChain,
         Steps, MeantSteps, StepsChain, MeantStepsChain, TestSteps, MeantTestSteps, StoreStep, MeantStoreStep, ExecStmt, MeanStmt;
    match s
    case Assign(name, value) => AssignFollows(name, value, cfg);
    case If(cond, body, chain) =>
      var cfg', m := Behind(PRODUCTS, cond, cfg), View(cfg);
      if Harmless(cond, m) {
        BehindKept(cond, cfg);
        StmtsFollow(body, cfg');
        ChainFollows(chain, cfg');
      }
      TestFollows(cond, cfg, HarmlessStmts(body, m), Steps(PRODUCTS, body, cfg'), MeantSteps(body, m),
                  HarmlessChain(chain, m), StepsChain(PRODUCTS, chain, cfg'), MeantStepsChain(chain, m));
  }

  lemma {:induction false} ChainFollows(c: Chain, cfg: Config)
    requires Kept(cfg)
    ensures Followed(HarmlessChain(c, View(cfg)), StepsChain(PRODUCTS, c, cfg), MeantStepsChain(c, View(cfg)))
    decreases c
  {
    hide Kept, View, Followed, Ops, MeantOps, Eval, MeanExpr, Harmless, Behind, Truth, HarmlessStmts,
         Steps, MeantSteps, TestSteps, MeantTestSteps;
    match c
    case End => FollowedNothing();
    case Else(body) => StmtsFollow(body, cfg);
    case Elif(cond, body, rest) =>
      var cfg', m := Behind(PRODUCTS, cond, cfg), View(cfg);
      if Harmless(cond, m) {
        BehindKept(cond, cfg);
        StmtsFollow(body, cfg');
        ChainFollows(rest, cfg');
      }
      TestFollows(cond, cfg, HarmlessStmts(body, m), Steps(PRODUCTS, body, cfg'), MeantSteps(body, m),
                  HarmlessChain(rest, m), StepsChain(PRODUCTS, rest, cfg'), MeantStepsChain(rest, m));
  }

  /** The machine that multiplies computes, stores and tests what an expression means,
      operation by operation, exactly if no product shows in it. */
  lemma ExprExactly(e: Expr, cfg: Config)
    requires Kept(cfg)
    ensures Ops(PRODUCTS, e, cfg) == MeantOps(e, View(cfg)) <==> Harmless(e, View(cfg))
  {
    hide Kept, View, Ops, MeantOps, Harmless, Followed;
    OpsFollow(e, cfg);
    FollowedExactly(Harmless(e, View(cfg)), Ops(PRODUCTS, e, cfg), MeantOps(e, View(cfg)));
  }

  /** And a program. */
  lemma ProductsExactly(ss: Stmts, cfg: Config)
    requires Kept(cfg)
    ensures Steps(PRODUCTS, ss, cfg) == MeantSteps(ss, View(cfg)) <==> HarmlessStmts(ss, View(cfg))
  {
    hide Kept, View, Steps, MeantSteps, HarmlessStmts, Followed;
    StmtsFollow(ss, cfg);
    FollowedExactly(HarmlessStmts(ss, View(cfg)), Steps(PRODUCTS, ss, cfg), MeantSteps(ss, View(cfg)));
  }

  // ----- programs in which no product can show -----

  /** No subtraction in the text takes a name from anything but a name. */
  predicate NoNameTaken(e: Expr) {
    match e
    case EBin(op, l, r) => NoNameTaken(l) && NoNameTaken(r) && (op == Sub && r.EIdent? ==> l.EIdent?)
    case ENot(e1) => NoNameTaken(e1)
    case _ => true
  }

  predicate NoNameTakenStmts(ss: Stmts) {
    match ss
    case Nil => true
    case Cons(Assign(_, value), rest) => NoNameTaken(value) && NoNameTakenStmts(rest)
    case Cons(If(cond, body, chain), rest) =>
      NoNameTaken(cond) && NoNameTakenStmts(body) && NoNameTakenChain(chain) && NoNameTakenStmts(rest)
  }

  predicate NoNameTakenChain(c: Chain) {
    match c
    case End => true
    case Else(body) => NoNameTakenStmts(body)
    case Elif(cond, body, rest) => NoNameTaken(cond) && NoNameTakenStmts(body) && NoNameTakenChain(rest)
  }

  lemma {:induction false} NoNameHarmless(e: Expr, m: Values)
    requires NoNameTaken(e)
    ensures Harmless(e, m)
  {
    hide MeanExpr;
    match e
    case EBin(op, l, r) =>
      NoNameHarmless(l, m);
      NoNameHarmless(r, m);
    case ENot(e1) => NoNameHarmless(e1, m);
    case _ =>
  }

  /** Such a program does what it means whatever values the names have. */
  lemma {:induction false} TextHarmless(ss: Stmts, m: Values)
    requires NoNameTakenStmts(ss)
    ensures HarmlessStmts(ss, m)
    decreases ss
  {
    hide MeanExpr, MeanStmt, Harmless, NoNameTaken;
    if ss.Cons? {
      if MeanStmt(ss.head, m).Ok? {
        TextHarmless(ss.tail, MeanStmt(ss.head, m).value);
      }
      match ss.head
      case Assign(_, value) => NoNameHarmless(value, m);
      case If(cond, body, chain) =>
        NoNameHarmless(cond, m);
        TextHarmless(body, m);
        ChainTextHarmless(chain, m);
    }
  }

  lemma {:induction false} ChainTextHarmless(c: Chain, m: Values)
    requires NoNameTakenChain(c)
    ensures HarmlessChain(c, m)
    decreases c
  {
    hide MeanExpr, Harmless, NoNameTaken;
    match c
    case End =>
    case Else(body) => TextHarmless(body, m);
    case Elif(cond, body, rest) =>
      NoNameHarmless(cond, m);
      TextHarmless(body, m);
      ChainTextHarmless(rest, m);
  }

  // ----- a program -----

  const X: CStr := "x"
  const Y: CStr := "y"

  /** y = 7 - x; */
  function Take(): Stmt { Assign(Y, EBin(Sub, ENum(7), EIdent(X))) }

  lemma TakeMeans()
    ensures var m: Values := map[X := Num(5)]; MeanStmt(Take(), m) == Ok(m[Y := Num(2)])
  {
    var m: Values := map[X := Num(5)];
    assert MeanExpr(ENum(7), m) == Ok(Num(7)) && MeanExpr(EIdent(X), m) == Ok(Num(5));
    assert Operation(Sub, Num(7), Num(5)) == Ok(Num(2));
  }

  lemma TakeMultiplies()
    ensures ExecStmt(PRODUCTS, Take(), Config([Cell(NumTag, 5, None, X)], map[X := 0])) ==
            Ok(Config([Cell(NumTag, 5, None, X), Cell(NumTag, 35, None, Y)], map[X := 0, Y := 1]))
  {
    var cfg := Config([Cell(NumTag, 5, None, X)], map[X := 0]);
    var cfg1 := Config([Cell(NumTag, 5, None, X), NewCell(Y)], map[X := 0]);
    assert Loaded(Y, cfg) == cfg1 && CellOf(Y, cfg) == 1 by { assert cfg.cells + [NewCell(Y)] == cfg1.cells; }
    assert Eval(PRODUCTS, EBin(Sub, ENum(7), EIdent(X)), cfg1) == Ok(Computing(Num(35), cfg1));
    assert cfg1.cells[1 := Cell(NumTag, 35, None, Y)] == [Cell(NumTag, 5, None, X), Cell(NumTag, 35, None, Y)];
  }

  lemma SetFive()
    ensures ExecStmt(PRODUCTS, Assign(X, ENum(5)), EMPTY_CONFIG) == Ok(Config([Cell(NumTag, 5, None, X)], map[X := 0]))
  {
    assert [] + [NewCell(X)] == [NewCell(X)];
    assert [NewCell(X)][0 := Cell(NumTag, 5, None, X)] == [Cell(NumTag, 5, None, X)];
  }

  /** x = 5; y = 7 - x;  The machine that multiplies leaves 35 in y, where 2 is meant. */
  lemma SevenMinusX()
    ensures var ss := Cons(Assign(X, ENum(5)), Cons(Take(), Nil));
            MeanStmts(ss, map[]) == Ok(map[X := Num(5), Y := Num(2)])
    ensures var r := ExecStmts(PRODUCTS, Cons(Assign(X, ENum(5)), Cons(Take(), Nil)), EMPTY_CONFIG);
            r.Ok? && View(r.value) == map[X := Num(5), Y := Num(35)]
  {
    hide Eval, Assigned, Loaded, MeanExpr, Take;
    TakeMeans();
    TakeMultiplies();
    SetFive();
    FiveMeant();
    var m: Values := map[X := Num(5)];
    var cfg := Config([Cell(NumTag, 5, None, X)], map[X := 0]);
    var cfg' := Config([Cell(NumTag, 5, None, X), Cell(NumTag, 35, None, Y)], map[X := 0, Y := 1]);
    assert MeanStmts(Cons(Take(), Nil), m) == Ok(m[Y := Num(2)]);
    assert ExecStmts(PRODUCTS, Cons(Take(), Nil), cfg) == Ok(cfg');
    ViewOfTwo();
  }

  lemma FiveMeant()
    ensures MeanStmt(Assign(X, ENum(5)), map[]) == Ok(map[X := Num(5)])
  {
  }

  lemma ViewOfTwo()
    ensures View(Config([Cell(NumTag, 5, None, X), Cell(NumTag, 35, None, Y)], map[X := 0, Y := 1])) == map[X := Num(5), Y := Num(35)]
  {
    var cfg := Config([Cell(NumTag, 5, None, X), Cell(NumTag, 35, None, Y)], map[X := 0, Y := 1]);
    assert View(cfg).Keys == {X, Y};
    assert View(cfg)[X] == Num(5) && View(cfg)[Y] == Num(35);
  }
}
