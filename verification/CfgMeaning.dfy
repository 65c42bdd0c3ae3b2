/** What config programs are meant to do, and that they do it once the defects are repaired. */
module CfgMeaning {
  // Names stand for values: no config values to point to, no types to lose.

  import opened CfgText
  import opened CfgMachine
  import opened CfgCodegen
  import opened CfgStatements
  import opened CfgLabels
  import opened CfgReading
  import opened CfgVm

  // ----- meaning -----

  type Values = map<string, Val>

  function NameValue(name: string, m: Values): Val { if name in m then m[name] else Untyped }

  function MeanExpr(e: Expr, m: Values): Result<Val> {
    match e
    case ENum(n) => Ok(Num(n))
    case EStr(s) => Ok(Str(s))
    case EIdent(name) => Ok(NameValue(name, m))
    case EBin(op, l, r) =>
      (match MeanExpr(l, m)
       case Stop(reason) => Stop(reason)
       case Ok(x) =>
         match MeanExpr(r, m)
         case Stop(reason) => Stop(reason)
         case Ok(y) => Operation(op, x, y))
    case ENot(e1) =>
      match MeanExpr(e1, m)
      case Stop(reason) => Stop(reason)
      case Ok(x) => Ok(Bool(!Truth(x)))
  }

  function MeanStmts(ss: Stmts, m: Values): Result<Values> {
    match ss
    case Nil => Ok(m)
    case Cons(s, rest) =>
      match MeanStmt(s, m)
      case Stop(reason) => Stop(reason)
      case Ok(m') => MeanStmts(rest, m')
  }

  function MeanStmt(s: Stmt, m: Values): Result<Values> {
    match s
    case Assign(name, value) =>
      (match MeanExpr(value, m)
       case Stop(reason) => Stop(reason)
       case Ok(v) => Ok(m[name := v]))
    case If(cond, body, chain) =>
      match MeanExpr(cond, m)
      case Stop(reason) => Stop(reason)
      case Ok(v) => if Truth(v) then MeanStmts(body, m) else MeanChain(chain, m)
  }

  function MeanChain(c: Chain, m: Values): Result<Values> {
    match c
    case End => Ok(m)
    case Else(body) => MeanStmts(body, m)
    case Elif(cond, body, rest) =>
      match MeanExpr(cond, m)
      case Stop(reason) => Stop(reason)
      case Ok(v) => if Truth(v) then MeanStmts(body, m) else MeanChain(rest, m)
  }

  // ----- where a product shows -----

  /** An operand that takes a name from a number while SUB multiplies. */
  predicate OpHarmless(op: BinOp, l: Expr, r: Expr, x: Val, y: Val) {
    op == Sub && !l.EIdent? && r.EIdent? && x.Num? && y.Num? ==> Wrap32(x.i32 * y.i32) == Wrap32(x.i32 - y.i32)
  }

  /** In no subtraction the evaluation gets to, of a name from a number, the product is
      another number than the difference. */
  predicate Harmless(e: Expr, m: Values) {
    match e
    case EBin(op, l, r) =>
      var x, y := MeanExpr(l, m), MeanExpr(r, m);
      Harmless(l, m) && (x.Ok? ==> (Harmless(r, m) && (y.Ok? ==> OpHarmless(op, l, r, x.value, y.value))))
    case ENot(e1) => Harmless(e1, m)
    case _ => true
  }

  predicate HarmlessStmts(ss: Stmts, m: Values) {
    match ss
    case Nil => true
    case Cons(s, rest) => HarmlessStmt(s, m) && (MeanStmt(s, m).Ok? ==> HarmlessStmts(rest, MeanStmt(s, m).value))
  }

  predicate HarmlessStmt(s: Stmt, m: Values) {
    match s
    case Assign(_, value) => Harmless(value, m)
    case If(cond, body, chain) =>
      Harmless(cond, m) &&
      match MeanExpr(cond, m)
      case Stop(_) => true
      case Ok(v) => if Truth(v) then HarmlessStmts(body, m) else HarmlessChain(chain, m)
  }

  predicate HarmlessChain(c: Chain, m: Values) {
    match c
    case End => true
    case Else(body) => HarmlessStmts(body, m)
    case Elif(cond, body, rest) =>
      Harmless(cond, m) &&
      match MeanExpr(cond, m)
      case Stop(_) => true
      case Ok(v) => if Truth(v) then HarmlessStmts(body, m) else HarmlessChain(rest, m)
  }

  // ----- the values in a config -----

  /** The names in the tree with the values a program sees under them. */
  function View(cfg: Config): Values { map name | name in cfg.tree :: CellValue(CellAt(cfg, cfg.tree[name])) }

  predicate Sound(c: Cell) { c.tag == StrTag ==> c.sval.Some? && c.ival == |c.sval.value| }

  /** Every key leads to the config value of that name; strings know their length. */
  ghost predicate Kept(cfg: Config) {
    && (forall x :: x in cfg.tree ==> cfg.tree[x] < |cfg.cells| && cfg.cells[cfg.tree[x]].name == x)
    && (forall k :: 0 <= k < |cfg.cells| ==> Sound(cfg.cells[k]))
  }

  ghost predicate Inside(v: Val, cfg: Config) { v.Cfg? ==> v.cell < |cfg.cells| }

  /** Only config values that no key leads to have come up. */
  ghost predicate Grown(cfg: Config, cfg': Config) { cfg'.tree == cfg.tree && cfg.cells <= cfg'.cells && Kept(cfg') }

  lemma GrownTwice(a: Config, b: Config, c: Config)
    requires Grown(a, b) && Grown(b, c)
    ensures Grown(a, c)
  {
  }

  lemma GrownView(cfg: Config, cfg': Config)
    requires Kept(cfg) && Grown(cfg, cfg')
    ensures View(cfg') == View(cfg)
  {
    hide CellValue, Sound;
    forall x | x in cfg.tree ensures CellAt(cfg', cfg.tree[x]) == CellAt(cfg, cfg.tree[x]) {
    }
  }

  lemma GrownValue(cfg: Config, cfg': Config, v: Val)
    requires cfg.cells <= cfg'.cells && Inside(v, cfg)
    ensures Deref(v, cfg') == Deref(v, cfg) && IsTrue(v, cfg') == IsTrue(v, cfg) && Inside(v, cfg')
  {
    hide CellValue, CellTruth;
    assert v.Cfg? ==> CellAt(cfg', v.cell) == CellAt(cfg, v.cell);
  }

  /** Loading a name. */
  lemma LoadedKept(name: string, cfg: Config)
    requires Kept(cfg)
    ensures Grown(cfg, Loaded(name, cfg))
    ensures var k := CellOf(name, cfg);
            k < |Loaded(name, cfg).cells| && Loaded(name, cfg).cells[k].name == name &&
            Deref(Cfg(k), Loaded(name, cfg)) == NameValue(name, View(cfg)) &&
            IsTrue(Cfg(k), Loaded(name, cfg)) == Truth(NameValue(name, View(cfg)))
  {
    var k, c := CellOf(name, cfg), Loaded(name, cfg);
    assert Sound(c.cells[k]) && CellAt(c, k) == c.cells[k];
    TruthOfCell(c.cells[k]);
    assert name in cfg.tree ==> View(cfg)[name] == CellValue(c.cells[k]);
  }

  lemma TruthOfCell(c: Cell)
    requires Sound(c)
    ensures CellTruth(c) == Truth(CellValue(c))
  {
  }

  /** v is the register of a tree, x what the tree means. */
  ghost predicate Means(v: Result<Computing>, cfg: Config, e: Expr, x: Result<Val>) {
    match x
    case Stop(reason) => v == Stop(reason)
    case Ok(value) =>
      v.Ok? && Grown(cfg, v.value.cfg) && v.value.val != Untyped && Stands(v.value.val, v.value.cfg, e, value)
  }

  /** A register with the value x, a config value exactly for a name. */
  ghost predicate Stands(v: Val, cfg: Config, e: Expr, x: Val) {
    Inside(v, cfg) && Deref(v, cfg) == x && IsTrue(v, cfg) == Truth(x) && (v.Cfg? <==> e.EIdent?)
  }

  /** With subtraction repaired, or where its product does not show, the machine evaluates a
      tree to what it means. */
  lemma {:induction false} ExprMeans(b: Build, e: Expr, cfg: Config)
    requires Repaired(b) && Kept(cfg) && (b.subSubtracts || Harmless(e, View(cfg)))
    ensures Means(Eval(b, e, cfg), cfg, e, MeanExpr(e, View(cfg)))
  {
    hide Apply, Operation, Kept, View, CellOf, Loaded, Truth, IsTrue, Deref, OpHarmless, Inside;
    match e
    case ENum(n) => LiteralMeans(Num(n), cfg);
    case EStr(s) => LiteralMeans(Str(s), cfg);
    case EIdent(name) => NameMeans(name, cfg);
    case EBin(op, l, r) =>
      ExprMeans(b, l, cfg);
      var x := Eval(b, l, cfg);
      if x.Ok? {
        GrownView(cfg, x.value.cfg);
        ExprMeans(b, r, x.value.cfg);
        var y := Eval(b, r, x.value.cfg);
        if y.Ok? {
          GrownValue(x.value.cfg, y.value.cfg, x.value.val);
          GrownTwice(cfg, x.value.cfg, y.value.cfg);
          ApplyMeans(b, op, l, r, x.value.val, y.value.val, y.value.cfg, MeanExpr(l, View(cfg)).value, MeanExpr(r, View(cfg)).value);
        }
      }
    case ENot(e1) =>
      ExprMeans(b, e1, cfg);
      var x := Eval(b, e1, cfg);
      if x.Ok? {
        LiteralMeans(Bool(!IsTrue(x.value.val, x.value.cfg)), x.value.cfg);
      }
  }

  lemma NameMeans(name: CStr, cfg: Config)
    requires Kept(cfg)
    ensures Grown(cfg, Loaded(name, cfg))
    ensures Stands(Cfg(CellOf(name, cfg)), Loaded(name, cfg), EIdent(name), NameValue(name, View(cfg)))
  {
    hide Kept, View, CellOf, Loaded, Truth, IsTrue, Deref;
    LoadedKept(name, cfg);
  }

  lemma LiteralMeans(v: Val, cfg: Config)
    requires (v.Num? || v.Str?) && Kept(cfg)
    ensures Deref(v, cfg) == v && IsTrue(v, cfg) == Truth(v) && Inside(v, cfg) && Grown(cfg, cfg)
  {
  }

  /** One operation. */
  lemma ApplyMeans(b: Build, op: BinOp, l: Expr, r: Expr, v: Val, w: Val, cfg: Config, x: Val, y: Val)
    requires Kept(cfg) && Stands(v, cfg, l, x) && Stands(w, cfg, r, y) && (b.subSubtracts || OpHarmless(op, l, r, x, y))
    ensures Apply(b, op, v, w, cfg) == Operation(op, x, y) && Grown(cfg, cfg)
    ensures var z := Operation(op, x, y);
            z.Ok? ==> (z.value.Num? || z.value.Str?) && Deref(z.value, cfg) == z.value &&
                      IsTrue(z.value, cfg) == Truth(z.value) && Inside(z.value, cfg)
  {
    hide Wrap32, StrToLL, Dec, TruncDiv, SameValue, Kept;
  }

  /** A config value of some name overwritten, and under its key. */
  function Overwritten(k: nat, cell: Cell, cfg: Config): Config
    requires k < |cfg.cells|
  {
    Config(cfg.cells[k := cell], cfg.tree[cell.name := k])
  }

  lemma OverwrittenKept(k: nat, cell: Cell, cfg: Config)
    requires Kept(cfg) && k < |cfg.cells| && cfg.cells[k].name == cell.name && Sound(cell)
    ensures Kept(Overwritten(k, cell, cfg))
  {
    hide Sound;
  }

  lemma OverwrittenView(k: nat, cell: Cell, cfg: Config)
    requires Kept(cfg) && k < |cfg.cells| && cfg.cells[k].name == cell.name
    ensures View(Overwritten(k, cell, cfg)) == View(cfg)[cell.name := CellValue(cell)]
  {
    hide Sound, CellValue;
    var c := Overwritten(k, cell, cfg);
    forall x | x in cfg.tree && x != cell.name ensures c.tree[x] == cfg.tree[x] && c.cells[c.tree[x]] == cfg.cells[cfg.tree[x]] {
      assert cfg.cells[cfg.tree[x]].name == x;
    }
  }

  /** The repaired SET gives the name its value and changes no other. */
  lemma AssignedMeans(b: Build, k: nat, name: string, v: Val, cfg: Config)
    requires Repaired(b) && Kept(cfg) && k < |cfg.cells| && cfg.cells[k].name == name && (name in cfg.tree ==> cfg.tree[name] == k)
    requires Inside(v, cfg) && v != Untyped
    ensures var c := Assigned(b, k, v, cfg);
            Kept(c) && View(c) == View(cfg)[name := Deref(v, cfg)]
  {
    hide Sound, CellValue, View, Kept, Copied;
    var cell := Copied(b, cfg.cells[k], v, cfg);
    assert Sound(cfg.cells[k]) by { KeptSound(k, cfg); }
    CopiedSound(b, cfg.cells[k], v, cfg);
    OverwrittenKept(k, cell, cfg);
    OverwrittenView(k, cell, cfg);
    assert name in cfg.tree ==> cfg.tree[name := k] == cfg.tree;
  }

  lemma KeptSound(k: nat, cfg: Config)
    requires Kept(cfg) && k < |cfg.cells|
    ensures Sound(cfg.cells[k])
  {
  }

  lemma CopiedSound(b: Build, c: Cell, v: Val, cfg: Config)
    requires Repaired(b) && Kept(cfg) && Sound(c) && Inside(v, cfg) && v != Untyped
    ensures var c' := Copied(b, c, v, cfg);
            Sound(c') && c'.name == c.name && CellValue(c') == Deref(v, cfg)
  {
    assert v.Cfg? ==> Sound(cfg.cells[v.cell]);
  }

  // ----- statements -----

  /** The repaired machine's config reads as the statements mean. */
  ghost predicate Reads(r: Result<Config>, m: Result<Values>) {
    match m
    case Stop(reason) => r == Stop(reason)
    case Ok(v) => r.Ok? && Kept(r.value) && View(r.value) == v
  }

  lemma AssignMeans(b: Build, name: CStr, value: Expr, cfg: Config)
    requires Repaired(b) && Kept(cfg) && (b.subSubtracts || Harmless(value, View(cfg)))
    ensures Reads(ExecStmt(b, Assign(name, value), cfg), MeanStmt(Assign(name, value), View(cfg)))
  {
    hide Kept, View, Deref, IsTrue, CellOf, Loaded, Assigned, Eval, MeanExpr, Harmless;
    LoadedKept(name, cfg);
    var k, c := CellOf(name, cfg), Loaded(name, cfg);
    GrownView(cfg, c);
    ExprMeans(b, value, c);
    var v := Eval(b, value, c);
    if v.Ok? {
      GrownView(c, v.value.cfg);
      KeyStays(name, cfg, v.value.cfg);
      AssignedMeans(b, k, name, v.value.val, v.value.cfg);
    }
  }

  lemma KeyStays(name: string, cfg: Config, cfg': Config)
    requires cfg'.tree == cfg.tree
    ensures name in cfg'.tree ==> cfg'.tree[name] == CellOf(name, cfg)
  {
  }

  /** A condition selects the branch it means. */
  lemma CondMeans(b: Build, cond: Expr, cfg: Config)
    requires Repaired(b) && Kept(cfg) && (b.subSubtracts || Harmless(cond, View(cfg)))
    ensures match MeanExpr(cond, View(cfg))
            case Stop(reason) => Eval(b, cond, cfg) == Stop(reason)
            case Ok(x) =>
              var v := Eval(b, cond, cfg);
              v.Ok? && IsTrue(v.value.val, v.value.cfg) == Truth(x) && Kept(v.value.cfg) && View(v.value.cfg) == View(cfg)
  {
    hide Kept, View, Deref, Truth, Eval, MeanExpr, IsTrue, Harmless;
    ExprMeans(b, cond, cfg);
    var v := Eval(b, cond, cfg);
    if v.Ok? {
      GrownView(cfg, v.value.cfg);
    }
  }

  /** Once all five defects are repaired, or the fifth does not show, the names have the values the statements mean, or
      the run stops for the reason they stop. */
  lemma {:induction false} StmtsMean(b: Build, ss: Stmts, cfg: Config)
    requires Repaired(b) && Kept(cfg) && (b.subSubtracts || HarmlessStmts(ss, View(cfg)))
    ensures Reads(ExecStmts(b, ss, cfg), MeanStmts(ss, View(cfg)))
    decreases ss
  {
    hide Kept, View, ExecStmt, MeanStmt, HarmlessStmt;
    match ss
    case Nil =>
    case Cons(s, rest) =>
      StmtMeans(b, s, cfg);
      var r := ExecStmt(b, s, cfg);
      if r.Ok? {
        StmtsMean(b, rest, r.value);
      }
  }

  lemma {:induction false} StmtMeans(b: Build, s: Stmt, cfg: Config)
    requires Repaired(b) && Kept(cfg) && (b.subSubtracts || HarmlessStmt(s, View(cfg)))
    ensures Reads(ExecStmt(b, s, cfg), MeanStmt(s, View(cfg)))
    decreases s
  {
    hide Kept, View, Eval, MeanExpr, IsTrue, Truth, ExecStmts, MeanStmts, ExecChain, MeanChain, HarmlessStmts, HarmlessChain, Harmless;
    match s
    case Assign(name, value) => AssignMeans(b, name, value, cfg);
    case If(cond, body, chain) =>
      CondMeans(b, cond, cfg);
      var v := Eval(b, cond, cfg);
      if v.Ok? {
        if Truth(MeanExpr(cond, View(cfg)).value) {
          StmtsMean(b, body, v.value.cfg);
          BranchLeft(b, ExecStmts(b, body, v.value.cfg));
        } else {
          ChainMeans(b, chain, v.value.cfg);
        }
      }
  }

  lemma BranchLeft(b: Build, r: Result<Config>)
    requires b.jmpOpcode
    ensures LeaveBranch(b, r) == r
  {
  }

  lemma {:induction false} ChainMeans(b: Build, c: Chain, cfg: Config)
    requires Repaired(b) && Kept(cfg) && (b.subSubtracts || HarmlessChain(c, View(cfg)))
    ensures Reads(ExecChain(b, c, cfg), MeanChain(c, View(cfg)))
    decreases c
  {
    hide Kept, View, Eval, MeanExpr, IsTrue, Truth, ExecStmts, MeanStmts, HarmlessStmts, Harmless;
    match c
    case End =>
    case Else(body) => StmtsMean(b, body, cfg);
    case Elif(cond, body, rest) =>
      CondMeans(b, cond, cfg);
      var v := Eval(b, cond, cfg);
      if v.Ok? {
        if Truth(MeanExpr(cond, View(cfg)).value) {
          StmtsMean(b, body, v.value.cfg);
          BranchLeft(b, ExecStmts(b, body, v.value.cfg));
        } else {
          ChainMeans(b, rest, v.value.cfg);
        }
      }
  }

  /** From source to values: the repaired VM gets to the end of a program's bytecode with
      the names having the values the program means, or stops for the reason it stops; so
      does the one that multiplies, for programs in which this does not show. */
  lemma SourceMeans(b: Build, ss: Stmts, st: Store) returns (n: nat)
    requires Repaired(b) && (b.subSubtracts || HarmlessStmts(ss, View(st.cfg)))
    requires st.Valid() && Kept(st.cfg) && FitsStmts(ss) && ChainsClosed(ss)
    requires AllWellFormed(Compiled(ss)) && |Bytecode(b, Compiled(ss))| < 0x8000_0000
    ensures var bc := Bytecode(b, Compiled(ss));
            var v := VmRun(b, bc, VmAt(0, st), n);
            match MeanStmts(ss, View(st.cfg))
            case Stop(reason) => v == VmHalted(reason)
            case Ok(m) => v.VmAt? && v.pos == |bc| && View(v.store.cfg) == m
  {
    hide Kept, View, ExecStmts, MeanStmts, Bytecode, AllWellFormed, VmRun, FitsStmts, ChainsClosed, Compiled, HarmlessStmts;
    n := SourceToRun(b, ss, st);
    StmtsMean(b, ss, st.cfg);
  }
}
