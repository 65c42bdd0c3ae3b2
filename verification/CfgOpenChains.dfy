/**
 Two programs whose `elseif` chain has no `else`.

 What a round of such a program is, is said by CfgRuns.
 */
module CfgOpenChains {
  import opened Wrappers
  import opened CfgText
  import opened CfgMachine
  import opened CfgAssembly
  import opened CfgCodegen
  import opened CfgStatements
  import opened CfgLabels
  import opened CfgRuns
  import opened CfgMeaning

  const X: CStr := "x"
  const Y: CStr := "y"

  /** if (x) y = 1; elseif (x) y = 2; end; */
  function Twice(): Stmt {
    If(EIdent(X), Cons(Assign(Y, ENum(1)), Nil), Elif(EIdent(X), Cons(Assign(Y, ENum(2)), Nil), End))
  }

  // ----- a false first condition: back to the first line -----

  /** Where x has no value the program starts anew, with one more config value. */
  lemma FalseAgain(b: Build, cfg: Config)
    requires X !in cfg.tree
    ensures RoundStmts(b, Cons(Twice(), Nil), cfg) == Again(Loaded(X, cfg))
    ensures X !in Loaded(X, cfg).tree && Loaded(X, cfg) != cfg
  {
    assert Eval(b, EIdent(X), cfg) == Ok(Computing(Cfg(|cfg.cells|), Loaded(X, cfg)));
    assert !IsTrue(Cfg(|cfg.cells|), Loaded(X, cfg));
    assert |Loaded(X, cfg).cells| == |cfg.cells| + 1;
    assert RoundStmt(b, Twice(), cfg) == Again(Loaded(X, cfg));
  }

  predicate Done(prog: seq<Line>, m: Machine) { m.Halted? || m.pc >= |prog| }

  lemma {:induction false} DoneStays(b: Build, prog: seq<Line>, m: Machine, n: nat)
    requires m.Valid() && Done(prog, m)
    ensures Run(b, prog, m, n) == m
    decreases n
  {
    if n > 0 {
      DoneStays(b, prog, m, n - 1);
    }
  }

  lemma TwiceFits()
    ensures FitsStmts(Cons(Twice(), Nil)) && Compiled(Cons(Twice(), Nil)) != []
  {
    var ss := Cons(Twice(), Nil);
    assert Need(EIdent(X)) == 1 && Need(ENum(1)) == 1 && Need(ENum(2)) == 1;
    ProgramFits(ss, 0);
    hide GenExpr, GenStmts, GenChain, GenCond;
    assert GenStmt(Twice(), {}, 0).code != [] by { assert GenStmt(Twice(), {}, 0).ok by { StmtFits(Twice(), 0); } }
    assert Compiled(ss) == GenStmt(Twice(), {}, 0).code + GenStmts(Nil, GenStmt(Twice(), {}, 0).used, GenStmt(Twice(), {}, 0).lbls).code;
  }

  /** So it never ends. */
  lemma {:induction false} NeverEnds(b: Build, st: Store, n: nat)
    requires st.Valid() && X !in st.cfg.tree
    ensures !Done(Compiled(Cons(Twice(), Nil)), Run(b, Compiled(Cons(Twice(), Nil)), At(0, st), n))
    decreases n
  {
    hide Run, Compiled, RoundStmts, Loaded, Twice;
    var ss := Cons(Twice(), Nil);
    var prog := Compiled(ss);
    TwiceFits();
    FalseAgain(b, st.cfg);
    var m := ProgramRun(b, ss, st);
    var k: nat :| Run(b, prog, At(0, st), k) == m;
    NothingRun(b, prog, At(0, st));
    var e := Run(b, prog, At(0, st), n);
    if n < k {
      RunCompose(b, prog, At(0, st), n, k - n);
      if Done(prog, e) {
        DoneStays(b, prog, e, k - n);
      }
    } else {
      RunCompose(b, prog, At(0, st), k, n - k);
      NeverEnds(b, m.store, n - k);
    }
  }

  lemma NothingRun(b: Build, prog: seq<Line>, m: Machine)
    requires m.Valid()
    ensures Run(b, prog, m, 0) == m
  {
  }

  // ----- a true first condition: on into the next test -----

  /** The config values x = 1 and, from the second on, y. */
  function XAndY(y: Option<int>): Config {
    if y.None? then Config([Cell(NumTag, 1, None, X)], map[X := 0])
    else Config([Cell(NumTag, 1, None, X), Cell(NumTag, y.value, None, Y)], map[X := 0, Y := 1])
  }

  lemma SetsY(y: Option<int>, n: Int32)
    ensures RoundStmts(INTENDED, Cons(Assign(Y, ENum(n)), Nil), XAndY(y)) == Past(Ok(XAndY(Some(n))))
  {
    var c, v := XAndY(y), Cell(NumTag, n, None, Y);
    assert ExecStmt(INTENDED, Assign(Y, ENum(n)), c) == Ok(XAndY(Some(n))) by {
      if y.None? {
        assert (c.cells + [NewCell(Y)])[1 := v] == XAndY(Some(n)).cells;
      } else {
        assert c.cells[1 := v] == XAndY(Some(n)).cells;
      }
    }
  }

  lemma XHolds(y: Option<int>)
    ensures Eval(INTENDED, EIdent(X), XAndY(y)) == Ok(Computing(Cfg(0), XAndY(y))) && IsTrue(Cfg(0), XAndY(y))
  {
  }

  /** Where x is 1 both branches run, and y is 2. */
  lemma TrueFallsThrough()
    ensures RoundStmts(INTENDED, Cons(Twice(), Nil), XAndY(None)) == Past(Ok(XAndY(Some(2))))
  {
    hide Eval, IsTrue, XAndY, ExecStmt;
    SetsY(None, 1);
    SetsY(Some(1), 2);
    XHolds(None);
    XHolds(Some(1));
    var s := Twice();
    assert RoundChain(INTENDED, s.chain, XAndY(Some(1))) == Past(Ok(XAndY(Some(2))));
    assert RoundStmt(INTENDED, s, XAndY(None)) == Past(Ok(XAndY(Some(2))));
  }

  /** Only the first is meant to, and y to be 1. */
  lemma OnlyFirstMeant()
    ensures View(XAndY(None)) == map[X := Num(1)] && View(XAndY(Some(2))) == map[X := Num(1), Y := Num(2)]
    ensures MeanStmts(Cons(Twice(), Nil), map[X := Num(1)]) == Ok(map[X := Num(1), Y := Num(1)])
  {
    var m: map<string, Val> := map[X := Num(1)];
    assert View(XAndY(None)).Keys == {X} && View(XAndY(Some(2))).Keys == {X, Y};
    assert View(XAndY(None))[X] == Num(1);
    assert View(XAndY(Some(2)))[X] == Num(1) && View(XAndY(Some(2)))[Y] == Num(2);
    assert MeanStmt(Assign(Y, ENum(1)), m) == Ok(m[Y := Num(1)]);
    assert MeanStmts(Twice().body, m) == Ok(m[Y := Num(1)]);
    assert MeanStmt(Twice(), m) == Ok(m[Y := Num(1)]);
  }
}
