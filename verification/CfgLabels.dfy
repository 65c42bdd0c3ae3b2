/**
 Labels and registers over whole programs, and the value of expressions over numbers.

 Every label is defined once; all used labels are defined exactly if every `elseif` chain
 ends in `else`; generation succeeds exactly if every expression fits into eight registers.
 */
module CfgLabels {
  import opened CfgText
  import opened CfgMachine
  import opened CfgAssembly
  import opened CfgCodegen
  import opened CfgStatements

  ghost predicate Within(ids: set<nat>, lo: nat, hi: nat) { forall x :: x in ids ==> lo <= x < hi }

  /** The labels the lines jump to. */
  ghost function Uses(code: seq<Line>): set<nat> {
    set k, j | 0 <= k < |code| && code[k].Instr? && 0 <= j < |code[k].args| && code[k].args[j].Lbl? ::
      code[k].args[j].id
  }

  lemma UsesConcat(c1: seq<Line>, c2: seq<Line>)
    ensures Uses(c1 + c2) == Uses(c1) + Uses(c2)
  {
    var c := c1 + c2;
    forall id | id in Uses(c1) ensures id in Uses(c) {
      var k, j :| 0 <= k < |c1| && c1[k].Instr? && 0 <= j < |c1[k].args| && c1[k].args[j].Lbl? && c1[k].args[j].id == id;
      assert c[k].args[j].id == id;
    }
    forall id | id in Uses(c2) ensures id in Uses(c) {
      var k, j :| 0 <= k < |c2| && c2[k].Instr? && 0 <= j < |c2[k].args| && c2[k].args[j].Lbl? && c2[k].args[j].id == id;
      assert c[|c1| + k].args[j].id == id;
    }
    forall id | id in Uses(c) ensures id in Uses(c1) + Uses(c2) {
      var k, j :| 0 <= k < |c| && c[k].Instr? && 0 <= j < |c[k].args| && c[k].args[j].Lbl? && c[k].args[j].id == id;
      if k < |c1| { assert c1[k] == c[k]; } else { assert c2[k - |c1|] == c[k]; }
    }
  }

  /** The piece defines the labels D, each once, and misses exactly the labels M it uses. */
  ghost predicate Shape(code: seq<Line>, D: set<nat>, M: set<nat>) {
    Defs(code) == D && Uses(code) - Defs(code) == M && DefinedOnce(code)
  }

  lemma ShapeConcat(c1: seq<Line>, D1: set<nat>, M1: set<nat>, c2: seq<Line>, D2: set<nat>, M2: set<nat>)
    requires Shape(c1, D1, M1) && Shape(c2, D2, M2) && D1 !! D2
    ensures Shape(c1 + c2, D1 + D2, (M1 - D2) + (M2 - D1))
  {
    DefsConcat(c1, c2);
    UsesConcat(c1, c2);
    DefinedOnceConcat(c1, c2);
  }

  lemma ShapeLabel(id: nat)
    ensures Shape([Label(id)], {id}, {})
  {
    assert [Label(id)][0].Label?;
  }

  lemma ShapePlain(line: Line)
    requires line.Instr? && forall j :: 0 <= j < |line.args| ==> !line.args[j].Lbl?
    ensures Shape([line], {}, {})
  {
  }

  lemma ShapeBranch(id: nat, r: int)
    ensures Shape([Instr(JMPIFNOT, [Lbl(id), Reg16(r)])], {}, {id})
    ensures Shape([Instr(JMP, [Lbl(id)])], {}, {id})
  {
    var c1, c2 := [Instr(JMPIFNOT, [Lbl(id), Reg16(r)])], [Instr(JMP, [Lbl(id)])];
    assert c1[0].args[0].id == id && c2[0].args[0].id == id;
    assert Uses(c1) == {id} && Uses(c2) == {id};
  }

  /** Code without labels in front of other code. */
  lemma ShapeAfterPlain(c1: seq<Line>, c2: seq<Line>, D: set<nat>, M: set<nat>)
    requires Shape(c1, {}, {}) && Shape(c2, D, M)
    ensures Shape(c1 + c2, D, M)
  {
    hide Shape;
    ShapeConcat(c1, {}, {}, c2, D, M);
    assert {} + D == D;
    assert ({} - D) + (M - {}) == M;
  }

  lemma ShapeEmpty()
    ensures Shape([], {}, {})
  {
  }

  lemma AtomShape(args: seq<Operand>, mn: Mnemonic, used: Mask)
    requires forall j :: 0 <= j < |args| ==> !args[j].Lbl?
    ensures Shape(GenAtom(args, mn, used).code, {}, {})
  {
    var code := GenAtom(args, mn, used).code;
    if code != [] {
      ShapePlain(code[0]);
    }
  }

  /** Expressions neither define nor use labels. */
  lemma {:induction false} ExprShape(e: Expr, used: Mask)
    ensures Shape(GenExpr(e, used).code, {}, {})
  {
    hide Shape, FirstFree;
    match e
    case ENum(n) => AtomShape([Imm(n)], CPY, used);
    case EStr(s) => AtomShape([Lit(s)], CPY, used);
    case EIdent(x) => AtomShape([Lit(x), Lit("global")], LOAD, used);
    case EBin(op, l, r) =>
      var g1 := GenExpr(l, used);
      var g2 := GenExpr(r, g1.used);
      var line := Instr(OpMnemonic(op), [Reg16(g1.reg), Reg16(g2.reg)]);
      ExprShape(l, used);
      ExprShape(r, g1.used);
      ShapePlain(line);
      ShapeAfterPlain(g1.code, g2.code, {}, {});
      ShapeAfterPlain(g1.code + g2.code, [line], {}, {});
    case ENot(e1) =>
      var g := GenExpr(e1, used);
      var line := Instr(NEG, [Reg16(g.reg)]);
      ExprShape(e1, used);
      ShapePlain(line);
      ShapeAfterPlain(g.code, [line], {}, {});
  }

  lemma AssignShape(name: CStr, value: Expr, used: Mask, lbls: nat)
    ensures Shape(GenAssign(name, value, used, lbls).code, {}, {})
  {
    hide Shape, GenExpr;
    var g1 := GenExpr(EIdent(name), used);
    var g2 := GenExpr(value, g1.used);
    var line := Instr(SET, [Reg16(g2.reg), Reg16(g1.reg)]);
    ExprShape(EIdent(name), used);
    ExprShape(value, g1.used);
    ShapePlain(line);
    ShapeAfterPlain(g1.code, g2.code, {}, {});
    ShapeAfterPlain(g1.code + g2.code, [line], {}, {});
  }

  lemma CondShape(cond: Expr, falseLabel: nat, used: Mask, lbls: nat)
    requires GenCond(cond, falseLabel, used, lbls).ok
    ensures Shape(GenCond(cond, falseLabel, used, lbls).code, {}, {falseLabel})
    ensures GenCond(cond, falseLabel, used, lbls).lbls == lbls
  {
    hide Shape, GenExpr;
    var g := GenExpr(cond, used);
    ExprShape(cond, used);
    ShapeBranch(falseLabel, g.reg);
    ShapeAfterPlain(g.code, [Instr(JMPIFNOT, [Lbl(falseLabel), Reg16(g.reg)])], {}, {falseLabel});
  }

  // ----- the labels of statements -----

  /** A compiled list defines and misses only labels it has taken itself, and misses none
      exactly if all its chains are closed. */
  lemma {:induction false} StmtsShape(ss: Stmts, used: Mask, lbls: nat) returns (D: set<nat>, M: set<nat>)
    requires GenStmts(ss, used, lbls).ok
    ensures Shape(GenStmts(ss, used, lbls).code, D, M) && lbls <= GenStmts(ss, used, lbls).lbls
    ensures Within(D + M, lbls, GenStmts(ss, used, lbls).lbls)
    ensures M == {} <==> ChainsClosed(ss)
    decreases ss
  {
    hide Shape, GenStmt, StmtClosed;
    match ss
    case Nil =>
      ShapeEmpty();
      D, M := {}, {};
    case Cons(s, rest) =>
      var g := GenStmt(s, used, lbls);
      var D1, M1 := StmtShape(s, used, lbls);
      var D2, M2 := StmtsShape(rest, g.used, g.lbls);
      ShapeConcat(g.code, D1, M1, GenStmts(rest, g.used, g.lbls).code, D2, M2);
      D, M := D1 + D2, (M1 - D2) + (M2 - D1);
      Apart(D1, M1, lbls, g.lbls, D2, M2, GenStmts(rest, g.used, g.lbls).lbls);
  }

  /** Labels from separate ranges do not meet. */
  lemma Apart(D1: set<nat>, M1: set<nat>, lo: nat, mid: nat, D2: set<nat>, M2: set<nat>, hi: nat)
    requires Within(D1 + M1, lo, mid) && Within(D2 + M2, mid, hi) && lo <= mid <= hi
    ensures D1 !! D2 && M1 - D2 == M1 && M2 - D1 == M2
    ensures Within(D1 + D2 + M1 + M2, lo, hi)
  {
    forall x | x in D1 + M1 ensures x !in D2 + M2 { assert x < mid; }
    forall x | x in D1 + D2 + M1 + M2 ensures lo <= x < hi {
      assert x in D1 + M1 || x in D2 + M2;
    }
  }

  lemma {:induction false} StmtShape(s: Stmt, used: Mask, lbls: nat) returns (D: set<nat>, M: set<nat>)
    requires GenStmt(s, used, lbls).ok
    ensures Shape(GenStmt(s, used, lbls).code, D, M) && lbls <= GenStmt(s, used, lbls).lbls
    ensures Within(D + M, lbls, GenStmt(s, used, lbls).lbls)
    ensures M == {} <==> StmtClosed(s)
    decreases s
  {
    hide Shape, GenAssign, GenStmts, GenChain, GenCond, ChainsClosed, ChainClosed, Within, HasElse;
    match s
    case Assign(name, value) =>
      AssignShape(name, value, used, lbls);
      D, M := {}, {};
      WithinEmpty(lbls, GenStmt(s, used, lbls).lbls);
      AssignLabels(name, value, used, lbls);
    case If(cond, body, chain) =>
      var falseLabel := if ChainLength(chain) == 1 then lbls + 1 else lbls;
      var gc := GenCond(cond, falseLabel, used, lbls + 3);
      var gb := GenStmts(body, gc.used, gc.lbls);
      var jumpLabel := if ChainLength(chain) > 1 then lbls + 2 else lbls;
      var jump := if HasElse(chain) then [Instr(JMP, [Lbl(jumpLabel)])] else [];
      var J := if HasElse(chain) then {jumpLabel} else {};
      var ge := GenChain(chain, 1, HasElse(chain), lbls + 1, lbls + 2, lbls, gb.used, gb.lbls);
      CondShape(cond, falseLabel, used, lbls + 3);
      var Db, Mb := StmtsShape(body, gc.used, gc.lbls);
      ShapeEmpty();
      ShapeBranch(jumpLabel, 0);
      var Dc, Mc := ChainShape(chain, 1, HasElse(chain), lbls + 1, lbls + 2, lbls, gb.used, gb.lbls);
      var end := EndLabel(chain, lbls);
      ShapeLabel(end);
      IfAlgebra(chain, lbls, gb.lbls, ge.lbls, falseLabel, J, Db, Mb, Dc, Mc, end);
      ShapeConcat(gc.code, {}, {falseLabel}, gb.code, Db, Mb);
      ShapeConcat(gc.code + gb.code, Db, {falseLabel} + Mb, jump, {}, J);
      ShapeConcat(gc.code + gb.code + jump, Db, {falseLabel} + Mb + J, ge.code, Dc, Mc);
      ShapeConcat(gc.code + gb.code + jump + ge.code, Db + Dc, ({falseLabel} + Mb + J - Dc) + (Mc - Db), [Label(end)], {end}, {});
      D, M := Db + Dc + {end}, (({falseLabel} + Mb + J - Dc) + (Mc - Db)) - {end};
  }

  lemma WithinEmpty(lo: nat, hi: nat)
    ensures Within({} + {}, lo, hi)
  {
  }

  lemma AssignLabels(name: CStr, value: Expr, used: Mask, lbls: nat)
    ensures GenStmt(Assign(name, value), used, lbls).lbls == lbls
  {
  }

  /** What a chain may define and miss: its entry labels and its own. */
  ghost predicate ChainLabels(c: Chain, lbl1: nat, lbl2: nat, lbl: nat, lo: nat, hi: nat, D: set<nat>, M: set<nat>) {
    && lo <= hi
    && Within(D - {lbl, lbl1}, lo, hi) && Within(M - {lbl2}, lo, hi)
    && (lbl in D <==> c.Elif?) && (lbl1 in D <==> HasElse(c)) && (lbl2 in M ==> c.Elif?)
    && (M - {lbl2} == {} <==> ChainClosed(c) && (c.Elif? ==> HasElse(c)))
  }

  /** The labels of an `if` put together from those of its parts. */
  lemma IfAlgebra(chain: Chain, l: nat, mid: nat, hi: nat, falseLabel: nat, J: set<nat>,
                  Db: set<nat>, Mb: set<nat>, Dc: set<nat>, Mc: set<nat>, end: nat)
    requires Within(Db + Mb, l + 3, mid) && l + 3 <= mid
    requires ChainLabels(chain, l + 1, l + 2, l, mid, hi, Dc, Mc)
    requires falseLabel == if ChainLength(chain) == 1 then l + 1 else l
    requires J == if HasElse(chain) then {if ChainLength(chain) > 1 then l + 2 else l} else {}
    requires end == EndLabel(chain, l)
    ensures {} !! Db && ({falseLabel} - Db) + (Mb - {}) == {falseLabel} + Mb && {} + Db == Db
    ensures Db !! {} && (({falseLabel} + Mb) - {}) + (J - Db) == {falseLabel} + Mb + J && Db + {} == Db
    ensures Db !! Dc && Db + Dc !! {end}
    ensures var M := (({falseLabel} + Mb + J - Dc) + (Mc - Db)) - {end};
            M + ({} - (Db + Dc)) == M && Within(Db + Dc + {end} + M, l, hi) &&
            (M == {} <==> Mb == {} && ChainClosed(chain) && (chain.Elif? ==> HasElse(chain)))
  {
    hide ChainClosed;
    LongerChain(chain);
    var M := (({falseLabel} + Mb + J - Dc) + (Mc - Db)) - {end};
    forall x | x in Db ensures x !in Dc && x != end && x !in J && x != falseLabel {
      assert x in Db + Mb;
      assert x in Dc ==> x in Dc - {l, l + 1};
    }
    assert end !in Dc by {
      assert end in Dc ==> end in Dc - {l, l + 1} || end == l;
    }
    forall x | x in Mb ensures x in M && l <= x < hi {
      assert x in Db + Mb;
      assert x in Dc ==> x in Dc - {l, l + 1};
    }
    forall x | x in Mc - {l + 2} ensures x in M && l <= x < hi {
      assert x in Db ==> x in Db + Mb;
    }
    assert J - {end} == {};
    assert falseLabel !in Mc by {
      assert falseLabel in Mc ==> falseLabel in Mc - {l + 2};
    }
    assert falseLabel in M ==> chain.Elif? && !HasElse(chain);
    forall x | x in Db + Dc + {end} + M ensures l <= x < hi {
      assert x in Db ==> x in Db + Mb;
      assert x in Dc ==> x in Dc - {l, l + 1} || x == l || x == l + 1;
    }
  }

  lemma {:induction false} ChainShape(c: Chain, i: nat, hasElse: bool, lbl1: nat, lbl2: nat, lbl: nat, used: Mask, lbls: nat)
    returns (D: set<nat>, M: set<nat>)
    requires hasElse == HasElse(c) && lbl != lbl1 && lbl != lbl2 && lbl1 != lbl2 && lbl < lbls && lbl1 < lbls && lbl2 < lbls
    requires GenChain(c, i, hasElse, lbl1, lbl2, lbl, used, lbls).ok
    ensures Shape(GenChain(c, i, hasElse, lbl1, lbl2, lbl, used, lbls).code, D, M)
    ensures ChainLabels(c, lbl1, lbl2, lbl, lbls, GenChain(c, i, hasElse, lbl1, lbl2, lbl, used, lbls).lbls, D, M)
    decreases c
  {
    hide Shape, GenStmts, GenCond, ChainsClosed;
    match c
    case End =>
      ShapeEmpty();
      D, M := {}, {};
    case Else(body) =>
      var gb := GenStmts(body, used, lbls);
      var Db, Mb := StmtsShape(body, used, lbls);
      ShapeLabel(lbl1);
      ElseAlgebra(lbl1, lbl2, lbl, lbls, gb.lbls, Db, Mb);
      ShapeConcat([Label(lbl1)], {lbl1}, {}, gb.code, Db, Mb);
      D, M := {lbl1} + Db, Mb;
    case Elif(cond, body, rest) =>
      D, M := ElifShape(c, i, lbl1, lbl2, lbl, used, lbls);
  }

  lemma ElseAlgebra(lbl1: nat, lbl2: nat, lbl: nat, lo: nat, hi: nat, Db: set<nat>, Mb: set<nat>)
    requires Within(Db + Mb, lo, hi) && lbl < lo && lbl1 < lo && lbl2 < lo && lbl != lbl1
    ensures {lbl1} !! Db && ({} - Db) + (Mb - {lbl1}) == Mb
    ensures Within({lbl1} + Db - {lbl, lbl1}, lo, hi) && Within(Mb - {lbl2}, lo, hi)
    ensures lbl !in {lbl1} + Db && lbl2 !in Mb && Mb - {lbl2} == Mb
  {
    forall x | x in Db ensures lo <= x < hi { assert x in Db + Mb; }
    forall x | x in Mb ensures lo <= x < hi { assert x in Db + Mb; }
  }

  lemma {:induction false} ElifShape(c: Chain, i: nat, lbl1: nat, lbl2: nat, lbl: nat, used: Mask, lbls: nat)
    returns (D: set<nat>, M: set<nat>)
    requires c.Elif? && lbl != lbl1 && lbl != lbl2 && lbl1 != lbl2 && lbl < lbls && lbl1 < lbls && lbl2 < lbls
    requires GenChain(c, i, HasElse(c), lbl1, lbl2, lbl, used, lbls).ok
    ensures Shape(GenChain(c, i, HasElse(c), lbl1, lbl2, lbl, used, lbls).code, D, M)
    ensures ChainLabels(c, lbl1, lbl2, lbl, lbls, GenChain(c, i, HasElse(c), lbl1, lbl2, lbl, used, lbls).lbls, D, M)
    decreases c, 0
  {
    hide Shape, GenStmts, GenCond, ChainsClosed, ChainLabels, Within;
    var Elif(cond, body, rest) := c;
    var hasElse := HasElse(c);
    var falseLabel := if rest.Elif? || !hasElse then lbls else lbl1;
    var gc := GenCond(cond, falseLabel, used, lbls + 1);
    var gb := GenStmts(body, gc.used, gc.lbls);
    var gr := GenChain(rest, i + 1, hasElse, lbl1, lbl2, lbls, gb.used - {i}, gb.lbls);
    CondShape(cond, falseLabel, used, lbls + 1);
    var Db, Mb := StmtsShape(body, gc.used, gc.lbls);
    var Dr, Mr := ChainShape(rest, i + 1, hasElse, lbl1, lbl2, lbls, gb.used - {i}, gb.lbls);
    ElifAlgebra(c, lbl1, lbl2, lbl, lbls, gb.lbls, gr.lbls, falseLabel, Db, Mb, Dr, Mr);
    ShapeLabel(lbl);
    ShapeBranch(lbl2, 0);
    var code := [Label(lbl)] + gc.code;
    ShapeConcat([Label(lbl)], {lbl}, {}, gc.code, {}, {falseLabel});
    ShapeConcat(code, {lbl}, {falseLabel}, gb.code, Db, Mb);
    ShapeConcat(code + gb.code, {lbl} + Db, {falseLabel} + Mb, [Instr(JMP, [Lbl(lbl2)])], {}, {lbl2});
    ShapeConcat(code + gb.code + [Instr(JMP, [Lbl(lbl2)])], {lbl} + Db, {falseLabel} + Mb + {lbl2}, gr.code, Dr, Mr);
    D, M := {lbl} + Db + Dr, ({falseLabel} + Mb + {lbl2} - Dr) + (Mr - ({lbl} + Db));
  }

  lemma ElifAlgebra(c: Chain, lbl1: nat, lbl2: nat, lbl: nat, l: nat, mid: nat, hi: nat, falseLabel: nat,
                    Db: set<nat>, Mb: set<nat>, Dr: set<nat>, Mr: set<nat>)
    requires c.Elif? && lbl != lbl1 && lbl != lbl2 && lbl1 != lbl2 && lbl < l && lbl1 < l && lbl2 < l
    requires Within(Db + Mb, l + 1, mid) && l + 1 <= mid && (Mb == {} <==> ChainsClosed(c.body))
    requires ChainLabels(c.rest, lbl1, lbl2, l, mid, hi, Dr, Mr)
    requires falseLabel == if c.rest.Elif? || !HasElse(c) then l else lbl1
    ensures {lbl} + {} == {lbl} && ({} - {}) + ({falseLabel} - {lbl}) == {falseLabel}
    ensures {lbl} !! Db && ({falseLabel} - Db) + (Mb - {lbl}) == {falseLabel} + Mb
    ensures {lbl} + Db + {} == {lbl} + Db
    ensures ({falseLabel} + Mb - {}) + ({lbl2} - ({lbl} + Db)) == {falseLabel} + Mb + {lbl2}
    ensures {lbl} + Db !! Dr
    ensures ChainLabels(c, lbl1, lbl2, lbl, l, hi, {lbl} + Db + Dr,
                        ({falseLabel} + Mb + {lbl2} - Dr) + (Mr - ({lbl} + Db)))
  {
    hide ChainsClosed;
    var D, M := {lbl} + Db + Dr, ({falseLabel} + Mb + {lbl2} - Dr) + (Mr - ({lbl} + Db));
    assert HasElse(c) == HasElse(c.rest);
    forall x | x in Db + Mb ensures x !in Dr && l < x < mid {
      assert x in Dr ==> x in Dr - {l, lbl1};
    }
    forall x | x in Dr ensures x == l || x == lbl1 || mid <= x < hi {
      assert x in Dr - {l, lbl1} || x == l || x == lbl1;
    }
    forall x | x in Mr - {lbl2} ensures x in M - {lbl2} && mid <= x < hi {
    }
    assert falseLabel !in Mr by {
      assert falseLabel in Mr ==> falseLabel in Mr - {lbl2};
    }
    assert falseLabel in M ==> falseLabel == l;
    assert falseLabel in M <==> c.rest == End;
    forall x | x in M - {lbl2} ensures l <= x < hi {
      assert x in Db + Mb || x == falseLabel || x in Mr - {lbl2};
    }
    forall x | x in D - {lbl, lbl1} ensures l <= x < hi {
      assert x in Db + Mb || x in Dr;
    }
    assert forall x :: x in Mb ==> x in M - {lbl2};
    assert M - {lbl2} == {} <==> Mb == {} && Mr - {lbl2} == {} && c.rest != End;
  }

  // ----- registers over a program -----

  /** Every expression fits into eight free registers; the left side of an assignment
      takes one. */
  predicate FitsStmts(ss: Stmts) {
    match ss
    case Nil => true
    case Cons(s, rest) => FitsStmt(s) && FitsStmts(rest)
  }

  predicate FitsStmt(s: Stmt) {
    match s
    case Assign(_, value) => 1 + Need(value) <= 8
    case If(cond, body, chain) => Need(cond) <= 8 && FitsStmts(body) && FitsChain(chain)
  }

  predicate FitsChain(c: Chain) {
    match c
    case End => true
    case Else(body) => FitsStmts(body)
    case Elif(cond, body, rest) => Need(cond) <= 8 && FitsStmts(body) && FitsChain(rest)
  }

  lemma AssignFits(name: CStr, value: Expr, lbls: nat)
    ensures GenAssign(name, value, {}, lbls).ok <==> 1 + Need(value) <= 8
    ensures GenAssign(name, value, {}, lbls).ok ==> GenAssign(name, value, {}, lbls).used == {}
  {
    hide GenExpr;
    var g1 := GenExpr(EIdent(name), {});
    RegisterBound(EIdent(name), {});
    RegisterBound(value, g1.used);
    assert g1.reg >= 0 by { assert Need(EIdent(name)) == 1; }
    assert |g1.used| == 1;
  }

  lemma CondFits(cond: Expr, falseLabel: nat, lbls: nat)
    ensures GenCond(cond, falseLabel, {}, lbls).ok <==> Need(cond) <= 8
    ensures GenCond(cond, falseLabel, {}, lbls).ok ==> GenCond(cond, falseLabel, {}, lbls).used == {}
  {
    RegisterBound(cond, {});
  }

  /** Outside `with` no register is marked between statements, and generating a program
      succeeds exactly if its expressions fit. */
  lemma {:induction false} ProgramFits(ss: Stmts, lbls: nat)
    ensures GenStmts(ss, {}, lbls).ok <==> FitsStmts(ss)
    ensures GenStmts(ss, {}, lbls).ok ==> GenStmts(ss, {}, lbls).used == {}
    decreases ss
  {
    hide GenStmt;
    match ss
    case Nil =>
    case Cons(s, rest) =>
      StmtFits(s, lbls);
      ProgramFits(rest, GenStmt(s, {}, lbls).lbls);
  }

  lemma {:induction false} StmtFits(s: Stmt, lbls: nat)
    ensures GenStmt(s, {}, lbls).ok <==> FitsStmt(s)
    ensures GenStmt(s, {}, lbls).ok ==> GenStmt(s, {}, lbls).used == {}
    decreases s
  {
    hide GenAssign, GenStmts, GenChain, GenCond;
    match s
    case Assign(name, value) => AssignFits(name, value, lbls);
    case If(cond, body, chain) =>
      var falseLabel := if ChainLength(chain) == 1 then lbls + 1 else lbls;
      var gc := GenCond(cond, falseLabel, {}, lbls + 3);
      CondFits(cond, falseLabel, lbls + 3);
      ProgramFits(body, gc.lbls);
      ChainFits(chain, 1, HasElse(chain), lbls + 1, lbls + 2, lbls, GenStmts(body, {}, gc.lbls).lbls);
  }

  lemma {:induction false} ChainFits(c: Chain, i: nat, hasElse: bool, lbl1: nat, lbl2: nat, lbl: nat, lbls: nat)
    ensures GenChain(c, i, hasElse, lbl1, lbl2, lbl, {}, lbls).ok <==> FitsChain(c)
    ensures GenChain(c, i, hasElse, lbl1, lbl2, lbl, {}, lbls).ok ==>
              GenChain(c, i, hasElse, lbl1, lbl2, lbl, {}, lbls).used == {}
    decreases c
  {
    hide GenStmts, GenCond;
    match c
    case End =>
    case Else(body) => ProgramFits(body, lbls);
    case Elif(cond, body, rest) =>
      var falseLabel := if rest.Elif? || !hasElse then lbls else lbl1;
      var gc := GenCond(cond, falseLabel, {}, lbls + 1);
      CondFits(cond, falseLabel, lbls + 1);
      ProgramFits(body, gc.lbls);
      assert {} - {i} == {};
      ChainFits(rest, i + 1, hasElse, lbl1, lbl2, lbls, GenStmts(body, {}, gc.lbls).lbls);
  }

  // ----- whole programs -----

  /** The compiled program of a statement list. */
  function Compiled(ss: Stmts): seq<Line> { GenStmts(ss, {}, 0).code }

  /** Every label is defined once; no jump lacks its label exactly if every `elseif` chain
      ends in `else`. */
  lemma LabelsDefined(ss: Stmts)
    requires FitsStmts(ss)
    ensures DefinedOnce(Compiled(ss))
    ensures Uses(Compiled(ss)) <= Defs(Compiled(ss)) <==> ChainsClosed(ss)
  {
    ProgramFits(ss, 0);
    var D, M := StmtsShape(ss, {}, 0);
  }

  // ----- what the meaning of an expression is -----

  /** Trees over numbers. */
  predicate Numeric(e: Expr) {
    match e
    case ENum(_) => true
    case EBin(_, l, r) => Numeric(l) && Numeric(r)
    case ENot(e1) => Numeric(e1)
    case _ => false
  }

  function InRange(n: int): Result<int> { if IsInt32(n) then Ok(n) else Stop(Error) }

  /** The whole number of times y goes into x, up to a remainder with the sign of x. */
  ghost function Quotient(x: int, y: int): (q: int)
    requires y != 0
    ensures IsQuotient(x, y, q)
  {
    TruncDivCutsOff(x, y);
    var q :| IsQuotient(x, y, q);
    q
  }

  /** An operation in integer arithmetic; it has no result outside 32 bits. */
  ghost function ValueOf(op: BinOp, x: int, y: int): Result<int> {
    match op
    case Add => InRange(x + y)
    case Sub => InRange(x - y)
    case Mul => InRange(x * y)
    case Div => if y == 0 then Stop(Trap) else InRange(Quotient(x, y))
    case Eq => Ok(if x == y then 1 else 0)
    case Ne => Ok(if x != y then 1 else 0)
    case And => Ok(if x != 0 && y != 0 then 1 else 0)
    case Or => Ok(if x != 0 || y != 0 then 1 else 0)
  }

  /** The value of a tree over numbers in integer arithmetic. */
  ghost function Value(e: Expr): Result<int>
    requires Numeric(e)
  {
    match e
    case ENum(n) => Ok(n)
    case ENot(e1) =>
      (match Value(e1)
       case Stop(reason) => Stop(reason)
       case Ok(x) => Ok(if x == 0 then 1 else 0))
    case EBin(op, l, r) =>
      match (Value(l), Value(r))
      case (Ok(x), Ok(y)) => ValueOf(op, x, y)
      case _ => Stop(Error)
  }

  /** Once CPY stores the type, a tree over numbers whose intermediate values all stay
      within 32 bits (and whose divisors are not 0) means its value. */
  lemma {:induction false} EvalIsValue(b: Build, e: Expr, cfg: Config)
    requires b.cpyTags && Numeric(e) && Value(e).Ok?
    ensures Eval(b, e, cfg) == Ok(Computing(Num(Value(e).value), cfg))
  {
    hide Apply, ValueOf;
    match e
    case ENum(_) =>
    case ENot(e1) => EvalIsValue(b, e1, cfg);
    case EBin(op, l, r) =>
      EvalIsValue(b, l, cfg);
      EvalIsValue(b, r, cfg);
      ApplyNumbers(b, op, Value(l).value, Value(r).value, cfg);
  }

  lemma ApplyNumbers(b: Build, op: BinOp, x: int, y: int, cfg: Config)
    requires ValueOf(op, x, y).Ok?
    ensures Apply(b, op, Num(x), Num(y), cfg) == Ok(Num(ValueOf(op, x, y).value))
  {
    if op == Div {
      TruncDivCutsOff(x, y);
      QuotientUnique(x, y, Quotient(x, y), TruncDiv(x, y));
      QuotientByMinusOne(x, y);
    }
  }

  lemma QuotientByMinusOne(x: int, y: int)
    ensures y == -1 ==> TruncDiv(x, y) == -x
  {
  }
}
