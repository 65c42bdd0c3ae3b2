/** From the parser's tokens to the code generator's statements, and on to the run. */
module CfgSource {
  // Which token sequences stand for which expressions and statements, in the trees the
  // parser makes of them.

  import opened Wrappers
  import opened CfgText
  import opened CfgMachine
  import opened CfgCodegen
  import opened CfgStatements
  import opened CfgLabels
  import opened CfgReading
  import opened CfgTrees
  import opened CfgVm
  import CfgAssembly
  import CfgLaws
  import P = CfgParser

  // ----- expressions -----

  function OperatorOf(op: BinOp): (t: P.Type)
    ensures OpOf(t) == Some(op) && P.IsOperator(t) && t != P.NOT && 30 <= P.Prec(t) <= 80
  {
    match op
    case Add => P.PLUS
    case Sub => P.MINUS
    case Mul => P.MULT
    case Div => P.DIV
    case Eq => P.EQ
    case Ne => P.NOTEQ
    case And => P.AND
    case Or => P.OR
  }

  /** The lexemes of an expression; the language has no parentheses to group with. */
  function Spell(e: Expr): seq<P.Lexeme> {
    match e
    case ENum(n) => [P.Lexeme(P.NUM, P.Number(n))]
    case EStr(s) => [P.Lexeme(P.STRING, P.Text(s))]
    case EIdent(name) => [P.Lexeme(P.IDENT, P.Text(name))]
    case EBin(op, l, r) => Spell(l) + [P.Lexeme(OperatorOf(op), P.NoData)] + Spell(r)
    case ENot(e1) => [P.Lexeme(P.NOT, P.NoData)] + Spell(e1)
  }

  function Tight(e: Expr): (p: int)
    ensures 30 <= p <= 100
  {
    match e
    case EBin(op, _, _) => P.Prec(OperatorOf(op))
    case ENot(_) => P.Prec(P.NOT)
    case _ => 100
  }

  /** The expressions that can be written: left operands bind strictly tighter than their
      operator, right ones at least as tight, and `!` comes first. */
  predicate Spellable(e: Expr, first: bool) {
    match e
    case EBin(op, l, r) =>
      Spellable(l, first) && Spellable(r, false) && Tight(l) > Tight(e) && Tight(r) >= Tight(e)
    case ENot(e1) => first && Spellable(e1, false) && Tight(e1) >= Tight(e)
    case _ => true
  }

  // ----- an expression that can be written is read back -----

  ghost predicate Prepared(toks: seq<P.Token>) { forall k :: 0 <= k < |toks| ==> toks[k].prec == P.Prec(toks[k].typ) }

  lemma WholePre(o: P.Token, r: P.Tree, c: seq<P.Token>)
    requires P.Operator(o) && P.Whole(r, c, o.prec)
    ensures P.Whole(P.Pre(o, r), [o] + c, o.prec)
  {
    hide P.Prec;
  }

  lemma SplitLexemes(toks: seq<P.Token>, a': seq<P.Lexeme>, o': P.Lexeme, c': seq<P.Lexeme>)
    returns (a: seq<P.Token>, o: P.Token, c: seq<P.Token>)
    requires P.Lexemes(toks) == a' + [o'] + c' && Prepared(toks)
    ensures toks == a + [o] + c && P.Lexemes(a) == a' && P.Lexemes(c) == c' && Prepared(a) && Prepared(c)
    ensures o.typ == o'.typ && o.data == o'.data && o.prec == P.Prec(o.typ)
  {
    hide Prepared, P.Prec, P.Lexemes;
    var n, s := |a'|, a' + [o'] + c';
    assert |toks| == |s| && s[n] == o' && s[..n] == a' && s[n + 1..] == c';
    a, o, c := toks[0..n], toks[n], toks[n + 1..|toks|];
    LexemesSlice(toks, 0, n);
    LexemesSlice(toks, n + 1, |toks|);
    assert s[0..n] == a' && s[n + 1..|s|] == c';
    PreparedSlice(toks, 0, n);
    PreparedSlice(toks, n + 1, |toks|);
    AtPrepared(toks, n);
    assert P.Lexemes(toks)[n] == o';
  }

  lemma LexemesSlice(toks: seq<P.Token>, lo: nat, hi: nat)
    requires lo <= hi <= |toks|
    ensures P.Lexemes(toks[lo..hi]) == P.Lexemes(toks)[lo..hi]
  {
  }

  lemma PreparedSlice(toks: seq<P.Token>, lo: nat, hi: nat)
    requires lo <= hi <= |toks| && Prepared(toks)
    ensures Prepared(toks[lo..hi])
  {
    hide P.Prec;
  }

  /** The tree of the tokens of e. */
  ghost predicate TreeOfExpr(u: P.Tree, toks: seq<P.Token>, e: Expr) { P.Whole(u, toks, Tight(e)) && ExprOf(u) == Some(e) }

  /** The ordered tree of a written expression. */
  lemma {:induction false} TreeFor(e: Expr, first: bool, toks: seq<P.Token>) returns (u: P.Tree)
    requires Spellable(e, first) && P.Lexemes(toks) == Spell(e) && Prepared(toks)
    ensures TreeOfExpr(u, toks, e)
    decreases e
  {
    hide TreeOfExpr, Prepared, P.Prec, Tight, OperatorOf;
    match e
    case EBin(op, l, r) =>
      var a, o, c := SplitLexemes(toks, Spell(l), P.Lexeme(OperatorOf(op), P.NoData), Spell(r));
      var ul := TreeFor(l, first, a);
      var ur := TreeFor(r, false, c);
      u := BinTree(op, l, r, o, ul, a, ur, c);
    case ENot(e1) =>
      var o, c := FirstLexeme(toks, P.Lexeme(P.NOT, P.NoData), Spell(e1));
      var ur := TreeFor(e1, false, c);
      u := PreTree(e1, o, ur, c);
    case _ => u := AtomTree(e, toks);
  }

  lemma FirstLexeme(toks: seq<P.Token>, o': P.Lexeme, c': seq<P.Lexeme>) returns (o: P.Token, c: seq<P.Token>)
    requires P.Lexemes(toks) == [o'] + c' && Prepared(toks)
    ensures toks == [o] + c && P.Lexemes(c) == c' && Prepared(c)
    ensures o.typ == o'.typ && o.data == o'.data && o.prec == P.Prec(o.typ)
  {
    hide P.Prec, Prepared;
    assert [] + [o'] + c' == [o'] + c';
    var a;
    a, o, c := SplitLexemes(toks, [], o', c');
    assert a == [] by { assert |P.Lexemes(a)| == 0; }
    assert [] + [o] + c == [o] + c;
  }

  lemma AtomTree(e: Expr, toks: seq<P.Token>) returns (u: P.Tree)
    requires !e.EBin? && !e.ENot? && P.Lexemes(toks) == Spell(e) && Prepared(toks)
    ensures TreeOfExpr(u, toks, e)
  {
    hide P.Whole, Prepared;
    assert P.Lexemes(toks)[0] == Spell(e)[0];
    assert toks == [toks[0]];
    AtPrepared(toks, 0);
    P.WholeLeaf(toks[0]);
    u := P.Leaf(toks[0]);
  }

  lemma BinTree(op: BinOp, l: Expr, r: Expr, o: P.Token, ul: P.Tree, a: seq<P.Token>, ur: P.Tree, c: seq<P.Token>)
    returns (u: P.Tree)
    requires o.typ == OperatorOf(op) && o.prec == P.Prec(o.typ)
    requires Tight(l) > Tight(EBin(op, l, r)) && Tight(r) >= Tight(EBin(op, l, r))
    requires TreeOfExpr(ul, a, l) && TreeOfExpr(ur, c, r)
    ensures TreeOfExpr(u, a + [o] + c, EBin(op, l, r))
  {
    hide P.Whole, P.Prec, P.IsOperator;
    P.Looser(ul, a, Tight(l), o.prec + 1);
    P.Looser(ur, c, Tight(r), o.prec);
    P.WholeBin(o, ul, a, ur, c);
    u := P.Bin(o, ul, ur);
  }

  lemma PreTree(e: Expr, o: P.Token, ur: P.Tree, c: seq<P.Token>) returns (u: P.Tree)
    requires o.typ == P.NOT && o.prec == P.Prec(o.typ) && Tight(e) >= Tight(ENot(e))
    requires TreeOfExpr(ur, c, e)
    ensures TreeOfExpr(u, [o] + c, ENot(e))
  {
    hide P.Whole, P.Prec;
    P.Looser(ur, c, Tight(e), o.prec);
    WholePre(o, ur, c);
    u := P.Pre(o, ur);
  }

  lemma AtPrepared(toks: seq<P.Token>, k: nat)
    requires Prepared(toks) && k < |toks|
    ensures toks[k].prec == P.Prec(toks[k].typ)
  {
  }

  lemma AlternatingConcat(a: seq<P.Lexeme>, c: seq<P.Lexeme>)
    requires P.Alternating(P.TypesOf(a)) && P.Alternating(P.TypesOf(c)) && a != [] && c != []
    requires P.IsOperator(a[|a| - 1].typ) != P.IsOperator(c[0].typ)
    ensures P.Alternating(P.TypesOf(a + c))
  {
    hide P.IsOperator;
    var t := P.TypesOf(a + c);
    forall k | 0 < k < |t| ensures P.IsOperator(t[k - 1]) != P.IsOperator(t[k]) {
      if k < |a| {
        assert t[k] == P.TypesOf(a)[k] && t[k - 1] == P.TypesOf(a)[k - 1];
      } else if k > |a| {
        assert t[k] == P.TypesOf(c)[k - |a|] && t[k - 1] == P.TypesOf(c)[k - |a| - 1];
      }
    }
  }

  /** Alternating, with an atom at the end and, unless first, one at the start. */
  predicate Between(s: seq<P.Lexeme>, first: bool) {
    s != [] && P.Alternating(P.TypesOf(s)) && !P.IsOperator(s[|s| - 1].typ) && (!first ==> !P.IsOperator(s[0].typ))
  }

  lemma {:induction false} SpellAlternates(e: Expr, first: bool)
    requires Spellable(e, first)
    ensures Between(Spell(e), first)
    decreases e
  {
    hide Between, P.Prec, Tight, OperatorOf;
    match e
    case EBin(op, l, r) =>
      SpellAlternates(l, first);
      SpellAlternates(r, false);
      BetweenOp(Spell(l), P.Lexeme(OperatorOf(op), P.NoData), Spell(r), first);
    case ENot(e1) =>
      SpellAlternates(e1, false);
      BetweenNot(Spell(e1));
    case _ => BetweenAtom(e, first);
  }

  lemma BetweenOp(a: seq<P.Lexeme>, o: P.Lexeme, c: seq<P.Lexeme>, first: bool)
    requires Between(a, first) && Between(c, false) && P.IsOperator(o.typ)
    ensures Between(a + [o] + c, first)
  {
    hide P.Alternating, P.IsOperator;
    OneAlternates(o);
    AlternatingConcat(a, [o]);
    AlternatingConcat(a + [o], c);
  }

  lemma BetweenNot(c: seq<P.Lexeme>)
    requires Between(c, false)
    ensures Between([P.Lexeme(P.NOT, P.NoData)] + c, true)
  {
    hide P.Alternating;
    OneAlternates(P.Lexeme(P.NOT, P.NoData));
    AlternatingConcat([P.Lexeme(P.NOT, P.NoData)], c);
  }

  lemma BetweenAtom(e: Expr, first: bool)
    requires !e.EBin? && !e.ENot?
    ensures Between(Spell(e), first)
  {
    hide P.Alternating;
    OneAlternates(Spell(e)[0]);
  }

  lemma OneAlternates(x: P.Lexeme)
    ensures P.Alternating(P.TypesOf([x]))
  {
  }

  lemma FreshPrepared(toks: seq<P.Token>)
    requires P.Fresh(toks)
    ensures Prepared(toks)
  {
  }

  /** Parsing the tokens of an expression gives the expression. */
  lemma SpelledParsed(toks: seq<P.Token>, e: Expr)
    requires P.Fresh(toks) && P.Lexemes(toks) == Spell(e) && Spellable(e, true)
    ensures ExprOf(P.Build(toks)) == Some(e)
  {
    hide P.Build, P.Fresh, P.Alternating, Spell, Spellable, P.Complete, P.Typed, P.Ordered, P.Inorder, ExprOf;
    FreshPrepared(toks);
    var u := TreeFor(e, true, toks);
    SpellAlternates(e, true);
    P.BuildUnique(toks, u);
  }

  // ----- and nothing else is read as it -----

  /** Tokens that alternate, as the lexer returns them, with `!` at most at the start. */
  ghost predicate Regular(toks: seq<P.Token>, first: bool) {
    && toks != [] && P.Alternating(P.Types(toks)) && (!first ==> !P.IsOperator(toks[0].typ))
    && (forall k :: 0 <= k < |toks| && P.IsOperator(toks[k].typ) ==> toks[k].data == P.NoData)
    && (forall k :: 0 < k < |toks| ==> toks[k].typ != P.NOT)
  }

  lemma RegularAlternates(toks: seq<P.Token>, first: bool)
    requires Regular(toks, first)
    ensures P.Alternating(P.Types(toks))
  {
  }

  lemma RegularPrefix(s: seq<P.Token>, n: nat, first: bool)
    requires Regular(s, first) && 0 < n <= |s|
    ensures Regular(s[..n], first)
  {
    hide P.IsOperator;
    forall k | 0 < k < n ensures P.IsOperator(P.Types(s[..n])[k - 1]) != P.IsOperator(P.Types(s[..n])[k]) {
      assert P.Types(s)[k] == P.Types(s[..n])[k] && P.Types(s)[k - 1] == P.Types(s[..n])[k - 1];
    }
  }

  /** Behind an operator. */
  lemma RegularSuffix(s: seq<P.Token>, n: nat, first: bool)
    requires Regular(s, first) && n + 1 < |s| && P.IsOperator(s[n].typ)
    ensures Regular(s[n + 1..], false)
  {
    hide P.IsOperator;
    var c, m := s[n + 1..], n + 1;
    forall k | 0 < k < |c| ensures P.IsOperator(P.Types(c)[k - 1]) != P.IsOperator(P.Types(c)[k]) {
      assert P.Types(s)[m + k] == P.Types(c)[k] && P.Types(s)[m + k - 1] == P.Types(c)[k - 1];
    }
    assert P.Types(s)[n] == s[n].typ && P.Types(s)[n + 1] == c[0].typ;
  }

  lemma RegularParts(a: seq<P.Token>, o: P.Token, c: seq<P.Token>, first: bool)
    requires Regular(a + [o] + c, first) && c != [] && P.IsOperator(o.typ)
    ensures Regular(c, false) && o.data == P.NoData
    ensures a != [] ==> Regular(a, first)
    ensures a == [] ==> first
  {
    var s := a + [o] + c;
    assert s[|a|] == o && s[..|a|] == a && s[|a| + 1..] == c;
    RegularSuffix(s, |a|, first);
    if a != [] {
      RegularPrefix(s, |a|, first);
    }
  }

  lemma LexemesConcat(a: seq<P.Token>, c: seq<P.Token>)
    ensures P.Lexemes(a + c) == P.Lexemes(a) + P.Lexemes(c)
  {
  }

  /** What is read from a tree is what its tokens spell. */
  ghost predicate Back(t: P.Tree, first: bool) {
    match ExprOf(t)
    case None => true
    case Some(e) =>
      P.Lexemes(P.Inorder(t)) == Spell(e) && Spellable(e, first) && !t.Nil? && Tight(e) == t.tok.prec
  }

  lemma {:induction false} SpelledBack(t: P.Tree, first: bool)
    requires P.Typed(t) && P.Ordered(t) && ExprOf(t).Some? && Regular(P.Inorder(t), first)
    ensures Back(t, first)
    decreases t
  {
    hide Regular, P.Prec, Back, P.AllAtLeast;
    match t
    case Leaf(tok) => LeafBack(tok);
    case Pre(tok, r) =>
      PreParts(t, first);
      SpelledBack(r, false);
      PreBack(t, first);
    case Bin(tok, l, r) =>
      BinParts(t, first);
      SpelledBack(l, first);
      SpelledBack(r, false);
      BinBack(t, first);
  }

  lemma PreParts(t: P.Tree, first: bool)
    requires t.Pre? && P.Operator(t.tok) && ExprOf(t).Some? && Regular(P.Inorder(t), first)
    ensures first && t.tok.typ == P.NOT && t.tok.data == P.NoData && ExprOf(t.r).Some? && Regular(P.Inorder(t.r), false)
  {
    hide Regular, P.Prec, P.IsOperator;
    NotEmpty(t.r);
    assert [] + [t.tok] + P.Inorder(t.r) == P.Inorder(t);
    RegularParts([], t.tok, P.Inorder(t.r), first);
  }

  lemma PreBack(t: P.Tree, first: bool)
    requires t.Pre? && P.Operator(t.tok) && P.AllAtLeast(t.r, t.tok.prec)
    requires first && t.tok.typ == P.NOT && t.tok.data == P.NoData && ExprOf(t.r).Some? && Back(t.r, false)
    ensures Back(t, first)
  {
    hide P.IsOperator, P.AllAtLeast;
    LexemesConcat([t.tok], P.Inorder(t.r));
    RootTight(t.r, t.tok.prec);
  }

  lemma BinParts(t: P.Tree, first: bool)
    requires t.Bin? && P.Operator(t.tok) && ExprOf(t).Some? && Regular(P.Inorder(t), first)
    ensures t.tok.typ != P.NOT && t.tok.data == P.NoData
    ensures ExprOf(t.l).Some? && ExprOf(t.r).Some? && OpOf(t.tok.typ).Some?
    ensures Regular(P.Inorder(t.l), first) && Regular(P.Inorder(t.r), false)
  {
    hide Regular, P.Prec, P.IsOperator, OpOf;
    NotEmpty(t.l);
    NotEmpty(t.r);
    assert P.Inorder(t) == P.Inorder(t.l) + [t.tok] + P.Inorder(t.r);
    NotInside(P.Inorder(t.l), t.tok, P.Inorder(t.r), first);
    RegularParts(P.Inorder(t.l), t.tok, P.Inorder(t.r), first);
  }

  lemma NotInside(a: seq<P.Token>, o: P.Token, c: seq<P.Token>, first: bool)
    requires Regular(a + [o] + c, first) && a != []
    ensures o.typ != P.NOT
  {
    assert (a + [o] + c)[|a|] == o;
  }

  lemma BinBack(t: P.Tree, first: bool)
    requires t.Bin? && P.Operator(t.tok) && P.AllAtLeast(t.l, t.tok.prec + 1) && P.AllAtLeast(t.r, t.tok.prec)
    requires t.tok.typ != P.NOT && t.tok.data == P.NoData && OpOf(t.tok.typ).Some?
    requires ExprOf(t.l).Some? && ExprOf(t.r).Some? && Back(t.l, first) && Back(t.r, false)
    ensures Back(t, first)
  {
    hide P.IsOperator, P.AllAtLeast, OpOf, OperatorOf, Spellable, P.Prec;
    LexemesConcat(P.Inorder(t.l) + [t.tok], P.Inorder(t.r));
    LexemesConcat(P.Inorder(t.l), [t.tok]);
    RootTight(t.l, t.tok.prec + 1);
    RootTight(t.r, t.tok.prec);
    OpBack(t.tok.typ);
    SpellableBin(OpOf(t.tok.typ).value, ExprOf(t.l).value, ExprOf(t.r).value, first);
  }

  lemma SpellableBin(op: BinOp, l: Expr, r: Expr, first: bool)
    ensures Spellable(EBin(op, l, r), first) <==>
              Spellable(l, first) && Spellable(r, false) && Tight(l) > P.Prec(OperatorOf(op)) && Tight(r) >= P.Prec(OperatorOf(op))
  {
    hide P.Prec, OperatorOf;
  }

  lemma LeafBack(tok: P.Token)
    requires P.Atom(tok) && AtomOf(tok).Some?
    ensures Back(P.Leaf(tok), true) && Back(P.Leaf(tok), false)
  {
    P.AtomsBindTightest(tok.typ);
    assert P.Lexemes([tok])[0] == P.Lexeme(tok.typ, tok.data);
  }

  lemma OpBack(t: P.Type)
    requires OpOf(t).Some?
    ensures OperatorOf(OpOf(t).value) == t
  {
  }

  lemma NotEmpty(t: P.Tree)
    ensures !t.Nil? ==> P.Inorder(t) != []
  {
  }

  lemma RootTight(t: P.Tree, p: int)
    requires P.AllAtLeast(t, p) && !t.Nil?
    ensures t.tok.prec >= p
  {
    P.SpineInside(t);
  }

  /** The operator and atom tokens of one expression mean e exactly if they spell it. */
  lemma ExprParsed(toks: seq<P.Token>, e: Expr)
    requires P.Fresh(toks) && Regular(toks, true)
    ensures ExprOf(P.Build(toks)) == Some(e) <==> P.Lexemes(toks) == Spell(e) && Spellable(e, true)
  {
    hide P.Build, P.Fresh, P.Alternating, Spell, Spellable, P.Complete, P.Typed, P.Ordered, P.Distinct, P.Inorder, ExprOf;
    P.BuildCorrect(toks);
    if ExprOf(P.Build(toks)).Some? {
      SpelledBack(P.Build(toks), true);
    }
    if P.Lexemes(toks) == Spell(e) && Spellable(e, true) {
      SpelledParsed(toks, e);
    }
  }

  /** What `n t m` should come to; a sum, difference or product is right modulo 2^32. */
  ghost predicate Comes(t: P.Type, n: int, m: int, v: Result<Val>) {
    if t == P.DIV && (m == 0 || (n == -0x8000_0000 && m == -1)) then v == Stop(Trap)
    else
      && v.Ok? && v.value.Num?
      && var k := v.value.i32;
         match t
         case PLUS => (k - (n + m)) % 0x1_0000_0000 == 0
         case MINUS => (k - (n - m)) % 0x1_0000_0000 == 0
         case MULT => (k - n * m) % 0x1_0000_0000 == 0
         case DIV => IsQuotient(n, m, k)
         case EQ => k == if n == m then 1 else 0
         case NOTEQ => k == if n == m then 0 else 1
         case AND => k == if n != 0 && m != 0 then 1 else 0
         case OR => k == if n != 0 || m != 0 then 1 else 0
         case _ => false
  }

  lemma OperationComes(t: P.Type, n: CfgAssembly.Int32, m: CfgAssembly.Int32, cfg: Config)
    requires OpOf(t).Some?
    ensures Comes(t, n, m, Apply(INTENDED, OpOf(t).value, Num(n), Num(m), cfg))
  {
    hide Wrap32, TruncDiv, IsQuotient;
    if t == P.PLUS || t == P.MINUS || t == P.MULT {
      CfgLaws.ArithmeticWraps(INTENDED, OpOf(t).value, n, m, cfg);
    } else if t == P.DIV && m != 0 {
      TruncDivCutsOff(n, m);
    }
  }

  /** Two numbers and an operator between them are read as the operation of that name. */
  lemma TwoNumbers(x: P.Token, o: P.Token, y: P.Token, n: CfgAssembly.Int32, m: CfgAssembly.Int32, cfg: Config)
    requires P.Fresh([x, o, y]) && P.Operator(o) && OpOf(o.typ).Some?
    requires P.Atom(x) && x.typ == P.NUM && x.data == P.Number(n) && P.Atom(y) && y.typ == P.NUM && y.data == P.Number(m)
    ensures ExprOf(P.Build([x, o, y])).Some?
    ensures var r := Eval(INTENDED, ExprOf(P.Build([x, o, y])).value, cfg);
            Comes(o.typ, n, m, if r.Ok? then Ok(r.value.val) else Stop(r.reason))
  {
    hide P.Build, P.Prec, P.Complete, P.Typed, P.Ordered, P.Inorder, P.AllAtLeast, Comes, Apply;
    P.WholePair(x, o, y, o.prec);
    P.BuildUnique([x, o, y], P.Bin(o, P.Leaf(x), P.Leaf(y)));
    OperationComes(o.typ, n, m, cfg);
  }

  /** Between two operands `!` negates the first and the second is dropped. */
  lemma NotBetween(x: P.Token, o: P.Token, y: P.Token)
    requires P.Fresh([x, o, y]) && P.Atom(x) && o.typ == P.NOT && P.Operator(o) && P.Atom(y)
    ensures ExprOf(P.Build([x, o, y])) == NotOf(AtomOf(x))
  {
    hide P.Build, P.Prec, P.Complete, P.Typed, P.Ordered, P.Inorder, P.AllAtLeast;
    P.WholePair(x, o, y, o.prec);
    P.BuildUnique([x, o, y], P.Bin(o, P.Leaf(x), P.Leaf(y)));
  }

  // ----- assignments -----

  function SpellName(name: CStr): P.Lexeme { P.Lexeme(P.IDENT, P.Text(name)) }

  function SpellAssign(name: CStr, e: Expr): seq<P.Lexeme> { [SpellName(name)] + [P.Lexeme(P.SET, P.NoData)] + Spell(e) }

  lemma AssignTree(toks: seq<P.Token>, name: CStr, e: Expr)
    requires P.Fresh(toks) && P.Lexemes(toks) == SpellAssign(name, e) && Spellable(e, false)
    ensures StmtOf(P.Build(toks)) == Some(Assign(name, e))
  {
    hide P.Build, P.Fresh, P.Alternating, Spell, Spellable, P.Complete, P.Typed, P.Ordered, P.Inorder, P.AllAtLeast, ExprOf,
         Prepared, Tight;
    FreshPrepared(toks);
    var a, o, c := SplitLexemes(toks, [SpellName(name)], P.Lexeme(P.SET, P.NoData), Spell(e));
    var x := toks[0];
    assert a == [x] && P.Lexemes([x])[0] == SpellName(name) by { assert |P.Lexemes(a)| == 1; assert P.Lexemes(a)[0] == SpellName(name); }
    AtPrepared(toks, 0);
    var u := TreeFor(e, false, c);
    P.Looser(u, c, Tight(e), o.prec);
    P.WholeLeaf(x);
    P.Looser(P.Leaf(x), [x], 100, o.prec + 1);
    P.WholeBin(o, P.Leaf(x), [x], u, c);
    AssignAlternates(name, e);
    P.BuildUnique(toks, P.Bin(o, P.Leaf(x), u));
  }

  lemma AssignAlternates(name: CStr, e: Expr)
    requires Spellable(e, false)
    ensures P.Alternating(P.TypesOf(SpellAssign(name, e)))
  {
    hide Spell, Spellable, P.Alternating;
    SpellAlternates(e, false);
    OneAlternates(SpellName(name));
    OneAlternates(P.Lexeme(P.SET, P.NoData));
    AlternatingConcat([SpellName(name)], [P.Lexeme(P.SET, P.NoData)]);
    AlternatingConcat([SpellName(name)] + [P.Lexeme(P.SET, P.NoData)], Spell(e));
  }

  /** The tokens of a statement are an assignment exactly if they spell it: the equals sign
      binds loosest, so it is the root, with the name alone on its left. */
  lemma AssignParsed(toks: seq<P.Token>, name: CStr, e: Expr)
    requires P.Fresh(toks) && Regular(toks, false)
    ensures StmtOf(P.Build(toks)) == Some(Assign(name, e)) <==>
              P.Lexemes(toks) == SpellAssign(name, e) && Spellable(e, false)
  {
    hide P.Build, P.Fresh, P.Alternating, Spell, Spellable, P.Complete, P.Distinct, ExprOf, Regular, P.AllAtLeast;
    RegularAlternates(toks, false);
    P.BuildCorrect(toks);
    if StmtOf(P.Build(toks)) == Some(Assign(name, e)) {
      AssignBack(P.Build(toks), name, e);
    }
    if P.Lexemes(toks) == SpellAssign(name, e) && Spellable(e, false) {
      AssignTree(toks, name, e);
    }
  }

  lemma AssignBack(t: P.Tree, name: CStr, e: Expr)
    requires P.Typed(t) && P.Ordered(t) && Regular(P.Inorder(t), false) && StmtOf(t) == Some(Assign(name, e))
    ensures P.Lexemes(P.Inorder(t)) == SpellAssign(name, e) && Spellable(e, false)
  {
    hide Spell, Spellable, ExprOf, Regular, P.AllAtLeast, P.Prec;
    var x, o, c := t.l.tok, t.tok, P.Inorder(t.r);
    assert P.Inorder(t) == [x] + [o] + c;
    if !t.r.Nil? { NotEmpty(t.r); }
    NoExprOfNil(t.r);
    RegularParts([x], o, c, false);
    SpelledBack(t.r, false);
    LexemesConcat([x] + [o], c);
    LexemesConcat([x], [o]);
    assert P.Lexemes([x])[0] == P.Lexeme(x.typ, x.data) && P.Lexemes([o])[0] == P.Lexeme(o.typ, o.data);
  }

  // ----- programs -----

  /** The tree is the parser's for its tokens. */
  ghost predicate FromTokens(t: P.Tree, first: bool, regular: bool) {
    P.Fresh(P.Inorder(t)) && t == P.Build(P.Inorder(t)) && (regular ==> Regular(P.Inorder(t), first))
  }

  /** All trees of a program are; if regular, `!` is at most at the start of a condition. */
  ghost predicate AllFromTokens(ns: Nodes, regular: bool) {
    ns.Node? ==> ItemFromTokens(ns.head, regular) && AllFromTokens(ns.next, regular)
  }

  ghost predicate ItemFromTokens(item: Item, regular: bool) {
    FromTokens(item.tree, item.When?, regular) &&
    (item.When? ==> AllFromTokens(item.body, regular) && OthersFromTokens(item.chain, regular))
  }

  ghost predicate OthersFromTokens(o: Others, regular: bool) {
    match o
    case NoMore => true
    case Otherwise(body) => AllFromTokens(body, regular)
    case OrWhen(tree, body, rest) =>
      FromTokens(tree, true, regular) && AllFromTokens(body, regular) && OthersFromTokens(rest, regular)
  }

  ghost predicate SpellsExpr(t: P.Tree, e: Expr) { P.Lexemes(P.Inorder(t)) == Spell(e) && Spellable(e, true) }

  ghost predicate SpellsAssign(t: P.Tree, name: CStr, e: Expr) {
    P.Lexemes(P.Inorder(t)) == SpellAssign(name, e) && Spellable(e, false)
  }

  /** The tokens are those of the statements. */
  ghost predicate Spells(ns: Nodes, ss: Stmts) {
    match (ns, ss)
    case (NoNode, Nil) => true
    case (Node(item, next), Cons(s, rest)) => SpellsStmt(item, s) && Spells(next, rest)
    case _ => false
  }

  ghost predicate SpellsStmt(item: Item, s: Stmt) {
    match (item, s)
    case (Plain(tree), Assign(name, e)) => SpellsAssign(tree, name, e)
    case (When(tree, body, chain), If(cond, ss, c)) => SpellsExpr(tree, cond) && Spells(body, ss) && SpellsChain(chain, c)
    case _ => false
  }

  ghost predicate SpellsChain(o: Others, c: Chain) {
    match (o, c)
    case (NoMore, End) => true
    case (Otherwise(body), Else(ss)) => Spells(body, ss)
    case (OrWhen(tree, body, rest), Elif(cond, ss, c')) => SpellsExpr(tree, cond) && Spells(body, ss) && SpellsChain(rest, c')
    case _ => false
  }

  lemma ExprRead(t: P.Tree, e: Expr, regular: bool)
    requires FromTokens(t, true, regular)
    ensures SpellsExpr(t, e) ==> ExprOf(t) == Some(e)
    ensures regular && ExprOf(t) == Some(e) ==> SpellsExpr(t, e)
  {
    hide P.Build, P.Fresh, P.Inorder, Regular, Spell, Spellable, ExprOf;
    if SpellsExpr(t, e) { SpelledParsed(P.Inorder(t), e); }
    if regular { ExprParsed(P.Inorder(t), e); }
  }

  lemma AssignRead(t: P.Tree, name: CStr, e: Expr, regular: bool)
    requires FromTokens(t, false, regular)
    ensures SpellsAssign(t, name, e) ==> StmtOf(t) == Some(Assign(name, e))
    ensures regular && StmtOf(t) == Some(Assign(name, e)) ==> SpellsAssign(t, name, e)
  {
    hide P.Build, P.Fresh, P.Inorder, Regular, SpellAssign, Spellable, StmtOf;
    if SpellsAssign(t, name, e) { AssignTree(P.Inorder(t), name, e); }
    if regular { AssignParsed(P.Inorder(t), name, e); }
  }

  /** The token trees of a program are read as the program they spell, and if they are
      regular as no other. */
  lemma {:induction false} ProgramParsed(ns: Nodes, ss: Stmts, regular: bool)
    requires AllFromTokens(ns, regular)
    ensures Spells(ns, ss) ==> StmtsOf(ns) == Some(ss)
    ensures regular && StmtsOf(ns) == Some(ss) ==> Spells(ns, ss)
    decreases ns
  {
    hide SpellsStmt, ItemOf, ItemFromTokens;
    if ns.Node? && ss.Cons? {
      ItemParsed(ns.head, ss.head, regular);
      ProgramParsed(ns.next, ss.tail, regular);
    }
  }

  lemma {:induction false} ItemParsed(item: Item, s: Stmt, regular: bool)
    requires ItemFromTokens(item, regular)
    ensures SpellsStmt(item, s) ==> ItemOf(item) == Some(s)
    ensures regular && ItemOf(item) == Some(s) ==> SpellsStmt(item, s)
    decreases item
  {
    hide FromTokens, SpellsExpr, SpellsAssign, ExprOf, StmtOf, StmtsOf, OthersOf, Spells, SpellsChain, AllFromTokens, OthersFromTokens;
    StmtOfPlain(item);
    if item.Plain? && s.Assign? {
      AssignRead(item.tree, s.name, s.value, regular);
    } else if item.When? && s.If? {
      ExprRead(item.tree, s.cond, regular);
      ProgramParsed(item.body, s.body, regular);
      ChainParsed(item.chain, s.chain, regular);
    }
  }

  lemma StmtOfPlain(item: Item)
    ensures StmtOf(item.tree).Some? ==> StmtOf(item.tree).value.Assign?
  {
  }

  lemma {:induction false} ChainParsed(o: Others, c: Chain, regular: bool)
    requires OthersFromTokens(o, regular)
    ensures SpellsChain(o, c) ==> OthersOf(o) == Some(c)
    ensures regular && OthersOf(o) == Some(c) ==> SpellsChain(o, c)
    decreases o
  {
    hide FromTokens, SpellsExpr, ExprOf, StmtsOf, Spells, AllFromTokens;
    if o.Otherwise? && c.Else? {
      ProgramParsed(o.body, c.body, regular);
    } else if o.OrWhen? && c.Elif? {
      ExprRead(o.tree, c.cond, regular);
      ProgramParsed(o.body, c.body, regular);
      ChainParsed(o.rest, c.rest, regular);
    }
  }

  /** From tokens to the end of the run: the parser's trees are those of the program, and
      the VM gets to the end of its bytecode with the config the statements leave, or stops
      for the reason they stop. */
  lemma TokensToRun(b: Build, ns: Nodes, ss: Stmts, st: Store) returns (n: nat)
    requires AllFromTokens(ns, false) && Spells(ns, ss) && st.Valid() && FitsStmts(ss) && ChainsClosed(ss)
    requires AllWellFormed(Compiled(ss)) && |Bytecode(b, Compiled(ss))| < 0x8000_0000
    ensures StmtsOf(ns) == Some(ss)
    ensures var bc := Bytecode(b, Compiled(StmtsOf(ns).value));
            var v := VmRun(b, bc, VmAt(0, st), n);
            match ExecStmts(b, ss, st.cfg)
            case Stop(reason) => v == VmHalted(reason)
            case Ok(cfg) => v.VmAt? && v.pos == |bc| && v.store.cfg == cfg
  {
    hide AllFromTokens, Spells, StmtsOf, Bytecode, AllWellFormed, VmRun, ExecStmts, FitsStmts, ChainsClosed, Compiled;
    ProgramParsed(ns, ss, false);
    n := SourceToRun(b, ss, st);
  }
}
