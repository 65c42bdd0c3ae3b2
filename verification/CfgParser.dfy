/** The expression parser of src/cfgcomp_parser.c: a tree of tokens with parent pointers. */
module CfgParser {
  // Each new token is spliced into the tree, climbing from the token inserted before it.

  import CfgAssembly
  import CfgText

  // ----- tokens -----

  datatype Type =
    | DOT | MINUS | PLUS | DIV | MULT | PERC | NOTEQ | EQ | SET | NOT | GT | GTEQ | LT | LTEQ | AND | OR
    | NUM | IDENT | STRING

  /** The precedences of src/cfgcomp.h; a higher one binds tighter. */
  function Prec(t: Type): int {
    match t
    case DOT => 90
    case NOT => 82
    case NOTEQ => 80
    case EQ => 80
    case GT => 70
    case GTEQ => 70
    case LT => 70
    case LTEQ => 70
    case MINUS => 60
    case PLUS => 60
    case DIV => 50
    case MULT => 50
    case PERC => 50
    case AND => 40
    case OR => 30
    case SET => 10
    case _ => 100
  }

  /** The classes of operators, from the one that binds tightest: dot, not, equality, order,
      sum, product, and, or, assignment. */
  function Class(t: Type): int {
    match t
    case DOT => 0
    case NOT => 1
    case EQ => 2
    case NOTEQ => 2
    case LT => 3
    case LTEQ => 3
    case GT => 3
    case GTEQ => 3
    case PLUS => 4
    case MINUS => 4
    case MULT => 5
    case DIV => 5
    case PERC => 5
    case AND => 6
    case OR => 7
    case SET => 8
    case NUM => -1
    case IDENT => -1
    case STRING => -1
  }

  /** The higher precedence is the earlier class. */
  lemma ClassByPrec(t: Type, u: Type)
    ensures Class(t) < Class(u) <==> Prec(t) > Prec(u)
  {
  }

  /** `cf_cfg_parser_isoperator`. */
  predicate IsOperator(t: Type) { !t.NUM? && !t.IDENT? && !t.STRING? }

  lemma AtomsBindTightest(t: Type)
    ensures IsOperator(t) <==> Prec(t) < 100
    ensures Prec(t) <= 100
  {
  }

  /** The value of a number, or the text of a name or string. */
  datatype Data = NoData | Number(n: CfgAssembly.Int32) | Text(s: CfgText.CStr)

  /** What the lexer returns. */
  datatype Lexeme = Lexeme(typ: Type, data: Data)

  /** `cf_cfg_token_t`. */
  class Token {
    const typ: Type
    const prec: int
    const data: Data
    var left: Token?
    var right: Token?
    var parent: Token?

    constructor (lexeme: Lexeme)
      ensures typ == lexeme.typ && prec == Prec(typ) && data == lexeme.data
      ensures left == null && right == null && parent == null
    {
      typ, prec, data := lexeme.typ, Prec(lexeme.typ), lexeme.data;
      left, right, parent := null, null, null;
    }
  }

  // ----- trees -----

  /** The shape of a token tree: an atom, an operator with its one operand behind it (only
      the first token of a statement), or an operator between two operands.  The operand
      behind the token inserted last may still be missing. */
  datatype Tree =
    | Nil
    | Leaf(tok: Token)
    | Pre(tok: Token, r: Tree)
    | Bin(tok: Token, l: Tree, r: Tree)

  function Root(t: Tree): Token? { if t.Nil? then null else t.tok }

  ghost function Toks(t: Tree): set<Token> {
    match t
    case Nil => {}
    case Leaf(tok) => {tok}
    case Pre(tok, r) => {tok} + Toks(r)
    case Bin(tok, l, r) => Toks(l) + {tok} + Toks(r)
  }

  ghost function Inorder(t: Tree): seq<Token> {
    match t
    case Nil => []
    case Leaf(tok) => [tok]
    case Pre(tok, r) => [tok] + Inorder(r)
    case Bin(tok, l, r) => Inorder(l) + [tok] + Inorder(r)
  }

  /** No token occurs twice. */
  ghost predicate Distinct(t: Tree) {
    match t
    case Nil => true
    case Leaf(tok) => true
    case Pre(tok, r) => tok !in Toks(r) && Distinct(r)
    case Bin(tok, l, r) => tok !in Toks(l) && tok !in Toks(r) && Toks(l) !! Toks(r) && Distinct(l) && Distinct(r)
  }

  predicate Operator(tok: Token) { IsOperator(tok.typ) && tok.prec == Prec(tok.typ) }

  predicate Atom(tok: Token) { !IsOperator(tok.typ) && tok.prec == Prec(tok.typ) }

  /** Atoms at the leaves, operators inside. */
  ghost predicate Typed(t: Tree) {
    match t
    case Nil => true
    case Leaf(tok) => Atom(tok)
    case Pre(tok, r) => Operator(tok) && Typed(r)
    case Bin(tok, l, r) => Operator(tok) && Typed(l) && Typed(r)
  }

  /** Every operand is there. */
  ghost predicate Complete(t: Tree) {
    match t
    case Nil => false
    case Leaf(_) => true
    case Pre(_, r) => Complete(r)
    case Bin(_, l, r) => Complete(l) && Complete(r)
  }

  /** Only the operand behind the last token is missing. */
  ghost predicate Waiting(t: Tree) {
    match t
    case Nil => true
    case Leaf(_) => false
    case Pre(_, r) => Waiting(r)
    case Bin(_, l, r) => Complete(l) && Waiting(r)
  }

  ghost predicate AllAtLeast(t: Tree, p: int) { forall x :: x in Toks(t) ==> x.prec >= p }

  /** Left of an operator everything binds strictly tighter, right of it at least as tight. */
  ghost predicate Ordered(t: Tree) {
    match t
    case Nil => true
    case Leaf(_) => true
    case Pre(tok, r) => AllAtLeast(r, tok.prec) && Ordered(r)
    case Bin(tok, l, r) => AllAtLeast(l, tok.prec + 1) && AllAtLeast(r, tok.prec) && Ordered(l) && Ordered(r)
  }

  // ----- inserting -----

  /** An atom becomes the missing operand. */
  function AddAtom(t: Tree, tok: Token): Tree {
    match t
    case Nil => Leaf(tok)
    case Leaf(_) => t
    case Pre(o, r) => Pre(o, AddAtom(r, tok))
    case Bin(o, l, r) => Bin(o, l, AddAtom(r, tok))
  }

  /** An operator takes the place of the outermost last operand that binds tighter, and
      that operand becomes its left one. */
  function AddOp(t: Tree, tok: Token): Tree {
    if t.Nil? then Pre(tok, Nil)
    else if t.tok.prec > tok.prec || t.Leaf? then Bin(tok, t, Nil)
    else if t.Pre? then Pre(t.tok, AddOp(t.r, tok))
    else Bin(t.tok, t.l, AddOp(t.r, tok))
  }

  function Add(t: Tree, tok: Token): Tree { if IsOperator(tok.typ) then AddOp(t, tok) else AddAtom(t, tok) }

  /** What is kept while the tree grows. */
  ghost predicate Good(t: Tree) { Distinct(t) && Typed(t) && Ordered(t) }

  lemma {:induction false} AddAtomToks(t: Tree, tok: Token)
    requires Waiting(t)
    ensures Toks(AddAtom(t, tok)) == Toks(t) + {tok}
    ensures Inorder(AddAtom(t, tok)) == Inorder(t) + [tok]
    ensures Complete(AddAtom(t, tok))
  {
    match t
    case Nil =>
    case Leaf(_) =>
    case Pre(o, r) => AddAtomToks(r, tok);
    case Bin(o, l, r) =>
      AddAtomToks(r, tok);
      assert Inorder(l) + [o] + (Inorder(r) + [tok]) == Inorder(l) + [o] + Inorder(r) + [tok];
  }

  lemma {:induction false} AddAtomGood(t: Tree, tok: Token)
    requires Waiting(t) && Good(t) && Atom(tok) && tok !in Toks(t)
    ensures Good(AddAtom(t, tok))
  {
    match t
    case Nil =>
    case Leaf(_) =>
    case Pre(o, r) =>
      AddAtomToks(r, tok);
      AddAtomGood(r, tok);
      AtomsBindTightest(o.typ);
    case Bin(o, l, r) =>
      AddAtomToks(r, tok);
      AddAtomGood(r, tok);
      AtomsBindTightest(o.typ);
  }

  lemma {:induction false} RootIsLeast(t: Tree)
    requires Ordered(t) && Typed(t) && !t.Nil?
    ensures AllAtLeast(t, t.tok.prec)
  {
  }

  lemma {:induction false} AddOpToks(t: Tree, tok: Token)
    requires Complete(t) || t.Nil?
    ensures Toks(AddOp(t, tok)) == Toks(t) + {tok}
    ensures Inorder(AddOp(t, tok)) == Inorder(t) + [tok]
    ensures Waiting(AddOp(t, tok))
  {
    if !t.Nil? && !t.Leaf? && t.tok.prec <= tok.prec {
      AddOpToks(t.r, tok);
    }
  }

  lemma {:induction false} AddOpGood(t: Tree, tok: Token)
    requires (Complete(t) || t.Nil?) && Good(t) && Operator(tok) && tok !in Toks(t)
    ensures Good(AddOp(t, tok))
  {
    if t.Nil? {
    } else if t.tok.prec > tok.prec || t.Leaf? {
      RootIsLeast(t);
      AtomsBindTightest(tok.typ);
    } else {
      AddOpToks(t.r, tok);
      AddOpGood(t.r, tok);
    }
  }

  ghost function Elements(s: seq<Token>): set<Token> { set x | x in s }

  lemma ElementsConcat(a: seq<Token>, c: seq<Token>)
    ensures Elements(a + c) == Elements(a) + Elements(c)
  {
  }

  lemma {:induction false} ToksInorder(t: Tree)
    ensures Toks(t) == Elements(Inorder(t))
  {
    hide Elements;
    match t
    case Nil => ElementsFew(null);
    case Leaf(tok) => ElementsFew(tok);
    case Pre(tok, r) =>
      ToksInorder(r);
      ElementsFew(tok);
      ElementsConcat([tok], Inorder(r));
    case Bin(tok, l, r) =>
      ToksInorder(l);
      ToksInorder(r);
      ElementsFew(tok);
      ElementsConcat(Inorder(l), [tok]);
      ElementsConcat(Inorder(l) + [tok], Inorder(r));
  }

  lemma ElementsFew(tok: Token?)
    ensures Elements([]) == {}
    ensures tok != null ==> Elements([tok]) == {tok}
  {
  }

  lemma NotYet(t: Tree, toks: seq<Token>, tok: Token)
    requires Inorder(t) == toks && tok !in toks
    ensures tok !in Toks(t)
  {
    ToksInorder(t);
  }

  // ----- the parser's trees -----

  /** Operators and atoms alternate; the first token may be either. */
  predicate Alternating(types: seq<Type>) {
    forall k :: 0 < k < |types| ==> IsOperator(types[k - 1]) != IsOperator(types[k])
  }

  function Lexemes(toks: seq<Token>): (r: seq<Lexeme>)
    ensures |r| == |toks| && forall k :: 0 <= k < |toks| ==> r[k] == Lexeme(toks[k].typ, toks[k].data)
  {
    seq(|toks|, k requires 0 <= k < |toks| => Lexeme(toks[k].typ, toks[k].data))
  }

  function TypesOf(lexemes: seq<Lexeme>): (r: seq<Type>)
    ensures |r| == |lexemes| && forall k :: 0 <= k < |lexemes| ==> r[k] == lexemes[k].typ
  {
    seq(|lexemes|, k requires 0 <= k < |lexemes| => lexemes[k].typ)
  }

  function Types(toks: seq<Token>): (r: seq<Type>)
    ensures |r| == |toks| && forall k :: 0 <= k < |toks| ==> r[k] == toks[k].typ
  {
    TypesOf(Lexemes(toks))
  }

  /** The tree after the given tokens. */
  function Build(toks: seq<Token>): Tree {
    if toks == [] then Nil else Add(Build(toks[..|toks| - 1]), toks[|toks| - 1])
  }

  ghost predicate Fresh(toks: seq<Token>) {
    && (forall i, j :: 0 <= i < j < |toks| ==> toks[i] != toks[j])
    && (forall i :: 0 <= i < |toks| ==> toks[i].prec == Prec(toks[i].typ))
  }

  /** The tree is a good one for these tokens; nothing is missing exactly if they end in
      an atom. */
  ghost predicate TreeOf(t: Tree, toks: seq<Token>) {
    && Good(t) && Inorder(t) == toks
    && if toks == [] then t.Nil? else if IsOperator(toks[|toks| - 1].typ) then Waiting(t) else Complete(t)
  }

  /** Inserting one more token of an alternating sequence. */
  lemma AddCorrect(t: Tree, before: seq<Token>, tok: Token)
    requires TreeOf(t, before) && tok !in before && tok.prec == Prec(tok.typ)
    requires before != [] ==> IsOperator(before[|before| - 1].typ) != IsOperator(tok.typ)
    ensures TreeOf(Add(t, tok), before + [tok])
  {
    hide Good, AddOp, AddAtom, Prec, Inorder;
    NotYet(t, before, tok);
    if IsOperator(tok.typ) {
      AddOpToks(t, tok);
      AddOpGood(t, tok);
    } else {
      AddAtomToks(t, tok);
      AddAtomGood(t, tok);
    }
  }

  /** For every alternating sequence of atoms and operators the tree's in-order walk is
      the sequence, what is left of an operator binds strictly tighter and what is right
      of it at least as tight. */
  lemma {:induction false} BuildCorrect(toks: seq<Token>)
    requires Fresh(toks) && Alternating(Types(toks))
    ensures TreeOf(Build(toks), toks)
  {
    hide TreeOf, Add, Prec, IsOperator;
    if toks == [] {
      BuildNothing();
    } else {
      var n := |toks| - 1;
      AlternatingPrefix(toks, n);
      BuildCorrect(toks[..n]);
      assert toks[..n] + [toks[n]] == toks && toks[n] !in toks[..n];
      assert n > 0 ==> Types(toks)[n - 1] == toks[..n][n - 1].typ;
      AddCorrect(Build(toks[..n]), toks[..n], toks[n]);
    }
  }

  lemma AlternatingPrefix(toks: seq<Token>, n: nat)
    requires Alternating(Types(toks)) && n <= |toks|
    ensures Alternating(Types(toks[..n]))
  {
    hide IsOperator;
    forall k | 0 < k < n ensures IsOperator(Types(toks[..n])[k - 1]) != IsOperator(Types(toks[..n])[k]) {
      assert Types(toks[..n])[k] == Types(toks)[k];
    }
  }

  lemma BuildNothing()
    ensures TreeOf(Build([]), [])
  {
  }

  // ----- the tree is the only one -----

  /** Position m is the first among the operators that bind loosest. */
  ghost predicate Loosest(s: seq<Token>, m: nat) {
    && m < |s| && Operator(s[m])
    && (forall k :: 0 <= k < m ==> s[k].prec > s[m].prec)
    && (forall k :: m < k < |s| ==> s[k].prec >= s[m].prec)
  }

  function LeftPart(t: Tree): Tree { if t.Bin? then t.l else Nil }

  ghost predicate SeqAtLeast(s: seq<Token>, p: int) { forall k :: 0 <= k < |s| ==> s[k].prec >= p }

  lemma LoosestBetween(a: seq<Token>, x: Token, c: seq<Token>)
    requires Operator(x) && SeqAtLeast(a, x.prec + 1) && SeqAtLeast(c, x.prec)
    ensures Loosest(a + [x] + c, |a|)
  {
    hide Operator;
    var s, m := a + [x] + c, |a|;
    forall k | 0 <= k < m ensures s[k].prec > s[m].prec {
      assert s[k] == a[k];
    }
    forall k | m < k < |s| ensures s[k].prec >= s[m].prec {
      assert s[k] == c[k - m - 1];
    }
  }

  lemma RootIsLoosest(t: Tree)
    requires Ordered(t) && Typed(t) && (t.Pre? || t.Bin?)
    ensures Loosest(Inorder(t), |Inorder(LeftPart(t))|)
  {
    hide Typed, Operator, Inorder, Loosest, Ordered, SeqAtLeast;
    TypedRoot(t);
    SidesOrdered(t);
    InorderParts(t);
    LoosestBetween(Inorder(LeftPart(t)), t.tok, Inorder(t.r));
  }

  lemma SidesOrdered(t: Tree)
    requires Ordered(t) && (t.Pre? || t.Bin?)
    ensures SeqAtLeast(Inorder(LeftPart(t)), t.tok.prec + 1) && SeqAtLeast(Inorder(t.r), t.tok.prec)
  {
    hide Inorder;
    assert t.Pre? ==> Toks(LeftPart(t)) == {};
    assert AllAtLeast(LeftPart(t), t.tok.prec + 1) && AllAtLeast(t.r, t.tok.prec);
    InorderAtLeast(LeftPart(t), t.tok.prec + 1);
    InorderAtLeast(t.r, t.tok.prec);
  }

  lemma InorderAtLeast(t: Tree, p: int)
    requires AllAtLeast(t, p)
    ensures SeqAtLeast(Inorder(t), p)
  {
    ToksInorder(t);
    forall k | 0 <= k < |Inorder(t)| ensures Inorder(t)[k].prec >= p {
      assert Inorder(t)[k] in Elements(Inorder(t));
    }
  }

  lemma TypedRoot(t: Tree)
    requires Typed(t) && (t.Pre? || t.Bin?)
    ensures Operator(t.tok)
  {
  }

  lemma {:induction false} CompleteNotEmpty(t: Tree)
    requires Complete(t)
    ensures Inorder(t) != []
  {
  }

  lemma LoosestUnique(s: seq<Token>, m: nat, n: nat)
    requires Loosest(s, m) && Loosest(s, n)
    ensures m == n
  {
  }

  lemma SplitEqual(a: seq<Token>, x: Token, c: seq<Token>, a': seq<Token>, x': Token, c': seq<Token>)
    requires a + [x] + c == a' + [x'] + c' && |a| == |a'|
    ensures a == a' && x == x' && c == c'
  {
    var s, s' := a + [x] + c, a' + [x'] + c';
    assert s[..|a|] == a && s'[..|a|] == a';
    assert s[|a|] == x && s'[|a|] == x';
    assert s[|a| + 1..] == c && s'[|a| + 1..] == c';
  }

  /** Two complete ordered trees with the same in-order walk are the same tree. */
  lemma {:induction false} TreeUnique(t: Tree, u: Tree)
    requires Complete(t) && Typed(t) && Ordered(t)
    requires Complete(u) && Typed(u) && Ordered(u)
    requires Inorder(t) == Inorder(u)
    ensures t == u
    decreases t
  {
    hide Loosest, AllAtLeast;
    if t.Leaf? {
      LeafAlone(t, u);
    } else if u.Leaf? {
      LeafAlone(u, t);
    } else {
      RootIsLoosest(t);
      RootIsLoosest(u);
      LoosestUnique(Inorder(t), |Inorder(LeftPart(t))|, |Inorder(LeftPart(u))|);
      InorderParts(t);
      InorderParts(u);
      SplitEqual(Inorder(LeftPart(t)), t.tok, Inorder(t.r), Inorder(LeftPart(u)), u.tok, Inorder(u.r));
      TreeUnique(t.r, u.r);
      if t.Bin? && u.Bin? {
        TreeUnique(t.l, u.l);
      } else {
        OneIsPre(t, u);
      }
    }
  }

  lemma InorderParts(t: Tree)
    requires t.Pre? || t.Bin?
    ensures Inorder(t) == Inorder(LeftPart(t)) + [t.tok] + Inorder(t.r)
  {
    assert t.Pre? ==> Inorder(LeftPart(t)) == [];
  }

  lemma OneIsPre(t: Tree, u: Tree)
    requires Complete(t) && Complete(u) && (t.Pre? || t.Bin?) && (u.Pre? || u.Bin?) && (t.Pre? || u.Pre?)
    requires Inorder(LeftPart(t)) == Inorder(LeftPart(u))
    ensures t.Pre? && u.Pre?
  {
    if t.Bin? { CompleteNotEmpty(t.l); }
    if u.Bin? { CompleteNotEmpty(u.l); }
  }

  lemma {:induction false} LeafAlone(t: Tree, u: Tree)
    requires t.Leaf? && Typed(t) && Complete(u) && Typed(u) && Inorder(t) == Inorder(u)
    ensures t == u
  {
    if !u.Leaf? {
      LongerThanOne(u);
    }
  }

  lemma LongerThanOne(u: Tree)
    requires Complete(u) && !u.Leaf?
    ensures |Inorder(u)| > 1
  {
    hide Complete;
    CompleteParts(u);
    CompleteNotEmpty(u.r);
    if u.Bin? {
      CompleteNotEmpty(u.l);
    }
  }

  lemma CompleteParts(u: Tree)
    requires Complete(u) && !u.Leaf?
    ensures u.Pre? || u.Bin?
    ensures Complete(u.r) && (u.Bin? ==> Complete(u.l))
  {
  }

  /** The parser's tree is the only ordered tree with these operands and operators. */
  lemma BuildUnique(toks: seq<Token>, u: Tree)
    requires Fresh(toks) && Alternating(Types(toks)) && Complete(u) && Typed(u) && Ordered(u) && Inorder(u) == toks
    ensures Build(toks) == u
  {
    hide Complete, Typed, Ordered, Inorder, Build, Distinct;
    BuildCorrect(toks);
    LastIsAtom(u);
    TreeUnique(Build(toks), u);
  }

  /** Left of an operator there are only operators of earlier classes, right of it none of a
      later one. */
  ghost predicate Grouped(t: Tree) {
    match t
    case Nil => true
    case Leaf(_) => true
    case Pre(tok, r) => NoneLater(r, Class(tok.typ)) && Grouped(r)
    case Bin(tok, l, r) => NoneLater(l, Class(tok.typ) - 1) && NoneLater(r, Class(tok.typ)) && Grouped(l) && Grouped(r)
  }

  ghost predicate NoneLater(t: Tree, c: int) { forall x :: x in Toks(t) ==> Class(x.typ) <= c }

  ghost predicate Precedences(t: Tree) { forall x :: x in Toks(t) ==> x.prec == Prec(x.typ) }

  lemma {:induction false} OrderedGrouped(t: Tree)
    requires Ordered(t) && Precedences(t)
    ensures Grouped(t)
  {
    match t
    case Nil =>
    case Leaf(_) =>
    case Pre(tok, r) =>
      LaterLooser(r, tok, 0);
      OrderedGrouped(r);
    case Bin(tok, l, r) =>
      LaterLooser(l, tok, 1);
      LaterLooser(r, tok, 0);
      OrderedGrouped(l);
      OrderedGrouped(r);
  }

  lemma LaterLooser(t: Tree, tok: Token, d: nat)
    requires Precedences(t) && tok.prec == Prec(tok.typ) && d <= 1 && AllAtLeast(t, tok.prec + d)
    ensures NoneLater(t, Class(tok.typ) - d)
  {
    forall x | x in Toks(t) ensures Class(x.typ) <= Class(tok.typ) - d {
      ClassByPrec(x.typ, tok.typ);
      ClassByPrec(tok.typ, x.typ);
    }
  }

  /** So the classes alone say how a sequence is grouped. */
  lemma BuildGroups(toks: seq<Token>)
    requires Fresh(toks) && Alternating(Types(toks))
    ensures Grouped(Build(toks))
  {
    hide Build, Ordered, Inorder, Prec, Class, IsOperator, Toks;
    BuildCorrect(toks);
    ToksInorder(Build(toks));
    forall x | x in Toks(Build(toks)) ensures x.prec == Prec(x.typ) {
      assert x in toks;
    }
    OrderedGrouped(Build(toks));
  }

  ghost predicate Whole(u: Tree, toks: seq<Token>, least: int) {
    Complete(u) && Typed(u) && Ordered(u) && Inorder(u) == toks && AllAtLeast(u, least)
  }

  lemma WholeLeaf(x: Token)
    requires Atom(x)
    ensures Whole(Leaf(x), [x], 100)
  {
    AtomsBindTightest(x.typ);
  }

  lemma WholeBin(o: Token, l: Tree, a: seq<Token>, r: Tree, c: seq<Token>)
    requires Operator(o) && Whole(l, a, o.prec + 1) && Whole(r, c, o.prec)
    ensures Whole(Bin(o, l, r), a + [o] + c, o.prec)
  {
    hide Operator;
  }

  lemma Looser(u: Tree, toks: seq<Token>, p: int, q: int)
    requires Whole(u, toks, p) && q <= p
    ensures Whole(u, toks, q)
  {
    hide Complete, Typed, Ordered, Inorder;
  }

  /** An operator between two atoms, as an operand of one that binds looser. */
  lemma WholePair(x: Token, o: Token, y: Token, q: int)
    requires Atom(x) && Operator(o) && Atom(y) && q <= o.prec
    ensures Whole(Bin(o, Leaf(x), Leaf(y)), [x, o, y], q)
  {
    hide Whole, Prec;
    AtomsBindTightest(o.typ);
    WholeLeaf(x);
    WholeLeaf(y);
    Looser(Leaf(x), [x], 100, o.prec + 1);
    Looser(Leaf(y), [y], 100, o.prec);
    WholeBin(o, Leaf(x), [x], Leaf(y), [y]);
    assert [x] + [o] + [y] == [x, o, y];
    Looser(Bin(o, Leaf(x), Leaf(y)), [x, o, y], o.prec, q);
  }

  /** Three operands: the operators group to the left only if the first one is of an earlier
      class; so a - b - c is read as a - (b - c), and a * b + c as a * (b + c). */
  lemma ThreeOperands(x: Token, o: Token, y: Token, p: Token, z: Token)
    requires Fresh([x, o, y, p, z]) && Atom(x) && Operator(o) && Atom(y) && Operator(p) && Atom(z)
    ensures Build([x, o, y, p, z]) ==
            if Class(o.typ) < Class(p.typ) then Bin(p, Bin(o, Leaf(x), Leaf(y)), Leaf(z))
            else Bin(o, Leaf(x), Bin(p, Leaf(y), Leaf(z)))
  {
    hide Build, Prec, Class, Complete, Typed, Ordered, Inorder, AllAtLeast;
    AtomsBindTightest(o.typ);
    AtomsBindTightest(p.typ);
    ClassByPrec(o.typ, p.typ);
    var toks := [x, o, y, p, z];
    if o.prec > p.prec {
      WholePair(x, o, y, p.prec + 1);
      WholeLeaf(z);
      Looser(Leaf(z), [z], 100, p.prec);
      WholeBin(p, Bin(o, Leaf(x), Leaf(y)), [x, o, y], Leaf(z), [z]);
      assert [x, o, y] + [p] + [z] == toks;
      BuildUnique(toks, Bin(p, Bin(o, Leaf(x), Leaf(y)), Leaf(z)));
    } else {
      WholePair(y, p, z, o.prec);
      WholeLeaf(x);
      Looser(Leaf(x), [x], 100, o.prec + 1);
      WholeBin(o, Leaf(x), [x], Bin(p, Leaf(y), Leaf(z)), [y, p, z]);
      assert [x] + [o] + [y, p, z] == toks;
      BuildUnique(toks, Bin(o, Leaf(x), Bin(p, Leaf(y), Leaf(z))));
    }
  }

  lemma {:induction false} LastIsAtom(u: Tree)
    requires Complete(u) && Typed(u)
    ensures Inorder(u) != [] && !IsOperator(Inorder(u)[|Inorder(u)| - 1].typ)
  {
    if !u.Leaf? {
      LastIsAtom(u.r);
    }
  }

  // ----- links -----

  datatype Links = Links(left: Token?, right: Token?, parent: Token?)

  /** The links a token of the tree must have.  The one operand of a first operator is
      linked on the left. */
  ghost function LinksOf(t: Tree, parent: Token?, x: Token): Links {
    match t
    case Nil => Links(null, null, null)
    case Leaf(_) => Links(null, null, parent)
    case Pre(tok, r) => if x == tok then Links(Root(r), null, parent) else LinksOf(r, tok, x)
    case Bin(tok, l, r) =>
      if x == tok then Links(Root(l), Root(r), parent)
      else if x in Toks(l) then LinksOf(l, tok, x)
      else LinksOf(r, tok, x)
  }

  ghost predicate HasLinks(x: Token, k: Links)
    reads x
  {
    x.left == k.left && x.right == k.right && x.parent == k.parent
  }

  /** Child and parent links are those of the tree. */
  ghost predicate Linked(t: Tree)
    reads Toks(t)
  {
    forall x :: x in Toks(t) ==> HasLinks(x, LinksOf(t, null, x))
  }

  /** The last operands, outermost first. */
  ghost function Spine(t: Tree): seq<Token> {
    match t
    case Nil => []
    case Leaf(tok) => [tok]
    case Pre(tok, r) => [tok] + Spine(r)
    case Bin(tok, l, r) => [tok] + Spine(r)
  }

  ghost function Last(t: Tree): Token? { if t.Nil? then null else Spine(t)[|Spine(t)| - 1] }

  lemma {:induction false} SpineInside(t: Tree)
    ensures t.Nil? <==> Spine(t) == []
    ensures forall k :: 0 <= k < |Spine(t)| ==> Spine(t)[k] in Toks(t)
    ensures !t.Nil? ==> Spine(t)[0] == t.tok
  {
    if t.Pre? || t.Bin? {
      SpineInside(t.r);
    }
  }

  /** Along the spine each token's parent is the one before; each but the last has the
      next one as its last operand. */
  lemma {:induction false} SpineLinks(t: Tree, parent: Token?, k: nat)
    requires Distinct(t) && k < |Spine(t)|
    ensures var x := LinksOf(t, parent, Spine(t)[k]);
            x.parent == (if k == 0 then parent else Spine(t)[k - 1]) &&
            (k + 1 < |Spine(t)| ==> (if x.right != null then x.right else x.left) == Spine(t)[k + 1])
  {
    SpineInside(t);
    if t.Pre? || t.Bin? {
      SpineInside(t.r);
      if k > 0 {
        SpineLinks(t.r, t.tok, k - 1);
        assert Spine(t.r)[k - 1] in Toks(t.r);
      }
    }
  }

  /** How many tokens of the spine the new operator stays below. */
  ghost function Depth(t: Tree, p: int): nat {
    if t.Nil? || t.Leaf? || t.tok.prec > p then 0 else 1 + Depth(t.r, p)
  }

  lemma {:induction false} SpineSplit(t: Tree, p: int)
    requires Complete(t) && Typed(t) && Ordered(t) && p < 100
    ensures Depth(t, p) < |Spine(t)|
    ensures forall j :: 0 <= j < |Spine(t)| ==> (Spine(t)[j].prec > p <==> j >= Depth(t, p))
  {
    SpineInside(t);
    if t.Leaf? {
    } else if t.tok.prec > p {
      RootIsLeast(t);
    } else {
      SpineSplit(t.r, p);
    }
  }

  ghost function Relinked(k: Links, tok: Token): Links {
    if k.right != null then k.(right := tok) else k.(left := tok)
  }

  /** What inserting an operator changes. */
  ghost function AfterOp(t: Tree, tok: Token, parent: Token?, x: Token): Links
    requires Depth(t, tok.prec) < |Spine(t)|
  {
    var d := Depth(t, tok.prec);
    if x == tok then Links(Spine(t)[d], null, if d == 0 then parent else Spine(t)[d - 1])
    else if x == Spine(t)[d] then LinksOf(t, parent, x).(parent := tok)
    else if d > 0 && x == Spine(t)[d - 1] then Relinked(LinksOf(t, parent, x), tok)
    else LinksOf(t, parent, x)
  }

  lemma OtherParent(t: Tree, p: Token?, q: Token?, x: Token)
    requires Distinct(t) && !t.Nil? && x in Toks(t)
    ensures LinksOf(t, q, x) == if x == t.tok then LinksOf(t, p, x).(parent := q) else LinksOf(t, p, x)
  {
  }

  lemma {:induction false} AddOpLinks(t: Tree, tok: Token, parent: Token?, x: Token)
    requires Complete(t) && Distinct(t) && tok !in Toks(t) && (x in Toks(t) || x == tok)
    requires Depth(t, tok.prec) < |Spine(t)|
    ensures LinksOf(AddOp(t, tok), parent, x) == AfterOp(t, tok, parent, x)
    decreases t, 1
  {
    SpineInside(t);
    if t.Leaf? || t.tok.prec > tok.prec {
      if x in Toks(t) {
        OtherParent(t, parent, tok, x);
      }
    } else {
      AddOpInside(t, tok, parent, x);
    }
  }

  lemma {:induction false} AddOpInside(t: Tree, tok: Token, parent: Token?, x: Token)
    requires Complete(t) && Distinct(t) && tok !in Toks(t) && (x in Toks(t) || x == tok)
    requires Depth(t, tok.prec) < |Spine(t)| && (t.Pre? || t.Bin?) && t.tok.prec <= tok.prec
    ensures LinksOf(AddOp(t, tok), parent, x) == AfterOp(t, tok, parent, x)
    decreases t, 0
  {
    SpineInside(t);
    SpineInside(t.r);
    assert Spine(t)[1..] == Spine(t.r);
    if x in Toks(t.r) || x == tok {
      AddOpLinks(t.r, tok, t.tok, x);
    }
  }

  lemma {:induction false} LastOfOp(t: Tree, tok: Token)
    requires Complete(t) || t.Nil?
    ensures Last(AddOp(t, tok)) == tok
  {
    SpineInside(AddOp(t, tok));
    if !t.Nil? && !t.Leaf? && t.tok.prec <= tok.prec {
      LastOfOp(t.r, tok);
      SpineInside(AddOp(t.r, tok));
    }
  }

  /** What inserting an atom changes. */
  ghost function AfterAtom(t: Tree, tok: Token, parent: Token?, x: Token): Links {
    var last := Last(t);
    if x == tok then Links(null, null, if t.Nil? then parent else last)
    else if x == last then
      var k := LinksOf(t, parent, x);
      if k.left != null then k.(right := tok) else k.(left := tok)
    else LinksOf(t, parent, x)
  }

  lemma {:induction false} AddAtomLinks(t: Tree, tok: Token, parent: Token?, x: Token)
    requires Waiting(t) && Distinct(t) && tok !in Toks(t) && (x in Toks(t) || x == tok)
    ensures LinksOf(AddAtom(t, tok), parent, x) == AfterAtom(t, tok, parent, x)
  {
    SpineInside(t);
    if !t.Nil? {
      SpineInside(t.r);
      if t.r.Nil? {
        RootOfComplete(t);
      } else if x in Toks(t.r) || x == tok {
        AddAtomLinks(t.r, tok, t.tok, x);
      }
    }
  }

  lemma RootOfComplete(t: Tree)
    ensures t.Bin? && Complete(t.l) ==> Root(t.l) != null
  {
  }

  lemma {:induction false} LastOfAtom(t: Tree, tok: Token)
    requires Waiting(t)
    ensures Last(AddAtom(t, tok)) == tok && Root(AddAtom(t, tok)) == if t.Nil? then tok else Root(t)
  {
    SpineInside(AddAtom(t, tok));
    if !t.Nil? {
      LastOfAtom(t.r, tok);
      SpineInside(AddAtom(t.r, tok));
    }
  }

  lemma LinkedAt(t: Tree, x: Token)
    requires Linked(t) && x in Toks(t)
    ensures HasLinks(x, LinksOf(t, null, x))
  {
  }

  /** The token continues the tree: an operator behind an operand, an atom behind an
      operator, either at the start. */
  ghost predicate Suits(t: Tree, tok: Token) {
    Good(t) && if IsOperator(tok.typ) then Operator(tok) && (t.Nil? || Complete(t)) else Atom(tok) && Waiting(t)
  }

  lemma {:induction false} LastIs(t: Tree)
    requires Typed(t) && !t.Nil?
    ensures Complete(t) ==> Atom(Last(t))
    ensures Waiting(t) ==> Operator(Last(t))
  {
    SpineInside(t);
    if !t.Leaf? {
      SpineInside(t.r);
      assert !Complete(Nil);
      if !t.r.Nil? {
        LastIs(t.r);
      }
    }
  }

  /** The token inserted last and the next one never bind equally tight. */
  lemma NeverEqual(t: Tree, tok: Token)
    requires Suits(t, tok) && !t.Nil?
    ensures if IsOperator(tok.typ) then Complete(t) && Last(t).prec > tok.prec
            else Waiting(t) && Last(t).prec < tok.prec
  {
    LastIs(t);
    AtomsBindTightest(tok.typ);
    AtomsBindTightest(Last(t).typ);
  }

  lemma {:induction false} SpineDistinct(t: Tree, k: nat)
    requires Distinct(t) && k + 1 < |Spine(t)|
    ensures Spine(t)[k] != Spine(t)[k + 1]
  {
    SpineInside(t.r);
    if k > 0 {
      SpineDistinct(t.r, k - 1);
    } else {
      assert Spine(t.r)[0] in Toks(t.r);
    }
  }

  /** A token of links k once `tok` has been put between `stop` and `below`. */
  ghost predicate Respliced(x: Token, tok: Token, stop: Token?, below: Token, k: Links)
    reads x
  {
    HasLinks(x, if x == below then k.(parent := tok) else if x == stop then Relinked(k, tok) else k)
  }

  lemma LinkedAfterOp(t: Tree, tok: Token, d: nat)
    requires Complete(t) && Distinct(t) && tok !in Toks(t) && d == Depth(t, tok.prec) && d < |Spine(t)|
    requires HasLinks(tok, Links(Spine(t)[d], null, if d == 0 then null else Spine(t)[d - 1]))
    requires forall x :: x in Toks(t) ==>
               Respliced(x, tok, if d == 0 then null else Spine(t)[d - 1], Spine(t)[d], LinksOf(t, null, x))
    ensures Linked(AddOp(t, tok))
  {
    hide Distinct, Complete, LinksOf, Depth;
    AddOpToks(t, tok);
    forall x | x in Toks(AddOp(t, tok)) ensures HasLinks(x, LinksOf(AddOp(t, tok), null, x)) {
      AddOpLinks(t, tok, null, x);
      assert x != tok ==>
               Respliced(x, tok, if d == 0 then null else Spine(t)[d - 1], Spine(t)[d], LinksOf(t, null, x));
    }
  }

  lemma RootOfOp(t: Tree, tok: Token)
    requires !t.Nil?
    ensures Root(AddOp(t, tok)) == if Depth(t, tok.prec) == 0 then tok else t.tok
  {
  }

  /** The innermost token of the spine that does not bind tighter, or -1. */
  ghost function StopAt(spine: seq<Token>, prec: int): (i: int)
    ensures -1 <= i < |spine| && (i >= 0 ==> spine[i].prec <= prec)
    ensures forall j :: i < j < |spine| ==> spine[j].prec > prec
  {
    var n := |spine| - 1;
    if n < 0 then -1 else if spine[n].prec <= prec then n else StopAt(spine[..n], prec)
  }

  ghost function TokenAt(spine: seq<Token>, i: int): Token? { if 0 <= i < |spine| then spine[i] else null }

  // ----- the tree in memory -----

  /** `cf_cfg_trees_t`, as far as one statement's tree goes. */
  class Trees {
    var tree: Token?

    constructor ()
      ensures tree == null
    {
      tree := null;
    }

    /** The tree in memory is t, and `cur` the token inserted last. */
    ghost predicate Holds(t: Tree, cur: Token?)
      reads this, Toks(t)
    {
      tree == Root(t) && Linked(t) && cur == Last(t)
    }

    /** The climb towards the root. */
    method Climb(cur0: Token, prec: int, ghost t: Tree) returns (cur: Token?)
      requires Holds(t, cur0) && Distinct(t) && cur0.prec > prec
      ensures Linked(t) && cur == TokenAt(Spine(t), StopAt(Spine(t), prec))
    {
      hide Distinct, LinksOf;
      SpineInside(t);
      cur := cur0;
      ghost var i := |Spine(t)| - 1;
      assert Spine(t)[..i + 1] == Spine(t);
      while cur != null && cur.prec > prec
        invariant -1 <= i < |Spine(t)| && cur == TokenAt(Spine(t), i)
        invariant Linked(t)
        invariant StopAt(Spine(t), prec) == StopAt(Spine(t)[..i + 1], prec)
        decreases i
      {
        SpineLinks(t, null, i);
        assert Spine(t)[i] in Toks(t);
        LinkedAt(t, Spine(t)[i]);
        assert Spine(t)[..i + 1][..i] == Spine(t)[..i];
        cur := cur.parent;
        i := i - 1;
      }
    }

    /** The new token becomes an operand of the last one. */
    method Append(cur: Token, tok: Token, ghost t: Tree)
      requires Holds(t, cur) && Distinct(t) && tok !in Toks(t) && !t.Nil? && cur in Toks(t)
      requires tok.left == null && tok.right == null && tok.parent == null
      modifies cur, tok
      ensures Waiting(t) ==> Linked(AddAtom(t, tok))
    {
      hide Distinct, Waiting, LinksOf;
      ghost var before := map x | x in Toks(t) :: Links(x.left, x.right, x.parent);
      assert forall x :: x in Toks(t) ==> before[x] == LinksOf(t, null, x);
      tok.parent := cur;
      if cur.left != null { cur.right := tok; } else { cur.left := tok; }
      if Waiting(t) {
        AddAtomToks(t, tok);
        forall x | x in Toks(AddAtom(t, tok)) ensures HasLinks(x, LinksOf(AddAtom(t, tok), null, x)) {
          AddAtomLinks(t, tok, null, x);
          assert x != tok ==> x in before && before[x] == LinksOf(t, null, x);
        }
      }
    }

    /** The new token takes the place of the operand below `stop`, or of the root. */
    method Relink(stop: Token?, tok: Token, ghost below: Token, ghost k: map<Token, Links>)
      requires tok !in k && below in k && (stop == null ==> tree == below)
      requires stop != null ==> stop in k && stop != below && below == if stop.right != null then stop.right else stop.left
      requires tok.left == null && tok.right == null && tok.parent == null
      requires forall x :: x in k ==> HasLinks(x, k[x])
      modifies this`tree, tok, below, if stop == null then {} else {stop}
      ensures tree == if stop == null then tok else old(tree)
      ensures HasLinks(tok, Links(below, null, stop))
      ensures forall x :: x in k ==> Respliced(x, tok, stop, below, k[x])
    {
      if stop == null {
        tok.left := tree;
        tree := tok;
        tok.left.parent := tok;
      } else {
        tok.parent := stop;
        if stop.right != null {
          tok.left := stop.right;
          tok.left.parent := tok;
          stop.right := tok;
        } else {
          tok.left := stop.left;
          tok.left.parent := tok;
          stop.left := tok;
        }
      }
    }

    /** The new token takes the place of the last operand below `stop`. */
    method Splice(stop: Token?, tok: Token, ghost t: Tree, ghost i: int)
      requires tree == Root(t) && Linked(t) && Distinct(t) && tok !in Toks(t)
      requires tok.left == null && tok.right == null && tok.parent == null
      requires -1 <= i && i + 1 < |Spine(t)| && stop == if i < 0 then null else Spine(t)[i]
      modifies this, Toks(t), tok
      ensures Complete(t) && i + 1 == Depth(t, tok.prec) ==>
                Linked(AddOp(t, tok)) && tree == if i < 0 then tok else old(tree)
    {
      hide Distinct, Complete, LinksOf, Depth;
      SpineInside(t);
      ghost var below := Spine(t)[i + 1];
      ghost var k := map x | x in Toks(t) :: LinksOf(t, null, x);
      if i >= 0 {
        SpineLinks(t, null, i);
        LinkedAt(t, Spine(t)[i]);
        SpineDistinct(t, i);
      }
      Relink(stop, tok, below, k);
      if Complete(t) && i + 1 == Depth(t, tok.prec) {
        assert forall x :: x in Toks(t) ==> x in k && k[x] == LinksOf(t, null, x);
        LinkedAfterOp(t, tok, i + 1);
      }
    }

    /** The branch for equal precedence.  Below the root the new token's parent link is
        left at the token it replaces. */
    method Replace(cur: Token, tok: Token)
      requires tree != null && tok != cur && cur.parent != tok && tree != tok
      requires tok.left == null && tok.right == null && tok.parent == null
      modifies this`tree, tok, cur, cur.parent, tree
      ensures var p := old(cur.parent);
              p != null ==> tok.parent == cur && cur.parent == tok && tok.left == cur &&
                            (if old(p.left) == cur then p.left == tok else p.right == tok)
      ensures old(cur.parent) == null ==> tree == tok && tok.left == old(tree) && tok.left.parent == tok
    {
      if cur.parent != null {
        if cur.parent.left == cur { cur.parent.left := tok; } else { cur.parent.right := tok; }
        tok.parent := cur;
        cur.parent := tok;
        tok.left := cur;
      } else {
        tok.left := tree;
        tree := tok;
        tok.left.parent := tok;
      }
    }

    /** `cf_cfg_parser_insert_node`.  A token that continues the tree is added to it.  A
        token that binds exactly as tight as the last one (which never continues the tree)
        and comes below the root would make a cycle of parents. */
    method InsertNode(cur: Token?, tok: Token, ghost t: Tree) returns (r: Token)
      requires Holds(t, cur) && Distinct(t) && tok !in Toks(t)
      requires tok.left == null && tok.right == null && tok.parent == null
      modifies this, Toks(t), tok
      ensures r == tok
      ensures Suits(t, tok) ==> Holds(Add(t, tok), tok)
      ensures cur != null && cur.prec == tok.prec && old(cur.parent) != null ==>
                !Suits(t, tok) && tok.parent == cur && cur.parent == tok
    {
      hide Good, Linked, Distinct, Complete, Waiting, Typed, AddOp, AddAtom, LinksOf, Depth;
      r := tok;
      SpineInside(t);
      if cur == null {
        tree := tok;
        StartHolds(tok);
        return;
      }
      if Suits(t, tok) { NeverEqual(t, tok); }
      if cur.prec < tok.prec {
        Append(cur, tok, t);
        if Suits(t, tok) { LastOfAtom(t, tok); }
      } else if cur.prec == tok.prec {
        ParentInside(t, cur);
        Replace(cur, tok);
      } else {
        var stop := Climb(cur, tok.prec, t);
        ghost var i := StopAt(Spine(t), tok.prec);
        if Suits(t, tok) {
          DepthFound(t, tok, i);
          RootOfOp(t, tok);
          LastOfOp(t, tok);
        }
        Splice(stop, tok, t, i);
      }
    }
  }

  lemma StartHolds(tok: Token)
    requires tok.left == null && tok.right == null && tok.parent == null
    ensures var t := Add(Nil, tok); Linked(t) && Root(t) == tok && Last(t) == tok
  {
    var t := Add(Nil, tok);
    SpineInside(t);
    assert Toks(t) == {tok};
  }

  /** Parents of tokens of the tree are tokens of the tree. */
  lemma ParentInside(t: Tree, x: Token)
    requires Linked(t) && x in Toks(t)
    ensures x.parent != null ==> x.parent in Toks(t)
    ensures Root(t) != null && Root(t) in Toks(t)
  {
    hide LinksOf;
    LinkedAt(t, x);
    ParentOf(t, null, x);
  }

  lemma {:induction false} ParentOf(t: Tree, parent: Token?, x: Token)
    requires x in Toks(t)
    ensures LinksOf(t, parent, x).parent == parent || LinksOf(t, parent, x).parent in Toks(t)
  {
    if t.Bin? && x in Toks(t.l) {
      ParentOf(t.l, t.tok, x);
    } else if (t.Bin? || t.Pre?) && x in Toks(t.r) {
      ParentOf(t.r, t.tok, x);
    }
  }

  /** The climb stops where the operator belongs. */
  lemma DepthFound(t: Tree, tok: Token, i: int)
    requires Suits(t, tok) && IsOperator(tok.typ) && !t.Nil?
    requires -1 <= i && i + 1 < |Spine(t)| && (forall j :: i < j < |Spine(t)| ==> Spine(t)[j].prec > tok.prec)
    requires i >= 0 ==> Spine(t)[i].prec <= tok.prec
    ensures Depth(t, tok.prec) == i + 1 && Complete(t)
  {
    hide Complete, Typed, Ordered, Distinct, Depth, Prec, IsOperator;
    AtomsBindTightest(tok.typ);
    SpineSplit(t, tok.prec);
    assert Spine(t)[i + 1].prec > tok.prec;
  }

  // ----- one statement -----

  lemma SuitsNext(t: Tree, toks: seq<Token>, tok: Token)
    requires TreeOf(t, toks) && tok.prec == Prec(tok.typ)
    requires toks != [] ==> IsOperator(toks[|toks| - 1].typ) != IsOperator(tok.typ)
    ensures Suits(t, tok)
  {
    hide Good, Prec, IsOperator;
  }

  lemma BuildSnoc(toks: seq<Token>, tok: Token)
    ensures Build(toks + [tok]) == Add(Build(toks), tok)
  {
    hide Add;
    assert (toks + [tok])[..|toks|] == toks;
  }

  /** The operator and atom part of `cf_cfg_parser` for the tokens of one statement.  It
      accepts exactly the sequences in which operators and atoms alternate, and then holds
      their one ordered tree. */
  method Parse(lexemes: seq<Lexeme>) returns (ok: bool, trees: Trees, ghost toks: seq<Token>)
    ensures ok <==> Alternating(TypesOf(lexemes))
    ensures ok ==> Fresh(toks) && Lexemes(toks) == lexemes && TreeOf(Build(toks), toks) && Grouped(Build(toks))
    ensures ok ==> trees.Holds(Build(toks), if toks == [] then null else toks[|toks| - 1])
  {
    hide Prec, Add, Good, Inorder, IsOperator, TreeOf, Build, Suits, Distinct, Fresh, TypesOf, Lexemes, Linked, Toks, Grouped;
    trees := new Trees();
    var cur: Token? := null;
    toks := [];
    BuildNothing();
    var k := 0;
    NothingHolds(trees);
    NoneFresh();
    while k < |lexemes|
      invariant 0 <= k == |toks| <= |lexemes| && fresh(trees)
      invariant forall i :: 0 <= i < k ==> fresh(toks[i]) && Lexeme(toks[i].typ, toks[i].data) == lexemes[i]
      invariant Fresh(toks) && TreeOf(Build(toks), toks)
      invariant forall i :: 0 < i < k ==> IsOperator(TypesOf(lexemes)[i - 1]) != IsOperator(TypesOf(lexemes)[i])
      invariant cur == if k == 0 then null else toks[k - 1]
      invariant trees.Holds(Build(toks), cur)
    {
      ghost var t := Build(toks);
      if cur != null && IsOperator(cur.typ) == IsOperator(lexemes[k].typ) {
        assert IsOperator(TypesOf(lexemes)[k - 1]) == IsOperator(TypesOf(lexemes)[k]);
        return false, trees, toks;
      }
      var tok := new Token(lexemes[k]);
      assert tok !in toks;
      NextToken(toks, tok);
      cur := trees.InsertNode(cur, tok, t);
      toks := toks + [tok];
      k := k + 1;
    }
    assert Types(toks) == TypesOf(lexemes);
    BuildGroups(toks);
    ok := true;
  }

  lemma NextToken(toks: seq<Token>, tok: Token)
    requires Fresh(toks) && TreeOf(Build(toks), toks) && tok !in toks && tok.prec == Prec(tok.typ)
    requires toks != [] ==> IsOperator(toks[|toks| - 1].typ) != IsOperator(tok.typ)
    ensures var t := Build(toks);
            Suits(t, tok) && tok !in Toks(t) && Distinct(t) && Build(toks + [tok]) == Add(t, tok)
    ensures TreeOf(Build(toks + [tok]), toks + [tok]) && Fresh(toks + [tok])
    ensures forall x :: x in Toks(Build(toks)) ==> x in toks
  {
    hide Prec, Add, Good, Inorder, IsOperator, TreeOf, Build, Suits;
    SuitsNext(Build(toks), toks, tok);
    AddCorrect(Build(toks), toks, tok);
    BuildSnoc(toks, tok);
    TreeInside(Build(toks), toks, tok);
  }

  lemma TreeInside(t: Tree, toks: seq<Token>, tok: Token)
    requires TreeOf(t, toks) && tok !in toks
    ensures tok !in Toks(t) && Distinct(t)
    ensures forall x :: x in Toks(t) ==> x in toks
  {
    hide Distinct;
    ToksInorder(t);
    NotYet(t, toks, tok);
  }

  lemma NoneFresh()
    ensures Fresh([])
  {
  }

  lemma NothingHolds(trees: Trees)
    requires trees.tree == null
    ensures trees.Holds(Build([]), null)
  {
  }
}
