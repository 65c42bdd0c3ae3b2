/**
 The token trees as the code generator of src/cfgcomp_codegenerator.c sees them.

 Which expressions and statements it makes of them, and what their links in memory are.
 */
module CfgTrees {
  import opened Wrappers
  import opened CfgMachine
  import opened CfgCodegen
  import opened CfgStatements
  import P = CfgParser

  // ----- expressions and statements -----

  /** The operations among the operators: all but . % < <= > >= and =, ! */
  function OpOf(t: P.Type): Option<BinOp> {
    match t
    case PLUS => Some(Add)
    case MINUS => Some(Sub)
    case MULT => Some(Mul)
    case DIV => Some(Div)
    case EQ => Some(Eq)
    case NOTEQ => Some(Ne)
    case AND => Some(And)
    case OR => Some(Or)
    case _ => None
  }

  function AtomOf(tok: P.Token): Option<Expr> {
    match (tok.typ, tok.data)
    case (NUM, Number(n)) => Some(ENum(n))
    case (IDENT, Text(s)) => Some(EIdent(s))
    case (STRING, Text(s)) => Some(EStr(s))
    case _ => None
  }

  function NotOf(e: Option<Expr>): Option<Expr> { if e.Some? then Some(ENot(e.value)) else None }

  /** What `cf_cfg_codegenerator_tokens` makes of a token tree.  It looks at the left link
      of `!` only, where a first `!` has its operand; so a second operand is ignored. */
  function ExprOf(t: P.Tree): Option<Expr> {
    match t
    case Nil => None
    case Leaf(tok) => AtomOf(tok)
    case Pre(tok, r) => if tok.typ == P.NOT then NotOf(ExprOf(r)) else None
    case Bin(tok, l, r) =>
      if tok.typ == P.NOT then NotOf(ExprOf(l))
      else
        match (OpOf(tok.typ), ExprOf(l), ExprOf(r))
        case (Some(op), Some(x), Some(y)) => Some(EBin(op, x, y))
        case _ => None
  }

  /** An assignment of an expression to a name; the code generator's other statements are
      not modelled. */
  function StmtOf(t: P.Tree): Option<Stmt> {
    if !t.Bin? || t.tok.typ != P.SET || !t.l.Leaf? then None
    else
      match (AtomOf(t.l.tok), ExprOf(t.r))
      case (Some(EIdent(name)), Some(e)) => Some(Assign(name, e))
      case _ => None
  }

  lemma NoExprOfNil(t: P.Tree)
    ensures ExprOf(t).Some? ==> !t.Nil?
  {
  }

  // ----- programs -----

  /** `cf_cfg_trees_t`: the statements linked by `next`, each with its token tree; an `if`
      has that of its condition. */
  datatype Nodes = NoNode | Node(head: Item, next: Nodes)

  datatype Item = Plain(tree: P.Tree) | When(tree: P.Tree, body: Nodes, chain: Others)

  /** The further entries of `arguments`. */
  datatype Others = NoMore | Otherwise(body: Nodes) | OrWhen(tree: P.Tree, body: Nodes, rest: Others)

  function StmtsOf(ns: Nodes): Option<Stmts> {
    match ns
    case NoNode => Some(Nil)
    case Node(item, next) =>
      match (ItemOf(item), StmtsOf(next))
      case (Some(s), Some(rest)) => Some(Cons(s, rest))
      case _ => None
  }

  function ItemOf(item: Item): Option<Stmt> {
    match item
    case Plain(tree) => StmtOf(tree)
    case When(tree, body, chain) =>
      match (ExprOf(tree), StmtsOf(body), OthersOf(chain))
      case (Some(cond), Some(ss), Some(c)) => Some(If(cond, ss, c))
      case _ => None
  }

  function OthersOf(o: Others): Option<Chain> {
    match o
    case NoMore => Some(End)
    case Otherwise(body) => (match StmtsOf(body) case None => None case Some(ss) => Some(Else(ss)))
    case OrWhen(tree, body, rest) =>
      match (ExprOf(tree), StmtsOf(body), OthersOf(rest))
      case (Some(cond), Some(ss), Some(c)) => Some(Elif(cond, ss, c))
      case _ => None
  }

  function CountOthers(o: Others): nat {
    match o
    case NoMore => 0
    case Otherwise(_) => 1
    case OrWhen(_, _, rest) => 1 + CountOthers(rest)
  }

  /** The last of them is an `else`. */
  predicate EndsInElse(o: Others) {
    match o
    case NoMore => false
    case Otherwise(_) => true
    case OrWhen(_, _, rest) => EndsInElse(rest)
  }

  lemma {:induction false} OthersShape(o: Others)
    requires OthersOf(o).Some?
    ensures CountOthers(o) == ChainLength(OthersOf(o).value) && EndsInElse(o) == HasElse(OthersOf(o).value)
  {
    if o.OrWhen? {
      OthersShape(o.rest);
    }
  }

  // ----- in memory -----

  /** Every token's links lead to the roots of its operands; the one operand of a first
      operator is on the left. */
  ghost predicate Children(t: P.Tree)
    reads P.Toks(t)
  {
    match t
    case Nil => true
    case Leaf(_) => true
    case Pre(tok, r) => tok.left == P.Root(r) && Children(r)
    case Bin(tok, l, r) => tok.left == P.Root(l) && tok.right == P.Root(r) && Children(l) && Children(r)
  }

  /** The parser leaves such links. */
  lemma {:induction false} LinkedChildren(t: P.Tree, parent: P.Token?)
    requires P.Distinct(t) && forall x :: x in P.Toks(t) ==> P.HasLinks(x, P.LinksOf(t, parent, x))
    ensures Children(t)
  {
    match t
    case Nil =>
    case Leaf(_) =>
    case Pre(tok, r) =>
      assert P.HasLinks(tok, P.LinksOf(t, parent, tok));
      assert forall x :: x in P.Toks(r) ==> P.LinksOf(t, parent, x) == P.LinksOf(r, tok, x);
      LinkedChildren(r, tok);
    case Bin(tok, l, r) =>
      assert P.HasLinks(tok, P.LinksOf(t, parent, tok));
      assert forall x :: x in P.Toks(l) ==> P.LinksOf(t, parent, x) == P.LinksOf(l, tok, x);
      LinkedChildren(l, tok);
      assert forall x :: x in P.Toks(r) ==> P.LinksOf(t, parent, x) == P.LinksOf(r, tok, x);
      LinkedChildren(r, tok);
  }

  lemma HeldChildren(trees: P.Trees, t: P.Tree, cur: P.Token?)
    requires P.Distinct(t) && trees.Holds(t, cur)
    ensures trees.tree == P.Root(t) && Children(t)
  {
    hide P.Distinct, P.LinksOf;
    LinkedChildren(t, null);
  }

  ghost function NodeToks(ns: Nodes): set<P.Token> { if ns.NoNode? then {} else ItemToks(ns.head) + NodeToks(ns.next) }

  ghost function ItemToks(item: Item): set<P.Token> {
    if item.Plain? then P.Toks(item.tree) else P.Toks(item.tree) + NodeToks(item.body) + OtherToks(item.chain)
  }

  ghost function OtherToks(o: Others): set<P.Token> {
    match o
    case NoMore => {}
    case Otherwise(body) => NodeToks(body)
    case OrWhen(tree, body, rest) => P.Toks(tree) + NodeToks(body) + OtherToks(rest)
  }

  /** All of them are in memory already. */
  lemma {:induction false} ToksThere(t: P.Tree)
    ensures forall x :: x in P.Toks(t) ==> allocated(x)
  {
    if t.Bin? { ToksThere(t.l); }
    if t.Bin? || t.Pre? { ToksThere(t.r); }
  }

  lemma {:induction false} NodesThere(ns: Nodes)
    ensures forall x :: x in NodeToks(ns) ==> allocated(x)
    decreases ns
  {
    if ns.Node? {
      ItemThere(ns.head);
      NodesThere(ns.next);
    }
  }

  lemma {:induction false} ItemThere(item: Item)
    ensures forall x :: x in ItemToks(item) ==> allocated(x)
    decreases item
  {
    ToksThere(item.tree);
    if item.When? {
      NodesThere(item.body);
      OthersThere(item.chain);
    }
  }

  lemma {:induction false} OthersThere(o: Others)
    ensures forall x :: x in OtherToks(o) ==> allocated(x)
    decreases o
  {
    match o
    case NoMore =>
    case Otherwise(body) => NodesThere(body);
    case OrWhen(tree, body, rest) =>
      ToksThere(tree);
      NodesThere(body);
      OthersThere(rest);
  }

  /** All trees of a program. */
  ghost predicate InMemory(ns: Nodes)
    reads NodeToks(ns)
  {
    ns.Node? ==> ItemInMemory(ns.head) && InMemory(ns.next)
  }

  ghost predicate ItemInMemory(item: Item)
    reads ItemToks(item)
  {
    Children(item.tree) && (item.When? ==> InMemory(item.body) && OthersInMemory(item.chain))
  }

  ghost predicate OthersInMemory(o: Others)
    reads OtherToks(o)
  {
    match o
    case NoMore => true
    case Otherwise(body) => InMemory(body)
    case OrWhen(tree, body, rest) => Children(tree) && InMemory(body) && OthersInMemory(rest)
  }
}
