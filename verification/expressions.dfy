/**
 * `pkg/prom/modify.go` on the syntax trees the parser allocates: the nodes are
 * fixed, the vector selectors in them are objects whose matchers are reassigned.
 */
module Expressions {
  import opened Data
  import opened Matchers
  import opened MatcherObjects
  import opened PromQL

  /** `*parser.VectorSelector` */
  class SelectorObject {
    const Name: string
    const Offset: int
    var LabelMatchers: seq<MatcherObject>

    constructor (name: string, offset: int, matchers: seq<MatcherObject>)
      ensures Name == name && Offset == offset && LabelMatchers == matchers
    {
      Name, Offset, LabelMatchers := name, offset, matchers;
    }
  }

  datatype Node =
    | NumberNode(v: real)
    | StringNode(s: string)
    | VectorNode(selector: SelectorObject)
    | MatrixNode(vector: Node, range: int)
    | OperatorNode(op: Operator, args: seq<Node>)
    | SubqueryNode(inner: Node, range: int, offset: int, step: int)

  ghost function Selectors(n: Node): set<SelectorObject>
    decreases n, 1
  {
    match n
    case VectorNode(selector) => {selector}
    case MatrixNode(vector, _) => Selectors(vector)
    case OperatorNode(_, args) => SelectorsOfAll(args)
    case SubqueryNode(inner, _, _, _) => Selectors(inner)
    case _ => {}
  }

  ghost function SelectorsOfAll(ns: seq<Node>): set<SelectorObject>
    decreases ns, 0
  {
    if ns == [] then {} else Selectors(ns[0]) + SelectorsOfAll(ns[1..])
  }

  lemma {:induction false} SelectorsAreAllocated(n: Node)
    ensures forall s | s in Selectors(n) :: allocated(s)
    decreases n, 1
  {
    match n
    case MatrixNode(vector, _) => SelectorsAreAllocated(vector);
    case OperatorNode(_, args) => AllSelectorsAreAllocated(args);
    case SubqueryNode(inner, _, _, _) => SelectorsAreAllocated(inner);
    case _ =>
  }

  lemma {:induction false} AllSelectorsAreAllocated(ns: seq<Node>)
    ensures forall s | s in SelectorsOfAll(ns) :: allocated(s)
    decreases ns, 0
  {
    if ns != [] {
      SelectorsAreAllocated(ns[0]);
      AllSelectorsAreAllocated(ns[1..]);
    }
  }

  /** No selector object occurs twice. */
  ghost predicate IsTree(n: Node)
    decreases n, 1
  {
    match n
    case MatrixNode(vector, _) => IsTree(vector)
    case OperatorNode(_, args) => AreTrees(args)
    case SubqueryNode(inner, _, _, _) => IsTree(inner)
    case _ => true
  }

  ghost predicate AreTrees(ns: seq<Node>)
    decreases ns, 0
  {
    ns == [] || (IsTree(ns[0]) && AreTrees(ns[1..]) && Selectors(ns[0]) !! SelectorsOfAll(ns[1..]))
  }

  ghost function MatchersOf(selectors: set<SelectorObject>): (r: set<MatcherObject>)
    reads selectors
    ensures forall s, m | s in selectors && m in s.LabelMatchers :: m in r
    ensures forall m | m in r :: exists s | s in selectors :: m in s.LabelMatchers
  {
    set s, m | s in selectors && m in s.LabelMatchers :: m
  }

  /** Every selector holds distinct, valid matchers that no other selector holds. */
  ghost predicate AreOwned(E: Engine, selectors: set<SelectorObject>)
    reads selectors, MatchersOf(selectors)
  {
    && (forall s | s in selectors :: AreGood(E, s.LabelMatchers))
    && (forall s, s', m | s in selectors && s' in selectors && m in s.LabelMatchers && m in s'.LabelMatchers :: s == s')
  }

  lemma SplitOwnership(E: Engine, a: set<SelectorObject>, b: set<SelectorObject>)
    requires AreOwned(E, a + b) && a !! b
    ensures AreOwned(E, a) && AreOwned(E, b)
    ensures MatchersOf(a) !! MatchersOf(b)
    ensures MatchersOf(a + b) == MatchersOf(a) + MatchersOf(b)
  {
  }

  lemma JoinOwnership(E: Engine, a: set<SelectorObject>, b: set<SelectorObject>)
    requires AreOwned(E, a) && AreOwned(E, b) && MatchersOf(a) !! MatchersOf(b)
    ensures AreOwned(E, a + b)
    ensures MatchersOf(a + b) == MatchersOf(a) + MatchersOf(b)
  {
    forall s, s', m | s in a + b && s' in a + b && m in s.LabelMatchers && m in s'.LabelMatchers ensures s == s' {
      assert (m in MatchersOf(a) && s in a && s' in a) || (m in MatchersOf(b) && s in b && s' in b);
    }
  }

  /** The expression a tree stands for, in the current state. */
  function ExprOf(n: Node): Expr
    reads Selectors(n), MatchersOf(Selectors(n))
    decreases n, 1
  {
    match n
    case NumberNode(v) => NumberLiteral(v)
    case StringNode(s) => StringLiteral(s)
    case VectorNode(selector) => VectorSelector(selector.Name, selector.Offset, Views(selector.LabelMatchers))
    case MatrixNode(vector, range) => MatrixSelector(ExprOf(vector), range)
    case OperatorNode(op, args) => Apply(op, ExprsOf(args))
    case SubqueryNode(inner, range, offset, step) => Subquery(ExprOf(inner), range, offset, step)
  }

  function ExprsOf(ns: seq<Node>): seq<Expr>
    reads SelectorsOfAll(ns), MatchersOf(SelectorsOfAll(ns))
    decreases ns, 0
  {
    if ns == [] then [] else [ExprOf(ns[0])] + ExprsOf(ns[1..])
  }

  /** `n.LabelMatchers = FilterMatchers(namespaceSet, n.LabelMatchers)` */
  method RewriteSelector(E: Engine, namespaceSet: Set, selector: SelectorObject)
    requires AreNamespaceNames(namespaceSet) && AreGood(E, selector.LabelMatchers)
    modifies selector, selector.LabelMatchers
    ensures AreGood(E, selector.LabelMatchers)
    ensures Views(selector.LabelMatchers) == Matchers.FilterMatchers(E, namespaceSet, old(Views(selector.LabelMatchers)))
    ensures forall m | m in selector.LabelMatchers :: m in old(selector.LabelMatchers) || fresh(m)
  {
    var filtered := MatcherObjects.FilterMatchers(E, namespaceSet, selector.LabelMatchers);
    selector.LabelMatchers := filtered;
  }

  /** The visitor's assignment, seen from the node that holds the selector. */
  method VisitVector(E: Engine, namespaceSet: Set, n: Node)
    requires AreNamespaceNames(namespaceSet) && n.VectorNode? && AreOwned(E, Selectors(n))
    modifies Selectors(n), MatchersOf(Selectors(n))
    ensures AreOwned(E, Selectors(n))
    ensures forall m | m in MatchersOf(Selectors(n)) :: m in old(MatchersOf(Selectors(n))) || fresh(m)
    ensures ExprOf(n) == Walk(E, namespaceSet, old(ExprOf(n))).result
  {
    RewriteSelector(E, namespaceSet, n.selector);
  }

  /** `parser.Inspect` with the visitor of `ModifyExpression`: the node first, then its children; an error stops the walk. */
  method Inspect(E: Engine, namespaceSet: Set, n: Node) returns (finished: bool)
    requires AreNamespaceNames(namespaceSet) && IsTree(n) && AreOwned(E, Selectors(n))
    modifies Selectors(n), MatchersOf(Selectors(n))
    ensures AreOwned(E, Selectors(n))
    ensures forall m | m in MatchersOf(Selectors(n)) :: m in old(MatchersOf(Selectors(n))) || fresh(m)
    ensures ExprOf(n) == Walk(E, namespaceSet, old(ExprOf(n))).result
    ensures finished == Walk(E, namespaceSet, old(ExprOf(n))).finished
    decreases n, 1
  {
    match n {
      case NumberNode(_) => finished := true;
      case StringNode(_) => finished := true;
      case VectorNode(_) =>
        VisitVector(E, namespaceSet, n);
        finished := true;
      case MatrixNode(vector, _) =>
        if !vector.VectorNode? {
          return false;
        }
        VisitVector(E, namespaceSet, vector);
        finished := Inspect(E, namespaceSet, vector);
      case OperatorNode(_, args) =>
        finished := InspectAll(E, namespaceSet, args);
      case SubqueryNode(inner, _, _, _) =>
        finished := Inspect(E, namespaceSet, inner);
    }
  }

  method InspectAll(E: Engine, namespaceSet: Set, ns: seq<Node>) returns (finished: bool)
    requires AreNamespaceNames(namespaceSet) && AreTrees(ns) && AreOwned(E, SelectorsOfAll(ns))
    modifies SelectorsOfAll(ns), MatchersOf(SelectorsOfAll(ns))
    ensures AreOwned(E, SelectorsOfAll(ns))
    ensures forall m | m in MatchersOf(SelectorsOfAll(ns)) :: m in old(MatchersOf(SelectorsOfAll(ns))) || fresh(m)
    ensures ExprsOf(ns) == WalkAll(E, namespaceSet, old(ExprsOf(ns))).result
    ensures finished == WalkAll(E, namespaceSet, old(ExprsOf(ns))).finished
    decreases ns, 0
  {
    if ns == [] {
      return true;
    }
    SplitOwnership(E, Selectors(ns[0]), SelectorsOfAll(ns[1..]));
    finished := InspectFirst(E, namespaceSet, ns[0], ns[1..]);
    if finished {
      finished := InspectRest(E, namespaceSet, ns[0], ns[1..]);
    }
    JoinOwnership(E, Selectors(ns[0]), SelectorsOfAll(ns[1..]));
  }

  ghost predicate AreApart(E: Engine, n: Node, ns: seq<Node>)
    reads Selectors(n), MatchersOf(Selectors(n)), SelectorsOfAll(ns), MatchersOf(SelectorsOfAll(ns))
  {
    && AreOwned(E, Selectors(n)) && AreOwned(E, SelectorsOfAll(ns))
    && Selectors(n) !! SelectorsOfAll(ns)
    && MatchersOf(Selectors(n)) !! MatchersOf(SelectorsOfAll(ns))
  }

  /** `Inspect` on a node, next to siblings it does not touch. */
  method InspectFirst(E: Engine, namespaceSet: Set, n: Node, ghost siblings: seq<Node>) returns (finished: bool)
    requires AreNamespaceNames(namespaceSet) && IsTree(n) && AreApart(E, n, siblings)
    modifies Selectors(n), MatchersOf(Selectors(n))
    ensures AreApart(E, n, siblings)
    ensures MatchersOf(SelectorsOfAll(siblings)) == old(MatchersOf(SelectorsOfAll(siblings)))
    ensures ExprsOf(siblings) == old(ExprsOf(siblings))
    ensures forall m | m in MatchersOf(Selectors(n)) :: m in old(MatchersOf(Selectors(n))) || fresh(m)
    ensures ExprOf(n) == Walk(E, namespaceSet, old(ExprOf(n))).result
    ensures finished == Walk(E, namespaceSet, old(ExprOf(n))).finished
    decreases n, 2
  {
    AllSelectorsAreAllocated(siblings);
    ghost var own, held := SelectorsOfAll(siblings), MatchersOf(SelectorsOfAll(siblings));
    finished := Inspect(E, namespaceSet, n);
    assert unchanged(own);
    assert MatchersOf(own) == held && unchanged(held);
  }

  /** `InspectAll` on siblings, next to a node it does not touch. */
  method InspectRest(E: Engine, namespaceSet: Set, ghost n: Node, siblings: seq<Node>) returns (finished: bool)
    requires AreNamespaceNames(namespaceSet) && AreTrees(siblings) && AreApart(E, n, siblings)
    modifies SelectorsOfAll(siblings), MatchersOf(SelectorsOfAll(siblings))
    ensures AreApart(E, n, siblings)
    ensures MatchersOf(Selectors(n)) == old(MatchersOf(Selectors(n)))
    ensures ExprOf(n) == old(ExprOf(n))
    ensures forall m | m in MatchersOf(SelectorsOfAll(siblings)) :: m in old(MatchersOf(SelectorsOfAll(siblings))) || fresh(m)
    ensures ExprsOf(siblings) == WalkAll(E, namespaceSet, old(ExprsOf(siblings))).result
    ensures finished == WalkAll(E, namespaceSet, old(ExprsOf(siblings))).finished
    decreases siblings, 1
  {
    SelectorsAreAllocated(n);
    ghost var own, held := Selectors(n), MatchersOf(Selectors(n));
    finished := InspectAll(E, namespaceSet, siblings);
    assert unchanged(own);
    assert MatchersOf(own) == held && unchanged(held);
  }

  /**
   * `ModifyExpression`. The returned expression is what the tree prints as; the
   * traversal's error is dropped, as `Inspect` drops it.
   */
  method ModifyExpression(E: Engine, originalExpr: Node, namespaceSet: Set) returns (modifiedExpr: Expr)
    requires AreNamespaceNames(namespaceSet) && IsTree(originalExpr) && AreOwned(E, Selectors(originalExpr))
    modifies Selectors(originalExpr), MatchersOf(Selectors(originalExpr))
    ensures modifiedExpr == ExprOf(originalExpr)
    ensures modifiedExpr == Walk(E, namespaceSet, old(ExprOf(originalExpr))).result
    ensures old(IsWellFormed(ExprOf(originalExpr))) ==>
              modifiedExpr == Rewrite(E, namespaceSet, old(ExprOf(originalExpr)))
  {
    WalkRewritesOnce(E, namespaceSet, ExprOf(originalExpr));
    var _ := Inspect(E, namespaceSet, originalExpr);
    modifiedExpr := ExprOf(originalExpr);
  }

  // ------------------------------------------------- what the parser allocates

  method ParseMatchers(E: Engine, ms: seq<Matcher>) returns (r: seq<MatcherObject>)
    requires AreValid(E, ms)
    ensures AreGood(E, r) && Views(r) == ms
    ensures forall m | m in r :: fresh(m)
  {
    r := [];
    for i := 0 to |ms|
      invariant AreGood(E, r) && Views(r) == ms[..i]
      invariant forall m | m in r :: fresh(m)
    {
      assert IsValid(E, ms[i]);
      var m := MustNewMatcher(E, ms[i].kind, ms[i].name, ms[i].value);
      AppendedIsGood(E, r, m);
      r := r + [m];
    }
  }

  /** A tree of fresh objects for any expression with valid matchers. */
  method Parse(E: Engine, e: Expr) returns (n: Node)
    requires HasValidMatchers(E, e)
    ensures IsTree(n) && AreOwned(E, Selectors(n))
    ensures fresh(Selectors(n)) && fresh(MatchersOf(Selectors(n)))
    ensures ExprOf(n) == e
    decreases e, 1
  {
    match e {
      case NumberLiteral(v) => n := NumberNode(v);
      case StringLiteral(s) => n := StringNode(s);
      case VectorSelector(name, offset, ms) =>
        var matchers := ParseMatchers(E, ms);
        var selector := new SelectorObject(name, offset, matchers);
        n := VectorNode(selector);
      case MatrixSelector(vector, range) =>
        var child := Parse(E, vector);
        n := MatrixNode(child, range);
      case Apply(op, args) =>
        var children := ParseAll(E, args);
        n := OperatorNode(op, children);
      case Subquery(inner, range, offset, step) =>
        var child := Parse(E, inner);
        n := SubqueryNode(child, range, offset, step);
    }
  }

  method ParseAll(E: Engine, es: seq<Expr>) returns (ns: seq<Node>)
    requires forall e | e in es :: HasValidMatchers(E, e)
    ensures AreTrees(ns) && AreOwned(E, SelectorsOfAll(ns))
    ensures fresh(SelectorsOfAll(ns)) && fresh(MatchersOf(SelectorsOfAll(ns)))
    ensures ExprsOf(ns) == es
    decreases es, 0
  {
    if es == [] {
      return [];
    }
    var first := Parse(E, es[0]);
    var rest := ParseRest(E, first, es[1..]);
    JoinOwnership(E, Selectors(first), SelectorsOfAll(rest));
    ns := [first] + rest;
    assert ns[1..] == rest;
  }

  /** `ParseAll` on what follows a tree that is already there. */
  method ParseRest(E: Engine, ghost n: Node, es: seq<Expr>) returns (siblings: seq<Node>)
    requires IsTree(n) && AreOwned(E, Selectors(n))
    requires forall e | e in es :: HasValidMatchers(E, e)
    ensures AreTrees(siblings) && AreApart(E, n, siblings)
    ensures fresh(SelectorsOfAll(siblings)) && fresh(MatchersOf(SelectorsOfAll(siblings)))
    ensures MatchersOf(Selectors(n)) == old(MatchersOf(Selectors(n)))
    ensures ExprOf(n) == old(ExprOf(n)) && ExprsOf(siblings) == es
    decreases es, 1
  {
    SelectorsAreAllocated(n);
    ghost var own, held := Selectors(n), MatchersOf(Selectors(n));
    siblings := ParseAll(E, es);
    assert unchanged(own);
    assert MatchersOf(own) == held && unchanged(held);
  }
}
