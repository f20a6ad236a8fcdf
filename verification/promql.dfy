/**
 * PromQL expressions as values, what they evaluate to, and what
 * `pkg/prom/modify.go` turns them into.
 */
module PromQL {
  import opened Wrappers
  import opened Data
  import opened Matchers
  import opened Storage
  import Absent

  datatype ValueType = ScalarType | VectorType | MatrixType | StringType | NoneType

  /** The inner nodes of the syntax tree other than matrix selectors and subqueries. */
  datatype Operator =
    | CallOp(func: string, resultType: ValueType)
    | AggregateOp(op: string, grouping: seq<string>, without: bool)
    | BinaryOp(op: string, matching: string)
    | UnaryOp(op: string)
    | ParenOp

  /** `args` are the children in the order of the library's traversal. */
  datatype Expr =
    | NumberLiteral(v: real)
    | StringLiteral(s: string)
    | VectorSelector(name: string, offset: int, matchers: seq<Matcher>)
    | MatrixSelector(vector: Expr, range: int)
    | Apply(op: Operator, args: seq<Expr>)
    | Subquery(inner: Expr, range: int, offset: int, step: int)

  /** The type of an operator's value, from the types of its arguments. */
  function OperatorType(op: Operator, types: seq<ValueType>): ValueType {
    match op
    case CallOp(_, resultType) => resultType
    case AggregateOp(_, _, _) => VectorType
    case BinaryOp(_, _) => if types == [ScalarType, ScalarType] then ScalarType else VectorType
    case _ => if |types| == 1 then types[0] else NoneType
  }

  /** `Expr.Type` of the parser. */
  function TypeOf(e: Expr): ValueType
    decreases e, 1
  {
    match e
    case NumberLiteral(_) => ScalarType
    case StringLiteral(_) => StringType
    case VectorSelector(_, _, _) => VectorType
    case MatrixSelector(_, _) => MatrixType
    case Subquery(_, _, _, _) => MatrixType
    case Apply(op, args) => OperatorType(op, TypesOf(args))
  }

  function TypesOf(es: seq<Expr>): seq<ValueType>
    decreases es, 0
  {
    if es == [] then [] else [TypeOf(es[0])] + TypesOf(es[1..])
  }

  /** The calls whose value depends on the matchers written in their argument. */
  predicate IsAbsentLike(op: Operator) {
    op.CallOp? && op.func in {"absent", "absent_over_time"}
  }

  /** The engine takes the parentheses off the arguments of a call. */
  function Unwrap(e: Expr): Expr {
    if e.Apply? && e.op.ParenOp? && |e.args| == 1 then Unwrap(e.args[0]) else e
  }

  /** The matchers an absent-like call reads: those of a selector that is its argument, and none below anything else. */
  function ReadMatchers(arg: Expr): Option<seq<Matcher>> {
    match Unwrap(arg)
    case VectorSelector(_, _, ms) => Some(ms)
    case MatrixSelector(VectorSelector(_, _, ms), _) => Some(ms)
    case _ => None
  }

  /** The labels an absent-like call gives to its result. */
  function AbsentLabels(arg: Expr): map<string, string> {
    match ReadMatchers(arg)
    case None => map[]
    case Some(ms) => Absent.AbsentLabels(ms)
  }

  /** The syntax with all matchers erased: all that other operators may look at. */
  function Skeleton(e: Expr): Expr
    decreases e, 1
  {
    match e
    case VectorSelector(name, offset, _) => VectorSelector(name, offset, [])
    case MatrixSelector(vector, range) => MatrixSelector(Skeleton(vector), range)
    case Apply(op, args) => Apply(op, SkeletonAll(args))
    case Subquery(inner, range, offset, step) => Subquery(Skeleton(inner), range, offset, step)
    case _ => e
  }

  function SkeletonAll(es: seq<Expr>): seq<Expr>
    decreases es, 0
  {
    if es == [] then [] else [Skeleton(es[0])] + SkeletonAll(es[1..])
  }

  // ------------------------------------------------------------- evaluation

  /** `t` is the sample's own time, which `timestamp` reads. */
  datatype Sample = Sample(labels: map<string, string>, t: int, v: real)

  datatype Row = Row(labels: map<string, string>, points: seq<Point>)

  datatype Value = Scalar(v: real) | Text(s: string) | Vector(samples: seq<Sample>) | Matrix(rows: seq<Row>)

  /**
   * The query engine, arbitrary but for selection, parentheses and absent-like calls:
   * the sample and the window of one series, the steps of a subquery, and every other
   * operator, which sees its arguments' values and skeletons.
   */
  datatype Interpretation = Interpretation(
    sample: (Series, int) -> Option<Point>,
    window: (Series, int, int) -> seq<Point>,
    steps: (int, int, int, int) -> seq<int>,
    gather: (Expr, seq<int>, seq<Value>) -> Value,
    operator: (Operator, seq<Expr>, seq<Value>, int) -> Value
  )

  predicate IsEmpty(v: Value) {
    match v
    case Vector(samples) => samples == []
    case Matrix(rows) => forall r | r in rows :: r.points == []
    case _ => false
  }

  /** `absent` and `absent_over_time`: nothing if the argument has a sample, else one sample with the labels read from it. */
  function AbsentValue(args: seq<Expr>, vs: seq<Value>, t: int): Value {
    if args != [] && vs != [] && IsEmpty(vs[0]) then Vector([Sample(AbsentLabels(args[0]), t, 1.0)]) else Vector([])
  }

  function Instant(I: Interpretation, db: Database, t: int): seq<Sample> {
    if db == [] then []
    else
      match I.sample(db[0], t)
      case None => Instant(I, db[1..], t)
      case Some(p) => [Sample(db[0].labels, p.time, p.value)] + Instant(I, db[1..], t)
  }

  function Window(I: Interpretation, db: Database, t: int, range: int): seq<Row> {
    if db == [] then []
    else
      var points := I.window(db[0], t - range, t);
      if points == [] then Window(I, db[1..], t, range)
      else [Row(db[0].labels, points)] + Window(I, db[1..], t, range)
  }

  function Eval(E: Engine, I: Interpretation, db: Database, e: Expr, t: int): Value
    decreases e, 1, 0
  {
    match e
    case NumberLiteral(v) => Scalar(v)
    case StringLiteral(s) => Text(s)
    case VectorSelector(_, offset, ms) => Vector(Instant(I, Select(E, db, ms), t - offset))
    case MatrixSelector(vector, range) =>
      if vector.VectorSelector? then Matrix(Window(I, Select(E, db, vector.matchers), t - vector.offset, range))
      else Matrix([])
    case Apply(op, args) =>
      var vs := EvalAll(E, I, db, args, t);
      if IsAbsentLike(op) then AbsentValue(args, vs, t)
      else if op.ParenOp? && |vs| == 1 then vs[0]
      else I.operator(op, SkeletonAll(args), vs, t)
    case Subquery(inner, range, offset, step) =>
      var ts := I.steps(t, range, offset, step);
      I.gather(Skeleton(e), ts, EvalAt(E, I, db, inner, ts))
  }

  function EvalAll(E: Engine, I: Interpretation, db: Database, es: seq<Expr>, t: int): seq<Value>
    decreases es, 0, 0
  {
    if es == [] then [] else [Eval(E, I, db, es[0], t)] + EvalAll(E, I, db, es[1..], t)
  }

  /** The values of one expression at each of `ts`. */
  function EvalAt(E: Engine, I: Interpretation, db: Database, e: Expr, ts: seq<int>): seq<Value>
    decreases e, 2, |ts|
  {
    if ts == [] then [] else [Eval(E, I, db, e, ts[0])] + EvalAt(E, I, db, e, ts[1..])
  }

  // ------------------------------------------------------------------ types

  function KindOf(v: Value): ValueType {
    match v
    case Scalar(_) => ScalarType
    case Text(_) => StringType
    case Vector(_) => VectorType
    case Matrix(_) => MatrixType
  }

  function KindsOf(vs: seq<Value>): seq<ValueType> {
    if vs == [] then [] else [KindOf(vs[0])] + KindsOf(vs[1..])
  }

  /** A query engine whose operators return values of the types the parser gives them. */
  ghost predicate RespectsTypes(I: Interpretation) {
    && (forall op, es, vs, t | !OperatorType(op, KindsOf(vs)).NoneType? ::
          KindOf(I.operator(op, es, vs, t)) == OperatorType(op, KindsOf(vs)))
    && (forall e, ts, vs :: I.gather(e, ts, vs).Matrix?)
  }

  /** Every node has a type, and absent-like calls turn one vector or matrix into a vector, as in all that the parser returns. */
  predicate IsTyped(e: Expr) {
    match e
    case Apply(op, args) =>
      && !TypeOf(e).NoneType?
      && (IsAbsentLike(op) ==> TypeOf(e).VectorType? && TypesOf(args) in {[VectorType], [MatrixType]})
      && forall a | a in args :: IsTyped(a)
    case Subquery(inner, _, _, _) => IsTyped(inner)
    case _ => true
  }

  /** The type the parser reports is the type of the value, on every database. */
  lemma {:induction false} ValuesHaveTheirType(E: Engine, I: Interpretation, db: Database, e: Expr, t: int)
    requires RespectsTypes(I) && IsTyped(e)
    ensures KindOf(Eval(E, I, db, e, t)) == TypeOf(e)
    decreases e, 1
  {
    match e
    case Apply(_, args) => AllValuesHaveTheirType(E, I, db, args, t);
    case _ =>
  }

  lemma {:induction false} AllValuesHaveTheirType(E: Engine, I: Interpretation, db: Database, es: seq<Expr>, t: int)
    requires RespectsTypes(I) && forall e | e in es :: IsTyped(e)
    ensures KindsOf(EvalAll(E, I, db, es, t)) == TypesOf(es)
    decreases es, 0
  {
    if es != [] {
      ValuesHaveTheirType(E, I, db, es[0], t);
      AllValuesHaveTheirType(E, I, db, es[1..], t);
      assert EvalAll(E, I, db, es, t)[1..] == EvalAll(E, I, db, es[1..], t);
    }
  }

  // -------------------------------------------------------------- rewriting

  /** The intended rewriting: every selector, once. */
  ghost function Rewrite(E: Engine, ns: Set, e: Expr): Expr
    decreases e, 1
  {
    match e
    case VectorSelector(_, _, ms) => e.(matchers := FilterMatchers(E, ns, ms))
    case MatrixSelector(vector, range) => MatrixSelector(Rewrite(E, ns, vector), range)
    case Apply(op, args) => Apply(op, RewriteAll(E, ns, args))
    case Subquery(inner, range, offset, step) => Subquery(Rewrite(E, ns, inner), range, offset, step)
    case _ => e
  }

  ghost function RewriteAll(E: Engine, ns: Set, es: seq<Expr>): seq<Expr>
    decreases es, 0
  {
    if es == [] then [] else [Rewrite(E, ns, es[0])] + RewriteAll(E, ns, es[1..])
  }

  /** What a traversal leaves, and whether it ran to the end. */
  datatype Walked<T> = Walked(result: T, finished: bool)

  /**
   * The traversal of `ModifyExpression`: a pre-order walk whose visitor rewrites the
   * inner selector at a matrix node and then again at the selector itself, and which
   * stops for good at a matrix node that holds anything else.
   */
  ghost function Walk(E: Engine, ns: Set, e: Expr): Walked<Expr>
    decreases e, 1
  {
    match e
    case VectorSelector(_, _, ms) => Walked(e.(matchers := FilterMatchers(E, ns, ms)), true)
    case MatrixSelector(vector, range) =>
      if vector.VectorSelector? then
        var atMatrix := FilterMatchers(E, ns, vector.matchers);
        var atVector := FilterMatchers(E, ns, atMatrix);
        Walked(MatrixSelector(vector.(matchers := atVector), range), true)
      else Walked(e, false)
    case Apply(op, args) =>
      var children := WalkAll(E, ns, args);
      Walked(Apply(op, children.result), children.finished)
    case Subquery(inner, range, offset, step) =>
      var child := Walk(E, ns, inner);
      Walked(Subquery(child.result, range, offset, step), child.finished)
    case _ => Walked(e, true)
  }

  ghost function WalkAll(E: Engine, ns: Set, es: seq<Expr>): Walked<seq<Expr>>
    decreases es, 0
  {
    if es == [] then Walked([], true)
    else
      var first := Walk(E, ns, es[0]);
      if !first.finished then Walked([first.result] + es[1..], false)
      else
        var rest := WalkAll(E, ns, es[1..]);
        Walked([first.result] + rest.result, rest.finished)
  }

  /** What the parser guarantees: a matrix node holds a vector selector. */
  predicate IsWellFormed(e: Expr) {
    match e
    case MatrixSelector(vector, _) => vector.VectorSelector?
    case Apply(_, args) => forall a | a in args :: IsWellFormed(a)
    case Subquery(inner, _, _, _) => IsWellFormed(inner)
    case _ => true
  }

  /** Double visits are harmless: the walk leaves what one visit per selector leaves, and finishes on exactly the well-formed expressions. */
  lemma {:induction false} WalkRewritesOnce(E: Engine, ns: Set, e: Expr)
    requires AreNamespaceNames(ns)
    ensures Walk(E, ns, e).finished <==> IsWellFormed(e)
    ensures IsWellFormed(e) ==> Walk(E, ns, e).result == Rewrite(E, ns, e)
    decreases e, 1
  {
    match e
    case MatrixSelector(vector, _) =>
      if vector.VectorSelector? {
        FilteringIsIdempotent(E, ns, vector.matchers);
      }
    case Apply(_, args) => WalkAllRewritesOnce(E, ns, args);
    case Subquery(inner, _, _, _) => WalkRewritesOnce(E, ns, inner);
    case _ =>
  }

  lemma {:induction false} WalkAllRewritesOnce(E: Engine, ns: Set, es: seq<Expr>)
    requires AreNamespaceNames(ns)
    ensures WalkAll(E, ns, es).finished <==> forall e | e in es :: IsWellFormed(e)
    ensures WalkAll(E, ns, es).finished ==> WalkAll(E, ns, es).result == RewriteAll(E, ns, es)
    decreases es, 0
  {
    if es != [] {
      WalkRewritesOnce(E, ns, es[0]);
      WalkAllRewritesOnce(E, ns, es[1..]);
      assert forall e :: e in es <==> e == es[0] || e in es[1..];
    }
  }

  lemma {:induction false} SkeletonIsKept(E: Engine, ns: Set, e: Expr)
    ensures Skeleton(Rewrite(E, ns, e)) == Skeleton(e)
    decreases e, 1
  {
    match e
    case MatrixSelector(vector, _) => SkeletonIsKept(E, ns, vector);
    case Apply(_, args) => SkeletonsAreKept(E, ns, args);
    case Subquery(inner, _, _, _) => SkeletonIsKept(E, ns, inner);
    case _ =>
  }

  lemma {:induction false} SkeletonsAreKept(E: Engine, ns: Set, es: seq<Expr>)
    ensures SkeletonAll(RewriteAll(E, ns, es)) == SkeletonAll(es)
    decreases es, 0
  {
    if es != [] {
      SkeletonIsKept(E, ns, es[0]);
      SkeletonsAreKept(E, ns, es[1..]);
      assert RewriteAll(E, ns, es)[1..] == RewriteAll(E, ns, es[1..]);
    }
  }

  /** Types are a matter of the skeleton. */
  lemma {:induction false} SkeletonHasTheType(e: Expr)
    ensures TypeOf(Skeleton(e)) == TypeOf(e)
    ensures IsTyped(Skeleton(e)) <==> IsTyped(e)
    decreases e, 1
  {
    match e
    case Apply(_, args) => SkeletonsHaveTheTypes(args);
    case Subquery(inner, _, _, _) => SkeletonHasTheType(inner);
    case _ =>
  }

  lemma {:induction false} SkeletonsHaveTheTypes(es: seq<Expr>)
    ensures TypesOf(SkeletonAll(es)) == TypesOf(es)
    ensures (forall e | e in SkeletonAll(es) :: IsTyped(e)) <==> (forall e | e in es :: IsTyped(e))
    decreases es, 0
  {
    if es != [] {
      SkeletonHasTheType(es[0]);
      SkeletonsHaveTheTypes(es[1..]);
      var skeletons := SkeletonAll(es);
      assert skeletons[1..] == SkeletonAll(es[1..]);
      assert forall e :: e in es <==> e == es[0] || e in es[1..];
      assert forall e :: e in skeletons <==> e == skeletons[0] || e in skeletons[1..];
    }
  }

  /** Rewriting changes neither the type of an expression nor that it has one. */
  lemma TypeIsKept(E: Engine, ns: Set, e: Expr)
    ensures TypeOf(Rewrite(E, ns, e)) == TypeOf(e)
    ensures IsTyped(Rewrite(E, ns, e)) <==> IsTyped(e)
  {
    SkeletonIsKept(E, ns, e);
    SkeletonHasTheType(e);
    SkeletonHasTheType(Rewrite(E, ns, e));
  }

  /** Rewriting by `t` and then by `s` is rewriting once by the intersection. */
  lemma {:induction false} RewritesCompose(E: Engine, s: set<string>, t: set<string>, e: Expr)
    requires AreNamespaceNames(MapSet(s)) && AreNamespaceNames(MapSet(t))
    ensures Rewrite(E, MapSet(s), Rewrite(E, MapSet(t), e)) == Rewrite(E, MapSet(s * t), e)
    decreases e, 1
  {
    match e
    case VectorSelector(_, _, ms) => FiltersCompose(E, s, t, ms);
    case MatrixSelector(vector, _) => RewritesCompose(E, s, t, vector);
    case Apply(_, args) => RewritesOfAllCompose(E, s, t, args);
    case Subquery(inner, _, _, _) => RewritesCompose(E, s, t, inner);
    case _ =>
  }

  lemma {:induction false} RewritesOfAllCompose(E: Engine, s: set<string>, t: set<string>, es: seq<Expr>)
    requires AreNamespaceNames(MapSet(s)) && AreNamespaceNames(MapSet(t))
    ensures RewriteAll(E, MapSet(s), RewriteAll(E, MapSet(t), es)) == RewriteAll(E, MapSet(s * t), es)
    decreases es, 0
  {
    if es != [] {
      RewritesCompose(E, s, t, es[0]);
      RewritesOfAllCompose(E, s, t, es[1..]);
      assert RewriteAll(E, MapSet(t), es)[1..] == RewriteAll(E, MapSet(t), es[1..]);
    }
  }

  // ---------------------------------------------------------------- matchers

  /** Every matcher of the expression is one the parser can build. */
  ghost predicate HasValidMatchers(E: Engine, e: Expr) {
    match e
    case VectorSelector(_, _, ms) => AreValid(E, ms)
    case MatrixSelector(vector, _) => HasValidMatchers(E, vector)
    case Apply(_, args) => forall a | a in args :: HasValidMatchers(E, a)
    case Subquery(inner, _, _, _) => HasValidMatchers(E, inner)
    case _ => true
  }
}
