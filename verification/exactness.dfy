/**
 * Where rewriting does not keep the meaning of an expression: the conditions of
 * `Meaning` are necessary, and are conditions on the matchers of the expression.
 */
module Exactness {
  import opened Wrappers
  import opened Data
  import opened Matchers
  import opened Storage
  import opened PromQL
  import opened Printing
  import opened Meaning
  import Absent

  // --------------------------------------- a condition on the original matchers

  /** An absent-like call on this argument has the same labels after rewriting, in whatever order the matchers are printed. */
  ghost predicate KeepsPrintedLabels(E: Engine, ns: Set, arg: Expr) {
    match ReadMatchers(arg)
    case None => true
    case Some(ms) =>
      Absent.KeepsAbsentLabels(E, ns.Keys(), ms) && Absent.IsOrderFree(FilterMatchers(E, ns, ms))
  }

  /** Every absent-like call whose labels reach the value keeps them. */
  ghost predicate IsAbsentStable(E: Engine, ns: Set, e: Expr, whole: bool)
    decreases e, 1
  {
    match e
    case Apply(op, args) =>
      if IsAbsentLike(op) then
        args != [] ==> (whole ==> KeepsPrintedLabels(E, ns, args[0])) && IsAbsentStable(E, ns, args[0], false)
      else if op.ParenOp? && |args| == 1 then IsAbsentStable(E, ns, args[0], whole)
      else AreAbsentStable(E, ns, args)
    case Subquery(inner, _, _, _) => IsAbsentStable(E, ns, inner, true)
    case _ => true
  }

  ghost predicate AreAbsentStable(E: Engine, ns: Set, es: seq<Expr>)
    decreases es, 0
  {
    es == [] || (IsAbsentStable(E, ns, es[0], true) && AreAbsentStable(E, ns, es[1..]))
  }

  lemma {:induction false} ReadMatchersAreValid(E: Engine, arg: Expr)
    requires HasValidMatchers(E, arg) && ReadMatchers(arg).Some?
    ensures AreValid(E, ReadMatchers(arg).value)
  {
    if arg.Apply? && arg.op.ParenOp? && |arg.args| == 1 {
      assert HasValidMatchers(E, arg.args[0]);
      ReadMatchersAreValid(E, arg.args[0]);
    }
  }

  lemma PrintedLabelsAreKept(E: Engine, ns: Set, arg: Expr, p: Expr)
    requires ns.MapSet? && AreNamespaceNames(ns) && HasValidMatchers(E, arg)
    requires IsPrinted(E, ns, arg, p) && KeepsPrintedLabels(E, ns, arg)
    ensures AbsentLabels(p) == AbsentLabels(arg)
  {
    PrintedReads(E, ns, arg, p);
    if ReadMatchers(arg).Some? {
      var ms := ReadMatchers(arg).value;
      var filtered := FilterMatchers(E, ns, ms);
      var name :| multiset(ReadMatchers(p).value) == multiset(PrintedMatchers(name, filtered));
      ReadMatchersAreValid(E, arg);
      Absent.LabelsAreKeptIff(E, ns.keys, ms);
      PrintedLabels(name, filtered);
      Absent.OrderFreeKeepsLabels(PrintedMatchers(name, filtered), ReadMatchers(p).value);
    }
  }

  lemma {:induction false} StableKeepsLabels(E: Engine, ns: Set, e: Expr, p: Expr, whole: bool)
    requires ns.MapSet? && AreNamespaceNames(ns) && HasValidMatchers(E, e)
    requires IsPrinted(E, ns, e, p) && IsAbsentStable(E, ns, e, whole)
    ensures KeepsLabels(e, p, whole)
    decreases e, 1
  {
    match e
    case Apply(op, args) =>
      PrintedSkeletons(E, ns, args, p.args);
      if IsAbsentLike(op) {
        if args != [] {
          StableKeepsLabels(E, ns, args[0], p.args[0], false);
          if whole {
            PrintedLabelsAreKept(E, ns, args[0], p.args[0]);
          }
        }
      } else if op.ParenOp? && |args| == 1 {
        StableKeepsLabels(E, ns, args[0], p.args[0], whole);
      } else {
        StableKeepAllLabels(E, ns, args, p.args);
      }
    case Subquery(inner, _, _, _) => StableKeepsLabels(E, ns, inner, p.inner, true);
    case _ =>
  }

  lemma {:induction false} StableKeepAllLabels(E: Engine, ns: Set, es: seq<Expr>, ps: seq<Expr>)
    requires ns.MapSet? && AreNamespaceNames(ns) && forall e | e in es :: HasValidMatchers(E, e)
    requires ArePrinted(E, ns, es, ps) && AreAbsentStable(E, ns, es)
    ensures AllKeepLabels(es, ps)
    decreases es, 0
  {
    if es != [] {
      StableKeepsLabels(E, ns, es[0], ps[0], true);
      StableKeepAllLabels(E, ns, es[1..], ps[1..]);
    }
  }

  lemma VectorPrintedWith(E: Engine, ns: Set, arg: Expr, order: seq<Matcher>) returns (p: Expr)
    requires arg.VectorSelector? && multiset(order) == multiset(FilterMatchers(E, ns, arg.matchers))
    ensures IsPrinted(E, ns, arg, p) && p.VectorSelector? && Absent.AbsentLabels(p.matchers) == Absent.AbsentLabels(order)
  {
    p := arg.(matchers := PrintedMatchers(arg.name, order));
    ReorderedIsPrinted(arg.name, order, FilterMatchers(E, ns, arg.matchers));
    PrintedLabels(arg.name, order);
  }

  lemma MatrixPrintedWith(E: Engine, ns: Set, arg: Expr, order: seq<Matcher>) returns (p: Expr)
    requires arg.MatrixSelector? && arg.vector.VectorSelector?
    requires multiset(order) == multiset(FilterMatchers(E, ns, arg.vector.matchers))
    ensures IsPrinted(E, ns, arg, p) && AbsentLabels(p) == Absent.AbsentLabels(order)
  {
    var q := VectorPrintedWith(E, ns, arg.vector, order);
    p := MatrixSelector(q, arg.range);
    MatrixLabels(q, arg.range);
  }

  lemma MatrixLabels(q: Expr, range: int)
    requires q.VectorSelector?
    ensures AbsentLabels(MatrixSelector(q, range)) == Absent.AbsentLabels(q.matchers)
  {
    assert Unwrap(MatrixSelector(q, range)) == MatrixSelector(q, range);
  }

  lemma ParenPrinted(E: Engine, ns: Set, op: Operator, arg: Expr, q: Expr)
    requires IsPrinted(E, ns, arg, q)
    ensures IsPrinted(E, ns, Apply(op, [arg]), Apply(op, [q]))
  {
    assert ArePrinted(E, ns, [arg], [q]) by {
      assert [arg][1..] == [] && [q][1..] == [];
    }
  }

  lemma ParenLabels(q: Expr)
    ensures AbsentLabels(Apply(ParenOp, [q])) == AbsentLabels(q)
  {
  }

  /** A printing of the argument with the matchers it reads in the given order. */
  lemma {:induction false} PrintingWith(E: Engine, ns: Set, arg: Expr, order: seq<Matcher>) returns (p: Expr)
    requires ReadMatchers(arg).Some? && multiset(order) == multiset(FilterMatchers(E, ns, ReadMatchers(arg).value))
    ensures IsPrinted(E, ns, arg, p) && AbsentLabels(p) == Absent.AbsentLabels(order)
  {
    if arg.Apply? {
      assert arg.op.ParenOp? && arg.args == [arg.args[0]];
      var q := PrintingWith(E, ns, arg.args[0], order);
      ParenPrinted(E, ns, ParenOp, arg.args[0], q);
      ParenLabels(q);
      p := Apply(ParenOp, [q]);
    } else if arg.MatrixSelector? {
      p := MatrixPrintedWith(E, ns, arg, order);
    } else {
      p := VectorPrintedWith(E, ns, arg, order);
    }
  }

  /** An unstable expression has a printing with other labels. */
  lemma {:induction false} UnstableHasPrinting(E: Engine, ns: Set, e: Expr, whole: bool) returns (p: Expr)
    requires ns.MapSet? && AreNamespaceNames(ns) && HasValidMatchers(E, e)
    requires !IsAbsentStable(E, ns, e, whole)
    ensures IsPrinted(E, ns, e, p) && !KeepsLabels(e, p, whole)
    decreases e, 1
  {
    match e {
      case Apply(op, args) =>
        if IsAbsentLike(op) || (op.ParenOp? && |args| == 1) {
          var q: Expr;
          if IsAbsentLike(op) && whole && !KeepsPrintedLabels(E, ns, args[0]) {
            q := UnkeptLabels(E, ns, args[0]);
          } else {
            q := UnstableHasPrinting(E, ns, args[0], whole && !IsAbsentLike(op));
          }
          p := Apply(op, [q] + PrintAll(RewriteAll(E, ns, args[1..])));
          AllPrintedArePrinted(E, ns, args[1..]);
          assert p.args[1..] == PrintAll(RewriteAll(E, ns, args[1..]));
        } else {
          var ps := UnstableHavePrintings(E, ns, args);
          p := Apply(op, ps);
        }
      case Subquery(inner, range, offset, step) =>
        var q := UnstableHasPrinting(E, ns, inner, true);
        p := Subquery(q, range, offset, step);
    }
  }

  lemma UnkeptLabels(E: Engine, ns: Set, arg: Expr) returns (p: Expr)
    requires ns.MapSet? && AreNamespaceNames(ns) && HasValidMatchers(E, arg)
    requires !KeepsPrintedLabels(E, ns, arg)
    ensures IsPrinted(E, ns, arg, p) && AbsentLabels(p) != AbsentLabels(arg)
  {
    var ms := ReadMatchers(arg).value;
    ReadMatchersAreValid(E, arg);
    Absent.PrintedLabelsAreKeptIff(E, ns.keys, ms);
    var printed :| multiset(printed) == multiset(FilterMatchers(E, ns, ms))
                   && Absent.AbsentLabels(printed) != Absent.AbsentLabels(ms);
    p := PrintingWith(E, ns, arg, printed);
  }

  lemma {:induction false} UnstableHavePrintings(E: Engine, ns: Set, es: seq<Expr>) returns (ps: seq<Expr>)
    requires ns.MapSet? && AreNamespaceNames(ns) && forall e | e in es :: HasValidMatchers(E, e)
    requires !AreAbsentStable(E, ns, es)
    ensures ArePrinted(E, ns, es, ps) && !AllKeepLabels(es, ps)
    decreases es, 0
  {
    if !IsAbsentStable(E, ns, es[0], true) {
      var q := UnstableHasPrinting(E, ns, es[0], true);
      AllPrintedArePrinted(E, ns, es[1..]);
      ps := [q] + PrintAll(RewriteAll(E, ns, es[1..]));
      assert ps[1..] == PrintAll(RewriteAll(E, ns, es[1..]));
    } else {
      var rest := UnstableHavePrintings(E, ns, es[1..]);
      PrintIsPrinted(E, ns, es[0]);
      ps := [Print(Rewrite(E, ns, es[0]))] + rest;
      assert ps[1..] == rest;
    }
  }

  /**
   * All printings of the rewritten expression keep the labels that reach its value if
   * and only if the condition on its matchers holds.
   */
  lemma EveryPrintingKeepsLabelsIff(E: Engine, ns: Set, e: Expr, whole: bool)
    requires ns.MapSet? && AreNamespaceNames(ns) && HasValidMatchers(E, e)
    ensures (forall p | IsPrinted(E, ns, e, p) :: KeepsLabels(e, p, whole)) <==> IsAbsentStable(E, ns, e, whole)
  {
    if IsAbsentStable(E, ns, e, whole) {
      forall p | IsPrinted(E, ns, e, p) ensures KeepsLabels(e, p, whole) {
        StableKeepsLabels(E, ns, e, p, whole);
      }
    } else {
      var p := UnstableHasPrinting(E, ns, e, whole);
    }
  }

  // ------------------------------------------------------ engines that can tell

  function Size(e: Expr): nat
    decreases e, 1
  {
    match e
    case MatrixSelector(vector, _) => 1 + Size(vector)
    case Apply(_, args) => 1 + SizeOfAll(args)
    case Subquery(inner, _, _, _) => 1 + Size(inner)
    case _ => 1
  }

  function SizeOfAll(es: seq<Expr>): nat
    decreases es, 0
  {
    if es == [] then 0 else Size(es[0]) + SizeOfAll(es[1..])
  }

  lemma {:induction false} SkeletonHasTheSize(e: Expr)
    ensures Size(Skeleton(e)) == Size(e)
    decreases e, 1
  {
    match e
    case MatrixSelector(vector, _) => SkeletonHasTheSize(vector);
    case Apply(_, args) => SkeletonsHaveTheSize(args);
    case Subquery(inner, _, _, _) => SkeletonHasTheSize(inner);
    case _ =>
  }

  lemma {:induction false} SkeletonsHaveTheSize(es: seq<Expr>)
    ensures SizeOfAll(SkeletonAll(es)) == SizeOfAll(es)
    decreases es, 0
  {
    if es != [] {
      SkeletonHasTheSize(es[0]);
      SkeletonsHaveTheSize(es[1..]);
      assert SkeletonAll(es)[1..] == SkeletonAll(es[1..]);
    }
  }

  /** Two values of each type; of vectors and matrices one with samples and one without. */
  function Sign(kind: ValueType, b: bool): Value {
    match kind
    case VectorType => Vector(if b then [Sample(map[], 0, 0.0)] else [])
    case MatrixType => Matrix(if b then [Row(map[], [Point(0, 0.0)])] else [])
    case StringType => Text(if b then "a" else "b")
    case _ => Scalar(if b then 1.0 else 0.0)
  }

  /** Operators respect types, and a subquery is evaluated at its own time. */
  ghost predicate IsPlainEngine(I: Interpretation) {
    RespectsTypes(I) && forall t, range, offset, step :: I.steps(t, range, offset, step) == [t]
  }

  /** Every series has a sample at every time, and some operators that respect types. */
  function SomeEngine(): Interpretation {
    Interpretation(
      (s, t) => Some(Point(t, 0.0)), (s, lo, hi) => [Point(hi, 0.0)], (t, range, offset, step) => [t],
      (e, ts, vs) => Matrix([]), (op, es, vs, t) => Sign(OperatorType(op, KindsOf(vs)), false))
  }

  /** `I`, but one application, known by its arguments' skeletons, tells one list of values from all others. */
  function TellArguments(I: Interpretation, skeletons: seq<Expr>, told: seq<Value>): Interpretation {
    I.(operator := (op, es, vs, t) =>
      if es == skeletons then Sign(OperatorType(op, KindsOf(vs)), vs == told) else I.operator(op, es, vs, t))
  }

  /** `I`, but one subquery tells one list of values from all others. */
  function TellSteps(I: Interpretation, skeleton: Expr, told: seq<Value>): Interpretation {
    I.(gather := (e, ts, vs) => if e == skeleton then Sign(MatrixType, vs == told) else I.gather(e, ts, vs))
  }

  /** Interpretations that differ at nodes of size `n` or more only. */
  ghost predicate AgreeBelow(I: Interpretation, J: Interpretation, n: nat) {
    && I.sample == J.sample && I.window == J.window && I.steps == J.steps
    && (forall op, es, vs, t | 1 + SizeOfAll(es) < n :: I.operator(op, es, vs, t) == J.operator(op, es, vs, t))
    && (forall e, ts, vs | Size(e) < n :: I.gather(e, ts, vs) == J.gather(e, ts, vs))
  }

  lemma {:induction false} SmallerIsUnaffected(
    E: Engine, I: Interpretation, J: Interpretation, db: Database, e: Expr, t: int, n: nat)
    requires AgreeBelow(I, J, n) && Size(e) < n
    ensures Eval(E, I, db, e, t) == Eval(E, J, db, e, t)
    decreases e, 1, 0
  {
    match e
    case VectorSelector(_, offset, ms) => SameSamples(I, J, Select(E, db, ms), t - offset);
    case MatrixSelector(vector, range) =>
      if vector.VectorSelector? {
        SameWindows(I, J, Select(E, db, vector.matchers), t - vector.offset, range);
      }
    case Apply(_, args) =>
      AllSmallerAreUnaffected(E, I, J, db, args, t, n);
      SkeletonsHaveTheSize(args);
    case Subquery(inner, range, offset, step) =>
      SmallerIsUnaffectedAt(E, I, J, db, inner, I.steps(t, range, offset, step), n);
      SkeletonHasTheSize(e);
    case _ =>
  }

  lemma {:induction false} SameSamples(I: Interpretation, J: Interpretation, db: Database, t: int)
    requires I.sample == J.sample
    ensures Instant(I, db, t) == Instant(J, db, t)
  {
    if db != [] {
      SameSamples(I, J, db[1..], t);
    }
  }

  lemma {:induction false} SameWindows(I: Interpretation, J: Interpretation, db: Database, t: int, range: int)
    requires I.window == J.window
    ensures Window(I, db, t, range) == Window(J, db, t, range)
  {
    if db != [] {
      SameWindows(I, J, db[1..], t, range);
    }
  }

  lemma {:induction false} AllSmallerAreUnaffected(
    E: Engine, I: Interpretation, J: Interpretation, db: Database, es: seq<Expr>, t: int, n: nat)
    requires AgreeBelow(I, J, n) && SizeOfAll(es) < n
    ensures EvalAll(E, I, db, es, t) == EvalAll(E, J, db, es, t)
    decreases es, 0, 0
  {
    if es != [] {
      SmallerIsUnaffected(E, I, J, db, es[0], t, n);
      AllSmallerAreUnaffected(E, I, J, db, es[1..], t, n);
    }
  }

  lemma {:induction false} SmallerIsUnaffectedAt(
    E: Engine, I: Interpretation, J: Interpretation, db: Database, e: Expr, ts: seq<int>, n: nat)
    requires AgreeBelow(I, J, n) && Size(e) < n
    ensures EvalAt(E, I, db, e, ts) == EvalAt(E, J, db, e, ts)
    decreases e, 2, |ts|
  {
    if ts != [] {
      SmallerIsUnaffected(E, I, J, db, e, ts[0], n);
      SmallerIsUnaffectedAt(E, I, J, db, e, ts[1..], n);
    }
  }

  /** An expression whose difference an absent-like call above it can be made to see, if one stands there. */
  predicate CanTell(e: Expr, whole: bool) {
    whole || TypeOf(e) in {VectorType, MatrixType}
  }

  lemma TellArgumentsIsPlain(I: Interpretation, skeletons: seq<Expr>, told: seq<Value>)
    requires IsPlainEngine(I)
    ensures IsPlainEngine(TellArguments(I, skeletons, told))
    ensures AgreeBelow(I, TellArguments(I, skeletons, told), 1 + SizeOfAll(skeletons))
  {
    var J := TellArguments(I, skeletons, told);
    forall op, es, vs, t | !OperatorType(op, KindsOf(vs)).NoneType?
      ensures KindOf(J.operator(op, es, vs, t)) == OperatorType(op, KindsOf(vs))
    {
      assert J.operator(op, es, vs, t)
             == if es == skeletons then Sign(OperatorType(op, KindsOf(vs)), vs == told) else I.operator(op, es, vs, t);
      assert RespectsTypes(I);
    }
  }

  /** The told application shows whether its arguments have the told values. */
  lemma ToldValue(E: Engine, I: Interpretation, db: Database, e: Expr, t: int, told: seq<Value>)
    requires IsPlainEngine(I) && IsTyped(e) && e.Apply?
    requires !IsAbsentLike(e.op) && !(e.op.ParenOp? && |e.args| == 1)
    ensures Eval(E, TellArguments(I, SkeletonAll(e.args), told), db, e, t)
            == Sign(TypeOf(e), EvalAll(E, I, db, e.args, t) == told)
  {
    var J := TellArguments(I, SkeletonAll(e.args), told);
    var vs := EvalAll(E, J, db, e.args, t);
    TellArgumentsIsPlain(I, SkeletonAll(e.args), told);
    SkeletonsHaveTheSize(e.args);
    AllSmallerAreUnaffected(E, I, J, db, e.args, t, Size(e));
    AllValuesHaveTheirType(E, I, db, e.args, t);
    ValuePerExpression(E, J, db, e.args, t);
  }

  /** A difference between the arguments of an operator can be made to show in its value. */
  lemma TellingArguments(
    E: Engine, I: Interpretation, db: Database, l: Expr, db': Database, r: Expr, t: int, whole: bool)
    returns (J: Interpretation)
    requires IsPlainEngine(I) && IsTyped(l) && IsTyped(r) && CanTell(r, whole)
    requires l.Apply? && r.Apply? && Skeleton(l) == Skeleton(r)
    requires !IsAbsentLike(r.op) && !(r.op.ParenOp? && |r.args| == 1) && |l.args| == |r.args|
    requires EvalAll(E, I, db, l.args, t) != EvalAll(E, I, db', r.args, t)
    ensures IsPlainEngine(J) && J.sample == I.sample && J.window == I.window
    ensures !Agree(Eval(E, J, db, l, t), Eval(E, J, db', r, t), whole)
  {
    var told := EvalAll(E, I, db', r.args, t);
    J := TellArguments(I, SkeletonAll(r.args), told);
    TellArgumentsIsPlain(I, SkeletonAll(r.args), told);
    ToldValue(E, I, db, l, t, told);
    ToldValue(E, I, db', r, t, told);
    SkeletonHasTheType(l);
    SkeletonHasTheType(r);
    TypedSignsDiffer(r);
  }

  lemma TypedSignsDiffer(e: Expr)
    requires IsTyped(e) && e.Apply?
    ensures CanTell(e, true) ==> Sign(TypeOf(e), true) != Sign(TypeOf(e), false)
    ensures CanTell(e, false) ==> IsEmpty(Sign(TypeOf(e), true)) != IsEmpty(Sign(TypeOf(e), false))
  {
    var full := Sign(MatrixType, true);
    assert full.rows[0] in full.rows;
  }

  lemma TellStepsIsPlain(I: Interpretation, skeleton: Expr, told: seq<Value>)
    requires IsPlainEngine(I)
    ensures IsPlainEngine(TellSteps(I, skeleton, told))
    ensures AgreeBelow(I, TellSteps(I, skeleton, told), Size(skeleton))
  {
    var J := TellSteps(I, skeleton, told);
    forall e, ts, vs ensures J.gather(e, ts, vs).Matrix? {
      assert J.gather(e, ts, vs) == if e == skeleton then Sign(MatrixType, vs == told) else I.gather(e, ts, vs);
      assert RespectsTypes(I);
    }
  }

  lemma ToldSteps(E: Engine, I: Interpretation, db: Database, e: Expr, t: int, told: Value)
    requires IsPlainEngine(I) && e.Subquery?
    ensures Eval(E, TellSteps(I, Skeleton(e), [told]), db, e, t) == Sign(MatrixType, Eval(E, I, db, e.inner, t) == told)
  {
    var J := TellSteps(I, Skeleton(e), [told]);
    TellStepsIsPlain(I, Skeleton(e), [told]);
    SkeletonHasTheSize(e);
    assert J.steps(t, e.range, e.offset, e.step) == [t];
    SmallerIsUnaffectedAt(E, I, J, db, e.inner, [t], Size(e));
    assert EvalAt(E, I, db, e.inner, [t]) == [Eval(E, I, db, e.inner, t)] by {
      assert EvalAt(E, I, db, e.inner, [t][1..]) == [];
    }
  }

  /** A difference between the values of a subquery's expression can be made to show in the subquery. */
  lemma TellingSteps(
    E: Engine, I: Interpretation, db: Database, l: Expr, db': Database, r: Expr, t: int, whole: bool)
    returns (J: Interpretation)
    requires IsPlainEngine(I) && l.Subquery? && r.Subquery? && Skeleton(l) == Skeleton(r)
    requires Eval(E, I, db, l.inner, t) != Eval(E, I, db', r.inner, t)
    ensures IsPlainEngine(J) && J.sample == I.sample && J.window == I.window
    ensures !Agree(Eval(E, J, db, l, t), Eval(E, J, db', r, t), whole)
  {
    var told := Eval(E, I, db', r.inner, t);
    J := TellSteps(I, Skeleton(r), [told]);
    TellStepsIsPlain(I, Skeleton(r), [told]);
    ToldSteps(E, I, db, l, t, told);
    ToldSteps(E, I, db', r, t, told);
    var full := Sign(MatrixType, true);
    assert full.rows[0] in full.rows;
  }

  lemma {:induction false} TypedAbsentArgument(e: Expr)
    requires IsTyped(e) && e.Apply? && IsAbsentLike(e.op)
    ensures |e.args| == 1 && TypeOf(e.args[0]) in {VectorType, MatrixType}
  {
    var types := TypesOf(e.args);
    assert |types| == 1;
    assert types == [TypeOf(e.args[0])] + TypesOf(e.args[1..]);
    assert types[0] == TypeOf(e.args[0]);
    assert TypesOf(e.args[1..]) == [];
    assert |e.args[1..]| == 0;
  }

  // ------------------------------------------------------------- necessity

  /** A selector, in parentheses or not, has no samples where there are no series. */
  lemma {:induction false} SelectorsAreEmptyOnNothing(E: Engine, I: Interpretation, arg: Expr, t: int)
    requires ReadMatchers(arg).Some?
    ensures IsEmpty(Eval(E, I, [], arg, t))
  {
    if arg.Apply? {
      SelectorsAreEmptyOnNothing(E, I, arg.args[0], t);
      SoleValue(E, I, [], arg.args, t);
    }
  }

  /** Labels that are not kept show, under some engine, where there are no series. */
  lemma {:induction false} UnkeptDiffers(E: Engine, ns: Set, e: Expr, p: Expr, t: int, whole: bool)
    returns (I: Interpretation)
    requires IsPrinted(E, ns, e, p) && IsTyped(e) && CanTell(e, whole)
    requires !KeepsLabels(e, p, whole)
    ensures IsPlainEngine(I)
    ensures !Agree(Eval(E, I, [], p, t), Eval(E, I, [], e, t), whole)
    decreases e, 1
  {
    PrintedSkeleton(E, ns, e, p);
    PrintedType(E, ns, e, p);
    match e {
      case Apply(op, args) =>
        PrintedSkeletons(E, ns, args, p.args);
        if IsAbsentLike(op) {
          TypedAbsentArgument(e);
          I := UnkeptAbsentDiffers(E, ns, e, p, t, whole);
        } else if op.ParenOp? && |args| == 1 {
          SoleType(args);
          I := UnkeptDiffers(E, ns, args[0], p.args[0], t, whole);
          SoleValue(E, I, [], args, t);
          SoleValue(E, I, [], p.args, t);
        } else {
          I := UnkeptDifferSomewhere(E, ns, args, p.args, t);
          I := TellingArguments(E, I, [], p, [], e, t, whole);
        }
      case Subquery(inner, _, _, _) =>
        I := UnkeptDiffers(E, ns, inner, p.inner, t, true);
        I := TellingSteps(E, I, [], p, [], e, t, whole);
    }
  }

  lemma SoleType(es: seq<Expr>)
    requires |es| == 1
    ensures TypesOf(es) == [TypeOf(es[0])]
  {
    assert TypesOf(es[1..]) == [];
  }

  lemma {:induction false} UnkeptAbsentDiffers(E: Engine, ns: Set, e: Expr, p: Expr, t: int, whole: bool)
    returns (I: Interpretation)
    requires IsPrinted(E, ns, e, p) && e.Apply? && IsAbsentLike(e.op) && |e.args| == |p.args| == 1
    requires IsTyped(e.args[0]) && TypeOf(e.args[0]) in {VectorType, MatrixType}
    requires !KeepsLabels(e, p, whole)
    ensures IsPlainEngine(I)
    ensures !Agree(Eval(E, I, [], p, t), Eval(E, I, [], e, t), whole)
    decreases e, 0
  {
    var arg, q := e.args[0], p.args[0];
    if !KeepsLabels(arg, q, false) {
      I := UnkeptDiffers(E, ns, arg, q, t, false);
      AbsentOfSole(E, I, e, t);
      AbsentOfSole(E, I, p, t);
    } else {
      I := SomeEngine();
      UnkeptLabelsDiffer(E, I, ns, e, p, t);
    }
  }

  /** An absent-like call of one argument, where there are no series. */
  lemma AbsentOfSole(E: Engine, I: Interpretation, e: Expr, t: int)
    requires e.Apply? && IsAbsentLike(e.op) && |e.args| == 1
    ensures Eval(E, I, [], e, t)
            == Vector(if IsEmpty(Eval(E, I, [], e.args[0], t)) then [Sample(AbsentLabels(e.args[0]), t, 1.0)] else [])
  {
    SoleValue(E, I, [], e.args, t);
  }

  lemma UnkeptLabelsDiffer(E: Engine, I: Interpretation, ns: Set, e: Expr, p: Expr, t: int)
    requires IsPrinted(E, ns, e, p) && e.Apply? && IsAbsentLike(e.op) && |e.args| == |p.args| == 1
    requires AbsentLabels(p.args[0]) != AbsentLabels(e.args[0])
    ensures Eval(E, I, [], p, t) != Eval(E, I, [], e, t)
  {
    PrintedReads(E, ns, e.args[0], p.args[0]);
    SelectorsAreEmptyOnNothing(E, I, e.args[0], t);
    SelectorsAreEmptyOnNothing(E, I, p.args[0], t);
    AbsentOfSole(E, I, e, t);
    AbsentOfSole(E, I, p, t);
    var l, r := Sample(AbsentLabels(p.args[0]), t, 1.0), Sample(AbsentLabels(e.args[0]), t, 1.0);
    assert [l][0] != [r][0];
  }

  lemma {:induction false} UnkeptDifferSomewhere(E: Engine, ns: Set, es: seq<Expr>, ps: seq<Expr>, t: int)
    returns (I: Interpretation)
    requires ArePrinted(E, ns, es, ps) && !AllKeepLabels(es, ps)
    requires forall e | e in es :: IsTyped(e)
    ensures IsPlainEngine(I)
    ensures EvalAll(E, I, [], ps, t) != EvalAll(E, I, [], es, t)
    decreases es, 0
  {
    if !KeepsLabels(es[0], ps[0], true) {
      I := UnkeptDiffers(E, ns, es[0], ps[0], t, true);
      assert EvalAll(E, I, [], ps, t)[0] != EvalAll(E, I, [], es, t)[0];
    } else {
      I := UnkeptDifferSomewhere(E, ns, es[1..], ps[1..], t);
      assert EvalAll(E, I, [], ps, t)[1..] != EvalAll(E, I, [], es, t)[1..];
    }
  }

  /** An expression with a selection that is not kept shows, under some engine, whether some series is there. */
  lemma {:induction false} LostDiffers(E: Engine, ns: Set, e: Expr, p: Expr, r: Expr, t: int, whole: bool)
    returns (I: Interpretation, s: Series)
    requires AreNamespaceNames(ns) && IsPrinted(E, ns, e, p) && (r == e || (ns.NilSet? && r == p))
    requires IsTyped(e) && IsWellFormed(e) && HasValidMatchers(E, e) && CanTell(e, whole)
    requires !KeepsSelections(E, ns, e)
    ensures IsPlainEngine(I) && SentinelFree([s])
    ensures !Agree(Eval(E, I, [s], p, t), Eval(E, I, Restrict([s], ns.Keys()), r, t), whole)
    decreases e, 1
  {
    PrintedSkeleton(E, ns, e, p);
    PrintedType(E, ns, e, p);
    match e {
      case VectorSelector(_, _, _) => I, s := LostSelectorDiffers(E, ns, e, p, r, t);
      case MatrixSelector(_, _) => I, s := LostSelectorDiffers(E, ns, e, p, r, t);
      case Apply(op, args) =>
        if IsAbsentLike(op) || (op.ParenOp? && |args| == 1) {
          I, s := LostBelowDiffers(E, ns, e, p, r, t, whole);
        } else {
          PrintedSkeletons(E, ns, args, p.args);
          I, s := LostDifferSomewhere(E, ns, args, p.args, r.args, t);
          I := TellingArguments(E, I, [s], p, Restrict([s], ns.Keys()), r, t, whole);
        }
      case Subquery(inner, _, _, _) =>
        I, s := LostDiffers(E, ns, inner, p.inner, r.inner, t, true);
        I := TellingSteps(E, I, [s], p, Restrict([s], ns.Keys()), r, t, whole);
    }
  }

  /** Absent-like calls and parentheses show what their argument shows. */
  lemma {:induction false} LostBelowDiffers(E: Engine, ns: Set, e: Expr, p: Expr, r: Expr, t: int, whole: bool)
    returns (I: Interpretation, s: Series)
    requires AreNamespaceNames(ns) && IsPrinted(E, ns, e, p) && (r == e || (ns.NilSet? && r == p))
    requires IsTyped(e) && IsWellFormed(e) && HasValidMatchers(E, e) && CanTell(e, whole)
    requires e.Apply? && (IsAbsentLike(e.op) || (e.op.ParenOp? && |e.args| == 1)) && !KeepsSelections(E, ns, e)
    ensures IsPlainEngine(I) && SentinelFree([s])
    ensures !Agree(Eval(E, I, [s], p, t), Eval(E, I, Restrict([s], ns.Keys()), r, t), whole)
    decreases e, 0
  {
    PrintedSkeletons(E, ns, e.args, p.args);
    if IsAbsentLike(e.op) {
      TypedAbsentArgument(e);
    }
    SoleType(e.args);
    I, s := LostDiffers(E, ns, e.args[0], p.args[0], r.args[0], t, whole && !IsAbsentLike(e.op));
    SoleValue(E, I, [s], p.args, t);
    SoleValue(E, I, Restrict([s], ns.Keys()), r.args, t);
  }

  lemma LostSelectorDiffers(E: Engine, ns: Set, e: Expr, p: Expr, r: Expr, t: int) returns (I: Interpretation, s: Series)
    requires AreNamespaceNames(ns) && IsPrinted(E, ns, e, p) && (r == e || (ns.NilSet? && r == p))
    requires IsWellFormed(e) && HasValidMatchers(E, e) && (e.VectorSelector? || e.MatrixSelector?)
    requires !KeepsSelections(E, ns, e)
    ensures IsPlainEngine(I) && SentinelFree([s])
    ensures !IsEmpty(Eval(E, I, [s], p, t)) && IsEmpty(Eval(E, I, Restrict([s], ns.Keys()), r, t))
  {
    SomeEngineIsPlain();
    I := SomeEngine();
    if e.VectorSelector? {
      s := LostSelectionOf(E, ns, e, p, r);
      SomeEngineShows(s, t - p.offset, 0);
    } else {
      s := LostSelectionOf(E, ns, e.vector, p.vector, r.vector);
      SomeEngineShows(s, t - p.vector.offset, p.range);
    }
  }

  lemma LostSelectionOf(E: Engine, ns: Set, e: Expr, p: Expr, r: Expr) returns (s: Series)
    requires AreNamespaceNames(ns) && e.VectorSelector? && AreValid(E, e.matchers)
    requires IsPrinted(E, ns, e, p) && (r == e || (ns.NilSet? && r == p))
    requires !KeepsSelection(E, ns, e.name, e.matchers)
    ensures SentinelFree([s])
    ensures Select(E, [s], p.matchers) == [s] && Select(E, Restrict([s], ns.Keys()), r.matchers) == []
  {
    s := LostSelection(E, ns, e.name, e.matchers, p.matchers);
    assert [s][1..] == [];
    assert ns.NilSet? ==> Restrict([s], ns.Keys()) == [];
  }

  lemma SomeEngineIsPlain()
    ensures IsPlainEngine(SomeEngine())
  {
  }

  lemma SomeEngineShows(s: Series, t: int, range: int)
    ensures !IsEmpty(Vector(Instant(SomeEngine(), [s], t)))
    ensures !IsEmpty(Matrix(Window(SomeEngine(), [s], t, range)))
  {
    assert [s][1..] == [];
    var rows := Window(SomeEngine(), [s], t, range);
    assert rows[0] in rows;
  }

  lemma {:induction false} LostDifferSomewhere(E: Engine, ns: Set, es: seq<Expr>, ps: seq<Expr>, rs: seq<Expr>, t: int)
    returns (I: Interpretation, s: Series)
    requires AreNamespaceNames(ns) && ArePrinted(E, ns, es, ps) && (rs == es || (ns.NilSet? && rs == ps))
    requires forall e | e in es :: IsTyped(e) && IsWellFormed(e) && HasValidMatchers(E, e)
    requires exists e :: e in es && !KeepsSelections(E, ns, e)
    ensures IsPlainEngine(I) && SentinelFree([s])
    ensures EvalAll(E, I, [s], ps, t) != EvalAll(E, I, Restrict([s], ns.Keys()), rs, t)
    decreases es, 0
  {
    if !KeepsSelections(E, ns, es[0]) {
      I, s := LostDiffers(E, ns, es[0], ps[0], rs[0], t, true);
      assert EvalAll(E, I, [s], ps, t)[0] != EvalAll(E, I, Restrict([s], ns.Keys()), rs, t)[0];
    } else {
      I, s := LostDifferSomewhere(E, ns, es[1..], ps[1..], rs[1..], t);
      assert EvalAll(E, I, [s], ps, t)[1..] != EvalAll(E, I, Restrict([s], ns.Keys()), rs, t)[1..];
    }
  }

  /** A printing has the meaning of the original under every engine, on every sentinel-free database. */
  ghost predicate IsAlwaysPreserved(E: Engine, ns: Set, e: Expr, p: Expr, t: int) {
    forall I, db | RespectsTypes(I) && SentinelFree(db) :: IsPreserved(E, I, ns, db, e, p, t, true)
  }

  /**
   * The conditions of meaning preservation are exact, for every expression the parser
   * types and every printing of its rewriting.
   */
  lemma MeaningIsPreservedIff(E: Engine, ns: Set, e: Expr, p: Expr, t: int)
    requires ns.MapSet? && AreNamespaceNames(ns) && HasValidMatchers(E, e) && IsTyped(e) && IsWellFormed(e)
    requires IsPrinted(E, ns, e, p)
    ensures IsAlwaysPreserved(E, ns, e, p, t) <==> KeepsLabels(e, p, true) && KeepsSelections(E, ns, e)
  {
    if KeepsLabels(e, p, true) && KeepsSelections(E, ns, e) {
      forall I, db | RespectsTypes(I) && SentinelFree(db) ensures IsPreserved(E, I, ns, db, e, p, t, true) {
        MeaningIsPreserved(E, I, ns, db, e, p, t, true);
      }
    } else if KeepsLabels(e, p, true) {
      var I, s := LostDiffers(E, ns, e, p, e, t, true);
      assert !IsPreserved(E, I, ns, [s], e, p, t, true);
    } else {
      var I := UnkeptDiffers(E, ns, e, p, t, true);
      assert !IsPreserved(E, I, ns, [], e, p, t, true);
    }
  }

  /**
   * All printings of the rewriting have the meaning of the original if and only if its
   * absent-like calls are stable and its selections are kept.
   */
  lemma EveryPrintingIsPreservedIff(E: Engine, ns: Set, e: Expr, t: int)
    requires ns.MapSet? && AreNamespaceNames(ns) && HasValidMatchers(E, e) && IsTyped(e) && IsWellFormed(e)
    ensures (forall p | IsPrinted(E, ns, e, p) :: IsAlwaysPreserved(E, ns, e, p, t))
            <==> IsAbsentStable(E, ns, e, true) && KeepsSelections(E, ns, e)
  {
    EveryPrintingKeepsLabelsIff(E, ns, e, true);
    PrintIsPrinted(E, ns, e);
    forall p | IsPrinted(E, ns, e, p)
      ensures IsAlwaysPreserved(E, ns, e, p, t) <==> KeepsLabels(e, p, true) && KeepsSelections(E, ns, e)
    {
      MeaningIsPreservedIff(E, ns, e, p, t);
    }
  }

  /**
   * For an absent-like call no engine makes up for a lost label: under each of them the
   * call keeps its meaning on all sentinel-free databases if and only if its labels are
   * kept, as long as the emptiness of its argument is.
   */
  lemma AbsentIsPreservedIff(E: Engine, I: Interpretation, ns: Set, e: Expr, p: Expr, t: int)
    requires ns.MapSet? && AreNamespaceNames(ns) && HasValidMatchers(E, e) && IsPrinted(E, ns, e, p)
    requires e.Apply? && IsAbsentLike(e.op) && |e.args| == |p.args| == 1
    requires KeepsLabels(e.args[0], p.args[0], false) && KeepsSelections(E, ns, e)
    ensures (forall db | SentinelFree(db) :: IsPreserved(E, I, ns, db, e, p, t, true))
            <==> AbsentLabels(p.args[0]) == AbsentLabels(e.args[0])
  {
    if AbsentLabels(p.args[0]) == AbsentLabels(e.args[0]) {
      forall db | SentinelFree(db) ensures IsPreserved(E, I, ns, db, e, p, t, true) {
        MeaningIsPreserved(E, I, ns, db, e, p, t, true);
      }
    } else {
      UnkeptLabelsDiffer(E, I, ns, e, p, t);
      assert !IsPreserved(E, I, ns, [], e, p, t, true);
    }
  }

  /**
   * A call that does not keep its meaning: where there are no series,
   * `absent(up{namespace="b"})` says `{namespace="b"}` to its author, and
   * `{namespace="______"}` once it is rewritten for a caller who owns `a` only.
   */
  lemma AbsentCanChangeMeaning(E: Engine, I: Interpretation, t: int)
    ensures var up := VectorSelector("up", 0, [Matcher(MatchEqual, METRIC_NAME, "up"), Matcher(MatchEqual, NAMESPACE, "b")]);
            var e := Apply(CallOp("absent", VectorType), [up]);
            && Eval(E, I, [], e, t) == Vector([Sample(map[NAMESPACE := "b"], t, 1.0)])
            && Eval(E, I, [], Rewrite(E, MapSet({"a"}), e), t) == Vector([Sample(map[NAMESPACE := NONE_NAMESPACE], t, 1.0)])
  {
    var name, b := Matcher(MatchEqual, METRIC_NAME, "up"), Matcher(MatchEqual, NAMESPACE, "b");
    var none := Matcher(MatchEqual, NAMESPACE, NONE_NAMESPACE);
    var up, up' := VectorSelector("up", 0, [name, b]), VectorSelector("up", 0, [name, none]);
    assert FilterMatchers(E, MapSet({"a"}), [name, b]) == [name, none] by {
      assert [name, b][1..] == [b] && [b][1..] == [];
    }
    assert RewriteAll(E, MapSet({"a"}), [up]) == [up'];
    LabelOfUp(name, b);
    LabelOfUp(name, none);
    AbsentOfSole(E, I, Apply(CallOp("absent", VectorType), [up]), t);
    AbsentOfSole(E, I, Apply(CallOp("absent", VectorType), [up']), t);
  }

  lemma LabelOfUp(name: Matcher, m: Matcher)
    requires name.name == METRIC_NAME && m.name == NAMESPACE && m.kind.MatchEqual? && m.value != ""
    ensures Absent.AbsentLabels([name, m]) == map[NAMESPACE := m.value]
  {
    var d := Absent.Draft(map[], {});
    assert [name, m][1..] == [m] && [m][1..] == [];
    assert Absent.AddMatchers(d, [name, m]) == Absent.AddMatchers(d, [m]) == Absent.AddMatcher(d, m);
    assert map[NAMESPACE := m.value] - {} == map[NAMESPACE := m.value];
  }

  // ---------------------------------------------------------------- nil sets

  ghost predicate IsFixed(E: Engine, I: Interpretation, p: Expr, t: int) {
    forall db, db' | SentinelFree(db) && SentinelFree(db') :: Eval(E, I, db, p, t) == Eval(E, I, db', p, t)
  }

  /** An expression that is not blind is not fixed under every engine. */
  lemma SeeingIsNotFixed(E: Engine, e: Expr, p: Expr, t: int) returns (I: Interpretation, s: Series)
    requires IsTyped(e) && IsWellFormed(e) && HasValidMatchers(E, e) && IsPrinted(E, NilSet, e, p)
    requires !KeepsSelections(E, NilSet, e)
    ensures RespectsTypes(I) && SentinelFree([s]) && Eval(E, I, [s], p, t) != Eval(E, I, [], p, t)
  {
    I, s := LostDiffers(E, NilSet, e, p, p, t, true);
    assert [s][1..] == [] && Restrict([s], {}) == [];
  }

  /**
   * Rewritten with a nil set an expression has, under every engine, the same value on
   * all sentinel-free databases if and only if each of its selectors, as printed, has
   * no namespace matcher or can be satisfied by no series.
   */
  lemma NilSetIsFixedIffBlind(E: Engine, e: Expr, p: Expr, t: int)
    requires IsTyped(e) && IsWellFormed(e) && HasValidMatchers(E, e) && IsPrinted(E, NilSet, e, p)
    ensures (forall I | RespectsTypes(I) :: IsFixed(E, I, p, t)) <==> KeepsSelections(E, NilSet, e)
  {
    if KeepsSelections(E, NilSet, e) {
      forall I, db, db' | SentinelFree(db) && SentinelFree(db') ensures Eval(E, I, db, p, t) == Eval(E, I, db', p, t) {
        BlindIsFixed(E, I, db, db', e, p, t);
      }
    } else {
      var I, s := SeeingIsNotFixed(E, e, p, t);
      assert SentinelFree([]) && !IsFixed(E, I, p, t);
    }
  }
}
