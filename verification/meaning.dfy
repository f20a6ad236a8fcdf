/**
 * What rewriting does to the value of an expression, in whatever order the rewritten
 * matchers are printed.
 */
module Meaning {
  import opened Data
  import opened Matchers
  import opened Storage
  import opened PromQL
  import opened Printing

  // ------------------------------------------------- labels of absent-like calls

  /**
   * Every absent-like call whose labels reach the value has the same labels in `p` as
   * in `e`. Below another absent-like call, through parentheses, they do not: that call
   * asks only whether its argument is empty. `whole` says which is asked of `e`.
   */
  predicate KeepsLabels(e: Expr, p: Expr, whole: bool)
    decreases e, 1
  {
    match e
    case Apply(op, args) =>
      p.Apply? &&
      if IsAbsentLike(op) then
        args != [] ==>
          && p.args != []
          && (whole ==> AbsentLabels(p.args[0]) == AbsentLabels(args[0]))
          && KeepsLabels(args[0], p.args[0], false)
      else if op.ParenOp? && |args| == 1 then p.args != [] && KeepsLabels(args[0], p.args[0], whole)
      else AllKeepLabels(args, p.args)
    case Subquery(inner, _, _, _) => p.Subquery? && KeepsLabels(inner, p.inner, true)
    case _ => true
  }

  predicate AllKeepLabels(es: seq<Expr>, ps: seq<Expr>)
    decreases es, 0
  {
    es == [] || (ps != [] && KeepsLabels(es[0], ps[0], true) && AllKeepLabels(es[1..], ps[1..]))
  }

  // ------------------------------------------------------------ preservation

  /** What is asked of a set and a database for rewriting to be exact. */
  ghost predicate Fits(E: Engine, ns: Set, db: Database) {
    ns.MapSet? && AreNamespaceNames(ns) && SentinelFree(db)
  }

  /** Equal values, or as far as an absent-like call can tell. */
  predicate Agree(v: Value, w: Value, whole: bool) {
    if whole then v == w else IsEmpty(v) == IsEmpty(w)
  }

  /** The printed expression on the whole database agrees with the original on the series the caller owns. */
  ghost predicate IsPreserved(
    E: Engine, I: Interpretation, ns: Set, db: Database, e: Expr, p: Expr, t: int, whole: bool)
  {
    Agree(Eval(E, I, db, p, t), Eval(E, I, Restrict(db, ns.Keys()), e, t), whole)
  }

  /**
   * Meaning is preserved: however it is printed, the rewritten expression on the whole
   * database has the value of the original on the series the caller owns, as long as
   * printing and rewriting keep the labels of its absent-like calls and printing loses
   * no matcher that counts.
   */
  lemma {:induction false} MeaningIsPreserved(
    E: Engine, I: Interpretation, ns: Set, db: Database, e: Expr, p: Expr, t: int, whole: bool)
    requires Fits(E, ns, db) && HasValidMatchers(E, e)
    requires IsPrinted(E, ns, e, p) && KeepsLabels(e, p, whole) && KeepsSelections(E, ns, e)
    ensures IsPreserved(E, I, ns, db, e, p, t, whole)
    decreases e, 1, 0
  {
    match e
    case VectorSelector(_, _, _) => VectorIsPreserved(E, I, ns, db, e, p, t);
    case MatrixSelector(_, _) => MatrixIsPreserved(E, I, ns, db, e, p, t);
    case Apply(_, _) => ApplicationIsPreserved(E, I, ns, db, e, p, t, whole);
    case Subquery(inner, range, offset, step) =>
      PrintedSkeleton(E, ns, e, p);
      MeaningIsPreservedAt(E, I, ns, db, inner, p.inner, I.steps(t, range, offset, step));
    case _ =>
  }

  lemma {:induction false} ApplicationIsPreserved(
    E: Engine, I: Interpretation, ns: Set, db: Database, e: Expr, p: Expr, t: int, whole: bool)
    requires Fits(E, ns, db) && e.Apply? && HasValidMatchers(E, e)
    requires IsPrinted(E, ns, e, p) && KeepsLabels(e, p, whole) && KeepsSelections(E, ns, e)
    ensures IsPreserved(E, I, ns, db, e, p, t, whole)
    decreases e, 0, 1
  {
    PrintedSkeletons(E, ns, e.args, p.args);
    if IsAbsentLike(e.op) {
      if e.args != [] {
        MeaningIsPreserved(E, I, ns, db, e.args[0], p.args[0], t, false);
      }
    } else if e.op.ParenOp? && |e.args| == 1 {
      MeaningIsPreserved(E, I, ns, db, e.args[0], p.args[0], t, whole);
      SoleValue(E, I, db, p.args, t);
      SoleValue(E, I, Restrict(db, ns.keys), e.args, t);
    } else {
      MeaningsArePreserved(E, I, ns, db, e.args, p.args, t);
      ValuePerExpression(E, I, db, p.args, t);
    }
  }

  lemma SoleValue(E: Engine, I: Interpretation, db: Database, es: seq<Expr>, t: int)
    requires |es| == 1
    ensures EvalAll(E, I, db, es, t) == [Eval(E, I, db, es[0], t)]
  {
    assert EvalAll(E, I, db, es[1..], t) == [];
  }

  lemma {:induction false} ValuePerExpression(E: Engine, I: Interpretation, db: Database, es: seq<Expr>, t: int)
    ensures |EvalAll(E, I, db, es, t)| == |es|
  {
    if es != [] {
      ValuePerExpression(E, I, db, es[1..], t);
    }
  }

  lemma VectorIsPreserved(E: Engine, I: Interpretation, ns: Set, db: Database, e: Expr, p: Expr, t: int)
    requires Fits(E, ns, db) && e.VectorSelector? && AreValid(E, e.matchers)
    requires IsPrinted(E, ns, e, p) && KeepsSelections(E, ns, e)
    ensures Eval(E, I, db, p, t) == Eval(E, I, Restrict(db, ns.keys), e, t)
  {
    PrintedSelectionIsExact(E, ns, e.name, e.matchers, p.matchers, db);
  }

  lemma MatrixIsPreserved(E: Engine, I: Interpretation, ns: Set, db: Database, e: Expr, p: Expr, t: int)
    requires Fits(E, ns, db) && e.MatrixSelector? && HasValidMatchers(E, e.vector)
    requires IsPrinted(E, ns, e, p) && KeepsSelections(E, ns, e)
    ensures Eval(E, I, db, p, t) == Eval(E, I, Restrict(db, ns.keys), e, t)
  {
    PrintedSkeleton(E, ns, e.vector, p.vector);
    if e.vector.VectorSelector? {
      PrintedSelectionIsExact(E, ns, e.vector.name, e.vector.matchers, p.vector.matchers, db);
      MatricesAlike(E, I, db, p, Restrict(db, ns.keys), e, t);
    } else {
      assert !p.vector.VectorSelector?;
    }
  }

  lemma MatricesAlike(E: Engine, I: Interpretation, db: Database, e: Expr, db': Database, e': Expr, t: int)
    requires e.MatrixSelector? && e.vector.VectorSelector? && e'.MatrixSelector? && e'.vector.VectorSelector?
    requires e.range == e'.range && e.vector.offset == e'.vector.offset
    requires Select(E, db, e.vector.matchers) == Select(E, db', e'.vector.matchers)
    ensures Eval(E, I, db, e, t) == Eval(E, I, db', e', t)
  {
  }

  lemma {:induction false} MeaningsArePreserved(
    E: Engine, I: Interpretation, ns: Set, db: Database, es: seq<Expr>, ps: seq<Expr>, t: int)
    requires Fits(E, ns, db) && forall e | e in es :: HasValidMatchers(E, e) && KeepsSelections(E, ns, e)
    requires ArePrinted(E, ns, es, ps) && AllKeepLabels(es, ps)
    ensures EvalAll(E, I, db, ps, t) == EvalAll(E, I, Restrict(db, ns.keys), es, t)
    decreases es, 0, 0
  {
    if es != [] {
      MeaningIsPreserved(E, I, ns, db, es[0], ps[0], t, true);
      MeaningsArePreserved(E, I, ns, db, es[1..], ps[1..], t);
    }
  }

  lemma {:induction false} MeaningIsPreservedAt(
    E: Engine, I: Interpretation, ns: Set, db: Database, e: Expr, p: Expr, ts: seq<int>)
    requires Fits(E, ns, db) && HasValidMatchers(E, e)
    requires IsPrinted(E, ns, e, p) && KeepsLabels(e, p, true) && KeepsSelections(E, ns, e)
    ensures EvalAt(E, I, db, p, ts) == EvalAt(E, I, Restrict(db, ns.keys), e, ts)
    decreases e, 2, |ts|
  {
    if ts != [] {
      MeaningIsPreserved(E, I, ns, db, e, p, ts[0], true);
      MeaningIsPreservedAt(E, I, ns, db, e, p, ts[1..]);
    }
  }

  // -------------------------------------------------------- non-interference

  /** Two databases a caller must not be able to tell apart. */
  ghost predicate LookAlike(E: Engine, ns: Set, db: Database, db': Database) {
    Fits(E, ns, db) && Fits(E, ns, db') && Restrict(db, ns.keys) == Restrict(db', ns.keys)
  }

  lemma SelectionsLookAlike(
    E: Engine, ns: Set, db: Database, db': Database, name: string, ms: seq<Matcher>, printed: seq<Matcher>)
    requires LookAlike(E, ns, db, db') && AreValid(E, ms)
    requires multiset(printed) == multiset(PrintedMatchers(name, FilterMatchers(E, ns, ms)))
    ensures Select(E, db, printed) == Select(E, db', printed)
  {
    PrintedMatchersAreValid(E, name, ms);
    SelectionIsExact(E, ns, PrintedMatchers(name, ms), db);
    SelectionIsExact(E, ns, PrintedMatchers(name, ms), db');
    PrintedSelection(E, ns, name, ms, printed, db);
    PrintedSelection(E, ns, name, ms, printed, db');
  }

  /**
   * Non-interference: a rewritten expression, absent-like calls included and however
   * it is printed, depends on the caller's own series only.
   */
  lemma {:induction false} RewrittenIsConfined(
    E: Engine, I: Interpretation, ns: Set, db: Database, db': Database, e: Expr, p: Expr, t: int)
    requires LookAlike(E, ns, db, db') && HasValidMatchers(E, e) && IsPrinted(E, ns, e, p)
    ensures Eval(E, I, db, p, t) == Eval(E, I, db', p, t)
    decreases e, 1, 0
  {
    match e
    case VectorSelector(name, _, ms) => SelectionsLookAlike(E, ns, db, db', name, ms, p.matchers);
    case MatrixSelector(vector, _) =>
      PrintedSkeleton(E, ns, vector, p.vector);
      if vector.VectorSelector? {
        SelectionsLookAlike(E, ns, db, db', vector.name, vector.matchers, p.vector.matchers);
      } else {
        assert !p.vector.VectorSelector?;
      }
    case Apply(_, args) => AllRewrittenAreConfined(E, I, ns, db, db', args, p.args, t);
    case Subquery(inner, range, offset, step) =>
      RewrittenIsConfinedAt(E, I, ns, db, db', inner, p.inner, I.steps(t, range, offset, step));
    case _ =>
  }

  lemma {:induction false} AllRewrittenAreConfined(
    E: Engine, I: Interpretation, ns: Set, db: Database, db': Database, es: seq<Expr>, ps: seq<Expr>, t: int)
    requires LookAlike(E, ns, db, db') && forall e | e in es :: HasValidMatchers(E, e)
    requires ArePrinted(E, ns, es, ps)
    ensures EvalAll(E, I, db, ps, t) == EvalAll(E, I, db', ps, t)
    decreases es, 0, 0
  {
    if es != [] {
      RewrittenIsConfined(E, I, ns, db, db', es[0], ps[0], t);
      AllRewrittenAreConfined(E, I, ns, db, db', es[1..], ps[1..], t);
    }
  }

  lemma {:induction false} RewrittenIsConfinedAt(
    E: Engine, I: Interpretation, ns: Set, db: Database, db': Database, e: Expr, p: Expr, ts: seq<int>)
    requires LookAlike(E, ns, db, db') && HasValidMatchers(E, e) && IsPrinted(E, ns, e, p)
    ensures EvalAt(E, I, db, p, ts) == EvalAt(E, I, db', p, ts)
    decreases e, 2, |ts|
  {
    if ts != [] {
      RewrittenIsConfined(E, I, ns, db, db', e, p, ts[0]);
      RewrittenIsConfinedAt(E, I, ns, db, db', e, p, ts[1..]);
    }
  }

  // ---------------------------------------------------------------- nil sets

  lemma BlindSelectionsLookAlike(
    E: Engine, db: Database, db': Database, name: string, ms: seq<Matcher>, printed: seq<Matcher>)
    requires SentinelFree(db) && SentinelFree(db') && KeepsSelection(E, NilSet, name, ms)
    requires multiset(printed) == multiset(PrintedMatchers(name, FilterMatchers(E, NilSet, ms)))
    ensures Select(E, db, printed) == Select(E, db', printed)
  {
    BlindSelectsNothing(E, PrintedMatchers(name, ms), db);
    BlindSelectsNothing(E, PrintedMatchers(name, ms), db');
    PrintedSelection(E, NilSet, name, ms, printed, db);
    PrintedSelection(E, NilSet, name, ms, printed, db');
  }

  /**
   * Rewritten with a nil set, an expression has the same value on all sentinel-free
   * databases when each selector, as printed, has no namespace matcher or can be
   * satisfied by no series.
   */
  lemma {:induction false} BlindIsFixed(
    E: Engine, I: Interpretation, db: Database, db': Database, e: Expr, p: Expr, t: int)
    requires SentinelFree(db) && SentinelFree(db') && KeepsSelections(E, NilSet, e) && IsPrinted(E, NilSet, e, p)
    ensures Eval(E, I, db, p, t) == Eval(E, I, db', p, t)
    decreases e, 1, 0
  {
    match e
    case VectorSelector(name, _, ms) => BlindSelectionsLookAlike(E, db, db', name, ms, p.matchers);
    case MatrixSelector(vector, _) =>
      PrintedSkeleton(E, NilSet, vector, p.vector);
      if vector.VectorSelector? {
        BlindSelectionsLookAlike(E, db, db', vector.name, vector.matchers, p.vector.matchers);
      } else {
        assert !p.vector.VectorSelector?;
      }
    case Apply(_, args) => AllBlindAreFixed(E, I, db, db', args, p.args, t);
    case Subquery(inner, range, offset, step) =>
      BlindIsFixedAt(E, I, db, db', inner, p.inner, I.steps(t, range, offset, step));
    case _ =>
  }

  lemma {:induction false} AllBlindAreFixed(
    E: Engine, I: Interpretation, db: Database, db': Database, es: seq<Expr>, ps: seq<Expr>, t: int)
    requires SentinelFree(db) && SentinelFree(db') && ArePrinted(E, NilSet, es, ps)
    requires forall e | e in es :: KeepsSelections(E, NilSet, e)
    ensures EvalAll(E, I, db, ps, t) == EvalAll(E, I, db', ps, t)
    decreases es, 0, 0
  {
    if es != [] {
      BlindIsFixed(E, I, db, db', es[0], ps[0], t);
      AllBlindAreFixed(E, I, db, db', es[1..], ps[1..], t);
    }
  }

  lemma {:induction false} BlindIsFixedAt(
    E: Engine, I: Interpretation, db: Database, db': Database, e: Expr, p: Expr, ts: seq<int>)
    requires SentinelFree(db) && SentinelFree(db') && KeepsSelections(E, NilSet, e) && IsPrinted(E, NilSet, e, p)
    ensures EvalAt(E, I, db, p, ts) == EvalAt(E, I, db', p, ts)
    decreases e, 2, |ts|
  {
    if ts != [] {
      BlindIsFixed(E, I, db, db', e, p, ts[0]);
      BlindIsFixedAt(E, I, db, db', e, p, ts[1..]);
    }
  }
}
