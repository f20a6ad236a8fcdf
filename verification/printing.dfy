/**
 * The text that is sent on. The library prints the matchers of a selector sorted, and
 * leaves those on the metric name out that it takes the name itself to say
 * (`promql/parser/printer.go`). What is printed is modelled as any order of the rest.
 */
module Printing {
  import opened Data
  import opened Matchers
  import opened Storage
  import opened PromQL
  import Absent

  const EMPTY_NAME := Matcher(MatchEqual, METRIC_NAME, "")

  function WithoutEmptyName(ms: seq<Matcher>): seq<Matcher> {
    if ms == [] then []
    else if ms[0] == EMPTY_NAME then WithoutEmptyName(ms[1..])
    else [ms[0]] + WithoutEmptyName(ms[1..])
  }

  /**
   * What can be read back of the matchers of a selector. A matcher `__name__="up"` is
   * left out behind the name `up` and read back from it; a selector without a name is
   * printed without `__name__=""`, which nothing brings back.
   */
  function PrintedMatchers(name: string, ms: seq<Matcher>): seq<Matcher> {
    if name == "" then WithoutEmptyName(ms) else ms
  }

  // --------------------------------------------------------------- selectors

  lemma {:induction false} WithoutEmptyNameSatisfies(E: Engine, s: Series, ms: seq<Matcher>)
    ensures Satisfies(E, s, ms)
            <==> Satisfies(E, s, WithoutEmptyName(ms)) && (EMPTY_NAME in ms ==> Label(s, METRIC_NAME) == "")
  {
    if ms != [] {
      WithoutEmptyNameSatisfies(E, s, ms[1..]);
      SatisfiesHeadAndTail(E, s, ms);
      var rest := WithoutEmptyName(ms);
      if ms[0] != EMPTY_NAME {
        assert rest[1..] == WithoutEmptyName(ms[1..]);
        SatisfiesHeadAndTail(E, s, rest);
      }
    }
  }

  lemma SatisfiesHeadAndTail(E: Engine, s: Series, ms: seq<Matcher>)
    requires ms != []
    ensures Satisfies(E, s, ms) <==> Matches(E, ms[0], Label(s, ms[0].name)) && Satisfies(E, s, ms[1..])
  {
    assert forall m :: m in ms <==> m == ms[0] || m in ms[1..];
  }

  /** Printing what was filtered is filtering what would have been printed. */
  lemma {:induction false} PrintingCommutesWithFiltering(E: Engine, ns: Set, name: string, ms: seq<Matcher>)
    ensures PrintedMatchers(name, FilterMatchers(E, ns, ms)) == FilterMatchers(E, ns, PrintedMatchers(name, ms))
  {
    var filtered := FilterMatchers(E, ns, ms);
    if name == "" {
      if ms == [] {
        assert filtered[1..] == [];
      } else if ms[0].name == NAMESPACE {
        assert filtered[1..] == ms[1..];
        assert WithoutEmptyName(ms)[1..] == WithoutEmptyName(ms[1..]);
      } else {
        PrintingCommutesWithFiltering(E, ns, name, ms[1..]);
        assert filtered[1..] == FilterMatchers(E, ns, ms[1..]);
        if ms[0] != EMPTY_NAME {
          assert WithoutEmptyName(ms)[1..] == WithoutEmptyName(ms[1..]);
        }
      }
    }
  }

  lemma {:induction false} PrintedMatchersAreValid(E: Engine, name: string, ms: seq<Matcher>)
    requires AreValid(E, ms)
    ensures AreValid(E, PrintedMatchers(name, ms))
  {
    if name == "" && ms != [] {
      PrintedMatchersAreValid(E, name, ms[1..]);
    }
  }

  /** Labels other than the metric name have the same matchers, in the same order. */
  lemma {:induction false} OnPrinted(name: string, ms: seq<Matcher>, other: string)
    requires other != METRIC_NAME
    ensures Absent.On(PrintedMatchers(name, ms), other) == Absent.On(ms, other)
  {
    if name == "" && ms != [] {
      OnPrinted(name, ms[1..], other);
      if ms[0] != EMPTY_NAME {
        assert WithoutEmptyName(ms)[1..] == WithoutEmptyName(ms[1..]);
      }
    }
  }

  lemma PrintedLabels(name: string, ms: seq<Matcher>)
    ensures Absent.AbsentLabels(PrintedMatchers(name, ms)) == Absent.AbsentLabels(ms)
    ensures Absent.IsOrderFree(PrintedMatchers(name, ms)) <==> Absent.IsOrderFree(ms)
  {
    forall other | other != METRIC_NAME ensures Absent.On(PrintedMatchers(name, ms), other) == Absent.On(ms, other) {
      OnPrinted(name, ms, other);
    }
    Absent.SamePinsSameLabels(PrintedMatchers(name, ms), ms);
  }

  lemma {:induction false} CountPrinted(ms: seq<Matcher>, m: Matcher)
    ensures multiset(WithoutEmptyName(ms))[m] == if m == EMPTY_NAME then 0 else multiset(ms)[m]
  {
    if ms != [] {
      assert ms == [ms[0]] + ms[1..];
      CountPrinted(ms[1..], m);
    }
  }

  lemma ReorderedIsPrinted(name: string, ms: seq<Matcher>, ms': seq<Matcher>)
    requires multiset(ms) == multiset(ms')
    ensures multiset(PrintedMatchers(name, ms)) == multiset(PrintedMatchers(name, ms'))
  {
    if name == "" {
      forall m ensures multiset(WithoutEmptyName(ms))[m] == multiset(WithoutEmptyName(ms'))[m] {
        CountPrinted(ms, m);
        CountPrinted(ms', m);
      }
    }
  }

  // ------------------------------------------------------------- expressions

  /** What upstream may read of the rewritten `e`: the same expression, the printed matchers of each selector in some order. */
  ghost predicate IsPrinted(E: Engine, ns: Set, e: Expr, p: Expr)
    decreases e, 1
  {
    match e
    case VectorSelector(name, offset, ms) =>
      p.VectorSelector? && p.name == name && p.offset == offset
      && multiset(p.matchers) == multiset(PrintedMatchers(name, FilterMatchers(E, ns, ms)))
    case MatrixSelector(vector, range) => p.MatrixSelector? && p.range == range && IsPrinted(E, ns, vector, p.vector)
    case Apply(op, args) => p.Apply? && p.op == op && ArePrinted(E, ns, args, p.args)
    case Subquery(inner, range, offset, step) =>
      p.Subquery? && p.range == range && p.offset == offset && p.step == step && IsPrinted(E, ns, inner, p.inner)
    case _ => p == e
  }

  ghost predicate ArePrinted(E: Engine, ns: Set, es: seq<Expr>, ps: seq<Expr>)
    decreases es, 0
  {
    if es == [] then ps == []
    else ps != [] && IsPrinted(E, ns, es[0], ps[0]) && ArePrinted(E, ns, es[1..], ps[1..])
  }

  /** The printing that keeps the order of the tree. */
  function Print(e: Expr): Expr
    decreases e, 1
  {
    match e
    case VectorSelector(name, _, ms) => e.(matchers := PrintedMatchers(name, ms))
    case MatrixSelector(vector, range) => MatrixSelector(Print(vector), range)
    case Apply(op, args) => Apply(op, PrintAll(args))
    case Subquery(inner, range, offset, step) => Subquery(Print(inner), range, offset, step)
    case _ => e
  }

  function PrintAll(es: seq<Expr>): seq<Expr>
    decreases es, 0
  {
    if es == [] then [] else [Print(es[0])] + PrintAll(es[1..])
  }

  lemma {:induction false} PrintIsPrinted(E: Engine, ns: Set, e: Expr)
    ensures IsPrinted(E, ns, e, Print(Rewrite(E, ns, e)))
    decreases e, 1
  {
    match e
    case MatrixSelector(vector, _) => PrintIsPrinted(E, ns, vector);
    case Apply(_, args) => AllPrintedArePrinted(E, ns, args);
    case Subquery(inner, _, _, _) => PrintIsPrinted(E, ns, inner);
    case _ =>
  }

  lemma {:induction false} AllPrintedArePrinted(E: Engine, ns: Set, es: seq<Expr>)
    ensures ArePrinted(E, ns, es, PrintAll(RewriteAll(E, ns, es)))
    decreases es, 0
  {
    if es != [] {
      PrintIsPrinted(E, ns, es[0]);
      AllPrintedArePrinted(E, ns, es[1..]);
      var rewritten := RewriteAll(E, ns, es);
      assert rewritten[1..] == RewriteAll(E, ns, es[1..]);
      assert PrintAll(rewritten)[1..] == PrintAll(rewritten[1..]);
    }
  }

  lemma {:induction false} PrintedSkeleton(E: Engine, ns: Set, e: Expr, p: Expr)
    requires IsPrinted(E, ns, e, p)
    ensures Skeleton(p) == Skeleton(e)
    decreases e, 1
  {
    match e
    case MatrixSelector(vector, _) => PrintedSkeleton(E, ns, vector, p.vector);
    case Apply(_, args) => PrintedSkeletons(E, ns, args, p.args);
    case Subquery(inner, _, _, _) => PrintedSkeleton(E, ns, inner, p.inner);
    case _ =>
  }

  lemma {:induction false} PrintedSkeletons(E: Engine, ns: Set, es: seq<Expr>, ps: seq<Expr>)
    requires ArePrinted(E, ns, es, ps)
    ensures SkeletonAll(ps) == SkeletonAll(es) && |ps| == |es|
    decreases es, 0
  {
    if es != [] {
      PrintedSkeleton(E, ns, es[0], ps[0]);
      PrintedSkeletons(E, ns, es[1..], ps[1..]);
    }
  }

  lemma PrintedType(E: Engine, ns: Set, e: Expr, p: Expr)
    requires IsPrinted(E, ns, e, p)
    ensures TypeOf(p) == TypeOf(e)
    ensures IsTyped(p) <==> IsTyped(e)
  {
    PrintedSkeleton(E, ns, e, p);
    SkeletonHasTheType(e);
    SkeletonHasTheType(p);
  }

  lemma {:induction false} PrintedUnwraps(E: Engine, ns: Set, arg: Expr, p: Expr)
    requires IsPrinted(E, ns, arg, p)
    ensures IsPrinted(E, ns, Unwrap(arg), Unwrap(p))
  {
    if arg.Apply? {
      PrintedSkeletons(E, ns, arg.args, p.args);
      if arg.op.ParenOp? && |arg.args| == 1 {
        PrintedUnwraps(E, ns, arg.args[0], p.args[0]);
      }
    }
  }

  /** An absent-like call reads the filtered matchers in some order, with or without `__name__=""`. */
  lemma PrintedReads(E: Engine, ns: Set, arg: Expr, p: Expr)
    requires IsPrinted(E, ns, arg, p)
    ensures ReadMatchers(arg).Some? <==> ReadMatchers(p).Some?
    ensures ReadMatchers(arg).Some? ==>
              exists name :: multiset(ReadMatchers(p).value)
                             == multiset(PrintedMatchers(name, FilterMatchers(E, ns, ReadMatchers(arg).value)))
  {
    PrintedUnwraps(E, ns, arg, p);
    var u, v := Unwrap(arg), Unwrap(p);
    match u
    case VectorSelector(_, _, _) =>
    case MatrixSelector(vector, _) => PrintedSkeleton(E, ns, vector, v.vector);
    case _ =>
  }

  /** The printed matchers select what filtering selects by the matchers that would have been printed. */
  lemma PrintedSelection(E: Engine, ns: Set, name: string, ms: seq<Matcher>, printed: seq<Matcher>, db: Database)
    requires multiset(printed) == multiset(PrintedMatchers(name, FilterMatchers(E, ns, ms)))
    ensures Select(E, db, printed) == Select(E, db, FilterMatchers(E, ns, PrintedMatchers(name, ms)))
  {
    PrintingCommutesWithFiltering(E, ns, name, ms);
    var filtered := FilterMatchers(E, ns, PrintedMatchers(name, ms));
    forall m ensures m in filtered <==> m in printed {
      assert m in multiset(filtered) <==> m in multiset(printed);
    }
    SameMatchersSelectTheSame(E, db, filtered, printed);
  }

  // ------------------------------------------------------------- lost matchers

  /**
   * Nothing is selected through the loss of `__name__=""`. For a set of namespaces: if
   * the selector had such a matcher, no series of the caller that satisfies the others
   * has a metric name. For a nil set: what is printed is blind.
   */
  ghost predicate KeepsSelection(E: Engine, ns: Set, name: string, ms: seq<Matcher>) {
    match ns
    case NilSet => IsBlind(E, PrintedMatchers(name, ms))
    case MapSet(keys) =>
      name == "" && EMPTY_NAME in ms ==>
        forall s | Label(s, NAMESPACE) in keys && Satisfies(E, s, WithoutEmptyName(ms)) :: Label(s, METRIC_NAME) == ""
  }

  ghost predicate KeepsSelections(E: Engine, ns: Set, e: Expr) {
    match e
    case VectorSelector(name, _, ms) => KeepsSelection(E, ns, name, ms)
    case MatrixSelector(vector, _) => KeepsSelections(E, ns, vector)
    case Apply(_, args) => forall a | a in args :: KeepsSelections(E, ns, a)
    case Subquery(inner, _, _, _) => KeepsSelections(E, ns, inner)
    case _ => true
  }

  /** Where nothing is lost, the printed matchers select what the original ones do, among the caller's series. */
  lemma {:induction false} KeptSelection(E: Engine, ns: Set, name: string, ms: seq<Matcher>, db: Database)
    requires ns.MapSet? && KeepsSelection(E, ns, name, ms)
    ensures Select(E, Restrict(db, ns.keys), PrintedMatchers(name, ms)) == Select(E, Restrict(db, ns.keys), ms)
  {
    if db != [] {
      KeptSelection(E, ns, name, ms, db[1..]);
      if Label(db[0], NAMESPACE) in ns.keys {
        assert Restrict(db, ns.keys)[1..] == Restrict(db[1..], ns.keys);
        WithoutEmptyNameSatisfies(E, db[0], ms);
      }
    }
  }

  /** A printed selection on the whole database is the original selection on the caller's series. */
  lemma PrintedSelectionIsExact(E: Engine, ns: Set, name: string, ms: seq<Matcher>, printed: seq<Matcher>, db: Database)
    requires ns.MapSet? && AreNamespaceNames(ns) && SentinelFree(db) && AreValid(E, ms)
    requires multiset(printed) == multiset(PrintedMatchers(name, FilterMatchers(E, ns, ms)))
    requires KeepsSelection(E, ns, name, ms)
    ensures Select(E, db, printed) == Select(E, Restrict(db, ns.keys), ms)
  {
    PrintedSelection(E, ns, name, ms, printed, db);
    PrintedMatchersAreValid(E, name, ms);
    SelectionIsExact(E, ns, PrintedMatchers(name, ms), db);
    KeptSelection(E, ns, name, ms, db);
  }

  /** A selection that is not kept brings a series that the original does not, owned or not. */
  lemma LostSelection(E: Engine, ns: Set, name: string, ms: seq<Matcher>, printed: seq<Matcher>) returns (s: Series)
    requires AreNamespaceNames(ns) && AreValid(E, ms)
    requires multiset(printed) == multiset(PrintedMatchers(name, FilterMatchers(E, ns, ms)))
    requires !KeepsSelection(E, ns, name, ms)
    ensures SentinelFree([s])
    ensures Select(E, [s], printed) == [s] && Select(E, Restrict([s], ns.Keys()), ms) == []
  {
    var left := PrintedMatchers(name, ms);
    match ns {
      case NilSet =>
        s :| Label(s, NAMESPACE) != NONE_NAMESPACE && Satisfies(E, s, left);
        NilSetKeepsMatchers(E, left);
      case MapSet(keys) =>
        s :| Label(s, NAMESPACE) in keys && Satisfies(E, s, left) && Label(s, METRIC_NAME) != "";
        assert Label(s, NAMESPACE) in ns.Keys();
        NamesAreLiterals(Label(s, NAMESPACE));
        PrintedMatchersAreValid(E, name, ms);
        WithoutEmptyNameSatisfies(E, s, ms);
        FilteringIsExact(E, ns, left, s);
    }
    PrintedSelection(E, ns, name, ms, printed, [s]);
    assert [s][1..] == [];
  }

  /** A printed selector is exact on all sentinel-free databases if and only if nothing is selected through the loss. */
  lemma PrintedSelectionIsExactIff(E: Engine, ns: Set, name: string, ms: seq<Matcher>, printed: seq<Matcher>)
    requires ns.MapSet? && AreNamespaceNames(ns) && AreValid(E, ms)
    requires multiset(printed) == multiset(PrintedMatchers(name, FilterMatchers(E, ns, ms)))
    ensures (forall db | SentinelFree(db) :: Select(E, db, printed) == Select(E, Restrict(db, ns.keys), ms))
            <==> KeepsSelection(E, ns, name, ms)
  {
    if KeepsSelection(E, ns, name, ms) {
      forall db | SentinelFree(db) ensures Select(E, db, printed) == Select(E, Restrict(db, ns.keys), ms) {
        PrintedSelectionIsExact(E, ns, name, ms, printed, db);
      }
    } else {
      var s := LostSelection(E, ns, name, ms, printed);
      assert Select(E, [s], printed) != Select(E, Restrict([s], ns.Keys()), ms);
    }
  }
}
