/** Requests that are answered otherwise than meant, one for each condition of the results in `Service` and `NilSets`. */
module Deviations {
  import opened Wrappers
  import opened Data
  import opened Matchers
  import opened Storage
  import opened PromQL
  import opened Printing
  import opened Meaning
  import opened Handlers
  import opened Service
  import Absent

  const UP := Matcher(MatchEqual, METRIC_NAME, "up")
  const JOB := Matcher(MatchEqual, "job", "x")
  const NO_JOB := Matcher(MatchEqual, "job", "")

  function Query(e: Expr, at: int): Request {
    InstantQuery(Some(ExprText(e)), None, at)
  }

  function AbsentUp(ms: seq<Matcher>): Expr {
    Apply(CallOp("absent", VectorType), [VectorSelector("up", 0, ms)])
  }

  /** A forwarded query is answered with the value of what is printed; meant is that of the query. */
  lemma QueryResponse(
    E: Engine, I: Interpretation, db: Database, ns: Set, readerLabels: Set, now: int, e: Expr, p: Expr, at: int)
    requires ns.Keys() != {} || TypeOf(e).ScalarType?
    requires IsPrinted(E, ns, e, p)
    ensures IsPrintedRequest(E, ns, readerLabels, Query(e, at), Query(p, at))
    ensures Respond(E, I, db, ns, readerLabels, now, Query(e, at), Query(p, at)) == Ok(Result(Eval(E, I, db, p, at)))
    ensures Ideal(E, I, db, ns, readerLabels, now, Query(e, at)) == Ok(Result(Eval(E, I, Restrict(db, ns.Keys()), e, at)))
  {
    HandledAlike(E, I, ns, readerLabels, db, now, Query(e, at));
    assert Upstream(E, I, db, now, Query(p, at)) == Some(Result(Eval(E, I, db, p, at)));
  }

  // --------------------------------------------------------- order of printing

  lemma AbsentUpIsPrinted(E: Engine, ns: Set, ms: seq<Matcher>, printed: seq<Matcher>)
    requires multiset(printed) == multiset(FilterMatchers(E, ns, ms))
    ensures IsPrinted(E, ns, AbsentUp(ms), AbsentUp(printed))
  {
    var l, r := VectorSelector("up", 0, ms), VectorSelector("up", 0, printed);
    assert [l][1..] == [] && [r][1..] == [];
  }

  lemma AbsentUpOfNothing(E: Engine, I: Interpretation, ms: seq<Matcher>, at: int)
    ensures Eval(E, I, [], AbsentUp(ms), at) == Vector([Sample(Absent.AbsentLabels(ms), at, 1.0)])
  {
    SoleValue(E, I, [], AbsentUp(ms).args, at);
  }

  /** A label with `=""` and then a value is kept, beside a matcher on `namespace` that fixes nothing. */
  lemma LabelsOfSortedUp(m: Matcher)
    requires m.name == NAMESPACE && !Absent.Pins([m])
    ensures Absent.AbsentLabels([NO_JOB, JOB, m, UP]) == map["job" := "x"]
  {
    var ms := [NO_JOB, JOB, m, UP];
    var d := Absent.Draft(map[], {});
    assert ms[1..] == [JOB, m, UP] && ms[1..][1..] == [m, UP] && [m, UP][1..] == [UP] && [UP][1..] == [];
    var withJob := d.(labels := map["job" := "x"]);
    assert Absent.AddMatchers(d, ms) == Absent.AddMatchers(d, [JOB, m, UP]) == Absent.AddMatchers(withJob, [m, UP]);
    var last := Absent.AddMatcher(withJob, m);
    assert Absent.AddMatchers(withJob, [m, UP]) == Absent.AddMatchers(last, [UP]) == last;
  }

  lemma LabelsOfUnsortedUp()
    ensures Absent.AbsentLabels([JOB, NO_JOB, UP]) == map[]
  {
    var d := Absent.Draft(map[], {});
    var withJob := d.(labels := map["job" := "x"]);
    assert [JOB, NO_JOB, UP][1..] == [NO_JOB, UP] && [NO_JOB, UP][1..] == [UP] && [UP][1..] == [];
    var last := Absent.AddMatcher(withJob, NO_JOB);
    assert Absent.AddMatchers(d, [JOB, NO_JOB, UP]) == Absent.AddMatchers(withJob, [NO_JOB, UP])
           == Absent.AddMatchers(last, [UP]) == last;
    assert last.labels - last.dropped == map[];
  }

  /**
   * `absent(up{job="x",job=""})` has no labels, but is printed with `job=""` first and
   * then answered with `{job="x"}`, to every caller with two namespaces or more and by
   * every engine.
   */
  lemma OrderOfPrintingIsSeen(
    E: Engine, I: Interpretation, keys: set<string>, readerLabels: Set, now: int, at: int)
    requires AreNamespaceNames(MapSet(keys)) && |keys| > 1
    ensures var req := Query(AbsentUp([JOB, NO_JOB, UP]), at);
            var printed := Query(AbsentUp([NO_JOB, JOB, Encode(NAMESPACE, ValuesOf(keys)), UP]), at);
            && IsPrintedRequest(E, MapSet(keys), readerLabels, req, printed)
            && Respond(E, I, [], MapSet(keys), readerLabels, now, req, printed)
               == Ok(Result(Vector([Sample(map["job" := "x"], at, 1.0)])))
            && Ideal(E, I, [], MapSet(keys), readerLabels, now, req) == Ok(Result(Vector([Sample(map[], at, 1.0)])))
  {
    var m := Encode(NAMESPACE, ValuesOf(keys));
    SortedUpIsPrinted(E, keys);
    Absent.EncodedPins(keys);
    LabelsOfSortedUp(m);
    LabelsOfUnsortedUp();
    AbsentUpOfNothing(E, I, [JOB, NO_JOB, UP], at);
    AbsentUpOfNothing(E, I, [NO_JOB, JOB, m, UP], at);
    assert MapSet(keys).Keys() != {};
    QueryResponse(
      E, I, [], MapSet(keys), readerLabels, now, AbsentUp([JOB, NO_JOB, UP]), AbsentUp([NO_JOB, JOB, m, UP]), at);
  }

  lemma SortedUpIsPrinted(E: Engine, keys: set<string>)
    ensures IsPrinted(
              E, MapSet(keys), AbsentUp([JOB, NO_JOB, UP]),
              AbsentUp([NO_JOB, JOB, Encode(NAMESPACE, ValuesOf(keys)), UP]))
  {
    var original, m := [JOB, NO_JOB, UP], Encode(NAMESPACE, ValuesOf(keys));
    assert original[1..] == [NO_JOB, UP] && original[1..][1..] == [UP] && [UP][1..] == [];
    assert FilterMatchers(E, MapSet(keys), [UP]) == [UP, m];
    assert FilterMatchers(E, MapSet(keys), [NO_JOB, UP]) == [NO_JOB, UP, m];
    assert FilterMatchers(E, MapSet(keys), original) == [JOB, NO_JOB, UP, m];
    SwappedPairs(JOB, NO_JOB, UP, m);
    AbsentUpIsPrinted(E, MapSet(keys), original, [NO_JOB, JOB, m, UP]);
  }

  lemma SwappedPairs(a: Matcher, b: Matcher, c: Matcher, d: Matcher)
    ensures multiset([b, a, d, c]) == multiset([a, b, c, d])
  {
  }

  // ------------------------------------------------------------- lost matchers

  const IN_A := Matcher(MatchEqual, NAMESPACE, "a")
  const UP_IN_A := Storage.Series(map[METRIC_NAME := "up", NAMESPACE := "a"], [])

  /**
   * `{__name__="",namespace="a"}` asks for series without a metric name, but is printed
   * as `{namespace="a"}` and then answered with `up`.
   */
  lemma LossOfNameIsSeen(E: Engine, I: Interpretation, readerLabels: Set, now: int, at: int)
    requires I.sample(UP_IN_A, at).Some?
    ensures var req := Query(VectorSelector("", 0, [EMPTY_NAME, IN_A]), at);
            var printed := Query(VectorSelector("", 0, [IN_A]), at);
            var p := I.sample(UP_IN_A, at).value;
            && IsPrintedRequest(E, MapSet({"a"}), readerLabels, req, printed)
            && Respond(E, I, [UP_IN_A], MapSet({"a"}), readerLabels, now, req, printed)
               == Ok(Result(Vector([Sample(UP_IN_A.labels, p.time, p.value)])))
            && Ideal(E, I, [UP_IN_A], MapSet({"a"}), readerLabels, now, req) == Ok(Result(Vector([])))
  {
    NamelessIsPrinted(E);
    NamelessSelections(E);
    assert "a" in MapSet({"a"}).Keys();
    var p := I.sample(UP_IN_A, at).value;
    assert Instant(I, [UP_IN_A], at) == [Sample(UP_IN_A.labels, p.time, p.value)] by {
      assert [UP_IN_A][1..] == [];
    }
    QueryResponse(
      E, I, [UP_IN_A], MapSet({"a"}), readerLabels, now,
      VectorSelector("", 0, [EMPTY_NAME, IN_A]), VectorSelector("", 0, [IN_A]), at);
  }

  lemma NamelessIsPrinted(E: Engine)
    ensures IsPrinted(E, MapSet({"a"}), VectorSelector("", 0, [EMPTY_NAME, IN_A]), VectorSelector("", 0, [IN_A]))
  {
    var original := [EMPTY_NAME, IN_A];
    assert original[1..] == [IN_A] && [IN_A][1..] == [];
    assert FilterMatchers(E, MapSet({"a"}), [IN_A]) == [IN_A];
    assert FilterMatchers(E, MapSet({"a"}), original) == original;
    assert WithoutEmptyName(original) == WithoutEmptyName([IN_A]) == [IN_A];
  }

  lemma NamelessSelections(E: Engine)
    ensures Select(E, [UP_IN_A], [IN_A]) == [UP_IN_A]
    ensures Select(E, Restrict([UP_IN_A], {"a"}), [EMPTY_NAME, IN_A]) == []
  {
    assert [UP_IN_A][1..] == [];
    assert Restrict([UP_IN_A], {"a"}) == [UP_IN_A];
    assert EMPTY_NAME in [EMPTY_NAME, IN_A] && !Satisfies(E, UP_IN_A, [EMPTY_NAME, IN_A]);
  }

  // ---------------------------------------------------------------- nil sets

  const IN_B := Matcher(MatchEqual, NAMESPACE, "b")
  const UP_IN_B := Storage.Series(map[METRIC_NAME := "up", NAMESPACE := "b"], [])
  const SCALAR := CallOp("scalar", ScalarType)

  function ScalarOfUp(ms: seq<Matcher>): Expr {
    Apply(SCALAR, [VectorSelector("up", 0, ms)])
  }

  lemma ScalarResponse(E: Engine, I: Interpretation, db: Database, readerLabels: Set, now: int, at: int)
    ensures var req := Query(ScalarOfUp([UP, IN_B]), at);
            var samples := Instant(I, Select(E, db, [UP, IN_B]), at);
            && IsPrintedRequest(E, NilSet, readerLabels, req, req)
            && Respond(E, I, db, NilSet, readerLabels, now, req, req)
               == Ok(Result(I.operator(SCALAR, [VectorSelector("up", 0, [])], [Vector(samples)], at)))
  {
    var e, selector := ScalarOfUp([UP, IN_B]), VectorSelector("up", 0, [UP, IN_B]);
    assert [UP, IN_B][1].name == NAMESPACE;
    NilSetKeepsMatchers(E, [UP, IN_B]);
    assert IsPrinted(E, NilSet, selector, selector) && [selector][1..] == [];
    QueryResponse(E, I, db, NilSet, readerLabels, now, e, e, at);
    SoleValue(E, I, db, e.args, at);
    assert SkeletonAll(e.args) == [VectorSelector("up", 0, [])];
  }

  /**
   * With a nil set `scalar(up{namespace="b"})` is answered with the value of a series of
   * namespace `b`, by any engine whose `scalar` of one sample is its value and of none
   * is something else.
   */
  lemma NilSetScalarDependsOnSeries(E: Engine, I: Interpretation, readerLabels: Set, now: int, v: real, at: int)
    requires I.sample(UP_IN_B, at) == Some(Point(at, v))
    requires I.operator(SCALAR, [VectorSelector("up", 0, [])], [Vector([Sample(UP_IN_B.labels, at, v)])], at) == Scalar(v)
    requires I.operator(SCALAR, [VectorSelector("up", 0, [])], [Vector([])], at) != Scalar(v)
    ensures SentinelFree([UP_IN_B])
    ensures var req := Query(ScalarOfUp([UP, IN_B]), at);
            && IsPrintedRequest(E, NilSet, readerLabels, req, req)
            && Respond(E, I, [UP_IN_B], NilSet, readerLabels, now, req, req) == Ok(Result(Scalar(v)))
            && Respond(E, I, [], NilSet, readerLabels, now, req, req) != Ok(Result(Scalar(v)))
  {
    ScalarResponse(E, I, [UP_IN_B], readerLabels, now, at);
    ScalarResponse(E, I, [], readerLabels, now, at);
    SelectedUp(E, I, v, at);
  }

  lemma SelectedUp(E: Engine, I: Interpretation, v: real, at: int)
    requires I.sample(UP_IN_B, at) == Some(Point(at, v))
    ensures Instant(I, Select(E, [UP_IN_B], [UP, IN_B]), at) == [Sample(UP_IN_B.labels, at, v)]
  {
    assert [UP_IN_B][1..] == [];
    assert Select(E, [UP_IN_B], [UP, IN_B]) == [UP_IN_B];
  }
}
