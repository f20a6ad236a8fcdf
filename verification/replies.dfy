/**
 * Which requests each handler refuses, answers by itself and forwards; and that what it
 * answers by itself, for a caller without namespaces, is what forwarding would bring.
 */
module Replies {
  import opened Wrappers
  import opened Strings
  import opened Data
  import opened Matchers
  import opened LabelMatchers
  import opened Storage
  import opened PromQL
  import opened Printing
  import opened Meaning
  import opened TimeRange
  import opened Handlers
  import opened Forwarding
  import opened Service
  import Listing

  // --------------------------------------------------------------- decisions

  /** A query that passes every check: `TimeRange` says which durations and ranges do. */
  predicate PassesChecks(req: Request) {
    match req
    case InstantQuery(query, timeout, _) =>
      && (timeout.Some? ==> ParseDuration(timeout.value).Some?)
      && query.Some? && query.value.ExprText?
    case RangeQuery(query, timeout, start, end, step) =>
      && (timeout.Some? ==> ParseDuration(timeout.value).Some?)
      && HasAcceptedRange(start, end, step)
      && query.Some? && query.value.ExprText?
    case _ => false
  }

  /** For a query that passes the checks, the reply goes by the set and the type of the expression. */
  lemma QueryReplies(E: Engine, ns: Set, readerLabels: Set, listed: Option<Value>, req: Request)
    requires req.InstantQuery? || req.RangeQuery?
    ensures var reply := Handle(E, ns, readerLabels, listed, req);
            if !PassesChecks(req) then reply == Refuse(BadData)
            else
              var e := req.query.value.expr;
              if ns.Keys() != {} || TypeOf(e) == ScalarType then
                reply == Forward(req.(query := Some(ExprText(Rewrite(E, ns, e)))))
              else
                && (reply == Answered(Result(Vector([]))) <==> TypeOf(e) == VectorType && req.InstantQuery?)
                && (reply == Answered(Result(Matrix([])))
                    <==> TypeOf(e) == MatrixType || (TypeOf(e) == VectorType && req.RangeQuery?))
                && (reply == Refuse(BadData) <==> TypeOf(e) == StringType || TypeOf(e) == NoneType)
  {
  }

  /** A selector as `match[]` takes it. */
  predicate IsSelector(x: Text) {
    x.SelectorText? || (x.ExprText? && x.expr.VectorSelector? && x.expr.offset == 0)
  }

  /** The selectors of `matches` rewritten, each in its place. */
  ghost predicate AreRewritten(E: Engine, ns: Set, matches: seq<Text>, rewritten: seq<Text>) {
    |rewritten| == |matches|
    && forall i | 0 <= i < |matches| ::
         matches[i].ExprText? && rewritten[i] == ExprText(Rewrite(E, ns, matches[i].expr))
  }

  lemma ExpressionsAreRewritten(E: Engine, ns: Set, matches: seq<Text>)
    ensures AllExpressions(matches) ==> AreRewritten(E, ns, matches, RewriteTexts(E, ns, matches))
  {
    forall i | 0 <= i < |matches| && AllExpressions(matches) ensures matches[i].ExprText? {
      assert ParseExpr(matches[i]).Some?;
    }
  }

  lemma FederateReplies(E: Engine, ns: Set, readerLabels: Set, listed: Option<Value>, matches: seq<Text>)
    ensures var reply := Handle(E, ns, readerLabels, listed, Federate(matches));
            if exists x | x in matches :: !IsSelector(x) then reply == Refuse(BadData)
            else if matches == [] || ns.Keys() == {} then reply == Answered(Samples([]))
            else if exists x | x in matches :: x.SelectorText? then reply == Refuse(BadData)
            else reply.Forward? && reply.request.Federate? && AreRewritten(E, ns, matches, reply.request.matches)
  {
    assert AllSelectors(matches) <==> forall x | x in matches :: IsSelector(x);
    ExpressionsAreRewritten(E, ns, matches);
  }

  lemma SeriesReplies(
    E: Engine, ns: Set, readerLabels: Set, listed: Option<Value>, matches: seq<Text>,
    from: Option<TimeText>, to: Option<TimeText>)
    ensures var reply := Handle(E, ns, readerLabels, listed, Request.Series(matches, from, to));
            if from == Some(UnreadableTime) || to == Some(UnreadableTime) || matches == [] then reply == Refuse(BadData)
            else if exists x | x in matches :: !IsSelector(x) then reply == Refuse(BadData)
            else if ns.Keys() == {} then reply == Answered(SeriesLabels([]))
            else if exists x | x in matches :: x.SelectorText? then reply == Refuse(BadData)
            else
              && reply.Forward? && reply.request.Series? && reply.request.from == from && reply.request.to == to
              && AreRewritten(E, ns, matches, reply.request.matches)
  {
    assert AllSelectors(matches) <==> forall x | x in matches :: IsSelector(x);
    ExpressionsAreRewritten(E, ns, matches);
  }

  lemma ReadReplies(E: Engine, ns: Set, readerLabels: Set, listed: Option<Value>, body: Option<seq<ReadQuery>>)
    ensures var reply := Handle(E, ns, readerLabels, listed, Read(body));
            match body
            case None => reply == Refuse(BadData)
            case Some(queries) =>
              if ns.Keys() == {} then
                && reply.Answered? && reply.answer.ReadResults? && |reply.answer.results| == |queries|
                && forall i | 0 <= i < |queries| :: reply.answer.results[i] == []
              else
                && reply.Forward? && reply.request.Read? && reply.request.body.Some?
                && |reply.request.body.value| == |queries|
                && forall i | 0 <= i < |queries| ::
                     reply.request.body.value[i]
                     == ReadQuery(queries[i].start, queries[i].end,
                                  FilterLabelMatchers(E, ns, DropLabels(queries[i].matchers, readerLabels.Keys())))
  {
  }

  // -------------------------------------------------------------- label values

  /** The namespaces a caller is told: those of the set, each once and in order. */
  lemma NamespacesAreListed(
    E: Engine, I: Interpretation, ns: Set, readerLabels: Set, db: Database, now: int, printed: Request)
    requires AreNamespaceNames(ns)
    ensures var r := Respond(E, I, db, ns, readerLabels, now, LabelNamespaces, printed);
            && r.Ok? && r.value.Names?
            && (forall n :: n in r.value.names <==> n in ns.Keys())
            && (forall i, j | 0 <= i < j < |r.value.names| :: Less(r.value.names[i], r.value.names[j]))
  {
    ValuesOfNames(ns.Keys());
  }

  /** The metric names a caller is told: each once, and exactly those of the caller's series that have a sample now. */
  lemma NamesAreListed(
    E: Engine, I: Interpretation, ns: Set, readerLabels: Set, db: Database, now: int, printed: Request)
    requires Fits(E, ns, db) && Listing.CountsByName(I)
    ensures var r := Respond(E, I, db, ns, readerLabels, now, LabelNames, printed);
            && r.Ok? && r.value.Names?
            && (forall i, j | 0 <= i < j < |r.value.names| :: r.value.names[i] != r.value.names[j])
            && (forall n :: n in r.value.names <==> Listing.OwnsSampledSeries(I, ns, db, now, n))
  {
    if ns.keys != {} {
      Listing.ListingIsExact(E, I, ns, db, now);
    }
  }

  // ------------------------------------------------------------- empty sets

  /** What the fast paths answer to a caller without namespaces. */
  function FastAnswer(req: Request): Answer {
    match req
    case Federate(_) => Samples([])
    case Series(_, _, _) => SeriesLabels([])
    case Read(Some(queries)) => ReadResults(EmptyResults(|queries|))
    case _ => Names([])
  }

  lemma NothingIsOwned(db: Database)
    ensures Restrict(db, {}) == []
  {
    if s :| s in Restrict(db, {}) {
      RestrictedSeries(db, {}, s);
    }
  }

  lemma {:induction false} ReadingNothing(E: Engine, I: Interpretation, queries: seq<ReadQuery>)
    ensures ReadAll(E, I, [], queries)
            == if (forall q | q in queries :: FromLabelMatchers(E, q.matchers).Ok?) then Some(EmptyResults(|queries|)) else None
  {
    if queries != [] {
      ReadingNothing(E, I, queries[1..]);
      assert forall q :: q in queries <==> q == queries[0] || q in queries[1..];
      assert EmptyResults(|queries|) == [[]] + EmptyResults(|queries[1..]|);
    } else {
      assert EmptyResults(0) == [];
    }
  }

  /** All kept matchers of a remote read have a known type and a pattern that compiles. */
  ghost predicate IsReadable(E: Engine, req: Request) {
    match req
    case Read(Some(queries)) => forall q | q in queries :: FromLabelMatchers(E, q.matchers).Ok?
    case _ => true
  }

  /** What the caller would see without the fast paths: parse, rewrite, forward. */
  ghost function SlowPath(E: Engine, I: Interpretation, db: Database, now: int, req: Request, printed: Request)
    : Result<Answer, Failure>
  {
    if !HasExpressions(req) then Err(BadData)
    else
      match Upstream(E, I, db, now, printed)
      case Some(answer) => Ok(answer)
      case None => Err(BadData)
  }

  /**
   * Fast paths refine the slow one: for an empty set a federate, series or read request
   * that is not refused is answered with nothing, and the slow path, on every database,
   * brings the same exactly when it can read the request at all.
   */
  lemma FastPathIsSlowPath(
    E: Engine, I: Interpretation, readerLabels: Set, db: Database, now: int, req: Request, printed: Request)
    requires SentinelFree(db) && IsParsedRequest(E, req) && IsPrintedRequest(E, MapSet({}), readerLabels, req, printed)
    requires req.Federate? || req.Series? || req.Read?
    ensures Handle(E, MapSet({}), readerLabels, None, req) in {Answered(FastAnswer(req)), Refuse(BadData)}
    ensures SlowPath(E, I, db, now, req, printed) == Ok(FastAnswer(req))
            <==> Handle(E, MapSet({}), readerLabels, None, req).Answered?
                 && HasExpressions(req) && IsReadable(E, Intended(readerLabels, req))
  {
    if !HasExpressions(req) {
    } else if Handle(E, MapSet({}), readerLabels, None, req).Answered? {
      AnsweredIsSlowPath(E, I, readerLabels, db, now, req, printed);
    } else {
      RefusedUpstream(E, I, readerLabels, db, now, req, printed);
    }
  }

  lemma AnsweredIsSlowPath(
    E: Engine, I: Interpretation, readerLabels: Set, db: Database, now: int, req: Request, printed: Request)
    requires SentinelFree(db) && IsParsedRequest(E, req) && IsPrintedRequest(E, MapSet({}), readerLabels, req, printed)
    requires (req.Federate? || req.Series? || req.Read?) && HasExpressions(req)
    requires Handle(E, MapSet({}), readerLabels, None, req).Answered?
    ensures SlowPath(E, I, db, now, req, printed) == Ok(FastAnswer(req)) <==> IsReadable(E, Intended(readerLabels, req))
  {
    NothingIsLost(E, req);
    PrintedRequestIsExact(E, I, MapSet({}), readerLabels, db, now, req, printed);
    NothingIsOwned(db);
    match req
    case Federate(matches) => assert SelectAny(E, [], SelectorsIn(matches)) == [];
    case Series(matches, _, _) => assert SelectAny(E, [], SelectorsIn(matches)) == [] && RowLabels([]) == [];
    case Read(Some(queries)) => ReadingNothing(E, I, Intended(readerLabels, req).body.value);
  }

  /** What an empty set has refused, upstream refuses. */
  lemma RefusedUpstream(
    E: Engine, I: Interpretation, readerLabels: Set, db: Database, now: int, req: Request, printed: Request)
    requires IsPrintedRequest(E, MapSet({}), readerLabels, req, printed) && HasExpressions(req)
    requires (req.Federate? || req.Series? || req.Read?) && !Handle(E, MapSet({}), readerLabels, None, req).Answered?
    ensures Upstream(E, I, db, now, printed).None?
  {
    if (req.Federate? || req.Series?) && !AllSelectors(req.matches) {
      PrintedNonSelectors(E, MapSet({}), req.matches, printed.matches);
    }
  }

  lemma PrintedNonSelectors(E: Engine, ns: Set, xs: seq<Text>, xs': seq<Text>)
    requires ArePrintedTexts(E, ns, xs, xs') && AllExpressions(xs) && !AllSelectors(xs)
    ensures !AllSelectors(xs')
  {
    var x :| x in xs && ParseMetricSelector(x).None?;
    var i :| 0 <= i < |xs| && xs[i] == x;
    assert ParseExpr(x).Some? && IsPrinted(E, ns, x.expr, xs'[i].expr);
    assert ParseMetricSelector(xs'[i]).None? && xs'[i] in xs';
  }

  /** Who owns nothing loses nothing. */
  lemma NothingIsLost(E: Engine, req: Request)
    requires req.Federate? || req.Series? ==> AllSelectors(req.matches)
    ensures req.Federate? || req.Series? ==> KeepsEach(E, MapSet({}), req.matches)
  {
    if req.Federate? || req.Series? {
      forall x | x in req.matches && x.ExprText? ensures KeepsSelections(E, MapSet({}), x.expr) {
        assert ParseMetricSelector(x).Some?;
      }
    }
  }

  /**
   * Without namespaces, an instant query that passes the checks is answered with the
   * empty value of the type its value has upstream, on every database, if that is a
   * vector or a matrix; a scalar is forwarded, and a string refused.
   */
  lemma FastQueryHasTheRightType(
    E: Engine, I: Interpretation, ns: Set, readerLabels: Set, db: Database, req: Request, printed: Request)
    requires RespectsTypes(I) && ns.Keys() == {} && req.InstantQuery? && PassesChecks(req)
    requires IsTyped(req.query.value.expr) && IsPrintedRequest(E, ns, readerLabels, req, printed)
    ensures var reply := Handle(E, ns, readerLabels, None, req);
            match Eval(E, I, db, printed.query.value.expr, req.at)
            case Vector(_) => reply == Answered(Result(Vector([])))
            case Matrix(_) => reply == Answered(Result(Matrix([])))
            case Scalar(_) => reply.Forward?
            case Text(_) => reply == Refuse(BadData)
  {
    var e, p := req.query.value.expr, printed.query.value.expr;
    PrintedType(E, ns, e, p);
    ValuesHaveTheirType(E, I, db, p, req.at);
    QueryReplies(E, ns, readerLabels, None, req);
  }

  /**
   * For a range query the immediate answer, always an empty matrix, hides a refusal
   * exactly when the query passes the checks and is of matrix type: upstream takes
   * scalars and vectors only.
   */
  lemma FastRangeHidesRefusal(
    E: Engine, I: Interpretation, readerLabels: Set, db: Database, now: int, req: Request, printed: Request)
    requires req.RangeQuery? && IsPrintedRequest(E, MapSet({}), readerLabels, req, printed)
    ensures var reply := Handle(E, MapSet({}), readerLabels, None, req);
            && (reply.Answered? ==> reply == Answered(Result(Matrix([]))))
            && (reply.Answered? && SlowPath(E, I, db, now, req, printed).Err?
                <==> PassesChecks(req) && TypeOf(req.query.value.expr).MatrixType?)
  {
    QueryReplies(E, MapSet({}), readerLabels, None, req);
    if PassesChecks(req) {
      PrintedType(E, MapSet({}), req.query.value.expr, printed.query.value.expr);
    }
  }

  /** The empty list of names is what the listing would yield for an empty set. */
  lemma FastListingIsSlowListing(E: Engine, I: Interpretation, db: Database, now: int)
    requires SentinelFree(db) && Listing.CountsByName(I)
    ensures ListedNames(Some(Eval(E, I, db, Listing.NewExprForCountAllLabels(ValuesOf({})), now))) == Answered(Names([]))
  {
    Listing.ListingValue(E, I, MapSet({}), db, now);
    NothingIsOwned(db);
  }
}
