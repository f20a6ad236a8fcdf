/** What becomes of requests when the namespaces of a caller could not be listed, and the set is nil. */
module NilSets {
  import opened Wrappers
  import opened Data
  import opened Matchers
  import opened Storage
  import opened PromQL
  import opened Printing
  import opened Meaning
  import opened Exactness
  import opened TimeRange
  import opened Handlers
  import opened Service
  import Listing

  /** A forwarded query. Under a nil set none but a scalar one reaches upstream. */
  ghost predicate IsForwardedQuery(E: Engine, readerLabels: Set, req: Request) {
    QueryOf(req).Some? && Handle(E, NilSet, readerLabels, None, req).Forward?
  }

  lemma ForwardedIsScalar(E: Engine, readerLabels: Set, listed: Option<Value>, req: Request)
    ensures Handle(E, NilSet, readerLabels, listed, req) == Handle(E, NilSet, readerLabels, None, req)
    ensures Handle(E, NilSet, readerLabels, listed, req).Forward? ==>
              QueryOf(req).Some? && TypeOf(QueryOf(req).value).ScalarType?
  {
  }

  /**
   * After a failed namespace query the response is the same on all sentinel-free
   * databases, except to a scalar query with a selector that, as printed, has a
   * namespace matcher and that some series can satisfy.
   */
  lemma NilSetAnswersAreFixed(
    E: Engine, I: Interpretation, readerLabels: Set, db: Database, db': Database, now: int, req: Request, printed: Request)
    requires SentinelFree(db) && SentinelFree(db') && IsPrintedRequest(E, NilSet, readerLabels, req, printed)
    requires IsForwardedQuery(E, readerLabels, req) ==> KeepsSelections(E, NilSet, QueryOf(req).value)
    ensures Respond(E, I, db, NilSet, readerLabels, now, req, printed)
            == Respond(E, I, db', NilSet, readerLabels, now, req, printed)
  {
    ForwardedIsScalar(E, readerLabels, Some(ListingAt(E, I, db, now)), req);
    ForwardedIsScalar(E, readerLabels, Some(ListingAt(E, I, db', now)), req);
    if IsForwardedQuery(E, readerLabels, req) {
      BlindUpstreamIsFixed(E, I, readerLabels, db, db', now, req, printed);
    }
  }

  ghost function ListingAt(E: Engine, I: Interpretation, db: Database, now: int): Value {
    Eval(E, I, db, Listing.NewExprForCountAllLabels(ValuesOf(NilSet.Keys())), now)
  }

  lemma BlindUpstreamIsFixed(
    E: Engine, I: Interpretation, readerLabels: Set, db: Database, db': Database, now: int, req: Request, printed: Request)
    requires SentinelFree(db) && SentinelFree(db') && IsPrintedRequest(E, NilSet, readerLabels, req, printed)
    requires QueryOf(req).Some? && KeepsSelections(E, NilSet, QueryOf(req).value)
    ensures Upstream(E, I, db, now, printed) == Upstream(E, I, db', now, printed)
  {
    match req
    case InstantQuery(Some(ExprText(e)), _, at) => BlindIsFixed(E, I, db, db', e, printed.query.value.expr, at);
    case RangeQuery(Some(ExprText(e)), _, start, end, step) =>
      if HasAcceptedRange(start, end, step) {
        BlindIsFixedAt(
          E, I, db, db', e, printed.query.value.expr,
          Points(ParseTime(start).value, ParseTime(end).value, ParseDuration(step).value));
      }
  }

  ghost predicate IsResponseFixed(
    E: Engine, I: Interpretation, readerLabels: Set, now: int, req: Request, printed: Request)
  {
    forall db, db' | SentinelFree(db) && SentinelFree(db') ::
      Respond(E, I, db, NilSet, readerLabels, now, req, printed)
      == Respond(E, I, db', NilSet, readerLabels, now, req, printed)
  }

  /**
   * The exception is exact: under every engine the response to a request is the same on
   * all sentinel-free databases if and only if it is no forwarded query, or each of its
   * selectors, as printed, has no namespace matcher or can be satisfied by no series.
   */
  lemma NilSetIsSafeIff(E: Engine, readerLabels: Set, now: int, req: Request, printed: Request)
    requires IsParsedRequest(E, req) && IsPrintedRequest(E, NilSet, readerLabels, req, printed)
    requires QueryOf(req).Some? ==> IsTyped(QueryOf(req).value)
    ensures (forall I | RespectsTypes(I) :: IsResponseFixed(E, I, readerLabels, now, req, printed))
            <==> (IsForwardedQuery(E, readerLabels, req) ==> KeepsSelections(E, NilSet, QueryOf(req).value))
  {
    if IsForwardedQuery(E, readerLabels, req) ==> KeepsSelections(E, NilSet, QueryOf(req).value) {
      forall I, db, db' | SentinelFree(db) && SentinelFree(db')
        ensures Respond(E, I, db, NilSet, readerLabels, now, req, printed)
                == Respond(E, I, db', NilSet, readerLabels, now, req, printed)
      {
        NilSetAnswersAreFixed(E, I, readerLabels, db, db', now, req, printed);
      }
    } else {
      var I, s := SeeingIsNotFixed(E, QueryOf(req).value, QueryOf(printed).value, FirstTime(req));
      SeenIsShown(E, I, readerLabels, now, req, printed, s);
      assert SentinelFree([]) && !IsResponseFixed(E, I, readerLabels, now, req, printed);
    }
  }

  /** A series a forwarded query tells from none shows in the response. */
  lemma SeenIsShown(
    E: Engine, I: Interpretation, readerLabels: Set, now: int, req: Request, printed: Request, s: Storage.Series)
    requires IsForwardedQuery(E, readerLabels, req) && IsPrintedRequest(E, NilSet, readerLabels, req, printed)
    requires Eval(E, I, [s], QueryOf(printed).value, FirstTime(req)) != Eval(E, I, [], QueryOf(printed).value, FirstTime(req))
    ensures Respond(E, I, [s], NilSet, readerLabels, now, req, printed)
            != Respond(E, I, [], NilSet, readerLabels, now, req, printed)
  {
    var p := QueryOf(printed).value;
    ForwardedIsScalar(E, readerLabels, None, req);
    ForwardedIsScalar(E, readerLabels, Some(ListingAt(E, I, [s], now)), req);
    ForwardedIsScalar(E, readerLabels, Some(ListingAt(E, I, [], now)), req);
    PrintedType(E, NilSet, QueryOf(req).value, p);
    assert printed == WithQuery(req, p);
    IsAnswered(E, I, NilSet, readerLabels, [s], now, req, p);
    IsAnswered(E, I, NilSet, readerLabels, [], now, req, p);
    AnswersDiffer(E, I, NilSet, readerLabels, now, req, [s], p, [], p);
  }
}
