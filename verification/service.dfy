/**
 * The handlers together with the Prometheus behind them: what a caller with a
 * given namespace set is told, and on which series that can depend.
 */
module Service {
  import opened Wrappers
  import opened Data
  import opened Matchers
  import opened Storage
  import opened PromQL
  import opened Printing
  import opened Meaning
  import opened Exactness
  import opened TimeRange
  import opened Handlers
  import opened Forwarding
  import Listing

  // ----------------------------------------------------------------- upstream

  function RowLabels(rows: seq<Row>): seq<map<string, string>> {
    seq(|rows|, i requires 0 <= i < |rows| => rows[i].labels)
  }

  function TimeOr(t: Option<TimeText>, default: int): int {
    if t.Some? && ParseTime(t.value).Some? then ParseTime(t.value).value else default
  }

  /** The answer to one remote-read query: the windows of the selected series. */
  function ReadRows(E: Engine, I: Interpretation, db: Database, q: ReadQuery): Option<seq<Row>> {
    match ReadSelect(E, db, q.matchers)
    case Ok(selected) => Some(Window(I, selected, q.end, q.end - q.start))
    case Err(_) => None
  }

  /** One answer per query, in order, or none at all when some query cannot be read. */
  function ReadAll(E: Engine, I: Interpretation, db: Database, queries: seq<ReadQuery>): Option<seq<seq<Row>>> {
    if queries == [] then Some([])
    else
      var first := ReadRows(E, I, db, queries[0]);
      var rest := ReadAll(E, I, db, queries[1..]);
      if first.Some? && rest.Some? then Some([first.value] + rest.value) else None
  }

  ghost function SeriesAnswer(
    E: Engine, I: Interpretation, db: Database, matches: seq<Text>, from: Option<TimeText>, to: Option<TimeText>)
    : Option<Answer>
  {
    if matches == [] || !AllSelectors(matches) || !IsReadableTime(from) || !IsReadableTime(to) then None
    else
      var lo, hi := TimeOr(from, MIN_INT64), TimeOr(to, MAX_INT64);
      Some(SeriesLabels(RowLabels(Window(I, SelectAny(E, db, SelectorsIn(matches)), hi, hi - lo))))
  }

  ghost function RangeAnswer(
    E: Engine, I: Interpretation, db: Database, e: Expr, start: TimeText, end: TimeText, step: DurationText): Option<Answer>
  {
    if !HasAcceptedRange(start, end, step) || TypeOf(e) !in {VectorType, ScalarType} then None
    else
      var points := Points(ParseTime(start).value, ParseTime(end).value, ParseDuration(step).value);
      Some(RangeResult(EvalAt(E, I, db, e, points)))
  }

  /** What Prometheus answers to a request that is forwarded to it. */
  ghost function Upstream(E: Engine, I: Interpretation, db: Database, now: int, req: Request): Option<Answer> {
    match req
    case Federate(matches) =>
      if !AllSelectors(matches) then None
      else Some(Samples(Instant(I, SelectAny(E, db, SelectorsIn(matches)), now)))
    case Series(matches, from, to) => SeriesAnswer(E, I, db, matches, from, to)
    case InstantQuery(query, timeout, at) =>
      if !IsReadableDuration(timeout) || query.None? || ParseExpr(query.value).None? then None
      else Some(Result(Eval(E, I, db, query.value.expr, at)))
    case RangeQuery(query, timeout, start, end, step) =>
      if !IsReadableDuration(timeout) || query.None? || ParseExpr(query.value).None? then None
      else RangeAnswer(E, I, db, query.value.expr, start, end, step)
    case Read(body) =>
      if body.None? then None
      else
        var results := ReadAll(E, I, db, body.value);
        if results.None? then None else Some(ReadResults(results.value))
    case _ => None
  }

  ghost function Handle(E: Engine, ns: Set, readerLabels: Set, listed: Option<Value>, req: Request): Reply {
    match req
    case Federate(matches) => FederateReply(E, ns, matches)
    case Series(matches, from, to) => SeriesReply(E, ns, matches, from, to)
    case InstantQuery(query, timeout, at) => InstantReply(E, ns, query, timeout, at)
    case RangeQuery(query, timeout, start, end, step) => RangeReply(E, ns, query, timeout, start, end, step)
    case Read(body) => ReadReply(E, ns, readerLabels, body)
    case LabelNames => if ns.Keys() == {} then Answered(Names([])) else ListedNames(listed)
    case LabelNamespaces => Answered(Names(ValuesOf(ns.Keys())))
  }

  /** The dispatch of requests to handlers; `remoteAPI` is asked for the listing only. */
  method Dispatch(E: Engine, ns: Set, readerLabels: Set, remoteAPI: Expr -> Option<Value>, req: Request) returns (r: Reply)
    requires AreNamespaceNames(ns) && IsParsedRequest(E, req)
    ensures r == Handle(E, ns, readerLabels, remoteAPI(Listing.NewExprForCountAllLabels(ValuesOf(ns.Keys()))), req)
  {
    match req {
      case Federate(matches) => r := HijackFederate(E, ns, matches);
      case Series(matches, from, to) => r := HijackSeries(E, ns, matches, from, to);
      case InstantQuery(query, timeout, at) => r := HijackQuery(E, ns, query, timeout, at);
      case RangeQuery(query, timeout, start, end, step) => r := HijackQueryRange(E, ns, query, timeout, start, end, step);
      case Read(body) => r := HijackRead(E, ns, readerLabels, body);
      case LabelNames => r := HijackLabelName(ns, remoteAPI);
      case LabelNamespaces => r := HijackLabelNamespaces(ns);
    }
  }

  /** The expression of a query. */
  function QueryOf(req: Request): Option<Expr> {
    match req
    case InstantQuery(Some(ExprText(e)), _, _) => Some(e)
    case RangeQuery(Some(ExprText(e)), _, _, _, _) => Some(e)
    case _ => None
  }

  /** What upstream may read of the request a handler forwards: everything but remote reads goes through the printer. */
  ghost predicate IsPrintedRequest(E: Engine, ns: Set, readerLabels: Set, req: Request, printed: Request) {
    match req
    case Federate(matches) => printed.Federate? && ArePrintedTexts(E, ns, matches, printed.matches)
    case Series(matches, from, to) =>
      printed.Series? && printed.from == from && printed.to == to && ArePrintedTexts(E, ns, matches, printed.matches)
    case InstantQuery(Some(query), timeout, at) =>
      printed.InstantQuery? && printed.timeout == timeout && printed.at == at
      && printed.query.Some? && IsPrintedText(E, ns, query, printed.query.value)
    case RangeQuery(Some(query), timeout, start, end, step) =>
      printed.RangeQuery? && printed.timeout == timeout
      && printed.start == start && printed.end == end && printed.step == step
      && printed.query.Some? && IsPrintedText(E, ns, query, printed.query.value)
    case _ => printed == Rewritten(E, ns, readerLabels, req)
  }

  function PrintText(x: Text): Text {
    match x
    case ExprText(e) => ExprText(Print(e))
    case _ => x
  }

  /** A request with its expressions printed in the order of their trees. */
  function PrintRequest(req: Request): Request {
    match req
    case Federate(matches) => Federate(seq(|matches|, i requires 0 <= i < |matches| => PrintText(matches[i])))
    case Series(matches, from, to) =>
      Request.Series(seq(|matches|, i requires 0 <= i < |matches| => PrintText(matches[i])), from, to)
    case InstantQuery(Some(query), timeout, at) => InstantQuery(Some(PrintText(query)), timeout, at)
    case RangeQuery(Some(query), timeout, start, end, step) =>
      RangeQuery(Some(PrintText(query)), timeout, start, end, step)
    case _ => req
  }

  /** Every request a handler forwards can be read so. */
  lemma ForwardedIsPrinted(E: Engine, ns: Set, readerLabels: Set, listed: Option<Value>, req: Request)
    requires Handle(E, ns, readerLabels, listed, req).Forward?
    ensures IsPrintedRequest(
              E, ns, readerLabels, req, PrintRequest(Handle(E, ns, readerLabels, listed, req).request))
  {
    ForwardedIsRewritten(E, ns, readerLabels, listed, req);
    match req
    case Federate(matches) => PrintedTexts(E, ns, matches);
    case Series(matches, _, _) => PrintedTexts(E, ns, matches);
    case InstantQuery(Some(ExprText(e)), _, _) => PrintIsPrinted(E, ns, e);
    case RangeQuery(Some(ExprText(e)), _, _, _, _) => PrintIsPrinted(E, ns, e);
    case _ =>
  }

  lemma PrintedTexts(E: Engine, ns: Set, xs: seq<Text>)
    ensures var rewritten := RewriteTexts(E, ns, xs);
            ArePrintedTexts(E, ns, xs, seq(|rewritten|, i requires 0 <= i < |rewritten| => PrintText(rewritten[i])))
  {
    forall i | 0 <= i < |xs| ensures IsPrintedText(E, ns, xs[i], PrintText(RewriteText(E, ns, xs[i]))) {
      if xs[i].ExprText? {
        PrintIsPrinted(E, ns, xs[i].expr);
      }
    }
  }

  /**
   * What the caller sees: the handler's own reply, or what upstream says to `printed`,
   * which is what it reads of the forwarded request.
   */
  ghost function Respond(
    E: Engine, I: Interpretation, db: Database, ns: Set, readerLabels: Set, now: int, req: Request, printed: Request)
    : Result<Answer, Failure>
  {
    var listing := Listing.NewExprForCountAllLabels(ValuesOf(ns.Keys()));
    match Handle(E, ns, readerLabels, Some(Eval(E, I, db, listing, now)), req)
    case Refuse(failure) => Err(failure)
    case Answered(answer) => Ok(answer)
    case Forward(_) =>
      match Upstream(E, I, db, now, printed)
      case Some(answer) => Ok(answer)
      case None => Err(BadData)
  }

  // ----------------------------------------------------- exactness of replies

  /** The part of a request that the caller's own series answer: reader labels are dropped from remote reads. */
  function Intended(readerLabels: Set, req: Request): Request {
    match req
    case Read(Some(queries)) => Read(Some(DropFromEach(queries, readerLabels)))
    case _ => req
  }

  /** Neither rewriting nor any printing changes the meaning of the request: a condition on its matchers. */
  ghost predicate IsStableRequest(E: Engine, ns: Set, req: Request) {
    && (QueryOf(req).Some? ==>
          IsAbsentStable(E, ns, QueryOf(req).value, true) && KeepsSelections(E, ns, QueryOf(req).value))
    && (req.Federate? || req.Series? ==> KeepsEach(E, ns, req.matches))
  }

  /** This printing keeps the meaning of the request. */
  ghost predicate KeepsRequest(E: Engine, ns: Set, req: Request, printed: Request) {
    && (QueryOf(req).Some? ==>
          && QueryOf(printed).Some?
          && KeepsLabels(QueryOf(req).value, QueryOf(printed).value, true)
          && KeepsSelections(E, ns, QueryOf(req).value))
    && (req.Federate? || req.Series? ==> KeepsEach(E, ns, req.matches))
  }

  lemma StableRequestIsKept(E: Engine, ns: Set, readerLabels: Set, req: Request, printed: Request)
    requires ns.MapSet? && AreNamespaceNames(ns) && IsParsedRequest(E, req)
    requires IsPrintedRequest(E, ns, readerLabels, req, printed) && IsStableRequest(E, ns, req)
    ensures KeepsRequest(E, ns, req, printed)
  {
    if QueryOf(req).Some? {
      StableKeepsLabels(E, ns, QueryOf(req).value, QueryOf(printed).value, true);
    }
  }

  /** The request a handler forwards once every check has passed. */
  ghost function Rewritten(E: Engine, ns: Set, readerLabels: Set, req: Request): Request {
    match req
    case Federate(matches) => Federate(RewriteTexts(E, ns, matches))
    case Series(matches, from, to) => Request.Series(RewriteTexts(E, ns, matches), from, to)
    case InstantQuery(Some(query), timeout, at) => InstantQuery(Some(RewriteText(E, ns, query)), timeout, at)
    case RangeQuery(Some(query), timeout, start, end, step) =>
      RangeQuery(Some(RewriteText(E, ns, query)), timeout, start, end, step)
    case Read(Some(queries)) => Read(Some(ModifiedReadQueries(E, ns, readerLabels, queries)))
    case _ => req
  }

  ghost predicate HasExpressions(req: Request) {
    match req
    case Federate(matches) => AllExpressions(matches)
    case Series(matches, _, _) => AllExpressions(matches)
    case _ => true
  }

  lemma ForwardedIsRewritten(E: Engine, ns: Set, readerLabels: Set, listed: Option<Value>, req: Request)
    requires Handle(E, ns, readerLabels, listed, req).Forward?
    ensures Handle(E, ns, readerLabels, listed, req).request == Rewritten(E, ns, readerLabels, req)
    ensures HasExpressions(req)
  {
  }

  /** The queries of a remote read without their reader labels. */
  function DropFromEach(queries: seq<ReadQuery>, readerLabels: Set): (r: seq<ReadQuery>)
    ensures |r| == |queries|
    ensures forall i | 0 <= i < |r| ::
              r[i] == queries[i].(matchers := DropLabels(queries[i].matchers, readerLabels.Keys()))
  {
    seq(|queries|, i requires 0 <= i < |queries| =>
      queries[i].(matchers := DropLabels(queries[i].matchers, readerLabels.Keys())))
  }

  lemma {:induction false} SameReadsAnswerTheSame(
    E: Engine, I: Interpretation, db: Database, db': Database, queries: seq<ReadQuery>, queries': seq<ReadQuery>)
    requires |queries| == |queries'|
    requires forall i | 0 <= i < |queries| :: ReadRows(E, I, db, queries[i]) == ReadRows(E, I, db', queries'[i])
    ensures ReadAll(E, I, db, queries) == ReadAll(E, I, db', queries')
  {
    if queries != [] {
      SameReadsAnswerTheSame(E, I, db, db', queries[1..], queries'[1..]);
    }
  }

  lemma ReadAllIsExact(E: Engine, I: Interpretation, ns: Set, readerLabels: Set, db: Database, queries: seq<ReadQuery>)
    requires Fits(E, ns, db)
    ensures ReadAll(E, I, db, ModifiedReadQueries(E, ns, readerLabels, queries))
            == ReadAll(E, I, Restrict(db, ns.keys), DropFromEach(queries, readerLabels))
  {
    var modified, kept := ModifiedReadQueries(E, ns, readerLabels, queries), DropFromEach(queries, readerLabels);
    forall i | 0 <= i < |queries| ensures ReadRows(E, I, db, modified[i]) == ReadRows(E, I, Restrict(db, ns.keys), kept[i]) {
      ReadIsExact(E, ns, readerLabels, queries[i].matchers, db);
    }
    SameReadsAnswerTheSame(E, I, db, Restrict(db, ns.keys), modified, kept);
  }

  /**
   * Upstream's answer to the printed request, on all series, is its answer to the
   * request as it was meant, on the series the caller owns; the number and order of
   * selectors and queries, the times and the steps are kept.
   */
  lemma PrintedRequestIsExact(
    E: Engine, I: Interpretation, ns: Set, readerLabels: Set, db: Database, now: int, req: Request, printed: Request)
    requires Fits(E, ns, db) && IsParsedRequest(E, req) && HasExpressions(req)
    requires IsPrintedRequest(E, ns, readerLabels, req, printed) && KeepsRequest(E, ns, req, printed)
    requires req.Federate? || req.Series? ==> AllSelectors(req.matches)
    ensures Upstream(E, I, db, now, printed) == Upstream(E, I, Restrict(db, ns.keys), now, Intended(readerLabels, req))
  {
    match req
    case Federate(matches) => PrintedFederateIsExact(E, I, ns, db, now, matches, printed.matches);
    case Series(matches, from, to) => PrintedSeriesIsExact(E, I, ns, db, matches, printed.matches, from, to);
    case InstantQuery(_, _, _) => PrintedQueryIsExact(E, I, ns, readerLabels, db, now, req, printed);
    case RangeQuery(_, _, _, _, _) => PrintedQueryIsExact(E, I, ns, readerLabels, db, now, req, printed);
    case Read(Some(queries)) => ReadAllIsExact(E, I, ns, readerLabels, db, queries);
    case _ =>
  }

  lemma PrintedFederateIsExact(
    E: Engine, I: Interpretation, ns: Set, db: Database, now: int, xs: seq<Text>, xs': seq<Text>)
    requires Fits(E, ns, db) && AreForwarded(E, xs) && KeepsEach(E, ns, xs) && ArePrintedTexts(E, ns, xs, xs')
    ensures Upstream(E, I, db, now, Federate(xs')) == Upstream(E, I, Restrict(db, ns.keys), now, Federate(xs))
  {
    PrintedUnionIsExact(E, ns, xs, xs', db);
  }

  lemma PrintedSeriesIsExact(
    E: Engine, I: Interpretation, ns: Set, db: Database, xs: seq<Text>, xs': seq<Text>,
    from: Option<TimeText>, to: Option<TimeText>)
    requires Fits(E, ns, db) && AreForwarded(E, xs) && KeepsEach(E, ns, xs) && ArePrintedTexts(E, ns, xs, xs')
    ensures SeriesAnswer(E, I, db, xs', from, to) == SeriesAnswer(E, I, Restrict(db, ns.keys), xs, from, to)
  {
    PrintedUnionIsExact(E, ns, xs, xs', db);
  }

  lemma PrintedQueryIsExact(
    E: Engine, I: Interpretation, ns: Set, readerLabels: Set, db: Database, now: int, req: Request, printed: Request)
    requires Fits(E, ns, db) && IsParsedRequest(E, req) && (req.InstantQuery? || req.RangeQuery?)
    requires IsPrintedRequest(E, ns, readerLabels, req, printed) && KeepsRequest(E, ns, req, printed)
    ensures Upstream(E, I, db, now, printed) == Upstream(E, I, Restrict(db, ns.keys), now, req)
  {
    if QueryOf(req).Some? {
      var e, p := QueryOf(req).value, QueryOf(printed).value;
      PrintedType(E, ns, e, p);
      match req
      case InstantQuery(_, _, at) => MeaningIsPreserved(E, I, ns, db, e, p, at, true);
      case RangeQuery(_, _, start, end, step) =>
        if HasAcceptedRange(start, end, step) {
          MeaningIsPreservedAt(
            E, I, ns, db, e, p, Points(ParseTime(start).value, ParseTime(end).value, ParseDuration(step).value));
        }
    }
  }

  /** What upstream, holding the caller's own series only, would tell the caller. */
  ghost function Ideal(
    E: Engine, I: Interpretation, db: Database, ns: Set, readerLabels: Set, now: int, req: Request): Result<Answer, Failure>
  {
    match Upstream(E, I, Restrict(db, ns.Keys()), now, Intended(readerLabels, req))
    case Some(answer) => Ok(answer)
    case None => Err(BadData)
  }

  /** A `match[]` request that upstream would answer and that is refused, as some selector is no expression. */
  ghost predicate IsRefusedNeedlessly(req: Request) {
    match req
    case Federate(matches) => AllSelectors(matches) && !AllExpressions(matches)
    case Series(matches, from, to) =>
      IsReadableTime(from) && IsReadableTime(to) && AllSelectors(matches) && !AllExpressions(matches)
    case _ => false
  }

  /**
   * A caller with namespaces is told exactly that: the handlers refuse what upstream
   * refuses, and all else is answered from the caller's series. The one exception is
   * a `match[]` selector that is no expression, which the handlers refuse and
   * upstream does not.
   */
  lemma ResponseIsExact(
    E: Engine, I: Interpretation, ns: Set, readerLabels: Set, db: Database, now: int, req: Request, printed: Request)
    requires Fits(E, ns, db) && ns.keys != {} && IsParsedRequest(E, req)
    requires IsPrintedRequest(E, ns, readerLabels, req, printed) && KeepsRequest(E, ns, req, printed)
    requires !req.LabelNames? && !req.LabelNamespaces?
    ensures Respond(E, I, db, ns, readerLabels, now, req, printed) == Ideal(E, I, db, ns, readerLabels, now, req)
            <==> !IsRefusedNeedlessly(req)
  {
    var listed := Some(Eval(E, I, db, Listing.NewExprForCountAllLabels(ValuesOf(ns.Keys())), now));
    match Handle(E, ns, readerLabels, listed, req)
    case Forward(_) =>
      ForwardedIsRewritten(E, ns, readerLabels, listed, req);
      PrintedRequestIsExact(E, I, ns, readerLabels, db, now, req, printed);
    case Answered(_) =>
      assert req == Federate([]);
      NothingIsFederated(E, I, Restrict(db, ns.keys), now);
    case Refuse(_) =>
  }

  ghost predicate IsServed(
    E: Engine, I: Interpretation, ns: Set, readerLabels: Set, db: Database, now: int, req: Request, printed: Request)
  {
    Respond(E, I, db, ns, readerLabels, now, req, printed) == Ideal(E, I, db, ns, readerLabels, now, req)
  }

  /**
   * For queries the condition is exact: under every engine, on every sentinel-free
   * database and in every printing the caller is told what was meant if and only if the
   * matchers of the query meet it.
   */
  lemma EveryResponseIsExactIff(E: Engine, ns: Set, readerLabels: Set, now: int, req: Request)
    requires ns.MapSet? && AreNamespaceNames(ns) && ns.keys != {} && IsParsedRequest(E, req)
    requires QueryOf(req).Some? && IsTyped(QueryOf(req).value) && Handle(E, ns, readerLabels, None, req).Forward?
    requires req.RangeQuery? ==> TypeOf(QueryOf(req).value) in {VectorType, ScalarType}
    ensures (forall I, db, printed
               | RespectsTypes(I) && SentinelFree(db) && IsPrintedRequest(E, ns, readerLabels, req, printed) ::
               IsServed(E, I, ns, readerLabels, db, now, req, printed))
            <==> IsStableRequest(E, ns, req)
  {
    if IsStableRequest(E, ns, req) {
      forall I, db, printed
        | RespectsTypes(I) && SentinelFree(db) && IsPrintedRequest(E, ns, readerLabels, req, printed)
        ensures IsServed(E, I, ns, readerLabels, db, now, req, printed)
      {
        StableRequestIsKept(E, ns, readerLabels, req, printed);
        ResponseIsExact(E, I, ns, readerLabels, db, now, req, printed);
      }
    } else {
      var e, t := QueryOf(req).value, FirstTime(req);
      EveryPrintingIsPreservedIff(E, ns, e, t);
      var p :| IsPrinted(E, ns, e, p) && !IsAlwaysPreserved(E, ns, e, p, t);
      var I, db :| RespectsTypes(I) && SentinelFree(db) && !IsPreserved(E, I, ns, db, e, p, t, true);
      PrintedType(E, ns, e, p);
      QueryIsPrinted(E, ns, readerLabels, req, p);
      ShownAtFirst(E, I, ns, readerLabels, db, now, req, p);
    }
  }

  /** The evaluation time of an instant query, the first one of a range query. */
  function FirstTime(req: Request): int {
    match req
    case InstantQuery(_, _, at) => at
    case RangeQuery(_, _, start, _, _) => if ParseTime(start).Some? then ParseTime(start).value else 0
    case _ => 0
  }

  function WithQuery(req: Request, p: Expr): Request {
    match req
    case InstantQuery(_, timeout, at) => InstantQuery(Some(ExprText(p)), timeout, at)
    case RangeQuery(_, timeout, start, end, step) => RangeQuery(Some(ExprText(p)), timeout, start, end, step)
    case _ => req
  }

  /** Upstream shows the value of a query at its first time. */
  lemma AnswersAtFirst(E: Engine, I: Interpretation, db: Database, now: int, req: Request)
    requires QueryOf(req).Some? && Upstream(E, I, db, now, req).Some?
    ensures match Upstream(E, I, db, now, req).value
            case Result(value) => req.InstantQuery? && value == Eval(E, I, db, QueryOf(req).value, FirstTime(req))
            case RangeResult(values) =>
              req.RangeQuery? && values != [] && values[0] == Eval(E, I, db, QueryOf(req).value, FirstTime(req))
            case _ => false
  {
    if req.RangeQuery? {
      var start, end, step := ParseTime(req.start).value, ParseTime(req.end).value, ParseDuration(req.step).value;
      PointsAreTheSteps(start, end, step, 0);
    }
  }

  /** The first value is shown whatever the printing and the database. */
  lemma IsAnswered(E: Engine, I: Interpretation, ns: Set, readerLabels: Set, db: Database, now: int, req: Request, p: Expr)
    requires QueryOf(req).Some? && Handle(E, ns, readerLabels, None, req).Forward?
    requires req.RangeQuery? ==> TypeOf(QueryOf(req).value) in {VectorType, ScalarType}
    requires TypeOf(p) == TypeOf(QueryOf(req).value)
    ensures Upstream(E, I, db, now, WithQuery(req, p)).Some?
  {
  }

  lemma QueryIsPrinted(E: Engine, ns: Set, readerLabels: Set, req: Request, p: Expr)
    requires QueryOf(req).Some? && IsPrinted(E, ns, QueryOf(req).value, p)
    ensures IsPrintedRequest(E, ns, readerLabels, req, WithQuery(req, p))
  {
  }

  /** A query whose meaning a printing changes is answered otherwise than meant. */
  lemma ShownAtFirst(
    E: Engine, I: Interpretation, ns: Set, readerLabels: Set, db: Database, now: int, req: Request, p: Expr)
    requires ns.MapSet? && QueryOf(req).Some? && Handle(E, ns, readerLabels, None, req).Forward?
    requires req.RangeQuery? ==> TypeOf(QueryOf(req).value) in {VectorType, ScalarType}
    requires TypeOf(p) == TypeOf(QueryOf(req).value)
    requires !IsPreserved(E, I, ns, db, QueryOf(req).value, p, FirstTime(req), true)
    ensures !IsServed(E, I, ns, readerLabels, db, now, req, WithQuery(req, p))
  {
    var e := QueryOf(req).value;
    AnswersDiffer(E, I, ns, readerLabels, now, req, db, p, Restrict(db, ns.keys), e);
    assert WithQuery(req, e) == req;
    IsAnswered(E, I, ns, readerLabels, db, now, req, p);
    HandledAlike(E, I, ns, readerLabels, db, now, req);
    var upstream := Upstream(E, I, db, now, WithQuery(req, p));
    assert Respond(E, I, db, ns, readerLabels, now, req, WithQuery(req, p)) == Ok(upstream.value);
    assert Intended(readerLabels, req) == req;
  }

  /** The listing plays no part in what becomes of a query. */
  lemma HandledAlike(E: Engine, I: Interpretation, ns: Set, readerLabels: Set, db: Database, now: int, req: Request)
    requires QueryOf(req).Some?
    ensures Handle(E, ns, readerLabels, Some(Eval(E, I, db, Listing.NewExprForCountAllLabels(ValuesOf(ns.Keys())), now)), req)
            == Handle(E, ns, readerLabels, None, req)
  {
  }

  lemma AnswersDiffer(
    E: Engine, I: Interpretation, ns: Set, readerLabels: Set, now: int, req: Request, db: Database, p: Expr, db': Database, q: Expr)
    requires QueryOf(req).Some? && Handle(E, ns, readerLabels, None, req).Forward?
    requires req.RangeQuery? ==> TypeOf(QueryOf(req).value) in {VectorType, ScalarType}
    requires TypeOf(p) == TypeOf(q) == TypeOf(QueryOf(req).value)
    requires Eval(E, I, db, p, FirstTime(req)) != Eval(E, I, db', q, FirstTime(req))
    ensures Upstream(E, I, db, now, WithQuery(req, p)) != Upstream(E, I, db', now, WithQuery(req, q))
  {
    IsAnswered(E, I, ns, readerLabels, db, now, req, p);
    IsAnswered(E, I, ns, readerLabels, db', now, req, q);
    AnswersAtFirst(E, I, db, now, WithQuery(req, p));
    AnswersAtFirst(E, I, db', now, WithQuery(req, q));
  }

  lemma NothingIsFederated(E: Engine, I: Interpretation, db: Database, now: int)
    ensures Upstream(E, I, db, now, Federate([])) == Some(Samples([]))
  {
    NoSelectorsSelectNothing(E, db);
    assert SelectorsIn([]) == [];
  }

  lemma {:induction false} NoSelectorsSelectNothing(E: Engine, db: Database)
    ensures SelectAny(E, db, []) == []
  {
    if db != [] {
      NoSelectorsSelectNothing(E, db[1..]);
    }
  }

  /**
   * A range query that is forwarded is answered if it is of scalar or vector type, and
   * then at 11,001 points at most, up to the span that saturates the check.
   */
  lemma ForwardedRangeIsBounded(
    E: Engine, I: Interpretation, ns: Set, readerLabels: Set, db: Database, now: int, req: Request, printed: Request)
    requires req.RangeQuery? && Handle(E, ns, readerLabels, None, req).Forward?
    requires IsPrintedRequest(E, ns, readerLabels, req, printed)
    requires ParseTime(req.end).value - ParseTime(req.start).value < SPAN_LIMIT
    ensures var answer := Upstream(E, I, db, now, printed);
            && (answer.Some? <==> TypeOf(req.query.value.expr) in {VectorType, ScalarType})
            && (answer.Some? ==> 0 < |answer.value.values| <= 11_001)
  {
    PrintedType(E, ns, req.query.value.expr, printed.query.value.expr);
    var start, end, step := ParseTime(req.start).value, ParseTime(req.end).value, ParseDuration(req.step).value;
    ResolutionIsBoundedIffSpanIsShort(start, end);
    assert IsBounded(start, end, step);
    OneValuePerPoint(E, I, db, printed.query.value.expr, Points(start, end, step));
    DivisionBound(end - start, step, 0);
  }

  lemma {:induction false} OneValuePerPoint(E: Engine, I: Interpretation, db: Database, e: Expr, ts: seq<int>)
    ensures |EvalAt(E, I, db, e, ts)| == |ts|
  {
    if ts != [] {
      OneValuePerPoint(E, I, db, e, ts[1..]);
    }
  }

  // -------------------------------------------------------- non-interference

  /** No printed request, whatever it loses and in whatever order, brings anything that depends on other callers' series. */
  lemma UpstreamIsConfined(
    E: Engine, I: Interpretation, ns: Set, readerLabels: Set, db: Database, db': Database, now: int, req: Request, printed: Request)
    requires LookAlike(E, ns, db, db') && IsParsedRequest(E, req) && HasExpressions(req)
    requires IsPrintedRequest(E, ns, readerLabels, req, printed)
    requires req.Federate? || req.Series? ==> AllSelectors(req.matches)
    ensures Upstream(E, I, db, now, printed) == Upstream(E, I, db', now, printed)
  {
    match req
    case Federate(matches) => UnionIsConfined(E, ns, matches, printed.matches, db, db');
    case Series(matches, _, _) => UnionIsConfined(E, ns, matches, printed.matches, db, db');
    case InstantQuery(Some(ExprText(e)), _, at) =>
      RewrittenIsConfined(E, I, ns, db, db', e, printed.query.value.expr, at);
    case RangeQuery(Some(ExprText(e)), _, start, end, step) =>
      if HasAcceptedRange(start, end, step) {
        RewrittenIsConfinedAt(
          E, I, ns, db, db', e, printed.query.value.expr,
          Points(ParseTime(start).value, ParseTime(end).value, ParseDuration(step).value));
      }
    case Read(Some(queries)) =>
      ReadAllIsExact(E, I, ns, readerLabels, db, queries);
      ReadAllIsExact(E, I, ns, readerLabels, db', queries);
    case _ =>
  }

  lemma UnionIsConfined(E: Engine, ns: Set, xs: seq<Text>, xs': seq<Text>, db: Database, db': Database)
    requires LookAlike(E, ns, db, db') && AreForwarded(E, xs) && ArePrintedTexts(E, ns, xs, xs')
    ensures AllSelectors(xs')
    ensures SelectAny(E, db, SelectorsIn(xs')) == SelectAny(E, db', SelectorsIn(xs'))
  {
    PrintedUnion(E, ns, xs, xs', db);
    PrintedUnion(E, ns, xs, xs', db');
  }

  /** Non-interference of the service: what a caller is told depends only on the series in the caller's namespaces. */
  lemma ResponseIsConfined(
    E: Engine, I: Interpretation, ns: Set, readerLabels: Set, db: Database, db': Database, now: int, req: Request, printed: Request)
    requires LookAlike(E, ns, db, db') && IsParsedRequest(E, req)
    requires IsPrintedRequest(E, ns, readerLabels, req, printed)
    ensures Respond(E, I, db, ns, readerLabels, now, req, printed) == Respond(E, I, db', ns, readerLabels, now, req, printed)
  {
    ListingIsConfined(E, I, ns, db, db', now);
    var listed := Some(Eval(E, I, db, Listing.NewExprForCountAllLabels(ValuesOf(ns.Keys())), now));
    if Handle(E, ns, readerLabels, listed, req).Forward? {
      ForwardedIsRewritten(E, ns, readerLabels, listed, req);
      UpstreamIsConfined(E, I, ns, readerLabels, db, db', now, req, printed);
    }
  }

  lemma ListingIsConfined(E: Engine, I: Interpretation, ns: Set, db: Database, db': Database, now: int)
    requires LookAlike(E, ns, db, db')
    ensures var listing := Listing.NewExprForCountAllLabels(ValuesOf(ns.Keys()));
            Eval(E, I, db, listing, now) == Eval(E, I, db', listing, now)
  {
    var selector := VectorSelector("", 0, [Encode(NAMESPACE, ValuesOf(ns.keys))]);
    SelectionIsExact(E, ns, [], db);
    SelectionIsExact(E, ns, [], db');
    assert FilterMatchers(E, ns, []) == selector.matchers;
    SoleValue(E, I, db, [selector], now);
    SoleValue(E, I, db', [selector], now);
  }
}
