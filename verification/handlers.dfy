/**
 * `pkg/agent/http_hijack.go`: what each handler answers by itself, refuses, or
 * forwards upstream, and what the caller finally sees.
 */
module Handlers {
  import opened Wrappers
  import opened Data
  import opened Matchers
  import opened LabelMatchers
  import opened LabelMatcherObjects
  import opened Sharing
  import opened PromQL
  import opened TimeRange
  import Expressions
  import Listing
  import Storage

  // ---------------------------------------------------------------- requests

  /**
   * A query or `match[]` parameter by what the two parsers read in it: nothing, a
   * selector that is no expression (all its matchers accept the empty string), or
   * an expression.
   */
  datatype Text = Unreadable | SelectorText(matchers: seq<Matcher>) | ExprText(expr: Expr)

  function ParseMetricSelector(x: Text): Option<seq<Matcher>> {
    match x
    case Unreadable => None
    case SelectorText(ms) => Some(ms)
    case ExprText(e) => if e.VectorSelector? && e.offset == 0 then Some(e.matchers) else None
  }

  function ParseExpr(x: Text): Option<Expr> {
    match x
    case ExprText(e) => Some(e)
    case _ => None
  }

  /** What the parsers guarantee of what they return. */
  ghost predicate IsParsed(E: Engine, x: Text) {
    match x
    case Unreadable => true
    case SelectorText(ms) => AreValid(E, ms)
    case ExprText(e) => HasValidMatchers(E, e) && IsWellFormed(e)
  }

  datatype ReadQuery = ReadQuery(start: int, end: int, matchers: seq<LabelMatcher>)

  datatype Request =
    | Federate(matches: seq<Text>)
    | Series(matches: seq<Text>, from: Option<TimeText>, to: Option<TimeText>)
    | InstantQuery(query: Option<Text>, timeout: Option<DurationText>, at: int)
    | RangeQuery(query: Option<Text>, timeout: Option<DurationText>, start: TimeText, end: TimeText, step: DurationText)
    | Read(body: Option<seq<ReadQuery>>)
    | LabelNames
    | LabelNamespaces

  ghost predicate IsParsedRequest(E: Engine, req: Request) {
    match req
    case Federate(matches) => forall x | x in matches :: IsParsed(E, x)
    case Series(matches, _, _) => forall x | x in matches :: IsParsed(E, x)
    case InstantQuery(query, _, _) => query.Some? ==> IsParsed(E, query.value)
    case RangeQuery(query, _, _, _, _) => query.Some? ==> IsParsed(E, query.value)
    case _ => true
  }

  datatype Failure = BadData | Execution

  datatype Answer =
    | Samples(samples: seq<Sample>)
    | SeriesLabels(labels: seq<map<string, string>>)
    | Result(value: Value)
    | RangeResult(values: seq<Value>)
    | ReadResults(results: seq<seq<Row>>)
    | Names(names: seq<string>)

  datatype Reply = Refuse(failure: Failure) | Answered(answer: Answer) | Forward(request: Request)

  // ------------------------------------------------------ what handlers reply

  ghost function RewriteText(E: Engine, ns: Set, x: Text): Text {
    match x
    case ExprText(e) => ExprText(Rewrite(E, ns, e))
    case _ => x
  }

  ghost function RewriteTexts(E: Engine, ns: Set, xs: seq<Text>): (r: seq<Text>)
    ensures |r| == |xs|
    ensures forall i | 0 <= i < |xs| :: r[i] == RewriteText(E, ns, xs[i])
  {
    seq(|xs|, i requires 0 <= i < |xs| => RewriteText(E, ns, xs[i]))
  }

  ghost predicate AllSelectors(xs: seq<Text>) {
    forall x | x in xs :: ParseMetricSelector(x).Some?
  }

  ghost predicate AllExpressions(xs: seq<Text>) {
    forall x | x in xs :: ParseExpr(x).Some?
  }

  ghost function FederateReply(E: Engine, ns: Set, matches: seq<Text>): Reply {
    if !AllSelectors(matches) then Refuse(BadData)
    else if matches == [] || ns.Keys() == {} then Answered(Samples([]))
    else if !AllExpressions(matches) then Refuse(BadData)
    else Forward(Federate(RewriteTexts(E, ns, matches)))
  }

  predicate IsReadableTime(t: Option<TimeText>) {
    t.Some? ==> ParseTime(t.value).Some?
  }

  predicate IsReadableDuration(d: Option<DurationText>) {
    d.Some? ==> ParseDuration(d.value).Some?
  }

  ghost function SeriesReply(E: Engine, ns: Set, matches: seq<Text>, from: Option<TimeText>, to: Option<TimeText>): Reply {
    if !IsReadableTime(from) || !IsReadableTime(to) || matches == [] || !AllSelectors(matches) then Refuse(BadData)
    else if ns.Keys() == {} then Answered(SeriesLabels([]))
    else if !AllExpressions(matches) then Refuse(BadData)
    else Forward(Series(RewriteTexts(E, ns, matches), from, to))
  }

  /** The immediate answer for an empty set, by the type of the query; scalars have none. */
  function EmptyValue(kind: ValueType): Option<Value> {
    match kind
    case VectorType => Some(Vector([]))
    case MatrixType => Some(Matrix([]))
    case _ => None
  }

  ghost function InstantReply(E: Engine, ns: Set, query: Option<Text>, timeout: Option<DurationText>, at: int): Reply {
    if !IsReadableDuration(timeout) || query.None? || ParseExpr(query.value).None? then Refuse(BadData)
    else
      var kind := TypeOf(query.value.expr);
      if ns.Keys() == {} && !kind.ScalarType? then
        if EmptyValue(kind).Some? then Answered(Result(EmptyValue(kind).value)) else Refuse(BadData)
      else Forward(InstantQuery(Some(RewriteText(E, ns, query.value)), timeout, at))
  }

  ghost function RangeReply(
    E: Engine, ns: Set, query: Option<Text>, timeout: Option<DurationText>, start: TimeText, end: TimeText, step: DurationText): Reply
  {
    if !IsReadableDuration(timeout) || !HasAcceptedRange(start, end, step) || query.None? || ParseExpr(query.value).None?
    then Refuse(BadData)
    else
      var kind := TypeOf(query.value.expr);
      if ns.Keys() == {} && !kind.ScalarType? then
        if EmptyValue(kind).Some? then Answered(Result(Matrix([]))) else Refuse(BadData)
      else Forward(RangeQuery(Some(RewriteText(E, ns, query.value)), timeout, start, end, step))
  }

  ghost function ModifiedReadQueries(E: Engine, ns: Set, readerLabels: Set, queries: seq<ReadQuery>): (r: seq<ReadQuery>)
    ensures |r| == |queries|
    ensures forall i | 0 <= i < |r| ::
              r[i] == queries[i].(matchers := Storage.ModifiedMatchers(E, ns, readerLabels, queries[i].matchers))
  {
    seq(|queries|, i requires 0 <= i < |queries| =>
      queries[i].(matchers := Storage.ModifiedMatchers(E, ns, readerLabels, queries[i].matchers)))
  }

  function EmptyResults(n: nat): seq<seq<Row>> {
    seq(n, _ => [])
  }

  ghost function ReadReply(E: Engine, ns: Set, readerLabels: Set, body: Option<seq<ReadQuery>>): Reply {
    if body.None? then Refuse(BadData)
    else if ns.Keys() == {} then Answered(ReadResults(EmptyResults(|body.value|)))
    else Forward(Read(Some(ModifiedReadQueries(E, ns, readerLabels, body.value))))
  }

  // ---------------------------------------------------------------- handlers

  /** Parses, rewrites and prints one expression. */
  method ModifyText(E: Engine, namespaceSet: Set, expr: Expr) returns (hjkValue: Text)
    requires AreNamespaceNames(namespaceSet) && HasValidMatchers(E, expr) && IsWellFormed(expr)
    ensures hjkValue == RewriteText(E, namespaceSet, ExprText(expr))
  {
    var tree := Expressions.Parse(E, expr);
    var modified := Expressions.ModifyExpression(E, tree, namespaceSet);
    hjkValue := ExprText(modified);
  }

  method CheckSelectors(matchFormValues: seq<Text>) returns (ok: bool)
    ensures ok <==> AllSelectors(matchFormValues)
  {
    for i := 0 to |matchFormValues|
      invariant AllSelectors(matchFormValues[..i])
    {
      if ParseMetricSelector(matchFormValues[i]).None? {
        return false;
      }
    }
    assert matchFormValues[..|matchFormValues|] == matchFormValues;
    ok := true;
  }

  /** The rewriting loop the federate and series handlers share. */
  method ModifyMatches(E: Engine, namespaceSet: Set, matchFormValues: seq<Text>) returns (r: Option<seq<Text>>)
    requires AreNamespaceNames(namespaceSet)
    requires forall x | x in matchFormValues :: IsParsed(E, x)
    ensures r == if AllExpressions(matchFormValues) then Some(RewriteTexts(E, namespaceSet, matchFormValues)) else None
  {
    var queries: seq<Text> := [];
    for i := 0 to |matchFormValues|
      invariant queries == RewriteTexts(E, namespaceSet, matchFormValues[..i])
      invariant AllExpressions(matchFormValues[..i])
    {
      var expr := ParseExpr(matchFormValues[i]);
      if expr.None? {
        return None;
      }
      assert IsParsed(E, matchFormValues[i]);
      var hjkValue := ModifyText(E, namespaceSet, expr.value);
      queries := queries + [hjkValue];
    }
    assert matchFormValues[..|matchFormValues|] == matchFormValues;
    r := Some(queries);
  }

  method HijackFederate(E: Engine, namespaceSet: Set, matches: seq<Text>) returns (r: Reply)
    requires AreNamespaceNames(namespaceSet) && IsParsedRequest(E, Federate(matches))
    ensures r == FederateReply(E, namespaceSet, matches)
  {
    var ok := CheckSelectors(matches);
    if !ok {
      return Refuse(BadData);
    }
    if |matches| == 0 || |namespaceSet.Keys()| == 0 {
      return Answered(Samples([]));
    }
    var hijacked := ModifyMatches(E, namespaceSet, matches);
    r := if hijacked.None? then Refuse(BadData) else Forward(Federate(hijacked.value));
  }

  method HijackSeries(E: Engine, namespaceSet: Set, matches: seq<Text>, from: Option<TimeText>, to: Option<TimeText>)
    returns (r: Reply)
    requires AreNamespaceNames(namespaceSet) && IsParsedRequest(E, Series(matches, from, to))
    ensures r == SeriesReply(E, namespaceSet, matches, from, to)
  {
    if from.Some? && ParseTime(from.value).None? {
      return Refuse(BadData);
    }
    if to.Some? && ParseTime(to.value).None? {
      return Refuse(BadData);
    }
    if |matches| == 0 {
      return Refuse(BadData);
    }
    var ok := CheckSelectors(matches);
    if !ok {
      return Refuse(BadData);
    }
    if |namespaceSet.Keys()| == 0 {
      return Answered(SeriesLabels([]));
    }
    var hijacked := ModifyMatches(E, namespaceSet, matches);
    r := if hijacked.None? then Refuse(BadData) else Forward(Series(hijacked.value, from, to));
  }

  method HijackQuery(E: Engine, namespaceSet: Set, query: Option<Text>, timeout: Option<DurationText>, at: int)
    returns (r: Reply)
    requires AreNamespaceNames(namespaceSet) && IsParsedRequest(E, InstantQuery(query, timeout, at))
    ensures r == InstantReply(E, namespaceSet, query, timeout, at)
  {
    if timeout.Some? && ParseDuration(timeout.value).None? {
      return Refuse(BadData);
    }
    if query.None? || ParseExpr(query.value).None? {
      return Refuse(BadData);
    }
    var queryExpr := query.value.expr;
    if |namespaceSet.Keys()| == 0 && TypeOf(queryExpr) != ScalarType {
      match TypeOf(queryExpr) {
        case VectorType => return Answered(Result(Vector([])));
        case MatrixType => return Answered(Result(Matrix([])));
        case _ => return Refuse(BadData);
      }
    }
    var hjkValue := ModifyText(E, namespaceSet, queryExpr);
    r := Forward(InstantQuery(Some(hjkValue), timeout, at));
  }

  method HijackQueryRange(
    E: Engine, namespaceSet: Set, query: Option<Text>, timeout: Option<DurationText>,
    startText: TimeText, endText: TimeText, stepText: DurationText) returns (r: Reply)
    requires AreNamespaceNames(namespaceSet) && IsParsedRequest(E, RangeQuery(query, timeout, startText, endText, stepText))
    ensures r == RangeReply(E, namespaceSet, query, timeout, startText, endText, stepText)
  {
    if timeout.Some? && ParseDuration(timeout.value).None? {
      return Refuse(BadData);
    }
    var start, end := ParseTime(startText), ParseTime(endText);
    if start.None? || end.None? || end.value < start.value {
      return Refuse(BadData);
    }
    var step := ParseDuration(stepText);
    if step.None? || step.value <= 0 {
      return Refuse(BadData);
    }
    if Sub(end.value, start.value) / step.value > MAX_POINTS {
      return Refuse(BadData);
    }
    if query.None? || ParseExpr(query.value).None? {
      return Refuse(BadData);
    }
    var queryExpr := query.value.expr;
    if |namespaceSet.Keys()| == 0 && TypeOf(queryExpr) != ScalarType {
      match TypeOf(queryExpr) {
        case VectorType => return Answered(Result(Matrix([])));
        case MatrixType => return Answered(Result(Matrix([])));
        case _ => return Refuse(BadData);
      }
    }
    var hjkValue := ModifyText(E, namespaceSet, queryExpr);
    r := Forward(RangeQuery(Some(hjkValue), timeout, startText, endText, stepText));
  }

  /** The matchers the protocol decoder allocates. */
  method DecodeMatchers(ms: seq<LabelMatcher>) returns (r: seq<LabelMatcherObject>)
    ensures AreDistinct(r) && LabelViews(r) == ms
    ensures forall m | m in r :: fresh(m)
  {
    r := [];
    for i := 0 to |ms|
      invariant AreDistinct(r) && LabelViews(r) == ms[..i]
      invariant forall m | m in r :: fresh(m)
    {
      var m := new LabelMatcherObject(ms[i].kind, ms[i].name, ms[i].value);
      AppendedIsDistinct(r, m);
      r := r + [m];
    }
  }

  method ModifyReadQuery(E: Engine, namespaceSet: Set, readerLabels: Set, raw: ReadQuery) returns (r: ReadQuery)
    ensures r == raw.(matchers := Storage.ModifiedMatchers(E, namespaceSet, readerLabels, raw.matchers))
  {
    var matchers := DecodeMatchers(raw.matchers);
    var query := new Query(raw.start, raw.end, matchers);
    assert forall i | 0 <= i < |query.Matchers| :: query.Matchers[i] in matchers;
    var modified, _ := ModifyQuery(E, query, namespaceSet, readerLabels);
    r := ReadQuery(modified.StartTimestampMs, modified.EndTimestampMs, LabelViews(modified.Matchers));
  }

  method HijackRead(E: Engine, namespaceSet: Set, readerLabels: Set, body: Option<seq<ReadQuery>>) returns (r: Reply)
    ensures r == ReadReply(E, namespaceSet, readerLabels, body)
  {
    if body.None? {
      return Refuse(BadData);
    }
    var rawQueries := body.value;
    if |namespaceSet.Keys()| == 0 {
      var results: seq<seq<Row>> := [];
      for i := 0 to |rawQueries|
        invariant results == EmptyResults(i)
      {
        results := results + [[]];
      }
      return Answered(ReadResults(results));
    }
    var hjkQueries: seq<ReadQuery> := [];
    for i := 0 to |rawQueries|
      invariant hjkQueries == ModifiedReadQueries(E, namespaceSet, readerLabels, rawQueries[..i])
    {
      var hjkValue := ModifyReadQuery(E, namespaceSet, readerLabels, rawQueries[i]);
      hjkQueries := hjkQueries + [hjkValue];
    }
    assert rawQueries[..|rawQueries|] == rawQueries;
    r := Forward(Read(Some(hjkQueries)));
  }

  method HijackLabelNamespaces(namespaceSet: Set) returns (r: Reply)
    ensures r == Answered(Names(ValuesOf(namespaceSet.Keys())))
  {
    if |namespaceSet.Keys()| == 0 {
      ValuesIsCanonical(namespaceSet.Keys(), []);
      return Answered(Names([]));
    }
    var hjkValue := Values(namespaceSet);
    r := Answered(Names(hjkValue));
  }

  /** The names in a listing, or the failure when upstream has none to give. */
  function ListedNames(listed: Option<Value>): Reply {
    if listed.Some? && listed.value.Vector? then Answered(Names(Listing.NamesOf(listed.value.samples)))
    else Refuse(Execution)
  }

  /** `remoteAPI` is the upstream query call. */
  method HijackLabelName(namespaceSet: Set, remoteAPI: Expr -> Option<Value>) returns (r: Reply)
    ensures namespaceSet.Keys() == {} ==> r == Answered(Names([]))
    ensures namespaceSet.Keys() != {} ==>
              r == ListedNames(remoteAPI(Listing.NewExprForCountAllLabels(ValuesOf(namespaceSet.Keys()))))
    ensures namespaceSet.Keys() != {} ==>
              match remoteAPI(Listing.NewExprForCountAllLabels(ValuesOf(namespaceSet.Keys())))
              case Some(Vector(samples)) =>
                && r.Answered? && r.answer.Names? && |r.answer.names| == |samples|
                && forall i | 0 <= i < |samples| ::
                     r.answer.names[i] == if "__name__" in samples[i].labels then samples[i].labels["__name__"] else ""
              case _ => r == Refuse(Execution)
  {
    if |namespaceSet.Keys()| == 0 {
      return Answered(Names([]));
    }
    var namespaces := Values(namespaceSet);
    var vals := remoteAPI(Listing.NewExprForCountAllLabels(namespaces));
    if vals.None? || !vals.value.Vector? {
      return Refuse(Execution);
    }
    var vectorVals := vals.value.samples;
    var hjkValues: seq<string> := [];
    for i := 0 to |vectorVals|
      invariant hjkValues == Listing.NamesOf(vectorVals[..i])
    {
      hjkValues := hjkValues + [Listing.NameOf(vectorVals[i].labels)];
    }
    assert vectorVals[..|vectorVals|] == vectorVals;
    r := Answered(Names(hjkValues));
  }
}
