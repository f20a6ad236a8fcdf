# prometheus-auth: the multi-tenant query rewriter, modelled and proved

`prometheus-auth` stands in front of a Prometheus that holds the series of all
tenants. For a caller it computes a set S of namespaces, rewrites every selector
of the caller's PromQL expression or remote-read query, and forwards the result.
This project models that pipeline and proves that it is exact: what the caller is
told is what Prometheus would say if it held only the series whose `namespace` is
in S, and nothing the caller is told depends on any other series. Both hold when S
could be computed, the first up to the exceptions under result 1. When the list of
namespaces is unavailable S is nil, and then a scalar query with a namespace matcher
of its own is answered from the series that matcher names; result 3 says exactly when.

Check everything with `dafny verify dfyconfig.toml`.

## Main results

1. **Meaning preservation** (`Meaning.MeaningIsPreserved`): for every expression,
   database and evaluation time, and however the library prints it, the rewritten
   expression on the whole database has the value of the original on the caller's
   series, up to two exceptions, both with their exact condition
   (`Exactness.MeaningIsPreservedIff`, `EveryPrintingIsPreservedIff`):
   - Calls of `absent` and `absent_over_time` on a selector label their result by the
     equality matchers written there, in their order. Rewriting keeps these labels by
     the namespace matchers of the selector: none, and S has two members at least; one
     that is `=` with a value in S or the sentinel, or is of another kind and accepts two
     members of S at least; or several that do not fix a value
     (`Absent.LabelsAreKeptIff`). Sorting by the printer keeps them unless some label has
     at least two matchers, all `=`, exactly one of them with a value
     (`Absent.OrderIsFreeIff`); the two together are `Absent.PrintedLabelsAreKeptIff`.
     Below another such call, through parentheses, labels do not count, as that call asks
     only whether its argument is empty.
   - A selector without a metric name is printed without a matcher `__name__=""`. That
     changes nothing if and only if no series in S that satisfies the other matchers has
     a metric name (`Printing.PrintedSelectionIsExactIff`).
   `Exactness.AbsentCanChangeMeaning`, `Deviations.OrderOfPrintingIsSeen` and
   `LossOfNameIsSeen` are queries that are answered otherwise than meant.
2. **Non-interference** (`Meaning.RewrittenIsConfined`, `Service.ResponseIsConfined`,
   `Access.CallersAreIsolated`): databases that agree on the caller's series give the
   same value and the same response, in every printing, without those exceptions: `absent`
   calls, lost matchers and empty sets are included.
3. **Selector exactness** (`Storage.FilteringIsExact`, `SelectionIsExact`) although
   only the first of several namespace matchers is rewritten, and its exact limits:
   `ExactIffSentinelFree` (no series may carry the namespace `______`) and
   `ExactIffNotNil` (a nil set is not an empty set). Under a nil set a selection is
   independent of the database if and only if its list has no namespace matcher or no
   series satisfies it (`NilSelectionIsFixedIffBlind`). A response is independent of the
   database under every engine if and only if no query is forwarded (only scalar ones
   are) or this holds of all its selectors as printed (`NilSets.NilSetIsSafeIff`);
   `Deviations.NilSetScalarDependsOnSeries` shows the query `scalar(up{namespace="b"})`.
4. **Syntactic algebra** (`Matchers.FiltersCompose`, `FilteringIsIdempotent`,
   `PromQL.WalkRewritesOnce`, `RewritesCompose`): filtering by T and then S is
   filtering by S∩T character for character, so the double visit of range selectors
   in the traversal is harmless. The texts the repository's tests expect are in
   `Expectations`.
5. **The two copies agree** (`LabelMatchers.FiltersAgree`): filtering commutes with
   conversion on every list of protocol matchers, errors included.
6. **The code refines the functions** (`Expressions.ModifyExpression`,
   `MatcherObjects.FilterMatchers`, `LabelMatcherObjects.ModifyQuery`): the methods
   update matcher and selector objects in place, as the Go code does.
   They do so for lists in which an object repeats, too (`Sharing.OverwritingIsExact`).
7. **The service** (`Service.ResponseIsExact`, `EveryResponseIsExactIff`,
   `Replies.FastPathIsSlowPath`, `Access.CallersAreServed`): a caller with namespaces is refused
   exactly what Prometheus refuses, plus `match[]` selectors that are no expressions, and
   is told of every other request what was meant, in every printing, under the conditions
   of result 1, which for queries are exact; fast paths for an empty set answer what the
   slow path would, except that a range query of matrix type, which Prometheus refuses,
   gets an empty matrix (`Replies.FastRangeHidesRefusal`); and the set computed from the cluster's
   rules restricts a database to exactly the series those rules open to the caller.
   `Replies.QueryReplies` and its neighbours say of every request whether it is refused,
   answered or forwarded, `NamesAreListed` and `NamespacesAreListed` what label requests
   are told, `TimeRange.AcceptedSeconds` which range queries pass, in a caller's units.

## How things are modelled

- `data.Set` is `NilSet` or `MapSet(keys)`. Members of a set are Kubernetes
  namespace names (lower-case letters, digits and `-`, section 2.1 of RFC 1123);
  this is a precondition wherever a set is used for rewriting. The empty set is
  allowed everywhere. The enumeration `Values` is also modelled for other keys, such
  as the empty string, which it skips.
- `Matchers.Engine` is the regexp library. A pattern without metacharacters other
  than `|` is an alternation of literals and is read concretely, as the anchored
  pattern `^(?:p)$`; any other pattern is compiled and matched by arbitrary
  functions, over which every theorem quantifies.
- `PromQL.Interpretation` is the query engine. Selection of series, parentheses and
  the two absent functions are concrete, the latter after the pinned library
  (`vendor/github.com/prometheus/prometheus/promql/functions.go`). Everything else is
  arbitrary: the sample, with its own time, and the window taken from one series, the
  steps of a subquery, and each other operator, which is given its arguments' values and
  their syntax without the matchers.
- The syntax tree has fixed nodes (`Expressions.Node`) with selector objects in them,
  since `ModifyExpression` assigns to nothing but `LabelMatchers`. `parser.Inspect`
  is a pre-order walk that visits a matrix node and then its selector, visits an
  aggregation's expression before its parameter, and stops at the first error.
- A database is a list of series; a missing label reads as the empty string. No
  series may carry the sentinel `______` in the results that need it.
- Query texts are modelled by what the parsers read in them (`Handlers.Text`). The
  library prints the matchers of a selector sorted, as strings, and without
  `__name__=""` when the selector has no metric name. `Printing.IsPrinted` allows any
  order of what is printed, and `Service.Respond` answers any such reading of the
  forwarded request, so every result at the level of requests holds of the sorted text.
- A caller's grants are an arbitrary predicate, the namespace cache a list that may
  be unavailable, the service account behind a token an arbitrary partial function.

## Model

| member | source | states |
|---|---|---|
| Strings.LessIsLexicographic | pkg/data/set.go:25-27 | the order of the enumeration is the one `sort.Strings` sorts by: a prefix comes first, and else the first differing character decides, the smaller one first |
| Strings.IncreasingListsAreCanonical | pkg/data/set.go:25-27 | a strictly increasing list is determined by its elements, so sorting makes the enumeration independent of map order |
| Strings.SplitUndoesJoin | pkg/prom/join.go:24-26 | cutting a joined list of names at every bar gives the list back, for any non-empty list of names without a bar |
| Strings.JoinUndoesSplit | pkg/prom/join.go:24-26 | joining the branches of any pattern gives the pattern back |
| Data.Enumerate | pkg/data/set.go:10-30 | every finite set has a strictly increasing enumeration with exactly its elements |
| Data.ValuesOf | pkg/data/set.go:10-30 | the enumeration is strictly increasing and holds exactly the keys other than the empty string; collecting it into a set gives the keys back |
| Data.ValuesIsCanonical | pkg/data/set.go:10-30 | any strictly increasing list of the non-empty keys is the enumeration |
| Data.FilteringCommutesWithValues | pkg/prom/join.go:13-22 | filtering the enumeration is enumerating the filtered set, whatever the filter |
| Data.IgnoringCommutesWithValues | pkg/prom/join.go:7-11 | leaving a value out of the enumeration is enumerating the set without it |
| Data.StringSliceFilter | pkg/prom/join.go:13-22 | the loop returns the elements the filter keeps, in order |
| Data.StringSliceIgnore | pkg/prom/join.go:7-11 | returns the elements other than the ignored one, in order |
| Data.Values | pkg/data/set.go:10-30 | whatever order the map yields its keys in, the result is the canonical enumeration; a nil set yields the empty list |
| Data.NewSet | pkg/data/set.go:36-43 | the set of exactly the given values |
| Matchers.JoinedNamesReadBack | pkg/prom/join.go:24-26 | the joined pattern always compiles and, read as an anchored regexp, accepts exactly the names it was made from |
| Matchers.EncodingIsExact | pkg/prom/matcher.go:34-46 | for a list of namespaces of any length the written matcher is valid and accepts a value exactly if the list holds it, and the sentinel exactly if the list is empty |
| Matchers.EncodingIsInjective | pkg/prom/matcher.go:34-46 | two sets of namespaces are written as the same matcher only if they are equal |
| Matchers.TranslationIsExact | pkg/prom/translate.go:12-43 | for all four kinds the translated matcher accepts a value exactly if the original does and the set holds it, and the sentinel exactly if the original accepts nothing of the set |
| Matchers.TranslationShape | pkg/prom/translate.go:12-43 | the translated matcher is of kind `=` or `=~`, keeps its name, and is `=~` only if two members at least are accepted |
| Matchers.TranslationsCompose | pkg/prom/translate.go:12-43 | translating by t and then by s writes the very matcher that translating by their intersection writes |
| Matchers.FiltersCompose | pkg/prom/filter.go:13-27 | filtering a list by t and then by s gives the same list, types, names, values and order, as filtering by the intersection |
| Matchers.FilteringIsIdempotent | pkg/prom/filter.go:13-27 | filtering a second time by the same set, nil or not, changes nothing |
| Matchers.FilteringFrame | pkg/prom/filter.go:14-24 | either the first namespace matcher alone changes, in its place, or there is none and one matcher is appended |
| Matchers.FilteringKeepsValidity | pkg/prom/filter.go:13-27 | valid matchers stay valid and the result always has a namespace matcher |
| Matchers.FixedIffWritten | pkg/prom/filter.go:13-27 | a list is left as it is exactly if its first namespace matcher is one the rewriting could have written |
| LabelMatchers.ToThenFrom | pkg/prom/matcher.go:63-111 | converting valid matchers to the protocol and back succeeds and is the identity |
| LabelMatchers.FromThenTo | pkg/prom/matcher.go:63-111 | converting protocol matchers and back is the identity wherever the first conversion succeeds, and its result is valid |
| LabelMatchers.ConvertsIffWellFormed | pkg/prom/matcher.go:88-111 | a list converts exactly if every type is known and every pattern compiles |
| LabelMatchers.LabelFilteringFrame | pkg/prom/filter.go:29-43 | either the first namespace matcher alone changes, in its place, or there is none and one matcher is appended |
| LabelMatchers.TranslationsAgree | pkg/prom/translate.go:45-82 | the protocol copy of the translation converts to the other copy's result, and leaves what does not convert untouched |
| LabelMatchers.FiltersAgree | pkg/prom/filter.go:29-43 | filtering protocol matchers and converting equals converting and filtering, on every list and set, with the same error when conversion fails |
| LabelMatchers.DetourAgrees | pkg/prom/filter_test.go:138-163 | what the tests sample: to the protocol, filter, and back is `FilterMatchers`, on every valid list |
| Storage.FilteringIsExact | pkg/prom/filter.go:13-27 | a series satisfies the rewritten list exactly if it satisfies the original and its namespace is in the set, with any number of namespace matchers |
| Storage.SelectionIsExact | pkg/prom/filter.go:13-27 | the rewritten list selects from the whole database what the original selects from the caller's series, in the same order |
| Storage.ExactIffSentinelFree | pkg/prom/matcher.go:10-12 | every rewritten list is exact on a database if and only if no series carries the sentinel |
| Storage.ExactIffNotNil | pkg/prom/translate.go:13-15 | rewriting is exact on all sentinel-free databases if and only if the set is not nil |
| Storage.NilSelectionIsFixedIffBlind | pkg/prom/translate.go:13-15 | under a nil set a selection is the same on all sentinel-free databases if and only if its list has no namespace matcher or no series satisfies it |
| Storage.SelectionIsConfined | pkg/prom/filter.go:13-27 | a rewritten list selects the same series whether or not other callers' series are there |
| Storage.SelectionIgnoresOrder | pkg/prom/filter.go:14-24 | reordering or repeating the original matchers does not change what the rewritten list selects |
| Storage.SelectionIsMonotone | pkg/prom/filter.go:13-27 | under a smaller set the selection is exactly the part of the larger one that lies in it |
| Storage.UnionIsExact | pkg/agent/http_hijack.go:289-301 | the union the rewritten selectors select is the original union restricted to the set |
| Storage.ReadIsExact | pkg/agent/http_hijack.go:445-456 | a rewritten remote read answers what the kept matchers answer on the caller's series, and fails exactly when they fail, with their error |
| Storage.ReadWithNamespaceDropped | pkg/agent/http_hijack.go:445-456 | when `namespace` is a reader label, every namespace matcher goes and exactly one is appended |
| PromQL.WalkRewritesOnce | pkg/prom/modify.go:11-23 | the traversal with its double visits leaves what one rewriting per selector leaves, and finishes exactly on expressions whose matrix nodes hold vector selectors |
| PromQL.RewritesCompose | pkg/prom/modify.go:10-26 | rewriting an expression by t and then by s is rewriting it by the intersection |
| Printing.PrintingCommutesWithFiltering | vendor/github.com/prometheus/prometheus/promql/parser/printer.go:156-163 | dropping `__name__=""` from the filtered matchers is filtering the matchers that would have been printed |
| Printing.WithoutEmptyNameSatisfies | vendor/github.com/prometheus/prometheus/promql/parser/printer.go:156-163 | a series satisfies a list exactly if it satisfies what is printed of it and, where `__name__=""` was dropped, has no metric name |
| Printing.PrintedLabels | vendor/github.com/prometheus/prometheus/promql/parser/printer.go:156-163 | the dropped matcher changes neither the labels of an absent-like call nor whether the order decides them |
| Printing.PrintedSelectionIsExactIff | pkg/prom/modify.go:25 | in any order, the printed matchers are exact on all sentinel-free databases if and only if no series of the caller that satisfies the matchers left beside a lost `__name__=""` has a metric name |
| Printing.PrintIsPrinted | pkg/prom/modify.go:25 | every rewritten expression has a printing |
| Meaning.MeaningIsPreserved | pkg/prom/modify.go:10-26 | in every printing, the rewritten expression on the whole database has the value of the original on the caller's series, under every interpretation and at every time, when the labels that reach the value and the selections are kept; below an absent-like call it has the same emptiness, whatever its own labels |
| Meaning.MeaningIsPreservedAt | pkg/prom/modify.go:10-26 | the same at every time of a list, as subqueries and range queries evaluate |
| Absent.LabelsArePinned | vendor/github.com/prometheus/prometheus/promql/functions.go:984-1013 | a label is in the result exactly if the matchers on it are any number of `=""` followed by one `=` with a value, and then with that value |
| Absent.LabelsAreKeptIff | pkg/prom/filter.go:13-27 | filtering keeps the labels of an absent-like call on a selector exactly under the condition on its namespace matchers |
| Absent.OrderIsFreeIff | vendor/github.com/prometheus/prometheus/promql/parser/printer.go:173 | a list has the same labels in every order if and only if no label has at least two matchers, all `=`, exactly one of them with a value |
| Absent.PrintedLabelsAreKeptIff | vendor/github.com/prometheus/prometheus/promql/parser/printer.go:156-175 | the filtered list has the labels of the original in every order if and only if filtering keeps them and no label of the filtered list is decided by the order |
| Absent.OrderMattersBesideEmpty | vendor/github.com/prometheus/prometheus/promql/parser/printer.go:173 | two such matchers whose order decides whether the label is kept |
| Exactness.EveryPrintingKeepsLabelsIff | pkg/prom/modify.go:10-26 | all printings of a rewritten expression keep the labels that reach its value if and only if the matchers that its absent-like calls read meet that condition, but for calls whose labels only another such call could see |
| Exactness.MeaningIsPreservedIff | pkg/prom/modify.go:10-26 | a printing of a typed expression has the meaning of the original under every engine and on every sentinel-free database if and only if it keeps the labels that reach the value and loses no matcher that counts |
| Exactness.EveryPrintingIsPreservedIff | pkg/prom/modify.go:10-26 | every printing does if and only if the matchers of the original meet both conditions |
| Exactness.AbsentIsPreservedIff | pkg/prom/modify.go:10-26 | under each single engine, an absent-like call whose argument keeps its emptiness keeps its meaning on all sentinel-free databases if and only if its own labels are kept |
| Exactness.AbsentCanChangeMeaning | pkg/prom/modify.go:13-14 | the values of `absent(up{namespace="b"})` before and after rewriting for a caller who owns `a` only, which differ |
| Meaning.BlindIsFixed | pkg/prom/translate.go:13-15 | rewritten with a nil set and printed, an expression whose selectors all lack a namespace matcher, or can be satisfied by no series, has the same value on all databases |
| Exactness.NilSetIsFixedIffBlind | pkg/prom/translate.go:13-15 | for a typed expression this condition is exact: without it some engine and some series give another value |
| Sharing.OverwritingIsExact | pkg/prom/filter.go:13-27 | the update in place selects exactly the satisfying series in the set when objects repeat in the list |
| Sharing.OverwritingCommutesWithConversion | pkg/prom/filter.go:29-43 | with repeated objects, too, the update in place commutes with conversion, errors included |
| Sharing.OverwrittenReadIsExact | pkg/agent/http_hijack.go:445-456 | a remote read whose objects repeat answers what its matchers answer on the caller's series, errors included |
| Meaning.RewrittenIsConfined | pkg/prom/modify.go:10-26 | the value of any printing of a rewritten expression, absent-like calls, lost matchers and empty sets included, is the same on databases that agree on the caller's series |
| PromQL.ValuesHaveTheirType | pkg/agent/http_hijack.go:102-111 | the type the handlers branch on is the type of the value on every database, for an engine whose operators respect the parser's types |
| PromQL.TypeIsKept | pkg/prom/modify.go:10-26 | rewriting changes neither the type of an expression nor that it has one |
| MatcherObjects.ModifyMatcher | pkg/prom/matcher.go:34-46 | overwrites the object with the encoding of the list under its old name, with the compiled pattern in step; the panic of `MustNewMatcher` cannot happen |
| MatcherObjects.CreateMatcher | pkg/prom/matcher.go:14-22 | a fresh valid matcher that encodes the list |
| MatcherObjects.TranslateMatcher | pkg/prom/translate.go:12-43 | the object becomes the translation of what it was; nil set, nil matcher and invalid types are left alone |
| MatcherObjects.FilterMatchers | pkg/prom/filter.go:13-27 | only the object of the first namespace matcher is written, or one fresh object is appended; the change shows wherever that object stands, and on distinct objects the result reads as the filtered list |
| LabelMatcherObjects.ModifyLabelMatcher | pkg/prom/matcher.go:48-61 | overwrites type and value with the encoding of the list, keeping the name |
| LabelMatcherObjects.CreateLabelMatcher | pkg/prom/matcher.go:24-32 | a fresh protocol matcher that encodes the list |
| LabelMatcherObjects.TranslateLabelMatcher | pkg/prom/translate.go:45-82 | the object becomes the translation of what it was; unknown types and patterns that do not compile are left alone |
| LabelMatcherObjects.FilterLabelMatchers | pkg/prom/filter.go:29-43 | only the object of the first namespace matcher is written, or one fresh object is appended; the change shows wherever that object stands, and on distinct objects the result reads as the filtered list |
| LabelMatcherObjects.ToLabelMatcherObjects | pkg/prom/matcher.go:63-86 | fresh objects that read as the conversion, or the error of the first matcher with an invalid type |
| LabelMatcherObjects.FromLabelMatcherObjects | pkg/prom/matcher.go:88-111 | fresh valid objects that read as the conversion, or the error of the first matcher that does not convert |
| LabelMatcherObjects.ModifyQuery | pkg/agent/http_hijack.go:445-456 | the query object keeps its identity and holds the kept matchers, filtered in place whether or not objects repeat; objects of dropped reader labels are not written |
| Expressions.RewriteSelector | pkg/prom/modify.go:13-14 | a selector object ends with the filtered matchers, each of them old or fresh |
| Expressions.Inspect | pkg/prom/modify.go:11-23 | the walk over the allocated tree leaves the tree the pure walk describes, writes nothing outside the tree, and reports whether it finished |
| Expressions.ModifyExpression | pkg/prom/modify.go:10-26 | the returned expression is the tree after the walk, and the once-rewritten original whenever the original is one the parser builds |
| Expressions.Parse | pkg/prom/modify.go:10 | any expression with valid matchers has a tree of distinct fresh objects, as the traversal expects |
| Listing.GroupsAreTheNames | pkg/prom/query.go:7-11 | counting by name yields each name once, no other name, and counts that add up to the number of samples |
| Listing.ListingIsExact | pkg/agent/http_hijack.go:398-416 | the listed names have no duplicates and are exactly those of series in the set that have a sample at the time |
| Expectations.MissingExpectations | pkg/prom/filter_test.go:20-29 | the text expected of selectors without a namespace matcher, for a caller who owns `ns-a`, `ns-b` and `rx-c` |
| Expectations.EqualExpectations | pkg/prom/filter_test.go:30-39 | the texts expected of `=` |
| Expectations.NotEqualExpectations | pkg/prom/filter_test.go:40-49 | the texts expected of `!=` |
| Expectations.RegexpExpectations | pkg/prom/filter_test.go:50-109 | the texts expected of `=~` and `!~`, by which of the three names the pattern accepts |
| Expectations.LiteralExpectations | pkg/prom/filter_test.go:50-109 | the same for patterns without metacharacters, which every engine reads alike |
| Expectations.ListingExpectations | pkg/prom/query_test.go:10-25 | the expressions expected of the listing |
| TimeRange.ParseTimeIsExact | pkg/agent/http_hijack.go:419-423 | a number is read as seconds, by the whole nanoseconds in it toward zero, for both signs; a timestamp is read as it is |
| TimeRange.ParseDurationIsExact | pkg/agent/http_hijack.go:431-443 | so is a duration, and it is refused exactly if its nanoseconds do not lie within 2^63 of zero; one with a unit is read as it is |
| TimeRange.WholeSeconds | pkg/agent/http_hijack.go:419-438 | whole numbers of seconds are read as exactly that many, as times and as durations |
| TimeRange.AcceptedRanges | pkg/agent/http_hijack.go:158-183 | a range is accepted exactly if its three parameters can be read, the step is positive, and the end is not before the start and less than 11,001 steps away, as far as the saturated difference tells |
| TimeRange.AcceptedSeconds | pkg/agent/http_hijack.go:158-183 | the same in seconds, as a caller writes whole ones |
| TimeRange.ParseTimeIsMonotone | pkg/agent/http_hijack.go:419-423 | a larger number is never read as an earlier time |
| TimeRange.PointsAreTheSteps | pkg/agent/http_hijack.go:168-183 | the evaluation times are exactly start + k * step up to the end |
| TimeRange.AcceptedIffFewPoints | pkg/agent/http_hijack.go:168-183 | while the difference fits in int64, a range is accepted exactly if it has 11,001 points at most |
| TimeRange.ResolutionIsBoundedIffSpanIsShort | pkg/agent/http_hijack.go:181-183 | between two times every accepted step keeps the bound if and only if the span is below the point where the saturated difference stops the check from working |
| Handlers.ModifyText | pkg/agent/http_hijack.go:48-57 | parsing, modifying and printing a text gives the text of the rewritten expression |
| Handlers.ModifyMatches | pkg/agent/http_hijack.go:290-301 | the loop yields one rewritten text per `match[]` value, in order, or nothing if some value is no expression |
| Handlers.HijackFederate | pkg/agent/http_hijack.go:25-71 | refuses, answers empty or forwards the rewritten selectors, as the reply function says |
| Handlers.HijackQuery | pkg/agent/http_hijack.go:73-145 | refuses, answers empty by type, or forwards the rewritten query; scalars are forwarded even for an empty set |
| Handlers.HijackQueryRange | pkg/agent/http_hijack.go:147-246 | the same behind the checks of start, end, step and resolution |
| Handlers.HijackSeries | pkg/agent/http_hijack.go:248-314 | refuses unreadable times and missing or malformed selectors, answers empty or forwards the rewritten selectors |
| Handlers.HijackRead | pkg/agent/http_hijack.go:316-368 | one empty result per query for an empty set, else every query modified, in order |
| Handlers.HijackLabelNamespaces | pkg/agent/http_hijack.go:370-386 | answers the canonical enumeration of the set |
| Handlers.HijackLabelName | pkg/agent/http_hijack.go:388-417 | answers no names for an empty set, else the names of the upstream listing, or fails if there is none |
| Replies.QueryReplies | pkg/agent/http_hijack.go:73-246 | a query that does not pass the checks is refused; one that does is forwarded rewritten if the set is not empty or the type is scalar, and else gets an empty vector or matrix by its type, a range query always a matrix, or is refused if it is a string |
| Replies.FederateReplies | pkg/agent/http_hijack.go:25-71 | exactly which `match[]` lists are refused, answered with nothing, or forwarded with each selector rewritten in its place |
| Replies.SeriesReplies | pkg/agent/http_hijack.go:248-314 | the same behind the checks of both times, which are forwarded unchanged |
| Replies.ReadReplies | pkg/agent/http_hijack.go:316-368 | a body that cannot be decoded is refused; without namespaces there is one empty result per query; else each query is forwarded in its place with its times and its kept, filtered matchers |
| Replies.NamespacesAreListed | pkg/agent/http_hijack.go:370-386 | a caller is told exactly the namespaces of the set, in increasing order |
| Replies.NamesAreListed | pkg/agent/http_hijack.go:388-417 | a caller is told, each once, exactly the metric names of the caller's series that have a sample now |
| Service.Dispatch | pkg/agent/http.go:129-136 | each request is replied to as its handler's reply function says |
| Forwarding.PrintedUnion | pkg/agent/http_hijack.go:289-301 | the printed `match[]` selectors together select, on the whole database, what the matchers that are not lost select of the caller's series |
| Service.ForwardedIsPrinted | pkg/agent/http_hijack.go:48-57 | every forwarded request has a printing |
| Service.PrintedRequestIsExact | pkg/agent/http_hijack.go:289-313 | upstream's answer to any printing of a rewritten request, on all series, is its answer to the intended request on the caller's series |
| Service.ResponseIsExact | pkg/agent/http_hijack.go:25-368 | in every printing that keeps its meaning, a caller with namespaces is told what upstream with only the caller's series would say, refusals included, if and only if no otherwise acceptable list of selectors has one that is no expression |
| Service.StableRequestIsKept | pkg/prom/modify.go:25 | every printing keeps the meaning of a request whose matchers meet the conditions |
| Service.EveryResponseIsExactIff | pkg/agent/http_hijack.go:73-246 | for a forwarded query that upstream takes these conditions are exact: the response is as meant under every engine, on every database and in every printing if and only if the query meets them |
| Service.ForwardedRangeIsBounded | pkg/agent/http_hijack.go:158-183 | a forwarded range query is answered exactly if it is of vector or scalar type, and then at 11,001 points at most, below the span that saturates the check |
| Replies.FastPathIsSlowPath | pkg/agent/http_hijack.go:328-341 | for an empty set, federate, series and read are refused or answered with nothing, and rewriting and forwarding would bring that answer exactly when it is given and the slow path can read the request; read has one empty result per query |
| Replies.FastQueryHasTheRightType | pkg/agent/http_hijack.go:96-125 | without namespaces, the reply to a query goes by the type its value has upstream on every database: the empty vector or matrix for these types, forwarding for a scalar, refusal for a string |
| Replies.FastRangeHidesRefusal | pkg/agent/http_hijack.go:197-225 | the immediate answer to a range query is an empty matrix, and the slow path refuses what was so answered exactly if the query passes the checks and is of matrix type |
| Replies.FastListingIsSlowListing | pkg/agent/http_hijack.go:391-396 | for an empty set the immediate empty list of names is what the listing would yield |
| Service.UpstreamIsConfined | pkg/agent/http_hijack.go:25-368 | no printing of a rewritten request brings anything from upstream that depends on other callers' series |
| Service.ResponseIsConfined | pkg/agent/http_hijack.go:25-417 | what a caller is told, on every route that is rewritten and in every printing, is the same on databases that agree on the caller's series |
| NilSets.NilSetAnswersAreFixed | pkg/agent/http_hijack.go:95-145 | with a nil set every response is independent of the database, except to a forwarded query with a selector that, as printed, has a namespace matcher and that some series can satisfy |
| NilSets.NilSetIsSafeIff | pkg/agent/http_hijack.go:95-145 | that exception is exact for every request: the response is independent of the database under every engine if and only if it does not apply |
| Deviations.OrderOfPrintingIsSeen | vendor/github.com/prometheus/prometheus/promql/parser/printer.go:173 | `absent(up{job="x",job=""})` has no labels, and as printed is answered with `{job="x"}`, by every engine and for every set with two members at least |
| Deviations.LossOfNameIsSeen | vendor/github.com/prometheus/prometheus/promql/parser/printer.go:160-163 | `{__name__="",namespace="a"}` should not select `up`, and as printed does |
| Deviations.NilSetScalarDependsOnSeries | pkg/agent/http_hijack.go:95-145 | with a nil set `scalar(up{namespace="b"})` is answered with the value of a series of namespace `b`, and otherwise without it |
| Access.QueryByUser | pkg/kube/namespaces.go:57-81 | the set holds exactly the names of live namespaces that the rules let the caller get or list, the monitoring one only if they also let the caller get or list all its pods; nil if the list is unavailable |
| Access.CallersAreIdentified | pkg/agent/http.go:65-103 | user or group headers name the caller whatever the token; else the token does, with or without `Bearer ` before it |
| Access.ServiceAccountsReadBack | pkg/agent/http.go:100-102 | the namespace and the name of the service account can be read back, in that order, from the name of its caller |
| Access.AccessControl | pkg/agent/http.go:64-126 | exactly which requests are refused, proxied unchanged, or served with the caller's set |
| Access.NamespacesAreWhatRulesAllow | pkg/kube/namespaces.go:65-78 | restricting a database by the computed set keeps exactly the series the rules open to the caller |
| Access.CallersAreIsolated | pkg/agent/http.go:105-136 | for every request and every printing of it, databases with the same visible series give the caller the same response |
| Access.CallersAreServed | pkg/agent/http.go:105-136 | a caller with some namespace is told of every stable request, however it is printed, what Prometheus would say if it held exactly the visible series |

## Left out

- Data.Values: `sort.Strings` is an insertion sort on a value, not the library's algorithm on the slice in place.
- MatcherObjects.FilterMatchers: what `append` does to a shared backing array is not modelled.
- Expressions.ModifyExpression: requires that no selector or matcher object occurs twice in the tree, as in every tree the parser builds.
- TimeRange.ParseTimeIsExact: decimal times are exact reals in the range `time.Unix` takes without wrapping; float64 rounding, NaN and infinities are not modelled.
- TimeRange.ResolutionIsBoundedIffSpanIsShort: a decimal duration of exactly 2^63 ns, which the code lets through to an implementation-defined conversion, is read as that number.
- Handlers.ModifyText: the text keeps the matchers in the order of the tree; what the printer makes of them is `Printing.IsPrinted`, and the results about requests are stated of that.
- Service.EveryResponseIsExactIff: for `match[]` lists the condition on lost matchers is proved sufficient only, since another selector of the list may select the same series.
- Service.ResponseIsExact: a caller without namespaces gets the fast paths; for query and query_range these are not meant to equal the slow path (`vector(1)` is not empty on an empty database), so only non-interference is claimed of them.
- Service.Upstream: Prometheus is modelled as far as the results need it; its limits on time ranges, its output formats and its deduplication of label sets are not.
- What the printer changes beyond the matchers of a selector: it leaves `group_left` and `group_right` out when no matching labels are printed, so a one-to-many match without `on` and with an empty `ignoring` is forwarded as one-to-one.
- The rest of the PromQL parser and printer, URL encoding, snappy and protobuf framing, and regexps beyond alternations of literals: library code.
- The order in which Prometheus returns the groups of an aggregation: the listing model fixes one; the theorem about it does not depend on it.
- The write-once guard, error bodies and response formats of `pkg/agent/http_api_context.go`.
- Routes proxied without rewriting, gRPC, listeners and process start-up.
- `pkg/kube/secrets.go`, `pkg/kube/access.go`, `pkg/kube/nodes.go`: the service account behind a token and the rules are inputs.
- `toNamespace`, `getProjectID`, `NamespaceByProjectID` and `Set.String`: single look-ups and a join.
