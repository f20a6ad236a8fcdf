/** The texts that `pkg/prom/filter_test.go` and `pkg/prom/query_test.go` expect, for a caller who owns `ns-a`, `ns-b` and `rx-c`. */
module Expectations {
  import opened Strings
  import opened Data
  import opened Matchers
  import opened PromQL
  import Listing

  const OWNED := {"ns-a", "ns-b", "rx-c"}
  const METRIC_A := Matcher(MatchEqual, "__name__", "a")

  /** The owned namespaces that are asked for, in order. */
  function Listed(a: bool, b: bool, c: bool): seq<string> {
    (if a then ["ns-a"] else []) + (if b then ["ns-b"] else []) + (if c then ["rx-c"] else [])
  }

  /** The type and the value that are written for them. */
  function Expected(a: bool, b: bool, c: bool): (MatchType, string) {
    match (a, b, c)
    case (false, false, false) => (MatchEqual, "______")
    case (true, false, false) => (MatchEqual, "ns-a")
    case (false, true, false) => (MatchEqual, "ns-b")
    case (false, false, true) => (MatchEqual, "rx-c")
    case (true, true, false) => (MatchRegexp, "ns-a|ns-b")
    case (true, false, true) => (MatchRegexp, "ns-a|rx-c")
    case (false, true, true) => (MatchRegexp, "ns-b|rx-c")
    case (true, true, true) => (MatchRegexp, "ns-a|ns-b|rx-c")
  }

  lemma ListedInOrder(a: bool, b: bool, c: bool)
    ensures StrictlyIncreasing(Listed(a, b, c))
  {
    LessIsLexicographic("ns-a", "ns-b");
    LessIsLexicographic("ns-b", "rx-c");
    LessIsLexicographic("ns-a", "rx-c");
    assert DifferAt("ns-a", "ns-b", 3) && DifferAt("ns-b", "rx-c", 0) && DifferAt("ns-a", "rx-c", 0);
  }

  lemma JoinOfTwo(x: string, y: string)
    ensures Join([x, y]) == x + "|" + y
  {
    assert [x, y][1..] == [y];
  }

  lemma Written(a: bool, b: bool, c: bool)
    ensures var (kind, value) := Expected(a, b, c);
            Encode("namespace", Listed(a, b, c)) == Matcher(kind, "namespace", value)
  {
    var all := Listed(true, true, true);
    JoinOfTwo("ns-a", "ns-b");
    JoinOfTwo("ns-a", "rx-c");
    JoinOfTwo("ns-b", "rx-c");
    assert "ns-a" + "|" + "ns-b" == "ns-a|ns-b";
    assert "ns-a" + "|" + "rx-c" == "ns-a|rx-c";
    assert "ns-b" + "|" + "rx-c" == "ns-b|rx-c";
    assert Listed(true, true, false) == ["ns-a", "ns-b"];
    assert Listed(true, false, true) == ["ns-a", "rx-c"];
    assert Listed(false, true, true) == ["ns-b", "rx-c"] == all[1..];
    assert Join(all) == "ns-a" + "|" + Join(all[1..]) == "ns-a|ns-b|rx-c";
  }

  /** A selector of `a` with one matcher on `namespace` becomes one with another. */
  ghost predicate Becomes(E: Engine, kind: MatchType, value: string, expected: (MatchType, string)) {
    FilterMatchers(E, MapSet(OWNED), [METRIC_A, Matcher(kind, "namespace", value)])
    == [METRIC_A, Matcher(expected.0, "namespace", expected.1)]
  }

  lemma FilteredPair(E: Engine, m: Matcher)
    requires m.name == "namespace"
    ensures FilterMatchers(E, MapSet(OWNED), [METRIC_A, m]) == [METRIC_A, Translate(E, MapSet(OWNED), m)]
  {
    assert [METRIC_A, m][1..] == [m] && [m][1..] == [];
  }

  lemma ValuesOfAccepted(E: Engine, m: Matcher)
    ensures ValuesOf(Accepted(E, OWNED, m))
            == Listed(Matches(E, m, "ns-a"), Matches(E, m, "ns-b"), Matches(E, m, "rx-c"))
  {
    var r := Listed(Matches(E, m, "ns-a"), Matches(E, m, "ns-b"), Matches(E, m, "rx-c"));
    ListedInOrder(Matches(E, m, "ns-a"), Matches(E, m, "ns-b"), Matches(E, m, "rx-c"));
    ValuesIsCanonical(Accepted(E, OWNED, m), r);
  }

  /** Whatever the matcher accepts of the three. */
  lemma FilteredByAccepted(E: Engine, kind: MatchType, value: string, a: bool, b: bool, c: bool)
    requires kind in {MatchNotEqual, MatchRegexp, MatchNotRegexp}
    requires var m := Matcher(kind, "namespace", value);
             a == Matches(E, m, "ns-a") && b == Matches(E, m, "ns-b") && c == Matches(E, m, "rx-c")
    ensures Becomes(E, kind, value, Expected(a, b, c))
  {
    var m := Matcher(kind, "namespace", value);
    FilteredPair(E, m);
    ValuesOfAccepted(E, m);
    Written(a, b, c);
  }

  /** The tests of selectors without a namespace matcher. */
  lemma MissingExpectations(E: Engine)
    ensures FilterMatchers(E, MapSet(OWNED), [METRIC_A]) == [METRIC_A, Matcher(MatchRegexp, "namespace", "ns-a|ns-b|rx-c")]
  {
    var any := Matcher(MatchNotEqual, "namespace", "");
    ValuesOfAccepted(E, any);
    assert Accepted(E, OWNED, any) == OWNED;
    Written(true, true, true);
    assert [METRIC_A][1..] == [];
  }

  /** The tests of `=`. */
  lemma EqualExpectations(E: Engine)
    ensures Becomes(E, MatchEqual, "ns-x", (MatchEqual, "______"))
    ensures Becomes(E, MatchEqual, "ns-a", (MatchEqual, "ns-a"))
  {
    FilteredPair(E, Matcher(MatchEqual, "namespace", "ns-x"));
    FilteredPair(E, Matcher(MatchEqual, "namespace", "ns-a"));
    assert "ns-x"[3] == 'x';
  }

  /** The tests of `!=`. */
  lemma NotEqualExpectations(E: Engine)
    ensures Becomes(E, MatchNotEqual, "ns-x", (MatchRegexp, "ns-a|ns-b|rx-c"))
    ensures Becomes(E, MatchNotEqual, "ns-a", (MatchRegexp, "ns-b|rx-c"))
  {
    FilteredByAccepted(E, MatchNotEqual, "ns-x", true, true, true);
    FilteredByAccepted(E, MatchNotEqual, "ns-a", false, true, true);
  }

  /** The tests of `=~` and `!~`, for an engine that accepts these of the three. */
  lemma RegexpExpectations(E: Engine, pattern: string, a: bool, b: bool, c: bool)
    requires a == E.Accepts(pattern, "ns-a") && b == E.Accepts(pattern, "ns-b") && c == E.Accepts(pattern, "rx-c")
    ensures Becomes(E, MatchRegexp, pattern, Expected(a, b, c))
    ensures Becomes(E, MatchNotRegexp, pattern, Expected(!a, !b, !c))
  {
    FilteredByAccepted(E, MatchRegexp, pattern, a, b, c);
    FilteredByAccepted(E, MatchNotRegexp, pattern, !a, !b, !c);
  }

  lemma LiteralPattern(E: Engine, pattern: string, v: string)
    requires pattern == "" || IsNamespaceName(pattern)
    ensures E.Accepts(pattern, v) <==> v == pattern
  {
    if pattern != "" {
      JoinedNamesReadBack(E, [pattern]);
    }
  }

  /** Which of the three a pattern without metacharacters accepts, every engine agrees on. */
  lemma LiteralExpectations(E: Engine, pattern: string)
    requires pattern == "" || IsNamespaceName(pattern)
    ensures Becomes(E, MatchRegexp, pattern, Expected(pattern == "ns-a", pattern == "ns-b", pattern == "rx-c"))
    ensures Becomes(E, MatchNotRegexp, pattern, Expected(pattern != "ns-a", pattern != "ns-b", pattern != "rx-c"))
  {
    LiteralPattern(E, pattern, "ns-a");
    LiteralPattern(E, pattern, "ns-b");
    LiteralPattern(E, pattern, "rx-c");
    RegexpExpectations(E, pattern, pattern == "ns-a", pattern == "ns-b", pattern == "rx-c");
  }

  /** The expressions of the listing. */
  lemma ListingExpectations(a: bool, b: bool, c: bool)
    ensures var (kind, value) := Expected(a, b, c);
            Listing.NewExprForCountAllLabels(Listed(a, b, c))
            == Apply(AggregateOp("count", ["__name__"], false), [VectorSelector("", 0, [Matcher(kind, "namespace", value)])])
  {
    Written(a, b, c);
  }
}
