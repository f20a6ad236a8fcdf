/**
 * Label matchers as values: what `pkg/prom/matcher.go`, `pkg/prom/translate.go`
 * and `pkg/prom/filter.go` compute on `promlb.Matcher`, and what it means.
 */
module Matchers {
  import opened Strings
  import opened Data

  const NAMESPACE := "namespace"
  const NONE_NAMESPACE := "______"
  const METRIC_NAME := "__name__"

  // ---------------------------------------------------------------- regexps

  const METACHARACTERS: set<char> := {'\\', '.', '+', '*', '?', '(', ')', '[', ']', '{', '}', '^', '$'}

  predicate IsLiteralAlternation(pattern: string) {
    forall c | c in pattern :: c !in METACHARACTERS
  }

  /**
   * The regexp library, wrapping a pattern p as `^(?:p)$`. A pattern without
   * metacharacters other than `|` is an alternation of literals and is read
   * concretely; on every other pattern the library is an arbitrary function.
   */
  datatype Engine = Engine(compiles: string -> bool, accepts: (string, string) -> bool) {
    predicate Compiles(pattern: string) {
      IsLiteralAlternation(pattern) || compiles(pattern)
    }

    predicate Accepts(pattern: string, value: string) {
      if IsLiteralAlternation(pattern) then value in Split(pattern) else accepts(pattern, value)
    }
  }

  /** Kubernetes namespace names: lower-case letters, digits and `-` (section 2.1 of RFC 1123). */
  predicate IsNamespaceName(n: string) {
    n != "" && forall c | c in n :: 'a' <= c <= 'z' || '0' <= c <= '9' || c == '-'
  }

  ghost predicate AreNamespaceNames(ns: Set) {
    forall n | n in ns.Keys() :: IsNamespaceName(n)
  }

  lemma NamesAreLiterals(n: string)
    requires IsNamespaceName(n)
    ensures IsLiteralAlternation(n) && BarFree(n) && n != NONE_NAMESPACE
  {
    assert '_' in NONE_NAMESPACE;
    forall c | c in n ensures c !in METACHARACTERS {
    }
  }

  /** The joined pattern always compiles, and is read back as exactly the list it was made from. */
  lemma JoinedNamesReadBack(E: Engine, namespaces: seq<string>)
    requires forall n | n in namespaces :: IsNamespaceName(n)
    ensures E.Compiles(Join(namespaces))
    ensures namespaces != [] ==> forall v :: E.Accepts(Join(namespaces), v) <==> v in namespaces
  {
    forall n | n in namespaces ensures IsLiteralAlternation(n) && BarFree(n) {
      NamesAreLiterals(n);
    }
    var pattern := Join(namespaces);
    forall c | c in pattern ensures c !in METACHARACTERS {
      JoinCharacters(namespaces, c);
    }
    if namespaces != [] {
      SplitUndoesJoin(namespaces);
    }
  }

  // --------------------------------------------------------------- matchers

  /** `promlb.MatchType`; `MatchInvalid` stands for any other integer. */
  datatype MatchType = MatchEqual | MatchNotEqual | MatchRegexp | MatchNotRegexp | MatchInvalid(code: int)

  datatype Matcher = Matcher(kind: MatchType, name: string, value: string)

  predicate IsRegexp(kind: MatchType) {
    kind.MatchRegexp? || kind.MatchNotRegexp?
  }

  /** The matchers `promlb.NewMatcher` returns: a known type, a pattern that compiles. */
  predicate IsValid(E: Engine, m: Matcher) {
    !m.kind.MatchInvalid? && (IsRegexp(m.kind) ==> E.Compiles(m.value))
  }

  ghost predicate AreValid(E: Engine, ms: seq<Matcher>) {
    forall m | m in ms :: IsValid(E, m)
  }

  /** `Matcher.Matches` (the library panics on an invalid type). */
  predicate Matches(E: Engine, m: Matcher, v: string) {
    match m.kind
    case MatchEqual => v == m.value
    case MatchNotEqual => v != m.value
    case MatchRegexp => E.Accepts(m.value, v)
    case MatchNotRegexp => !E.Accepts(m.value, v)
    case MatchInvalid(_) => false
  }

  /** What `modifyMatcher` writes for a list of namespaces. */
  function Encode(name: string, namespaces: seq<string>): Matcher {
    if |namespaces| == 0 then Matcher(MatchEqual, name, NONE_NAMESPACE)
    else if |namespaces| == 1 then Matcher(MatchEqual, name, namespaces[0])
    else Matcher(MatchRegexp, name, Join(namespaces))
  }

  /** The members of `keys` that `m` accepts. */
  ghost function Accepted(E: Engine, keys: set<string>, m: Matcher): set<string> {
    set n | n in keys && Matches(E, m, n)
  }

  /** What `translateMatcher` turns a namespace matcher into. */
  ghost function Translate(E: Engine, ns: Set, m: Matcher): Matcher {
    if ns.NilSet? || m.kind.MatchInvalid? then m
    else if m.kind.MatchEqual? then
      if m.value in ns.keys then m else m.(value := NONE_NAMESPACE)
    else Encode(m.name, ValuesOf(Accepted(E, ns.keys, m)))
  }

  /** What `FilterMatchers` turns a list of matchers into. */
  ghost function FilterMatchers(E: Engine, ns: Set, ms: seq<Matcher>): seq<Matcher> {
    if ms == [] then [Encode(NAMESPACE, ValuesOf(ns.Keys()))]
    else if ms[0].name == NAMESPACE then [Translate(E, ns, ms[0])] + ms[1..]
    else [ms[0]] + FilterMatchers(E, ns, ms[1..])
  }

  // --------------------------------------------------------------- encoding

  /** For a list of names of any length the written matcher accepts exactly the list (and, for the empty one, the sentinel). */
  lemma EncodingIsExact(E: Engine, name: string, namespaces: seq<string>, v: string)
    requires forall n | n in namespaces :: IsNamespaceName(n)
    ensures IsValid(E, Encode(name, namespaces))
    ensures Matches(E, Encode(name, namespaces), v)
            <==> v in namespaces || (namespaces == [] && v == NONE_NAMESPACE)
  {
    JoinedNamesReadBack(E, namespaces);
  }

  /** On valid names the encoding loses nothing: the set it was made from can be recovered. */
  lemma EncodingIsInjective(E: Engine, name: string, a: set<string>, b: set<string>)
    requires AreNamespaceNames(MapSet(a)) && AreNamespaceNames(MapSet(b))
    requires Encode(name, ValuesOf(a)) == Encode(name, ValuesOf(b))
    ensures a == b
  {
    ValuesOfNames(a);
    ValuesOfNames(b);
    forall n | n in a + b ensures n in a <==> n in b {
      NamesAreLiterals(n);
      EncodingIsExact(E, name, ValuesOf(a), n);
      EncodingIsExact(E, name, ValuesOf(b), n);
    }
  }

  lemma ValuesOfNames(keys: set<string>)
    requires forall n | n in keys :: IsNamespaceName(n)
    ensures forall n :: n in ValuesOf(keys) <==> n in keys
    ensures ValuesOf(keys) == [] <==> keys == {}
  {
    assert "" !in keys;
    NoElements(ValuesOf(keys));
  }

  // ------------------------------------------------------------ translation

  /** One translated matcher: the original and membership, or the sentinel when nothing of `ns` is accepted. */
  lemma TranslationIsExact(E: Engine, ns: Set, m: Matcher, v: string)
    requires ns.MapSet? && AreNamespaceNames(ns)
    requires IsValid(E, m)
    ensures IsValid(E, Translate(E, ns, m))
    ensures Matches(E, Translate(E, ns, m), v)
            <==> (Matches(E, m, v) && v in ns.keys) || (v == NONE_NAMESPACE && Accepted(E, ns.keys, m) == {})
  {
    var accepted := Accepted(E, ns.keys, m);
    if m.kind.MatchEqual? {
      if m.value in ns.keys {
        assert m.value in accepted;
      }
    } else {
      var namespaces := ValuesOf(accepted);
      ValuesOfNames(accepted);
      EncodingIsExact(E, m.name, namespaces, v);
    }
  }

  /** Four kinds become two, and the name stays. */
  lemma TranslationShape(E: Engine, ns: Set, m: Matcher)
    requires ns.MapSet? && !m.kind.MatchInvalid?
    ensures Translate(E, ns, m).kind in {MatchEqual, MatchRegexp}
    ensures Translate(E, ns, m).name == m.name
    ensures Translate(E, ns, m).kind.MatchRegexp? ==> |Accepted(E, ns.keys, m)| > 1
  {
    var accepted := Accepted(E, ns.keys, m);
    var namespaces := ValuesOf(accepted);
    if |namespaces| > 1 {
      LessIrreflexive(namespaces[0]);
      assert {namespaces[0], namespaces[1]} <= accepted;
      AtLeastTwo(accepted, namespaces[0], namespaces[1]);
    }
  }

  lemma AtLeastTwo(s: set<string>, x: string, y: string)
    requires x in s && y in s && x != y
    ensures |s| > 1
  {
    assert |s - {x}| == |s| - 1 && y in s - {x};
  }

  /** Translating by `s` after `t` is translating once by the intersection, character for character. */
  lemma TranslationsCompose(E: Engine, s: set<string>, t: set<string>, m: Matcher)
    requires AreNamespaceNames(MapSet(s)) && AreNamespaceNames(MapSet(t))
    ensures Translate(E, MapSet(s), Translate(E, MapSet(t), m)) == Translate(E, MapSet(s * t), m)
  {
    if m.kind.MatchEqual? || m.kind.MatchInvalid? {
      if NONE_NAMESPACE in s { NamesAreLiterals(NONE_NAMESPACE); }
    } else {
      ComposeEncoded(E, s, m.name, Accepted(E, t, m));
      assert Accepted(E, t, m) * s == Accepted(E, s * t, m);
    }
  }

  /** Translating an encoded list is encoding the sublist of the members of `s`. */
  lemma ComposeEncoded(E: Engine, s: set<string>, name: string, a: set<string>)
    requires AreNamespaceNames(MapSet(s)) && AreNamespaceNames(MapSet(a))
    ensures Translate(E, MapSet(s), Encode(name, ValuesOf(a))) == Encode(name, ValuesOf(a * s))
  {
    var namespaces := ValuesOf(a);
    var encoded := Encode(name, namespaces);
    if NONE_NAMESPACE in s { NamesAreLiterals(NONE_NAMESPACE); }
    ValuesOfNames(a);
    if |namespaces| == 0 {
      NoElements(ValuesOf(a * s));
    } else if |namespaces| == 1 {
      var n := namespaces[0];
      assert a == {n};
      if n in s {
        assert a * s == a;
      } else {
        assert a * s == {};
        NoElements(ValuesOf(a * s));
      }
    } else {
      forall n | n in s ensures Matches(E, encoded, n) <==> n in a {
        EncodingIsExact(E, name, namespaces, n);
      }
      assert Accepted(E, s, encoded) == a * s;
    }
  }

  // -------------------------------------------------------------- filtering

  /** Filtering by `t` and then by `s` gives the very list that filtering once by the intersection gives. */
  lemma {:induction false} FiltersCompose(E: Engine, s: set<string>, t: set<string>, ms: seq<Matcher>)
    requires AreNamespaceNames(MapSet(s)) && AreNamespaceNames(MapSet(t))
    ensures FilterMatchers(E, MapSet(s), FilterMatchers(E, MapSet(t), ms)) == FilterMatchers(E, MapSet(s * t), ms)
  {
    if ms == [] {
      ComposeEncoded(E, s, NAMESPACE, t);
      assert t * s == s * t;
    } else if ms[0].name == NAMESPACE {
      TranslationsCompose(E, s, t, ms[0]);
    } else {
      FiltersCompose(E, s, t, ms[1..]);
    }
  }

  /** Rewriting a selector twice leaves what rewriting it once leaves, for a nil set too. */
  lemma {:induction false} FilteringIsIdempotent(E: Engine, ns: Set, ms: seq<Matcher>)
    requires AreNamespaceNames(ns)
    ensures FilterMatchers(E, ns, FilterMatchers(E, ns, ms)) == FilterMatchers(E, ns, ms)
  {
    match ns
    case MapSet(keys) =>
      FiltersCompose(E, keys, keys, ms);
      assert keys * keys == keys;
    case NilSet =>
      if ms != [] && ms[0].name != NAMESPACE {
        FilteringIsIdempotent(E, ns, ms[1..]);
      }
  }

  predicate HasNamespace(ms: seq<Matcher>) {
    exists m | m in ms :: m.name == NAMESPACE
  }

  /** The position of the first namespace matcher, or the length of the list. */
  function FirstNamespace(ms: seq<Matcher>): (i: nat)
    ensures i <= |ms|
    ensures i < |ms| ==> ms[i].name == NAMESPACE
    ensures forall j | 0 <= j < i :: ms[j].name != NAMESPACE
    ensures i < |ms| <==> HasNamespace(ms)
  {
    if ms == [] then 0
    else if ms[0].name == NAMESPACE then 0
    else
      assert forall m | m in ms :: m == ms[0] || m in ms[1..];
      1 + FirstNamespace(ms[1..])
  }

  /** The frame of the rewrite: one position changes, or one matcher is appended. */
  lemma {:induction false} FilteringFrame(E: Engine, ns: Set, ms: seq<Matcher>)
    ensures var i := FirstNamespace(ms); var r := FilterMatchers(E, ns, ms);
            if i < |ms| then r == ms[i := Translate(E, ns, ms[i])]
            else r == ms + [Encode(NAMESPACE, ValuesOf(ns.Keys()))]
  {
    if ms != [] && ms[0].name != NAMESPACE {
      FilteringFrame(E, ns, ms[1..]);
    }
  }

  lemma FilteringKeepsValidity(E: Engine, ns: Set, ms: seq<Matcher>)
    requires AreNamespaceNames(ns) && AreValid(E, ms)
    ensures AreValid(E, FilterMatchers(E, ns, ms))
    ensures HasNamespace(FilterMatchers(E, ns, ms))
  {
    FilteringFrame(E, ns, ms);
    var i := FirstNamespace(ms);
    if i == |ms| {
      EncodingIsExact(E, NAMESPACE, ValuesOf(ns.Keys()), "");
      assert FilterMatchers(E, ns, ms)[i].name == NAMESPACE;
    } else {
      if ns.MapSet? {
        TranslationIsExact(E, ns, ms[i], "");
        TranslationShape(E, ns, ms[i]);
      }
      assert FilterMatchers(E, ns, ms)[i].name == NAMESPACE;
    }
  }

  /** The namespace matchers that rewriting leaves as they are: those it could have written. */
  ghost predicate IsWritten(keys: set<string>, m: Matcher) {
    || (m.kind.MatchEqual? && (m.value in keys || m.value == NONE_NAMESPACE))
    || (m.kind.MatchRegexp? && exists part | part <= keys :: |ValuesOf(part)| > 1 && m.value == Join(ValuesOf(part)))
  }

  /** A list of matchers is left as it is exactly when its first namespace matcher is already in written form. */
  lemma FixedIffWritten(E: Engine, keys: set<string>, ms: seq<Matcher>)
    requires AreNamespaceNames(MapSet(keys)) && AreValid(E, ms)
    ensures FilterMatchers(E, MapSet(keys), ms) == ms
            <==> HasNamespace(ms) && IsWritten(keys, ms[FirstNamespace(ms)])
  {
    var ns := MapSet(keys);
    var i := FirstNamespace(ms);
    FilteringFrame(E, ns, ms);
    if i < |ms| {
      assert FilterMatchers(E, ns, ms)[i] == Translate(E, ns, ms[i]);
      assert ms[i := ms[i]] == ms;
      TranslationFixedIffWritten(E, keys, ms[i]);
    }
  }

  lemma TranslationFixedIffWritten(E: Engine, keys: set<string>, m: Matcher)
    requires AreNamespaceNames(MapSet(keys)) && IsValid(E, m)
    ensures Translate(E, MapSet(keys), m) == m <==> IsWritten(keys, m)
  {
    var accepted := Accepted(E, keys, m);
    if !m.kind.MatchEqual? && Translate(E, MapSet(keys), m) == m {
      assert accepted <= keys && m.value == Join(ValuesOf(accepted));
    }
    if m.kind.MatchRegexp? && IsWritten(keys, m) {
      var part :| part <= keys && |ValuesOf(part)| > 1 && m.value == Join(ValuesOf(part));
      forall n | n in part ensures IsNamespaceName(n) {
        assert n in MapSet(keys).Keys();
      }
      ComposeEncoded(E, keys, m.name, part);
      assert part * keys == part;
      assert m == Encode(m.name, ValuesOf(part));
    }
  }
}
