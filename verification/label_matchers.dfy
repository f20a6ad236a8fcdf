/**
 * The second copy of the algorithm, on the matchers of the remote-read protocol
 * (`prompb.LabelMatcher`), and the converters between the two copies.
 */
module LabelMatchers {
  import opened Wrappers
  import opened Data
  import opened Matchers

  /** `prompb.LabelMatcher_Type`, an open enumeration: `UNRECOGNIZED` is any other number. */
  datatype LabelType = EQ | NEQ | RE | NRE | UNRECOGNIZED(code: int)

  datatype LabelMatcher = LabelMatcher(kind: LabelType, name: string, value: string)

  datatype ConversionError = InvalidMatcherType | BadRegexp(pattern: string)

  type Conversion<T> = Result<T, ConversionError>

  /** What `modifyLabelMatcher` writes for a list of namespaces. */
  function EncodeLabel(name: string, namespaces: seq<string>): LabelMatcher {
    if |namespaces| == 0 then LabelMatcher(EQ, name, NONE_NAMESPACE)
    else if |namespaces| == 1 then LabelMatcher(EQ, name, namespaces[0])
    else LabelMatcher(RE, name, Strings.Join(namespaces))
  }

  /** What `translateLabelMatcher` turns a namespace matcher into; a pattern that does not compile stays. */
  ghost function TranslateLabel(E: Engine, ns: Set, m: LabelMatcher): LabelMatcher {
    match ns
    case NilSet => m
    case MapSet(keys) =>
      match m.kind
      case EQ =>
        if m.value in keys then m else m.(value := NONE_NAMESPACE)
      case NEQ =>
        EncodeLabel(m.name, ValuesOf(set n | n in keys && n != m.value))
      case RE =>
        if E.Compiles(m.value) then EncodeLabel(m.name, ValuesOf(set n | n in keys && E.Accepts(m.value, n))) else m
      case NRE =>
        if E.Compiles(m.value) then EncodeLabel(m.name, ValuesOf(set n | n in keys && !E.Accepts(m.value, n))) else m
      case UNRECOGNIZED(_) => m
  }

  /** What `FilterLabelMatchers` turns a list of matchers into. */
  ghost function FilterLabelMatchers(E: Engine, ns: Set, ms: seq<LabelMatcher>): seq<LabelMatcher> {
    if ms == [] then [EncodeLabel(NAMESPACE, ValuesOf(ns.Keys()))]
    else if ms[0].name == NAMESPACE then [TranslateLabel(E, ns, ms[0])] + ms[1..]
    else [ms[0]] + FilterLabelMatchers(E, ns, ms[1..])
  }

  function FirstNamespaceLabel(ms: seq<LabelMatcher>): (i: nat)
    ensures i <= |ms|
    ensures i < |ms| ==> ms[i].name == NAMESPACE
    ensures forall j | 0 <= j < i :: ms[j].name != NAMESPACE
  {
    if ms == [] then 0
    else if ms[0].name == NAMESPACE then 0
    else 1 + FirstNamespaceLabel(ms[1..])
  }

  /** The frame of the rewrite: one position changes, or one matcher is appended. */
  lemma {:induction false} LabelFilteringFrame(E: Engine, ns: Set, ms: seq<LabelMatcher>)
    ensures var i := FirstNamespaceLabel(ms); var r := FilterLabelMatchers(E, ns, ms);
            if i < |ms| then r == ms[i := TranslateLabel(E, ns, ms[i])]
            else r == ms + [EncodeLabel(NAMESPACE, ValuesOf(ns.Keys()))]
  {
    if ms != [] && ms[0].name != NAMESPACE {
      LabelFilteringFrame(E, ns, ms[1..]);
    }
  }

  // ------------------------------------------------------------- converters

  function ToLabelType(kind: MatchType): Conversion<LabelType> {
    match kind
    case MatchEqual => Ok(EQ)
    case MatchNotEqual => Ok(NEQ)
    case MatchRegexp => Ok(RE)
    case MatchNotRegexp => Ok(NRE)
    case MatchInvalid(_) => Err(InvalidMatcherType)
  }

  function FromLabelType(kind: LabelType): Conversion<MatchType> {
    match kind
    case EQ => Ok(MatchEqual)
    case NEQ => Ok(MatchNotEqual)
    case RE => Ok(MatchRegexp)
    case NRE => Ok(MatchNotRegexp)
    case UNRECOGNIZED(_) => Err(InvalidMatcherType)
  }

  /** One step of `toLabelMatchers`. */
  function ToLabel(m: Matcher): Conversion<LabelMatcher> {
    match ToLabelType(m.kind)
    case Ok(kind) => Ok(LabelMatcher(kind, m.name, m.value))
    case Err(e) => Err(e)
  }

  /** One step of `fromLabelMatchers`: the type, then what `NewMatcher` compiles. */
  function FromLabel(E: Engine, m: LabelMatcher): Conversion<Matcher> {
    match FromLabelType(m.kind)
    case Err(e) => Err(e)
    case Ok(kind) =>
      if IsRegexp(kind) && !E.Compiles(m.value) then Err(BadRegexp(m.value))
      else Ok(Matcher(kind, m.name, m.value))
  }

  /** What `toLabelMatchers` returns: all conversions, or the first error. */
  function ToLabelMatchers(ms: seq<Matcher>): Conversion<seq<LabelMatcher>> {
    if ms == [] then Ok([])
    else
      match ToLabel(ms[0])
      case Err(e) => Err(e)
      case Ok(m) =>
        match ToLabelMatchers(ms[1..])
        case Err(e) => Err(e)
        case Ok(rest) => Ok([m] + rest)
  }

  /** What `fromLabelMatchers` returns: all conversions, or the first error. */
  function FromLabelMatchers(E: Engine, ms: seq<LabelMatcher>): Conversion<seq<Matcher>> {
    if ms == [] then Ok([])
    else
      match FromLabel(E, ms[0])
      case Err(e) => Err(e)
      case Ok(m) =>
        match FromLabelMatchers(E, ms[1..])
        case Err(e) => Err(e)
        case Ok(rest) => Ok([m] + rest)
  }

  /** Converting there and back is the identity, on every list the library can build. */
  lemma {:induction false} ToThenFrom(E: Engine, ms: seq<Matcher>)
    requires AreValid(E, ms)
    ensures ToLabelMatchers(ms).Ok?
    ensures FromLabelMatchers(E, ToLabelMatchers(ms).value) == Ok(ms)
  {
    if ms != [] {
      ToThenFrom(E, ms[1..]);
      assert IsValid(E, ms[0]);
      var labels := ToLabelMatchers(ms).value;
      assert labels[1..] == ToLabelMatchers(ms[1..]).value;
      assert [ms[0]] + ms[1..] == ms;
    }
  }

  /** Converting back and there is the identity, on every list that converts; the result is valid. */
  lemma {:induction false} FromThenTo(E: Engine, ms: seq<LabelMatcher>)
    requires FromLabelMatchers(E, ms).Ok?
    ensures AreValid(E, FromLabelMatchers(E, ms).value)
    ensures ToLabelMatchers(FromLabelMatchers(E, ms).value) == Ok(ms)
  {
    if ms != [] {
      FromThenTo(E, ms[1..]);
      var converted := FromLabelMatchers(E, ms).value;
      assert converted[1..] == FromLabelMatchers(E, ms[1..]).value;
      assert [ms[0]] + ms[1..] == ms;
    }
  }

  /** A list converts exactly when every type is known and every pattern compiles. */
  lemma {:induction false} ConvertsIffWellFormed(E: Engine, ms: seq<LabelMatcher>)
    ensures FromLabelMatchers(E, ms).Ok?
            <==> forall m | m in ms :: !m.kind.UNRECOGNIZED? && (m.kind.RE? || m.kind.NRE? ==> E.Compiles(m.value))
  {
    if ms != [] {
      ConvertsIffWellFormed(E, ms[1..]);
      assert forall m :: m in ms <==> m == ms[0] || m in ms[1..];
    }
  }

  // --------------------------------------------------- the two copies agree

  lemma TranslationsAgree(E: Engine, ns: Set, m: LabelMatcher)
    requires AreNamespaceNames(ns)
    ensures match FromLabel(E, m)
            case Ok(converted) => FromLabel(E, TranslateLabel(E, ns, m)) == Ok(Translate(E, ns, converted))
            case Err(_) => TranslateLabel(E, ns, m) == m
  {
    if ns.MapSet? && FromLabel(E, m).Ok? {
      var converted := FromLabel(E, m).value;
      var accepted := Accepted(E, ns.keys, converted);
      ValuesOfNames(accepted);
      EncodingIsExact(E, m.name, ValuesOf(accepted), "");
      match m.kind
      case EQ =>
      case NEQ => assert accepted == set n | n in ns.keys && n != m.value;
      case RE => assert accepted == set n | n in ns.keys && E.Accepts(m.value, n);
      case NRE => assert accepted == set n | n in ns.keys && !E.Accepts(m.value, n);
    }
  }

  /** Filtering commutes with conversion on every list, convertible or not, errors included. */
  lemma {:induction false} FiltersAgree(E: Engine, ns: Set, ms: seq<LabelMatcher>)
    requires AreNamespaceNames(ns)
    ensures FromLabelMatchers(E, FilterLabelMatchers(E, ns, ms))
            == match FromLabelMatchers(E, ms)
               case Ok(converted) => Ok(FilterMatchers(E, ns, converted))
               case Err(e) => Err(e)
  {
    if ms == [] {
      ValuesOfNames(ns.Keys());
      EncodingIsExact(E, NAMESPACE, ValuesOf(ns.Keys()), "");
      var filtered := FilterLabelMatchers(E, ns, ms);
      assert filtered[1..] == [] && FromLabelMatchers(E, []) == Ok([]);
      var appended := Encode(NAMESPACE, ValuesOf(ns.Keys()));
      assert [appended] + [] == [appended];
    } else if ms[0].name == NAMESPACE {
      TranslationsAgree(E, ns, ms[0]);
      var filtered := FilterLabelMatchers(E, ns, ms);
      assert filtered[1..] == ms[1..];
    } else {
      FiltersAgree(E, ns, ms[1..]);
      var filtered := FilterLabelMatchers(E, ns, ms);
      assert filtered[1..] == FilterLabelMatchers(E, ns, ms[1..]);
    }
  }

  /** The detour through the protocol matchers computes `FilterMatchers`. */
  lemma DetourAgrees(E: Engine, ns: Set, ms: seq<Matcher>)
    requires AreNamespaceNames(ns) && AreValid(E, ms)
    ensures ToLabelMatchers(ms).Ok?
    ensures FromLabelMatchers(E, FilterLabelMatchers(E, ns, ToLabelMatchers(ms).value)) == Ok(FilterMatchers(E, ns, ms))
  {
    ToThenFrom(E, ms);
    FiltersAgree(E, ns, ToLabelMatchers(ms).value);
  }
}
