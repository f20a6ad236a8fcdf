/**
 * The matchers the PromQL library allocates (`*promlb.Matcher`) and the code that
 * updates them in place: `createMatcher`, `modifyMatcher`, `translateMatcher`
 * and `FilterMatchers`.
 */
module MatcherObjects {
  import opened Wrappers
  import opened Strings
  import opened Data
  import opened Matchers
  import opened Sharing
  import LabelMatchers

  class MatcherObject {
    var Type: MatchType
    var Name: string
    var Value: string
    var re: Option<string>  // the pattern that was compiled, if any

    constructor (kind: MatchType, name: string, value: string, re: Option<string>)
      ensures View() == Matcher(kind, name, value) && this.re == re
    {
      Type, Name, Value, this.re := kind, name, value, re;
    }

    function View(): Matcher
      reads this
    {
      Matcher(Type, Name, Value)
    }

    /** What `NewMatcher` establishes: for the regexp types the value compiles and is the compiled pattern. */
    ghost predicate Valid(E: Engine)
      reads this
    {
      if IsRegexp(Type) then E.Compiles(Value) && re == Some(Value) else re == None
    }
  }

  /** `Matcher.Matches` on the fields: regexp types read the compiled pattern, not the value. */
  predicate MatchesFields(E: Engine, kind: MatchType, value: string, re: Option<string>, v: string)
    requires !kind.MatchInvalid? && (IsRegexp(kind) ==> re.Some?)
  {
    match kind
    case MatchEqual => v == value
    case MatchNotEqual => v != value
    case MatchRegexp => E.Accepts(re.value, v)
    case MatchNotRegexp => !E.Accepts(re.value, v)
  }

  /** `promlb.NewMatcher` */
  method NewMatcher(E: Engine, kind: MatchType, name: string, value: string)
    returns (r: Result<MatcherObject, LabelMatchers.ConversionError>)
    ensures r.Ok? <==> (IsRegexp(kind) ==> E.Compiles(value))
    ensures r.Ok? ==> fresh(r.value) && r.value.View() == Matcher(kind, name, value)
    ensures r.Ok? ==> r.value.Valid(E)
    ensures r.Err? ==> r.error == LabelMatchers.BadRegexp(value)
  {
    if IsRegexp(kind) {
      if !E.Compiles(value) {
        return Err(LabelMatchers.BadRegexp(value));
      }
      var m := new MatcherObject(kind, name, value, Some(value));
      return Ok(m);
    }
    var m := new MatcherObject(kind, name, value, None);
    return Ok(m);
  }

  /** `promlb.MustNewMatcher`: its panic is excluded by the precondition. */
  method MustNewMatcher(E: Engine, kind: MatchType, name: string, value: string) returns (m: MatcherObject)
    requires !kind.MatchInvalid? && (IsRegexp(kind) ==> E.Compiles(value))
    ensures fresh(m) && m.View() == Matcher(kind, name, value) && m.Valid(E)
  {
    var r := NewMatcher(E, kind, name, value);
    m := r.value;
  }

  method ModifyMatcher(E: Engine, srcMatcher: MatcherObject, namespaces: seq<string>)
    requires forall n | n in namespaces :: IsNamespaceName(n)
    modifies srcMatcher
    ensures srcMatcher.View() == Encode(old(srcMatcher.Name), namespaces)
    ensures srcMatcher.Valid(E)
  {
    var tmp: MatcherObject;
    JoinedNamesReadBack(E, namespaces);
    match |namespaces| {
      case 0 => tmp := MustNewMatcher(E, MatchEqual, srcMatcher.Name, NONE_NAMESPACE);
      case 1 => tmp := MustNewMatcher(E, MatchEqual, srcMatcher.Name, namespaces[0]);
      case _ => tmp := MustNewMatcher(E, MatchRegexp, srcMatcher.Name, Join(namespaces));
    }
    srcMatcher.Type, srcMatcher.Name, srcMatcher.Value, srcMatcher.re := tmp.Type, tmp.Name, tmp.Value, tmp.re;
  }

  method CreateMatcher(E: Engine, matcherName: string, namespaces: seq<string>) returns (ret: MatcherObject)
    requires forall n | n in namespaces :: IsNamespaceName(n)
    ensures fresh(ret)
    ensures ret.View() == Encode(matcherName, namespaces) && ret.Valid(E)
  {
    ret := new MatcherObject(MatchEqual, matcherName, "", None);
    ModifyMatcher(E, ret, namespaces);
  }

  method TranslateMatcher(E: Engine, namespaceSet: Set, srcMatcher: MatcherObject?)
    requires AreNamespaceNames(namespaceSet)
    requires srcMatcher != null ==> srcMatcher.Valid(E)
    modifies srcMatcher
    ensures srcMatcher != null ==>
              srcMatcher.Valid(E) && srcMatcher.View() == Translate(E, namespaceSet, old(srcMatcher.View()))
  {
    if namespaceSet == NilSet || srcMatcher == null {
      return;
    }
    var kind, value, re := srcMatcher.Type, srcMatcher.Value, srcMatcher.re;
    ghost var accepted := Accepted(E, namespaceSet.keys, srcMatcher.View());
    match kind {
      case MatchEqual =>
        if value !in namespaceSet.keys {
          srcMatcher.Value := NONE_NAMESPACE;
        }
      case MatchNotEqual =>
        var namespaces := Values(namespaceSet);
        IgnoringCommutesWithValues(namespaceSet.keys, value);
        assert accepted == namespaceSet.keys - {value};
        if value in namespaceSet.keys {
          namespaces := StringSliceIgnore(namespaces, value);
        } else {
          assert accepted == namespaceSet.keys;
        }
        ModifyMatcher(E, srcMatcher, namespaces);
      case MatchRegexp =>
        var namespaces := Values(namespaceSet);
        var matches := n => MatchesFields(E, kind, value, re, n);
        FilteringCommutesWithValues(namespaceSet.keys, matches);
        assert accepted == set n | n in namespaceSet.keys && matches(n);
        namespaces := StringSliceFilter(namespaces, matches);
        ModifyMatcher(E, srcMatcher, namespaces);
      case MatchNotRegexp =>
        var namespaces := Values(namespaceSet);
        var matches := n => MatchesFields(E, kind, value, re, n);
        FilteringCommutesWithValues(namespaceSet.keys, matches);
        assert accepted == set n | n in namespaceSet.keys && matches(n);
        namespaces := StringSliceFilter(namespaces, matches);
        ModifyMatcher(E, srcMatcher, namespaces);
      case MatchInvalid(_) =>
    }
  }

  function Views(ms: seq<MatcherObject>): (r: seq<Matcher>)
    reads ms
    ensures |r| == |ms|
    ensures forall i | 0 <= i < |ms| :: r[i] == ms[i].View()
  {
    seq(|ms|, i requires 0 <= i < |ms| reads ms => ms[i].View())
  }

  /** Objects as the library builds them. */
  ghost predicate AreCompiled(E: Engine, ms: seq<MatcherObject>)
    reads ms
  {
    forall m | m in ms :: m.Valid(E)
  }

  /** The same, pairwise distinct. */
  ghost predicate AreGood(E: Engine, ms: seq<MatcherObject>)
    reads ms
  {
    AreCompiled(E, ms) && AreDistinct(ms)
  }

  lemma AppendedIsGood(E: Engine, ms: seq<MatcherObject>, m: MatcherObject)
    requires AreCompiled(E, ms) && m.Valid(E) && m !in ms
    ensures AreCompiled(E, ms + [m])
    ensures AreDistinct(ms) ==> AreDistinct(ms + [m])
    ensures Views(ms + [m]) == Views(ms) + [m.View()]
  {
  }

  /** Translating one of the matchers shows wherever the same object stands. */
  method TranslateAt(E: Engine, namespaceSet: Set, srcMatchers: seq<MatcherObject>, i: nat)
    requires AreNamespaceNames(namespaceSet) && AreCompiled(E, srcMatchers)
    requires i < |srcMatchers| && i == FirstNamespace(Views(srcMatchers))
    modifies srcMatchers[i]
    ensures AreCompiled(E, srcMatchers)
    ensures IsOverwritten(E, namespaceSet, srcMatchers, old(Views(srcMatchers)), Views(srcMatchers))
  {
    TranslateMatcher(E, namespaceSet, srcMatchers[i]);
  }

  /**
   * The first namespace matcher is updated in place; without one, a fresh matcher is
   * appended. On distinct objects that is `FilterMatchers` on their values.
   */
  method FilterMatchers(E: Engine, namespaceSet: Set, srcMatchers: seq<MatcherObject>) returns (r: seq<MatcherObject>)
    requires AreNamespaceNames(namespaceSet) && AreCompiled(E, srcMatchers)
    modifies srcMatchers
    ensures AreCompiled(E, r)
    ensures IsOverwritten(E, namespaceSet, srcMatchers, old(Views(srcMatchers)), Views(r))
    ensures AreDistinct(srcMatchers) ==>
              AreDistinct(r) && Views(r) == Matchers.FilterMatchers(E, namespaceSet, old(Views(srcMatchers)))
    ensures r == srcMatchers || (|r| == |srcMatchers| + 1 && r[..|srcMatchers|] == srcMatchers && fresh(r[|srcMatchers|]))
    ensures var first := FirstNamespace(old(Views(srcMatchers)));
            forall m | m in srcMatchers && (first < |srcMatchers| ==> m != srcMatchers[first]) :: unchanged(m)
  {
    ghost var before := Views(srcMatchers);
    ghost var first := FirstNamespace(before);
    for i := 0 to |srcMatchers|
      invariant unchanged(srcMatchers)
      invariant i <= first
    {
      var m := srcMatchers[i];
      if m.Name == NAMESPACE {
        assert i == first;
        TranslateAt(E, namespaceSet, srcMatchers, i);
        r := srcMatchers;
        if AreDistinct(srcMatchers) {
          DistinctIsFiltered(E, namespaceSet, srcMatchers, before, Views(r));
        }
        return;
      }
    }
    var namespaces := Values(namespaceSet);
    ValuesOfNames(namespaceSet.Keys());
    var created := CreateMatcher(E, NAMESPACE, namespaces);
    assert Views(srcMatchers) == before;
    AppendedIsGood(E, srcMatchers, created);
    r := srcMatchers + [created];
    FilteringFrame(E, namespaceSet, before);
  }
}
