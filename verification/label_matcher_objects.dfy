/**
 * The matchers and queries of the remote-read protocol as allocated objects, and
 * the code that updates and converts them.
 */
module LabelMatcherObjects {
  import opened Wrappers
  import opened Data
  import opened Matchers
  import opened LabelMatchers
  import opened MatcherObjects
  import opened Sharing
  import Storage

  class LabelMatcherObject {
    var Type: LabelType
    var Name: string
    var Value: string

    constructor (kind: LabelType, name: string, value: string)
      ensures View() == LabelMatcher(kind, name, value)
    {
      Type, Name, Value := kind, name, value;
    }

    function View(): LabelMatcher
      reads this
    {
      LabelMatcher(Type, Name, Value)
    }
  }

  method ModifyLabelMatcher(srcMatcher: LabelMatcherObject, namespaces: seq<string>)
    modifies srcMatcher
    ensures srcMatcher.View() == EncodeLabel(old(srcMatcher.Name), namespaces)
  {
    var size := |namespaces|;
    if size == 0 {
      srcMatcher.Type := EQ;
      srcMatcher.Value := NONE_NAMESPACE;
    } else if size == 1 {
      srcMatcher.Type := EQ;
      srcMatcher.Value := namespaces[0];
    } else {
      srcMatcher.Type := RE;
      srcMatcher.Value := Strings.Join(namespaces);
    }
  }

  method CreateLabelMatcher(matcherName: string, namespaces: seq<string>) returns (ret: LabelMatcherObject)
    ensures fresh(ret) && ret.View() == EncodeLabel(matcherName, namespaces)
  {
    ret := new LabelMatcherObject(EQ, matcherName, "");
    ModifyLabelMatcher(ret, namespaces);
  }

  method TranslateLabelMatcher(E: Engine, namespaceSet: Set, srcMatcher: LabelMatcherObject?)
    modifies srcMatcher
    ensures srcMatcher != null ==> srcMatcher.View() == TranslateLabel(E, namespaceSet, old(srcMatcher.View()))
  {
    if namespaceSet == NilSet || srcMatcher == null {
      return;
    }
    var value := srcMatcher.Value;
    ghost var keys := namespaceSet.keys;
    match srcMatcher.Type {
      case EQ =>
        if value !in namespaceSet.keys {
          srcMatcher.Value := NONE_NAMESPACE;
        }
      case NEQ =>
        var namespaces := Values(namespaceSet);
        IgnoringCommutesWithValues(keys, value);
        assert keys - {value} == set n | n in keys && n != value;
        if value in namespaceSet.keys {
          namespaces := StringSliceIgnore(namespaces, value);
        } else {
          assert keys - {value} == keys;
        }
        ModifyLabelMatcher(srcMatcher, namespaces);
      case RE =>
        if E.Compiles(value) {
          var namespaces := Values(namespaceSet);
          var matches := n => E.Accepts(value, n);
          FilteringCommutesWithValues(keys, matches);
          assert (set n | n in keys && matches(n)) == set n | n in keys && E.Accepts(value, n);
          namespaces := StringSliceFilter(namespaces, matches);
          ModifyLabelMatcher(srcMatcher, namespaces);
        }
      case NRE =>
        if E.Compiles(value) {
          var namespaces := Values(namespaceSet);
          var matches := n => !E.Accepts(value, n);
          FilteringCommutesWithValues(keys, matches);
          assert (set n | n in keys && matches(n)) == set n | n in keys && !E.Accepts(value, n);
          namespaces := StringSliceFilter(namespaces, matches);
          ModifyLabelMatcher(srcMatcher, namespaces);
        }
      case UNRECOGNIZED(_) =>
    }
  }

  function LabelViews(ms: seq<LabelMatcherObject>): (r: seq<LabelMatcher>)
    reads ms
    ensures |r| == |ms|
    ensures forall i | 0 <= i < |ms| :: r[i] == ms[i].View()
  {
    seq(|ms|, i requires 0 <= i < |ms| reads ms => ms[i].View())
  }

  lemma AppendedIsDistinct(ms: seq<LabelMatcherObject>, m: LabelMatcherObject)
    requires m !in ms
    ensures AreDistinct(ms) ==> AreDistinct(ms + [m])
    ensures LabelViews(ms + [m]) == LabelViews(ms) + [m.View()]
  {
  }

  /** Translating one of the matchers shows wherever the same object stands. */
  method TranslateLabelAt(E: Engine, namespaceSet: Set, srcMatchers: seq<LabelMatcherObject>, i: nat)
    requires i < |srcMatchers| && i == FirstNamespaceLabel(LabelViews(srcMatchers))
    modifies srcMatchers[i]
    ensures IsOverwrittenLabels(E, namespaceSet, srcMatchers, old(LabelViews(srcMatchers)), LabelViews(srcMatchers))
  {
    TranslateLabelMatcher(E, namespaceSet, srcMatchers[i]);
  }

  /**
   * The first namespace matcher is updated in place; without one, a fresh matcher is
   * appended. On distinct objects that is `FilterLabelMatchers` on their values.
   */
  method FilterLabelMatchers(E: Engine, namespaceSet: Set, srcMatchers: seq<LabelMatcherObject>)
    returns (r: seq<LabelMatcherObject>)
    modifies srcMatchers
    ensures IsOverwrittenLabels(E, namespaceSet, srcMatchers, old(LabelViews(srcMatchers)), LabelViews(r))
    ensures AreDistinct(srcMatchers) ==>
              AreDistinct(r)
              && LabelViews(r) == LabelMatchers.FilterLabelMatchers(E, namespaceSet, old(LabelViews(srcMatchers)))
    ensures r == srcMatchers || (|r| == |srcMatchers| + 1 && r[..|srcMatchers|] == srcMatchers && fresh(r[|srcMatchers|]))
    ensures var first := FirstNamespaceLabel(old(LabelViews(srcMatchers)));
            forall m | m in srcMatchers && (first < |srcMatchers| ==> m != srcMatchers[first]) :: unchanged(m)
  {
    ghost var before := LabelViews(srcMatchers);
    ghost var first := FirstNamespaceLabel(before);
    for i := 0 to |srcMatchers|
      invariant unchanged(srcMatchers)
      invariant i <= first
    {
      var m := srcMatchers[i];
      if m.Name == NAMESPACE {
        assert i == first;
        TranslateLabelAt(E, namespaceSet, srcMatchers, i);
        r := srcMatchers;
        if AreDistinct(srcMatchers) {
          DistinctIsFilteredLabels(E, namespaceSet, srcMatchers, before, LabelViews(r));
        }
        return;
      }
    }
    var namespaces := Values(namespaceSet);
    var created := CreateLabelMatcher(NAMESPACE, namespaces);
    assert LabelViews(srcMatchers) == before;
    AppendedIsDistinct(srcMatchers, created);
    r := srcMatchers + [created];
    LabelFilteringFrame(E, namespaceSet, before);
  }

  // ------------------------------------------------------------- converters

  lemma {:induction false} ToLabelMatchersAppend(ms: seq<Matcher>, m: Matcher)
    ensures ToLabelMatchers(ms + [m])
            == match ToLabelMatchers(ms)
               case Err(e) => Err(e)
               case Ok(converted) =>
                 match ToLabel(m)
                 case Err(e) => Err(e)
                 case Ok(last) => Ok(converted + [last])
  {
    if ms == [] {
      assert ms + [m] == [m] && [m][1..] == [];
      assert ToLabel(m).Ok? ==> [ToLabel(m).value] + [] == [] + [ToLabel(m).value];
    } else {
      assert (ms + [m])[1..] == ms[1..] + [m];
      ToLabelMatchersAppend(ms[1..], m);
      if ToLabelMatchers(ms).Ok? && ToLabel(m).Ok? {
        var rest, head, last := ToLabelMatchers(ms[1..]).value, ToLabel(ms[0]).value, ToLabel(m).value;
        assert ([head] + rest) + [last] == [head] + (rest + [last]);
      }
    }
  }

  lemma {:induction false} FromLabelMatchersAppend(E: Engine, ms: seq<LabelMatcher>, m: LabelMatcher)
    ensures FromLabelMatchers(E, ms + [m])
            == match FromLabelMatchers(E, ms)
               case Err(e) => Err(e)
               case Ok(converted) =>
                 match FromLabel(E, m)
                 case Err(e) => Err(e)
                 case Ok(last) => Ok(converted + [last])
  {
    if ms == [] {
      assert ms + [m] == [m] && [m][1..] == [];
      assert FromLabel(E, m).Ok? ==> [FromLabel(E, m).value] + [] == [] + [FromLabel(E, m).value];
    } else {
      assert (ms + [m])[1..] == ms[1..] + [m];
      FromLabelMatchersAppend(E, ms[1..], m);
      if FromLabelMatchers(E, ms).Ok? && FromLabel(E, m).Ok? {
        var rest, head, last := FromLabelMatchers(E, ms[1..]).value, FromLabel(E, ms[0]).value, FromLabel(E, m).value;
        assert ([head] + rest) + [last] == [head] + (rest + [last]);
      }
    }
  }

  lemma PrefixErrorWins(E: Engine, ms: seq<LabelMatcher>, k: nat)
    requires k <= |ms| && FromLabelMatchers(E, ms[..k]).Err?
    ensures FromLabelMatchers(E, ms) == FromLabelMatchers(E, ms[..k])
  {
    FirstErrorWins(E, ms[..k], ms[k..]);
    assert ms[..k] + ms[k..] == ms;
  }

  lemma {:induction false} FirstErrorWins(E: Engine, ms: seq<LabelMatcher>, rest: seq<LabelMatcher>)
    requires FromLabelMatchers(E, ms).Err?
    ensures FromLabelMatchers(E, ms + rest) == FromLabelMatchers(E, ms)
  {
    assert (ms + rest)[1..] == ms[1..] + rest;
    if FromLabel(E, ms[0]).Ok? {
      FirstErrorWins(E, ms[1..], rest);
    }
  }

  lemma PrefixInvalidTypeWins(ms: seq<Matcher>, k: nat)
    requires k <= |ms| && ToLabelMatchers(ms[..k]).Err?
    ensures ToLabelMatchers(ms) == ToLabelMatchers(ms[..k])
  {
    FirstInvalidTypeWins(ms[..k], ms[k..]);
    assert ms[..k] + ms[k..] == ms;
  }

  lemma {:induction false} FirstInvalidTypeWins(ms: seq<Matcher>, rest: seq<Matcher>)
    requires ToLabelMatchers(ms).Err?
    ensures ToLabelMatchers(ms + rest) == ToLabelMatchers(ms)
  {
    assert (ms + rest)[1..] == ms[1..] + rest;
    if ToLabel(ms[0]).Ok? {
      FirstInvalidTypeWins(ms[1..], rest);
    }
  }

  method ToLabelMatcherObjects(matchers: seq<MatcherObject>) returns (r: Conversion<seq<LabelMatcherObject>>)
    ensures r.Err? ==> ToLabelMatchers(Views(matchers)) == Err(r.error)
    ensures r.Ok? ==> ToLabelMatchers(Views(matchers)) == Ok(LabelViews(r.value))
    ensures r.Ok? ==> AreDistinct(r.value) && forall m | m in r.value :: fresh(m)
  {
    var pbMatchers: seq<LabelMatcherObject> := [];
    ghost var views := Views(matchers);
    for i := 0 to |matchers|
      invariant Views(matchers) == views
      invariant ToLabelMatchers(views[..i]) == Ok(LabelViews(pbMatchers))
      invariant AreDistinct(pbMatchers) && forall m | m in pbMatchers :: fresh(m)
    {
      var m := matchers[i];
      ToLabelMatchersAppend(views[..i], views[i]);
      assert views[..i + 1] == views[..i] + [views[i]];
      var mType;
      match m.Type {
        case MatchEqual => mType := EQ;
        case MatchNotEqual => mType := NEQ;
        case MatchRegexp => mType := RE;
        case MatchNotRegexp => mType := NRE;
        case MatchInvalid(_) =>
          PrefixInvalidTypeWins(views, i + 1);
          return Err(InvalidMatcherType);
      }
      var pbMatcher := new LabelMatcherObject(mType, m.Name, m.Value);
      AppendedIsDistinct(pbMatchers, pbMatcher);
      pbMatchers := pbMatchers + [pbMatcher];
    }
    assert views[..|matchers|] == views;
    r := Ok(pbMatchers);
  }

  method FromLabelMatcherObjects(E: Engine, matchers: seq<LabelMatcherObject>) returns (r: Conversion<seq<MatcherObject>>)
    ensures r.Err? ==> FromLabelMatchers(E, LabelViews(matchers)) == Err(r.error)
    ensures r.Ok? ==> FromLabelMatchers(E, LabelViews(matchers)) == Ok(Views(r.value))
    ensures r.Ok? ==> AreGood(E, r.value) && forall m | m in r.value :: fresh(m)
  {
    var result: seq<MatcherObject> := [];
    ghost var views := LabelViews(matchers);
    for i := 0 to |matchers|
      invariant LabelViews(matchers) == views
      invariant FromLabelMatchers(E, views[..i]) == Ok(Views(result))
      invariant AreGood(E, result) && forall m | m in result :: fresh(m)
    {
      var matcher := matchers[i];
      FromLabelMatchersAppend(E, views[..i], views[i]);
      assert views[..i + 1] == views[..i] + [views[i]];
      var mtype;
      match matcher.Type {
        case EQ => mtype := MatchEqual;
        case NEQ => mtype := MatchNotEqual;
        case RE => mtype := MatchRegexp;
        case NRE => mtype := MatchNotRegexp;
        case UNRECOGNIZED(_) =>
          PrefixErrorWins(E, views, i + 1);
          return Err(InvalidMatcherType);
      }
      var created := NewMatcher(E, mtype, matcher.Name, matcher.Value);
      if created.Err? {
        PrefixErrorWins(E, views, i + 1);
        return Err(created.error);
      }
      AppendedIsGood(E, result, created.value);
      result := result + [created.value];
    }
    assert views[..|matchers|] == views;
    r := Ok(result);
  }

  // ---------------------------------------------------------------- queries

  /** `prompb.Query` */
  class Query {
    const StartTimestampMs: int
    const EndTimestampMs: int
    var Matchers: seq<LabelMatcherObject>

    constructor (start: int, end: int, matchers: seq<LabelMatcherObject>)
      ensures StartTimestampMs == start && EndTimestampMs == end && Matchers == matchers
    {
      StartTimestampMs, EndTimestampMs, Matchers := start, end, matchers;
    }
  }

  /** The loop of `modifyQuery`: the same objects, without those whose name is a reader label. */
  method DropReaderLabels(rawMatchers: seq<LabelMatcherObject>, filterReaderLabelSet: Set)
    returns (filteredMatchers: seq<LabelMatcherObject>)
    ensures AreDistinct(rawMatchers) ==> AreDistinct(filteredMatchers)
    ensures LabelViews(filteredMatchers) == Storage.DropLabels(LabelViews(rawMatchers), filterReaderLabelSet.Keys())
    ensures forall m | m in filteredMatchers :: m in rawMatchers && m.Name !in filterReaderLabelSet.Keys()
  {
    var views := LabelViews(rawMatchers);
    filteredMatchers := [];
    for i := 0 to |rawMatchers|
      invariant LabelViews(filteredMatchers) == Storage.DropLabels(views[..i], filterReaderLabelSet.Keys())
      invariant forall m | m in filteredMatchers :: m in rawMatchers[..i] && m.Name !in filterReaderLabelSet.Keys()
      invariant AreDistinct(rawMatchers) ==> AreDistinct(filteredMatchers)
    {
      var rawMatcher := rawMatchers[i];
      Storage.DropLabelsAppend(views[..i], views[i], filterReaderLabelSet.Keys());
      assert views[..i + 1] == views[..i] + [views[i]];
      if rawMatcher.Name !in filterReaderLabelSet.Keys() {
        assert LabelViews(filteredMatchers + [rawMatcher]) == LabelViews(filteredMatchers) + [views[i]];
        filteredMatchers := filteredMatchers + [rawMatcher];
      }
    }
    assert views[..|rawMatchers|] == views;
  }

  /** The matchers `modifyQuery` stores; `kept` are the objects that were left by the loop. */
  method ModifiedMatchers(
    E: Engine, rawMatchers: seq<LabelMatcherObject>, namespaceSet: Set, filterReaderLabelSet: Set)
    returns (r: seq<LabelMatcherObject>, ghost kept: seq<LabelMatcherObject>)
    modifies rawMatchers
    ensures var before := Storage.DropLabels(old(LabelViews(rawMatchers)), filterReaderLabelSet.Keys());
            && |kept| == |before| && IsOneObjectOneValue(kept, before)
            && IsOverwrittenLabels(E, namespaceSet, kept, before, LabelViews(r))
    ensures AreDistinct(rawMatchers) ==> AreDistinct(kept)
    ensures forall m | m in rawMatchers && old(m.Name) in filterReaderLabelSet.Keys() :: unchanged(m)
  {
    ghost var dropped := set m | m in rawMatchers && m.Name in filterReaderLabelSet.Keys();
    var filteredMatchers := DropReaderLabels(rawMatchers, filterReaderLabelSet);
    kept := filteredMatchers;
    assert forall m | m in dropped :: m !in filteredMatchers;
    r := FilterLabelMatchers(E, namespaceSet, filteredMatchers);
    assert unchanged(dropped);
  }

  /** `modifyQuery` in `pkg/agent/http_hijack.go`: drops the reader labels, then filters what is left, in place. */
  method ModifyQuery(E: Engine, originalQuery: Query, namespaceSet: Set, filterReaderLabelSet: Set)
    returns (modifiedQuery: Query, ghost kept: seq<LabelMatcherObject>)
    modifies originalQuery, originalQuery.Matchers
    ensures modifiedQuery == originalQuery
    ensures var before := Storage.DropLabels(old(LabelViews(originalQuery.Matchers)), filterReaderLabelSet.Keys());
            && |kept| == |before| && IsOneObjectOneValue(kept, before)
            && IsOverwrittenLabels(E, namespaceSet, kept, before, LabelViews(originalQuery.Matchers))
    ensures AreDistinct(old(originalQuery.Matchers)) ==>
              LabelViews(originalQuery.Matchers)
              == Storage.ModifiedMatchers(E, namespaceSet, filterReaderLabelSet, old(LabelViews(originalQuery.Matchers)))
    ensures forall m | m in old(originalQuery.Matchers) && old(m.Name) in filterReaderLabelSet.Keys() :: unchanged(m)
  {
    ghost var before := Storage.DropLabels(LabelViews(originalQuery.Matchers), filterReaderLabelSet.Keys());
    var filtered;
    filtered, kept := ModifiedMatchers(E, originalQuery.Matchers, namespaceSet, filterReaderLabelSet);
    ghost var after := LabelViews(filtered);
    if AreDistinct(kept) {
      DistinctIsFilteredLabels(E, namespaceSet, kept, before, after);
    }
    originalQuery.Matchers := filtered;
    assert LabelViews(filtered) == after;
    modifiedQuery := originalQuery;
  }
}
