/**
 * Lists in which one matcher object may occur more than once. Updating the first
 * namespace matcher in place then shows at every place that holds the same object.
 */
module Sharing {
  import opened Wrappers
  import opened Data
  import opened Matchers
  import opened LabelMatchers
  import opened Storage

  /** The list after filtering in place: `objects` are the objects behind the list `before`. */
  ghost predicate IsOverwritten<O>(E: Engine, ns: Set, objects: seq<O>, before: seq<Matcher>, after: seq<Matcher>)
    requires |objects| == |before|
  {
    var i := FirstNamespace(before);
    if i == |before| then after == before + [Encode(NAMESPACE, ValuesOf(ns.Keys()))]
    else
      && |after| == |before|
      && forall j | 0 <= j < |before| ::
           after[j] == if objects[j] == objects[i] then Translate(E, ns, before[i]) else before[j]
  }

  /** The same on protocol matchers. */
  ghost predicate IsOverwrittenLabels<O>(
    E: Engine, ns: Set, objects: seq<O>, before: seq<LabelMatcher>, after: seq<LabelMatcher>)
    requires |objects| == |before|
  {
    var i := FirstNamespaceLabel(before);
    if i == |before| then after == before + [EncodeLabel(NAMESPACE, ValuesOf(ns.Keys()))]
    else
      && |after| == |before|
      && forall j | 0 <= j < |before| ::
           after[j] == if objects[j] == objects[i] then TranslateLabel(E, ns, before[i]) else before[j]
  }

  ghost predicate AreDistinct<O>(objects: seq<O>) {
    forall i, j | 0 <= i < j < |objects| :: objects[i] != objects[j]
  }

  /** Without repeated objects the update in place is `FilterMatchers`. */
  lemma DistinctIsFiltered<O>(E: Engine, ns: Set, objects: seq<O>, before: seq<Matcher>, after: seq<Matcher>)
    requires |objects| == |before| && AreDistinct(objects)
    requires IsOverwritten(E, ns, objects, before, after)
    ensures after == FilterMatchers(E, ns, before)
  {
    FilteringFrame(E, ns, before);
  }

  /** Without repeated objects the update in place is `FilterLabelMatchers`. */
  lemma DistinctIsFilteredLabels<O>(
    E: Engine, ns: Set, objects: seq<O>, before: seq<LabelMatcher>, after: seq<LabelMatcher>)
    requires |objects| == |before| && AreDistinct(objects)
    requires IsOverwrittenLabels(E, ns, objects, before, after)
    ensures after == FilterLabelMatchers(E, ns, before)
  {
    LabelFilteringFrame(E, ns, before);
  }

  ghost predicate IsOneObjectOneValue<O, V>(objects: seq<O>, values: seq<V>)
    requires |objects| == |values|
  {
    forall j, k | 0 <= j < |objects| && 0 <= k < |objects| && objects[j] == objects[k] :: values[j] == values[k]
  }

  /** Exactness holds with repeated objects too. */
  lemma OverwritingIsExact<O>(
    E: Engine, ns: Set, objects: seq<O>, before: seq<Matcher>, after: seq<Matcher>, s: Series)
    requires |objects| == |before| && IsOneObjectOneValue(objects, before)
    requires IsOverwritten(E, ns, objects, before, after)
    requires ns.MapSet? && AreNamespaceNames(ns) && AreValid(E, before)
    requires Label(s, NAMESPACE) != NONE_NAMESPACE
    ensures Satisfies(E, s, after) <==> Satisfies(E, s, before) && Label(s, NAMESPACE) in ns.keys
  {
    var i := FirstNamespace(before);
    FilteringIsExact(E, ns, before, s);
    FilteringFrame(E, ns, before);
    var filtered := FilterMatchers(E, ns, before);
    if i < |before| {
      assert filtered[i] == after[i] == Translate(E, ns, before[i]);
      TranslationIsExact(E, ns, before[i], Label(s, NAMESPACE));
      TranslationShape(E, ns, before[i]);
      if Satisfies(E, s, filtered) {
        forall m | m in after ensures Matches(E, m, Label(s, m.name)) {
          var j :| 0 <= j < |after| && after[j] == m;
          assert m in filtered by { assert filtered[j] in filtered && filtered[i] in filtered; }
        }
      }
      if Satisfies(E, s, after) {
        assert after[i] in after;
        forall m | m in filtered ensures Matches(E, m, Label(s, m.name)) {
          var j :| 0 <= j < |filtered| && filtered[j] == m;
          assert after[j] in after;
        }
      }
    }
  }

  lemma {:induction false} OverwrittenSelectionIsExact<O>(
    E: Engine, ns: Set, objects: seq<O>, before: seq<Matcher>, after: seq<Matcher>, db: Database)
    requires |objects| == |before| && IsOneObjectOneValue(objects, before)
    requires IsOverwritten(E, ns, objects, before, after)
    requires ns.MapSet? && AreNamespaceNames(ns) && AreValid(E, before)
    requires SentinelFree(db)
    ensures Select(E, db, after) == Select(E, Restrict(db, ns.keys), before)
  {
    if db != [] {
      OverwritingIsExact(E, ns, objects, before, after, db[0]);
      OverwrittenSelectionIsExact(E, ns, objects, before, after, db[1..]);
      if Label(db[0], NAMESPACE) in ns.keys {
        assert Restrict(db, ns.keys)[1..] == Restrict(db[1..], ns.keys);
      }
    }
  }

  // -------------------------------------------------------- protocol matchers

  /** A conversion that succeeds converts every matcher in its place. */
  lemma {:induction false} ConvertedInPlace(E: Engine, ms: seq<LabelMatcher>)
    requires FromLabelMatchers(E, ms).Ok?
    ensures |FromLabelMatchers(E, ms).value| == |ms|
    ensures forall j | 0 <= j < |ms| :: FromLabel(E, ms[j]) == Ok(FromLabelMatchers(E, ms).value[j])
  {
    if ms != [] {
      ConvertedInPlace(E, ms[1..]);
    }
  }

  /** Lists that fail to convert in the same places fail with the same error. */
  lemma {:induction false} SameFailures(E: Engine, ms: seq<LabelMatcher>, ms': seq<LabelMatcher>)
    requires |ms| == |ms'|
    requires forall j | 0 <= j < |ms| ::
               FromLabel(E, ms[j]) == FromLabel(E, ms'[j]) || (FromLabel(E, ms[j]).Ok? && FromLabel(E, ms'[j]).Ok?)
    ensures FromLabelMatchers(E, ms).Ok? <==> FromLabelMatchers(E, ms').Ok?
    ensures FromLabelMatchers(E, ms).Err? ==> FromLabelMatchers(E, ms') == FromLabelMatchers(E, ms)
  {
    if ms != [] {
      SameFailures(E, ms[1..], ms'[1..]);
    }
  }

  lemma ConvertedFirst(E: Engine, ms: seq<LabelMatcher>)
    requires FromLabelMatchers(E, ms).Ok?
    ensures |FromLabelMatchers(E, ms).value| == |ms|
    ensures FirstNamespace(FromLabelMatchers(E, ms).value) == FirstNamespaceLabel(ms)
  {
    ConvertedInPlace(E, ms);
    var converted := FromLabelMatchers(E, ms).value;
    assert forall j | 0 <= j < |ms| :: converted[j].name == ms[j].name;
  }

  /** The update in place commutes with conversion, errors included. */
  lemma OverwritingCommutesWithConversion<O>(
    E: Engine, ns: Set, objects: seq<O>, before: seq<LabelMatcher>, after: seq<LabelMatcher>)
    requires |objects| == |before| && IsOneObjectOneValue(objects, before)
    requires IsOverwrittenLabels(E, ns, objects, before, after) && AreNamespaceNames(ns)
    ensures match FromLabelMatchers(E, before)
            case Err(e) => FromLabelMatchers(E, after) == Err(e)
            case Ok(converted) =>
              && FromLabelMatchers(E, after).Ok? && |converted| == |objects|
              && IsOverwritten(E, ns, objects, converted, FromLabelMatchers(E, after).value)
  {
    var i := FirstNamespaceLabel(before);
    if i == |before| {
      LabelFilteringFrame(E, ns, before);
      FiltersAgree(E, ns, before);
      if FromLabelMatchers(E, before).Ok? {
        ConvertedFirst(E, before);
        FilteringFrame(E, ns, FromLabelMatchers(E, before).value);
      }
    } else {
      TranslationsAgree(E, ns, before[i]);
      SameFailures(E, before, after);
      if FromLabelMatchers(E, before).Ok? {
        ConvertedFirst(E, before);
        ConvertedInPlace(E, before);
        ConvertedInPlace(E, after);
      }
    }
  }

  /** A remote read whose matcher objects repeat is exact as well, errors included. */
  lemma OverwrittenReadIsExact<O>(
    E: Engine, ns: Set, objects: seq<O>, before: seq<LabelMatcher>, after: seq<LabelMatcher>, db: Database)
    requires |objects| == |before| && IsOneObjectOneValue(objects, before)
    requires IsOverwrittenLabels(E, ns, objects, before, after)
    requires ns.MapSet? && AreNamespaceNames(ns) && SentinelFree(db)
    ensures ReadSelect(E, db, after) == ReadSelect(E, Restrict(db, ns.keys), before)
  {
    OverwritingCommutesWithConversion(E, ns, objects, before, after);
    if FromLabelMatchers(E, before).Ok? {
      FromThenTo(E, before);
      ConvertedInPlace(E, before);
      var converted := FromLabelMatchers(E, before).value;
      OverwrittenSelectionIsExact(E, ns, objects, converted, FromLabelMatchers(E, after).value, db);
    }
  }
}
