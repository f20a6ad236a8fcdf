/**
 * The labels Prometheus gives to the result of `absent` and `absent_over_time`
 * (`createLabelsForAbsentFunction` of its function library), and when rewriting
 * the matchers they are read from keeps them.
 */
module Absent {
  import opened Strings
  import opened Data
  import opened Matchers

  /** The labels collected so far, and the names that are to be deleted in the end. */
  datatype Draft = Draft(labels: map<string, string>, dropped: set<string>)

  /** Setting a label to the empty string leaves it out; a second matcher on a name deletes it. */
  function AddMatcher(d: Draft, m: Matcher): Draft {
    if m.name == METRIC_NAME then d
    else if m.kind.MatchEqual? && m.name !in d.labels then
      if m.value == "" then d else d.(labels := d.labels[m.name := m.value])
    else d.(dropped := d.dropped + {m.name})
  }

  function AddMatchers(d: Draft, ms: seq<Matcher>): Draft
    decreases ms
  {
    if ms == [] then d else AddMatchers(AddMatcher(d, ms[0]), ms[1..])
  }

  /** `createLabelsForAbsentFunction` on the matchers of a selector. */
  function AbsentLabels(ms: seq<Matcher>): map<string, string> {
    var d := AddMatchers(Draft(map[], {}), ms);
    d.labels - d.dropped
  }

  /** The matchers on one label, in order. */
  function On(ms: seq<Matcher>, name: string): (r: seq<Matcher>)
    ensures forall m | m in r :: m in ms && m.name == name
  {
    if ms == [] then []
    else if ms[0].name == name then [ms[0]] + On(ms[1..], name)
    else On(ms[1..], name)
  }

  /** The matchers on a label fix its value: any number of `=""` and then one `="v"`, with `v` not empty. */
  predicate Pins(on: seq<Matcher>) {
    && on != []
    && on[0].kind.MatchEqual?
    && if on[0].value == "" then Pins(on[1..]) else |on| == 1
  }

  function Last(on: seq<Matcher>): Matcher
    requires on != []
  {
    on[|on| - 1]
  }

  lemma {:induction false} DroppedStaysDropped(d: Draft, ms: seq<Matcher>, name: string)
    requires name in d.dropped
    ensures name in AddMatchers(d, ms).dropped
    decreases ms
  {
    if ms != [] {
      DroppedStaysDropped(AddMatcher(d, ms[0]), ms[1..], name);
    }
  }

  /** A label that is set is kept until another matcher on it comes. */
  lemma {:induction false} SetUntilRepeated(d: Draft, ms: seq<Matcher>, name: string)
    requires name != METRIC_NAME && name in d.labels && name !in d.dropped
    ensures var r := AddMatchers(d, ms);
            if On(ms, name) == [] then name in r.labels && r.labels[name] == d.labels[name] && name !in r.dropped
            else name in r.dropped
    decreases ms
  {
    if ms != [] {
      var next := AddMatcher(d, ms[0]);
      if ms[0].name == name {
        DroppedStaysDropped(next, ms[1..], name);
      } else {
        SetUntilRepeated(next, ms[1..], name);
      }
    }
  }

  lemma {:induction false} DraftedLabel(d: Draft, ms: seq<Matcher>, name: string)
    requires name != METRIC_NAME && name !in d.labels && name !in d.dropped
    ensures var r := AddMatchers(d, ms); var on := On(ms, name);
            && (name in r.labels && name !in r.dropped <==> Pins(on))
            && (Pins(on) ==> r.labels[name] == Last(on).value)
    decreases ms
  {
    if ms != [] {
      var next := AddMatcher(d, ms[0]);
      if ms[0].name != name {
        DraftedLabel(next, ms[1..], name);
      } else {
        assert On(ms, name)[1..] == On(ms[1..], name);
        if !ms[0].kind.MatchEqual? {
          DroppedStaysDropped(next, ms[1..], name);
        } else if ms[0].value == "" {
          DraftedLabel(next, ms[1..], name);
        } else {
          SetUntilRepeated(next, ms[1..], name);
        }
      }
    }
  }

  /** The metric name is never carried over. */
  lemma {:induction false} NoMetricName(d: Draft, ms: seq<Matcher>)
    requires METRIC_NAME !in d.labels
    ensures METRIC_NAME !in AddMatchers(d, ms).labels
    decreases ms
  {
    if ms != [] {
      NoMetricName(AddMatcher(d, ms[0]), ms[1..]);
    }
  }

  /** A label is in the result exactly when the matchers on it fix its value, and then with that value. */
  lemma LabelsArePinned(ms: seq<Matcher>, name: string)
    ensures name in AbsentLabels(ms) <==> name != METRIC_NAME && Pins(On(ms, name))
    ensures name in AbsentLabels(ms) ==> AbsentLabels(ms)[name] == Last(On(ms, name)).value
  {
    if name == METRIC_NAME {
      NoMetricName(Draft(map[], {}), ms);
    } else {
      DraftedLabel(Draft(map[], {}), ms, name);
    }
  }

  /** Selectors whose matchers agree, label by label, have the same labels. */
  lemma SamePinsSameLabels(ms: seq<Matcher>, ms': seq<Matcher>)
    requires forall name | name != METRIC_NAME ::
               && Pins(On(ms, name)) == Pins(On(ms', name))
               && (Pins(On(ms, name)) ==> Last(On(ms, name)).value == Last(On(ms', name)).value)
    ensures AbsentLabels(ms) == AbsentLabels(ms')
  {
    forall name
      ensures name in AbsentLabels(ms) <==> name in AbsentLabels(ms')
      ensures name in AbsentLabels(ms) ==> AbsentLabels(ms)[name] == AbsentLabels(ms')[name]
    {
      LabelsArePinned(ms, name);
      LabelsArePinned(ms', name);
    }
  }

  // -------------------------------------------------------------- rewriting

  /** Rewriting touches the first matcher on `namespace`, or adds one. */
  lemma {:induction false} OnFiltered(E: Engine, ns: Set, ms: seq<Matcher>, name: string)
    ensures var on := On(ms, name); var r := On(FilterMatchers(E, ns, ms), name);
            if name != NAMESPACE then r == on
            else if on == [] then r == [Encode(NAMESPACE, ValuesOf(ns.Keys()))]
            else r == [Translate(E, ns, on[0])] + on[1..]
  {
    var filtered := FilterMatchers(E, ns, ms);
    if ms == [] {
      assert filtered[1..] == [];
    } else if ms[0].name == NAMESPACE {
      assert filtered[1..] == ms[1..];
      assert filtered[0].name == NAMESPACE;
      if name == NAMESPACE {
        assert On(ms, name)[1..] == On(ms[1..], name);
      }
    } else {
      OnFiltered(E, ns, ms[1..], name);
      assert filtered[1..] == FilterMatchers(E, ns, ms[1..]);
    }
  }

  /**
   * The selectors whose labels rewriting keeps, by their namespace matchers: none, and
   * the caller has two namespaces at least; one, which is `=` with a value the caller
   * owns or the sentinel, or of another kind and accepts two of the caller's namespaces
   * at least; or several, which do not fix a value.
   */
  ghost predicate KeepsAbsentLabels(E: Engine, keys: set<string>, ms: seq<Matcher>) {
    var on := On(ms, NAMESPACE);
    if |on| == 0 then |keys| > 1
    else if |on| > 1 then !Pins(on)
    else if on[0].kind.MatchEqual? then on[0].value in keys || on[0].value == NONE_NAMESPACE
    else |Accepted(E, keys, on[0])| > 1
  }

  /** What is written for a set of names fixes the label exactly when the set has one member at most. */
  lemma EncodedPins(keys: set<string>)
    requires AreNamespaceNames(MapSet(keys))
    ensures Pins([Encode(NAMESPACE, ValuesOf(keys))]) <==> |keys| <= 1
  {
    assert forall n | n in keys :: n in MapSet(keys).Keys();
    ValuesOfNames(keys);
    assert "" !in keys;
    IncreasingListsHaveNoRepeats(ValuesOf(keys));
  }

  /** A translated matcher followed by others never fixes the label; alone it does when it accepts one namespace at most. */
  lemma TranslatedPins(E: Engine, keys: set<string>, m: Matcher, rest: seq<Matcher>)
    requires AreNamespaceNames(MapSet(keys)) && IsValid(E, m) && m.name == NAMESPACE
    ensures var t := Translate(E, MapSet(keys), m);
            && (rest != [] ==> !Pins([t] + rest))
            && (m.kind.MatchEqual? ==>
                  Pins([t]) && t.value == if m.value in keys then m.value else NONE_NAMESPACE)
            && (!m.kind.MatchEqual? ==> (Pins([t]) <==> |Accepted(E, keys, m)| <= 1))
  {
    if m.kind.MatchEqual? {
      assert m.value in keys ==> m.value in MapSet(keys).Keys();
    } else {
      var accepted := Accepted(E, keys, m);
      assert forall n | n in accepted :: n in MapSet(keys).Keys();
      EncodedPins(accepted);
      ValuesOfNames(accepted);
    }
  }

  /** Rewriting keeps the labels of an absent-like call on a selector exactly under that condition. */
  lemma LabelsAreKeptIff(E: Engine, keys: set<string>, ms: seq<Matcher>)
    requires AreNamespaceNames(MapSet(keys)) && AreValid(E, ms)
    ensures AbsentLabels(FilterMatchers(E, MapSet(keys), ms)) == AbsentLabels(ms) <==> KeepsAbsentLabels(E, keys, ms)
  {
    var filtered := FilterMatchers(E, MapSet(keys), ms);
    var on := On(ms, NAMESPACE);
    OnFiltered(E, MapSet(keys), ms, NAMESPACE);
    LabelsArePinned(ms, NAMESPACE);
    LabelsArePinned(filtered, NAMESPACE);
    if on == [] {
      EncodedPins(keys);
    } else {
      assert on[0] in on;
      TranslatedPins(E, keys, on[0], on[1..]);
      assert on == [on[0]] + on[1..];
    }
    if KeepsAbsentLabels(E, keys, ms) {
      forall name | name != METRIC_NAME
        ensures Pins(On(ms, name)) == Pins(On(filtered, name))
        ensures Pins(On(ms, name)) ==> Last(On(ms, name)).value == Last(On(filtered, name)).value
      {
        OnFiltered(E, MapSet(keys), ms, name);
      }
      SamePinsSameLabels(ms, filtered);
    }
  }

  // ------------------------------------------------------------- reordering

  /** The order of the matchers on a label decides whether it is kept: all are `=`, one has a value, the others, at least one, have none. */
  ghost predicate IsOrderDecided(on: seq<Matcher>) {
    && |on| > 1
    && (forall m | m in on :: m.kind.MatchEqual?)
    && exists m :: IsOnlyValue(on, m)
  }

  ghost predicate IsOnlyValue(on: seq<Matcher>, m: Matcher) {
    m in on && m.value != "" && multiset(on)[m] == 1 && forall m' | m' in on && m' != m :: m'.value == ""
  }

  /** No label of the list is order-decided. */
  ghost predicate IsOrderFree(ms: seq<Matcher>) {
    forall name | name != METRIC_NAME :: !IsOrderDecided(On(ms, name))
  }

  lemma {:induction false} OnAppend(a: seq<Matcher>, b: seq<Matcher>, name: string)
    ensures On(a + b, name) == On(a, name) + On(b, name)
  {
    if a == [] {
      assert a + b == b;
    } else {
      assert (a + b)[1..] == a[1..] + b;
      OnAppend(a[1..], b, name);
    }
  }

  lemma {:induction false} OnIsAPart(ms: seq<Matcher>, name: string, m: Matcher)
    ensures multiset(On(ms, name))[m] == if m.name == name then multiset(ms)[m] else 0
  {
    if ms != [] {
      assert ms == [ms[0]] + ms[1..];
      OnIsAPart(ms[1..], name, m);
    }
  }

  lemma ReorderedOn(ms: seq<Matcher>, ms': seq<Matcher>, name: string)
    requires multiset(ms) == multiset(ms')
    ensures multiset(On(ms, name)) == multiset(On(ms', name))
  {
    forall m ensures multiset(On(ms, name))[m] == multiset(On(ms', name))[m] {
      OnIsAPart(ms, name, m);
      OnIsAPart(ms', name, m);
    }
  }

  /** Matchers that fix a value are a single one, or order-decided. */
  lemma {:induction false} SeveralPinsAreDecided(on: seq<Matcher>)
    requires Pins(on)
    ensures (forall m | m in on :: m.kind.MatchEqual?) && IsOnlyValue(on, Last(on))
  {
    if on[0].value == "" {
      SeveralPinsAreDecided(on[1..]);
      assert on == [on[0]] + on[1..];
      assert Last(on[1..]) == Last(on);
    } else {
      assert on == [on[0]];
    }
  }

  lemma DecidedWhateverOrder(on: seq<Matcher>, on': seq<Matcher>)
    requires multiset(on) == multiset(on') && IsOrderDecided(on)
    ensures IsOrderDecided(on')
  {
    assert |on| == |multiset(on)| == |multiset(on')| == |on'|;
    assert forall m :: m in on' <==> m in multiset(on');
    assert forall m :: m in on <==> m in multiset(on);
    var m :| IsOnlyValue(on, m);
    assert IsOnlyValue(on', m);
  }

  /** Where the order decides nothing, matchers in any order fix the same value or none. */
  lemma SamePins(on: seq<Matcher>, on': seq<Matcher>)
    requires multiset(on) == multiset(on') && !IsOrderDecided(on) && Pins(on)
    ensures on' == on
  {
    SeveralPinsAreDecided(on);
    assert |on| == 1;
    assert |on'| == |multiset(on')| == |multiset(on)| == 1;
    assert on == [on[0]] && on' == [on'[0]];
    assert on'[0] in multiset(on);
  }

  lemma OrderFreeKeepsLabels(ms: seq<Matcher>, ms': seq<Matcher>)
    requires multiset(ms) == multiset(ms') && IsOrderFree(ms)
    ensures AbsentLabels(ms) == AbsentLabels(ms')
  {
    forall name | name != METRIC_NAME
      ensures Pins(On(ms, name)) == Pins(On(ms', name))
      ensures Pins(On(ms, name)) ==> Last(On(ms, name)).value == Last(On(ms', name)).value
    {
      ReorderedOn(ms, ms', name);
      if Pins(On(ms, name)) {
        SamePins(On(ms, name), On(ms', name));
      } else if Pins(On(ms', name)) {
        if IsOrderDecided(On(ms', name)) {
          DecidedWhateverOrder(On(ms', name), On(ms, name));
        }
        SamePins(On(ms', name), On(ms, name));
      }
    }
    SamePinsSameLabels(ms, ms');
  }

  lemma {:induction false} EmptiesThenValuePin(empties: seq<Matcher>, m: Matcher)
    requires forall e | e in empties :: e.kind.MatchEqual? && e.value == ""
    requires m.kind.MatchEqual? && m.value != ""
    ensures Pins(empties + [m])
  {
    if empties != [] {
      EmptiesThenValuePin(empties[1..], m);
      assert (empties + [m])[1..] == empties[1..] + [m];
      assert empties[0] in empties;
    }
  }

  /** With the value first an order-decided label is lost; with the value last it is kept. */
  lemma ValueFirstOrLast(ms: seq<Matcher>, i: nat, name: string)
    requires i < |ms| && ms[i].name == name != METRIC_NAME
    requires IsOrderDecided(On(ms, name)) && IsOnlyValue(On(ms, name), ms[i])
    ensures var rest := ms[..i] + ms[i + 1..];
            && multiset([ms[i]] + rest) == multiset(rest + [ms[i]]) == multiset(ms)
            && name !in AbsentLabels([ms[i]] + rest) && name in AbsentLabels(rest + [ms[i]])
  {
    var m := ms[i];
    var rest := ms[..i] + ms[i + 1..];
    assert ms == ms[..i] + ([m] + ms[i + 1..]);
    assert multiset([m] + rest) == multiset(rest + [m]) == multiset(ms);
    OnAppend([m], rest, name);
    OnAppend(rest, [m], name);
    assert On([m], name) == [m] by { assert [m][1..] == []; }
    var empties := On(rest, name);
    ReorderedOn(ms, [m] + rest, name);
    assert multiset([m] + empties) == multiset(On(ms, name));
    assert |[m] + empties| == |multiset([m] + empties)| == |multiset(On(ms, name))| == |On(ms, name)|;
    assert forall e | e in empties :: e in multiset([m] + empties);
    assert multiset([m] + empties)[m] == 1 + multiset(empties)[m];
    forall e | e in empties ensures e.kind.MatchEqual? && e.value == "" {
      assert e in multiset(On(ms, name)) && e in On(ms, name);
    }
    EmptiesThenValuePin(empties, m);
    LabelsArePinned([m] + rest, name);
    LabelsArePinned(rest + [m], name);
  }

  /** Some order of a list with an order-decided label has other labels. */
  lemma DecidedOrderExists(ms: seq<Matcher>) returns (ms': seq<Matcher>)
    requires !IsOrderFree(ms)
    ensures multiset(ms') == multiset(ms) && AbsentLabels(ms') != AbsentLabels(ms)
  {
    var name :| name != METRIC_NAME && IsOrderDecided(On(ms, name));
    var m :| IsOnlyValue(On(ms, name), m);
    var i :| 0 <= i < |ms| && ms[i] == m;
    var rest := ms[..i] + ms[i + 1..];
    ValueFirstOrLast(ms, i, name);
    ms' := if name in AbsentLabels(ms) then [m] + rest else rest + [m];
  }

  ghost predicate HasLabelsInAnyOrder(ms: seq<Matcher>, labels: map<string, string>) {
    forall ms' | multiset(ms') == multiset(ms) :: AbsentLabels(ms') == labels
  }

  /** The order of the matchers changes no label if and only if no label is order-decided. */
  lemma OrderIsFreeIff(ms: seq<Matcher>)
    ensures HasLabelsInAnyOrder(ms, AbsentLabels(ms)) <==> IsOrderFree(ms)
  {
    if IsOrderFree(ms) {
      forall ms' | multiset(ms') == multiset(ms) ensures AbsentLabels(ms') == AbsentLabels(ms) {
        OrderFreeKeepsLabels(ms, ms');
      }
    } else {
      var ms' := DecidedOrderExists(ms);
    }
  }

  /**
   * The filtered matchers, printed in whatever order, have the labels of the original
   * ones if and only if filtering keeps them and no label of the filtered list is
   * order-decided.
   */
  lemma PrintedLabelsAreKeptIff(E: Engine, keys: set<string>, ms: seq<Matcher>)
    requires AreNamespaceNames(MapSet(keys)) && AreValid(E, ms)
    ensures HasLabelsInAnyOrder(FilterMatchers(E, MapSet(keys), ms), AbsentLabels(ms))
            <==> KeepsAbsentLabels(E, keys, ms) && IsOrderFree(FilterMatchers(E, MapSet(keys), ms))
  {
    var filtered := FilterMatchers(E, MapSet(keys), ms);
    LabelsAreKeptIff(E, keys, ms);
    OrderIsFreeIff(filtered);
    if HasLabelsInAnyOrder(filtered, AbsentLabels(ms)) {
      assert AbsentLabels(filtered) == AbsentLabels(ms);
    }
  }

  /** Where a label has `=""` beside a value, the order does decide whether the value is kept. */
  lemma OrderMattersBesideEmpty(name: string, v: string)
    requires name != METRIC_NAME && v != ""
    ensures var some, empty := Matcher(MatchEqual, name, v), Matcher(MatchEqual, name, "");
            AbsentLabels([empty, some]) == map[name := v] && AbsentLabels([some, empty]) == map[]
  {
    var d := Draft(map[], {});
    var some, empty := Matcher(MatchEqual, name, v), Matcher(MatchEqual, name, "");
    assert [empty, some][1..] == [some] && [some, empty][1..] == [empty];
    assert [some][1..] == [] && [empty][1..] == [];
    assert AddMatchers(d, [empty, some]) == AddMatchers(d, [some]) == Draft(map[name := v], {});
    assert AddMatchers(d, [some, empty]) == AddMatchers(Draft(map[name := v], {}), [empty]) == Draft(map[name := v], {name});
  }
}
