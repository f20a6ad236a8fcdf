/** What matchers mean: the series of a database they select, before and after rewriting. */
module Storage {
  import opened Wrappers
  import opened Data
  import opened Matchers
  import opened LabelMatchers

  datatype Point = Point(time: int, value: real)

  datatype Series = Series(labels: map<string, string>, points: seq<Point>)

  type Database = seq<Series>

  /** A label the series does not carry reads as the empty string. */
  function Label(s: Series, name: string): string {
    if name in s.labels then s.labels[name] else ""
  }

  predicate Satisfies(E: Engine, s: Series, ms: seq<Matcher>) {
    forall m | m in ms :: Matches(E, m, Label(s, m.name))
  }

  function Select(E: Engine, db: Database, ms: seq<Matcher>): Database {
    if db == [] then []
    else if Satisfies(E, db[0], ms) then [db[0]] + Select(E, db[1..], ms)
    else Select(E, db[1..], ms)
  }

  /** The series the members of `keys` own. */
  function Restrict(db: Database, keys: set<string>): Database {
    if db == [] then []
    else if Label(db[0], NAMESPACE) in keys then [db[0]] + Restrict(db[1..], keys)
    else Restrict(db[1..], keys)
  }

  /** No series carries the sentinel as its namespace. */
  predicate SentinelFree(db: Database) {
    forall s | s in db :: Label(s, NAMESPACE) != NONE_NAMESPACE
  }

  lemma {:induction false} SelectedSeries(E: Engine, db: Database, ms: seq<Matcher>, s: Series)
    ensures s in Select(E, db, ms) <==> s in db && Satisfies(E, s, ms)
  {
    if db != [] {
      SelectedSeries(E, db[1..], ms, s);
    }
  }

  lemma {:induction false} RestrictedSeries(db: Database, keys: set<string>, s: Series)
    ensures s in Restrict(db, keys) <==> s in db && Label(s, NAMESPACE) in keys
  {
    if db != [] {
      RestrictedSeries(db[1..], keys, s);
    }
  }

  /** A restricted database is sentinel-free when the whole one is. */
  lemma RestrictionIsSentinelFree(db: Database, keys: set<string>)
    requires SentinelFree(db)
    ensures SentinelFree(Restrict(db, keys))
  {
    forall s | s in Restrict(db, keys) ensures Label(s, NAMESPACE) != NONE_NAMESPACE {
      RestrictedSeries(db, keys, s);
    }
  }

  lemma SatisfiesCons(E: Engine, s: Series, ms: seq<Matcher>)
    requires ms != []
    ensures Satisfies(E, s, ms) <==> Matches(E, ms[0], Label(s, ms[0].name)) && Satisfies(E, s, ms[1..])
  {
    assert forall m :: m in ms <==> m == ms[0] || m in ms[1..];
  }

  // -------------------------------------------------------------- exactness

  /**
   * The rewritten list accepts a series exactly when the original accepts it and
   * its namespace is in the set, however many namespace matchers there are.
   */
  lemma {:induction false} FilteringIsExact(E: Engine, ns: Set, ms: seq<Matcher>, s: Series)
    requires ns.MapSet? && AreNamespaceNames(ns) && AreValid(E, ms)
    requires Label(s, NAMESPACE) != NONE_NAMESPACE
    ensures Satisfies(E, s, FilterMatchers(E, ns, ms))
            <==> Satisfies(E, s, ms) && Label(s, NAMESPACE) in ns.keys
  {
    var filtered := FilterMatchers(E, ns, ms);
    SatisfiesCons(E, s, filtered);
    if ms == [] {
      ValuesOfNames(ns.keys);
      EncodingIsExact(E, NAMESPACE, ValuesOf(ns.keys), Label(s, NAMESPACE));
    } else {
      SatisfiesCons(E, s, ms);
      if ms[0].name == NAMESPACE {
        TranslationIsExact(E, ns, ms[0], Label(s, NAMESPACE));
        TranslationShape(E, ns, ms[0]);
        assert filtered[1..] == ms[1..];
      } else {
        FilteringIsExact(E, ns, ms[1..], s);
        assert filtered[1..] == FilterMatchers(E, ns, ms[1..]);
      }
    }
  }

  /** Selecting with the rewritten list is selecting with the original from the caller's own series. */
  lemma {:induction false} SelectionIsExact(E: Engine, ns: Set, ms: seq<Matcher>, db: Database)
    requires ns.MapSet? && AreNamespaceNames(ns) && AreValid(E, ms)
    requires SentinelFree(db)
    ensures Select(E, db, FilterMatchers(E, ns, ms)) == Select(E, Restrict(db, ns.keys), ms)
  {
    if db != [] {
      FilteringIsExact(E, ns, ms, db[0]);
      SelectionIsExact(E, ns, ms, db[1..]);
      if Label(db[0], NAMESPACE) in ns.keys {
        assert Restrict(db, ns.keys)[1..] == Restrict(db[1..], ns.keys);
      }
    }
  }

  ghost predicate ExactOn(E: Engine, ns: Set, db: Database) {
    forall ms | AreValid(E, ms) :: Select(E, db, FilterMatchers(E, ns, ms)) == Select(E, Restrict(db, ns.Keys()), ms)
  }

  /** Every rewritten selector is exact on a database if and only if no series of it carries the sentinel. */
  lemma ExactIffSentinelFree(E: Engine, ns: Set, db: Database)
    requires ns.MapSet? && AreNamespaceNames(ns)
    ensures ExactOn(E, ns, db) <==> SentinelFree(db)
  {
    if SentinelFree(db) {
      forall ms | AreValid(E, ms)
        ensures Select(E, db, FilterMatchers(E, ns, ms)) == Select(E, Restrict(db, ns.Keys()), ms)
      {
        SelectionIsExact(E, ns, ms, db);
      }
    } else {
      var s :| s in db && Label(s, NAMESPACE) == NONE_NAMESPACE;
      var ms := [Matcher(MatchEqual, NAMESPACE, NONE_NAMESPACE)];
      assert FilterMatchers(E, ns, ms) == ms;
      if NONE_NAMESPACE in ns.keys { NamesAreLiterals(NONE_NAMESPACE); }
      SelectedSeries(E, db, ms, s);
      SelectedSeries(E, Restrict(db, ns.Keys()), ms, s);
      RestrictedSeries(db, ns.Keys(), s);
      assert !ExactOn(E, ns, db);
    }
  }

  /**
   * A nil set (what a failed namespace query leaves) is not an empty set: a
   * namespace matcher then stays as it was, so rewriting is exact on every
   * sentinel-free database if and only if the set is not nil.
   */
  lemma ExactIffNotNil(E: Engine, ns: Set)
    requires AreNamespaceNames(ns)
    ensures (forall db | SentinelFree(db) :: ExactOn(E, ns, db)) <==> ns.MapSet?
  {
    if ns.MapSet? {
      forall db | SentinelFree(db) ensures ExactOn(E, ns, db) {
        ExactIffSentinelFree(E, ns, db);
      }
    } else {
      var s := Series(map[NAMESPACE := "default"], []);
      var ms := [Matcher(MatchEqual, NAMESPACE, "default")];
      assert FilterMatchers(E, ns, ms) == ms;
      SelectedSeries(E, [s], ms, s);
      assert Restrict([s], ns.Keys()) == [];
      assert !ExactOn(E, ns, [s]);
    }
  }

  /** No series but one with the sentinel can satisfy a list that has a namespace matcher. */
  ghost predicate IsBlind(E: Engine, ms: seq<Matcher>) {
    HasNamespace(ms) ==> forall s | Label(s, NAMESPACE) != NONE_NAMESPACE :: !Satisfies(E, s, ms)
  }

  lemma {:induction false} BlindSelectsNothing(E: Engine, ms: seq<Matcher>, db: Database)
    requires IsBlind(E, ms) && SentinelFree(db)
    ensures Select(E, db, FilterMatchers(E, NilSet, ms)) == []
  {
    if db != [] {
      BlindSelectsNothing(E, ms, db[1..]);
      FilteringFrame(E, NilSet, ms);
      var i := FirstNamespace(ms);
      if i < |ms| {
        assert ms[i := ms[i]] == ms;
      } else {
        ValuesIsCanonical({}, []);
        assert FilterMatchers(E, NilSet, ms)[i] == Matcher(MatchEqual, NAMESPACE, NONE_NAMESPACE);
      }
    }
  }

  ghost predicate IsSelectionFixed(E: Engine, ms: seq<Matcher>) {
    forall db, db' | SentinelFree(db) && SentinelFree(db') :: Select(E, db, ms) == Select(E, db', ms)
  }

  lemma SatisfiedIsNotFixed(E: Engine, ms: seq<Matcher>, s: Series)
    requires Label(s, NAMESPACE) != NONE_NAMESPACE && Satisfies(E, s, ms)
    ensures !IsSelectionFixed(E, ms)
  {
    SelectedSeries(E, [s], ms, s);
    assert SentinelFree([s]) && SentinelFree([]);
    assert Select(E, [], ms) == [];
  }

  /** Under a nil set a selection is the same on all sentinel-free databases if and only if its list is blind. */
  lemma NilSelectionIsFixedIffBlind(E: Engine, ms: seq<Matcher>)
    ensures IsSelectionFixed(E, FilterMatchers(E, NilSet, ms)) <==> IsBlind(E, ms)
  {
    var filtered := FilterMatchers(E, NilSet, ms);
    if IsBlind(E, ms) {
      forall db, db' | SentinelFree(db) && SentinelFree(db') ensures Select(E, db, filtered) == Select(E, db', filtered) {
        BlindSelectsNothing(E, ms, db);
        BlindSelectsNothing(E, ms, db');
      }
    } else {
      var s :| Label(s, NAMESPACE) != NONE_NAMESPACE && Satisfies(E, s, ms);
      NilSetKeepsMatchers(E, ms);
      SatisfiedIsNotFixed(E, ms, s);
    }
  }

  lemma NilSetKeepsMatchers(E: Engine, ms: seq<Matcher>)
    requires HasNamespace(ms)
    ensures FilterMatchers(E, NilSet, ms) == ms
  {
    FilteringFrame(E, NilSet, ms);
    var i := FirstNamespace(ms);
    assert ms[i := ms[i]] == ms;
  }

  // ----------------------------------------------- consequences of exactness

  lemma {:induction false} RestrictTwice(db: Database, s: set<string>, t: set<string>)
    ensures Restrict(Restrict(db, t), s) == Restrict(db, s * t)
  {
    if db != [] {
      RestrictTwice(db[1..], s, t);
      if Label(db[0], NAMESPACE) in t {
        assert Restrict(db, t)[1..] == Restrict(db[1..], t);
      }
    }
  }

  lemma {:induction false} RestrictingCommutesWithSelecting(E: Engine, db: Database, keys: set<string>, ms: seq<Matcher>)
    ensures Restrict(Select(E, db, ms), keys) == Select(E, Restrict(db, keys), ms)
  {
    if db != [] {
      RestrictingCommutesWithSelecting(E, db[1..], keys, ms);
      if Satisfies(E, db[0], ms) {
        assert Select(E, db, ms)[1..] == Select(E, db[1..], ms);
      }
      if Label(db[0], NAMESPACE) in keys {
        assert Restrict(db, keys)[1..] == Restrict(db[1..], keys);
      }
    }
  }

  /** A rewritten selector does not see series outside the set. */
  lemma SelectionIsConfined(E: Engine, ns: Set, ms: seq<Matcher>, db: Database)
    requires ns.MapSet? && AreNamespaceNames(ns) && AreValid(E, ms)
    requires SentinelFree(db)
    ensures Select(E, db, FilterMatchers(E, ns, ms)) == Select(E, Restrict(db, ns.keys), FilterMatchers(E, ns, ms))
  {
    SelectionIsExact(E, ns, ms, db);
    RestrictionIsSentinelFree(db, ns.keys);
    SelectionIsExact(E, ns, ms, Restrict(db, ns.keys));
    RestrictTwice(db, ns.keys, ns.keys);
    assert ns.keys * ns.keys == ns.keys;
  }

  /** Which namespace matcher comes first does not matter to what is selected. */
  lemma SelectionIgnoresOrder(E: Engine, ns: Set, ms: seq<Matcher>, ms': seq<Matcher>, db: Database)
    requires ns.MapSet? && AreNamespaceNames(ns) && AreValid(E, ms)
    requires SentinelFree(db)
    requires forall m :: m in ms <==> m in ms'
    ensures Select(E, db, FilterMatchers(E, ns, ms)) == Select(E, db, FilterMatchers(E, ns, ms'))
  {
    SelectionIsExact(E, ns, ms, db);
    SelectionIsExact(E, ns, ms', db);
    SameMatchersSelectTheSame(E, Restrict(db, ns.keys), ms, ms');
  }

  lemma {:induction false} SameMatchersSelectTheSame(E: Engine, db: Database, ms: seq<Matcher>, ms': seq<Matcher>)
    requires forall m :: m in ms <==> m in ms'
    ensures Select(E, db, ms) == Select(E, db, ms')
  {
    if db != [] {
      SameMatchersSelectTheSame(E, db[1..], ms, ms');
      assert Satisfies(E, db[0], ms) <==> Satisfies(E, db[0], ms');
    }
  }

  /** With fewer namespaces a caller sees exactly the part of the selection that lies in them. */
  lemma SelectionIsMonotone(E: Engine, s: set<string>, t: set<string>, ms: seq<Matcher>, db: Database)
    requires AreNamespaceNames(MapSet(t)) && AreValid(E, ms)
    requires SentinelFree(db)
    requires s <= t
    ensures Select(E, db, FilterMatchers(E, MapSet(s), ms)) == Restrict(Select(E, db, FilterMatchers(E, MapSet(t), ms)), s)
  {
    assert forall n | n in s :: n in MapSet(t).Keys();
    SelectionIsExact(E, MapSet(s), ms, db);
    SelectionIsExact(E, MapSet(t), ms, db);
    RestrictingCommutesWithSelecting(E, Restrict(db, t), s, ms);
    RestrictTwice(db, s, t);
    assert s * t == s;
  }

  // ------------------------------------------------ unions of selections

  /** What a list of `match[]` selectors selects: the series some selector accepts. */
  function SelectAny(E: Engine, db: Database, selectors: seq<seq<Matcher>>): Database {
    if db == [] then []
    else if SatisfiesAny(E, db[0], selectors) then [db[0]] + SelectAny(E, db[1..], selectors)
    else SelectAny(E, db[1..], selectors)
  }

  predicate SatisfiesAny(E: Engine, s: Series, selectors: seq<seq<Matcher>>) {
    exists ms | ms in selectors :: Satisfies(E, s, ms)
  }

  ghost function FilterEach(E: Engine, ns: Set, selectors: seq<seq<Matcher>>): (r: seq<seq<Matcher>>)
    ensures |r| == |selectors|
    ensures forall i | 0 <= i < |r| :: r[i] == FilterMatchers(E, ns, selectors[i])
  {
    seq(|selectors|, i requires 0 <= i < |selectors| => FilterMatchers(E, ns, selectors[i]))
  }

  /** The union the rewritten selectors select is the original union, restricted to the set. */
  lemma {:induction false} UnionIsExact(E: Engine, ns: Set, selectors: seq<seq<Matcher>>, db: Database)
    requires ns.MapSet? && AreNamespaceNames(ns)
    requires forall ms | ms in selectors :: AreValid(E, ms)
    requires SentinelFree(db)
    ensures SelectAny(E, db, FilterEach(E, ns, selectors)) == Restrict(SelectAny(E, db, selectors), ns.keys)
  {
    if db != [] {
      var s := db[0];
      UnionIsExact(E, ns, selectors, db[1..]);
      UnionAcceptsExactly(E, ns, selectors, s);
      if SatisfiesAny(E, s, selectors) {
        assert SelectAny(E, db, selectors)[1..] == SelectAny(E, db[1..], selectors);
      }
    }
  }

  lemma UnionAcceptsExactly(E: Engine, ns: Set, selectors: seq<seq<Matcher>>, s: Series)
    requires ns.MapSet? && AreNamespaceNames(ns)
    requires forall ms | ms in selectors :: AreValid(E, ms)
    requires Label(s, NAMESPACE) != NONE_NAMESPACE
    ensures SatisfiesAny(E, s, FilterEach(E, ns, selectors))
            <==> SatisfiesAny(E, s, selectors) && Label(s, NAMESPACE) in ns.keys
  {
    var filtered := FilterEach(E, ns, selectors);
    forall i | 0 <= i < |selectors|
      ensures Satisfies(E, s, filtered[i]) <==> Satisfies(E, s, selectors[i]) && Label(s, NAMESPACE) in ns.keys
    {
      FilteringIsExact(E, ns, selectors[i], s);
    }
    if ms :| ms in filtered && Satisfies(E, s, ms) {
      var i :| 0 <= i < |filtered| && filtered[i] == ms;
      assert Satisfies(E, s, selectors[i]);
    }
    if ms :| ms in selectors && Satisfies(E, s, ms) {
      var i :| 0 <= i < |selectors| && selectors[i] == ms;
      assert filtered[i] in filtered;
    }
  }

  // ------------------------------------------------------------ remote read

  /** A remote-read query upstream: the conversion of the matchers, then the selection. */
  function ReadSelect(E: Engine, db: Database, ms: seq<LabelMatcher>): Conversion<Database> {
    match FromLabelMatchers(E, ms)
    case Ok(converted) => Ok(Select(E, db, converted))
    case Err(e) => Err(e)
  }

  /** The matchers whose name is not one of the reader labels, in order. */
  function DropLabels(ms: seq<LabelMatcher>, readerLabels: set<string>): seq<LabelMatcher> {
    if ms == [] then []
    else if ms[0].name !in readerLabels then [ms[0]] + DropLabels(ms[1..], readerLabels)
    else DropLabels(ms[1..], readerLabels)
  }

  lemma {:induction false} DroppedLabels(ms: seq<LabelMatcher>, readerLabels: set<string>)
    ensures forall m :: m in DropLabels(ms, readerLabels) <==> m in ms && m.name !in readerLabels
    ensures forall i | 0 <= i < |DropLabels(ms, readerLabels)| :: DropLabels(ms, readerLabels)[i].name !in readerLabels
  {
    if ms != [] {
      DroppedLabels(ms[1..], readerLabels);
    }
  }

  lemma {:induction false} DropLabelsAppend(ms: seq<LabelMatcher>, m: LabelMatcher, readerLabels: set<string>)
    ensures DropLabels(ms + [m], readerLabels)
            == DropLabels(ms, readerLabels) + (if m.name !in readerLabels then [m] else [])
  {
    if ms == [] {
      assert ms + [m] == [m];
    } else {
      assert (ms + [m])[1..] == ms[1..] + [m];
      DropLabelsAppend(ms[1..], m, readerLabels);
    }
  }

  /** What `modifyQuery` stores in a query. */
  ghost function ModifiedMatchers(E: Engine, ns: Set, readerLabels: Set, ms: seq<LabelMatcher>): seq<LabelMatcher> {
    FilterLabelMatchers(E, ns, DropLabels(ms, readerLabels.Keys()))
  }

  /**
   * A rewritten remote-read query answers what the kept matchers answer on the
   * caller's own series, and fails upstream exactly when, and as, they fail.
   */
  lemma ReadIsExact(E: Engine, ns: Set, readerLabels: Set, ms: seq<LabelMatcher>, db: Database)
    requires ns.MapSet? && AreNamespaceNames(ns)
    requires SentinelFree(db)
    ensures ReadSelect(E, db, ModifiedMatchers(E, ns, readerLabels, ms))
            == ReadSelect(E, Restrict(db, ns.keys), DropLabels(ms, readerLabels.Keys()))
  {
    var kept := DropLabels(ms, readerLabels.Keys());
    FiltersAgree(E, ns, kept);
    if FromLabelMatchers(E, kept).Ok? {
      FromThenTo(E, kept);
      SelectionIsExact(E, ns, FromLabelMatchers(E, kept).value, db);
    }
  }

  /** When `namespace` is itself a reader label, the one matcher left on it is the appended one. */
  lemma ReadWithNamespaceDropped(E: Engine, ns: Set, readerLabels: Set, ms: seq<LabelMatcher>)
    requires NAMESPACE in readerLabels.Keys()
    ensures ModifiedMatchers(E, ns, readerLabels, ms)
            == DropLabels(ms, readerLabels.Keys()) + [EncodeLabel(NAMESPACE, ValuesOf(ns.Keys()))]
  {
    var kept := DropLabels(ms, readerLabels.Keys());
    LabelFilteringFrame(E, ns, kept);
    var i := FirstNamespaceLabel(kept);
    DroppedLabels(ms, readerLabels.Keys());
    if i < |kept| {
      assert false;
    }
  }
}
