/** The `match[]` selectors of a forwarded request: what upstream reads of them and what they select together. */
module Forwarding {
  import opened Data
  import opened Matchers
  import opened Storage
  import opened Printing
  import opened Meaning
  import opened Handlers

  function SelectorsIn(xs: seq<Text>): (r: seq<seq<Matcher>>)
    requires forall x | x in xs :: ParseMetricSelector(x).Some?
    ensures |r| == |xs|
    ensures forall i | 0 <= i < |r| :: r[i] == ParseMetricSelector(xs[i]).value
  {
    seq(|xs|, i requires 0 <= i < |xs| => ParseMetricSelector(xs[i]).value)
  }

  /** What upstream may read of a text after rewriting and printing. */
  ghost predicate IsPrintedText(E: Engine, ns: Set, x: Text, x': Text) {
    if x.ExprText? then x'.ExprText? && IsPrinted(E, ns, x.expr, x'.expr) else x' == x
  }

  ghost predicate ArePrintedTexts(E: Engine, ns: Set, xs: seq<Text>, xs': seq<Text>) {
    |xs| == |xs'| && forall i | 0 <= i < |xs| :: IsPrintedText(E, ns, xs[i], xs'[i])
  }

  /** All are selectors that the handlers rewrite. */
  ghost predicate AreForwarded(E: Engine, xs: seq<Text>) {
    AllSelectors(xs) && AllExpressions(xs) && forall x | x in xs :: IsParsed(E, x)
  }

  function NameIn(x: Text): string {
    if x.ExprText? && x.expr.VectorSelector? then x.expr.name else ""
  }

  /** The matchers of each selector that printing does not lose. */
  ghost function KeptIn(E: Engine, xs: seq<Text>): (r: seq<seq<Matcher>>)
    requires AreForwarded(E, xs)
    ensures |r| == |xs|
    ensures forall i | 0 <= i < |r| :: r[i] == PrintedMatchers(NameIn(xs[i]), SelectorsIn(xs)[i]) && AreValid(E, r[i])
  {
    assert forall i | 0 <= i < |xs| :: xs[i] in xs;
    forall i | 0 <= i < |xs| ensures AreValid(E, PrintedMatchers(NameIn(xs[i]), SelectorsIn(xs)[i])) {
      PrintedMatchersAreValid(E, NameIn(xs[i]), SelectorsIn(xs)[i]);
    }
    seq(|xs|, i requires 0 <= i < |xs| => PrintedMatchers(NameIn(xs[i]), SelectorsIn(xs)[i]))
  }

  ghost predicate KeepsEach(E: Engine, ns: Set, xs: seq<Text>) {
    forall x | x in xs && x.ExprText? :: KeepsSelections(E, ns, x.expr)
  }

  /** The same selectors but for the order of their matchers. */
  ghost predicate AreReordered(selectors: seq<seq<Matcher>>, selectors': seq<seq<Matcher>>) {
    |selectors| == |selectors'| && forall i | 0 <= i < |selectors| :: multiset(selectors[i]) == multiset(selectors'[i])
  }

  lemma ReorderedSatisfies(E: Engine, s: Storage.Series, selectors: seq<seq<Matcher>>, selectors': seq<seq<Matcher>>)
    requires AreReordered(selectors, selectors') && SatisfiesAny(E, s, selectors)
    ensures SatisfiesAny(E, s, selectors')
  {
    var ms :| ms in selectors && Satisfies(E, s, ms);
    var i :| 0 <= i < |selectors| && selectors[i] == ms;
    forall m | m in selectors'[i] ensures Matches(E, m, Label(s, m.name)) {
      assert m in multiset(selectors[i]);
    }
    assert selectors'[i] in selectors';
  }

  lemma {:induction false} ReorderedUnion(E: Engine, db: Database, selectors: seq<seq<Matcher>>, selectors': seq<seq<Matcher>>)
    requires AreReordered(selectors, selectors')
    ensures SelectAny(E, db, selectors) == SelectAny(E, db, selectors')
  {
    if db != [] {
      ReorderedUnion(E, db[1..], selectors, selectors');
      if SatisfiesAny(E, db[0], selectors) {
        ReorderedSatisfies(E, db[0], selectors, selectors');
      } else if SatisfiesAny(E, db[0], selectors') {
        ReorderedSatisfies(E, db[0], selectors', selectors);
      }
    }
  }

  lemma {:induction false} RestrictingCommutesWithUnions(
    E: Engine, db: Database, keys: set<string>, selectors: seq<seq<Matcher>>)
    ensures Restrict(SelectAny(E, db, selectors), keys) == SelectAny(E, Restrict(db, keys), selectors)
  {
    if db != [] {
      RestrictingCommutesWithUnions(E, db[1..], keys, selectors);
      if SatisfiesAny(E, db[0], selectors) {
        assert SelectAny(E, db, selectors)[1..] == SelectAny(E, db[1..], selectors);
      }
      if Label(db[0], NAMESPACE) in keys {
        assert Restrict(db, keys)[1..] == Restrict(db[1..], keys);
      }
    }
  }

  /** Printed selectors are selectors, and are what filtering leaves of the kept matchers, in some order. */
  lemma PrintedSelectors(E: Engine, ns: Set, xs: seq<Text>, xs': seq<Text>)
    requires AreForwarded(E, xs) && ArePrintedTexts(E, ns, xs, xs')
    ensures AllSelectors(xs')
    ensures AreReordered(FilterEach(E, ns, KeptIn(E, xs)), SelectorsIn(xs'))
  {
    var filtered := FilterEach(E, ns, KeptIn(E, xs));
    forall i | 0 <= i < |xs|
      ensures ParseMetricSelector(xs'[i]).Some?
      ensures multiset(filtered[i]) == multiset(ParseMetricSelector(xs'[i]).value)
    {
      assert xs[i] in xs;
      PrintingCommutesWithFiltering(E, ns, xs[i].expr.name, xs[i].expr.matchers);
    }
  }

  /** Printed selectors select, on the whole database, what the kept matchers select of the caller's series. */
  lemma PrintedUnion(E: Engine, ns: Set, xs: seq<Text>, xs': seq<Text>, db: Database)
    requires Fits(E, ns, db) && AreForwarded(E, xs) && ArePrintedTexts(E, ns, xs, xs')
    ensures AllSelectors(xs')
    ensures SelectAny(E, db, SelectorsIn(xs')) == SelectAny(E, Restrict(db, ns.keys), KeptIn(E, xs))
  {
    var kept := KeptIn(E, xs);
    PrintedSelectors(E, ns, xs, xs');
    ReorderedUnion(E, db, FilterEach(E, ns, kept), SelectorsIn(xs'));
    UnionIsExact(E, ns, kept, db);
    RestrictingCommutesWithUnions(E, db, ns.keys, kept);
  }

  lemma KeptSatisfies(E: Engine, ns: Set, xs: seq<Text>, s: Storage.Series)
    requires ns.MapSet? && AreForwarded(E, xs) && KeepsEach(E, ns, xs) && Label(s, NAMESPACE) in ns.keys
    ensures SatisfiesAny(E, s, KeptIn(E, xs)) <==> SatisfiesAny(E, s, SelectorsIn(xs))
  {
    var kept, selectors := KeptIn(E, xs), SelectorsIn(xs);
    forall i | 0 <= i < |xs| ensures Satisfies(E, s, kept[i]) <==> Satisfies(E, s, selectors[i]) {
      assert xs[i] in xs && KeepsSelection(E, ns, NameIn(xs[i]), selectors[i]);
      WithoutEmptyNameSatisfies(E, s, selectors[i]);
    }
    if ms :| ms in kept && Satisfies(E, s, ms) {
      var i :| 0 <= i < |kept| && kept[i] == ms;
      assert selectors[i] in selectors;
    }
    if ms :| ms in selectors && Satisfies(E, s, ms) {
      var i :| 0 <= i < |selectors| && selectors[i] == ms;
      assert kept[i] in kept;
    }
  }

  lemma {:induction false} KeptUnion(E: Engine, ns: Set, xs: seq<Text>, db: Database)
    requires ns.MapSet? && AreForwarded(E, xs) && KeepsEach(E, ns, xs)
    ensures SelectAny(E, Restrict(db, ns.keys), KeptIn(E, xs)) == SelectAny(E, Restrict(db, ns.keys), SelectorsIn(xs))
  {
    if db != [] {
      KeptUnion(E, ns, xs, db[1..]);
      if Label(db[0], NAMESPACE) in ns.keys {
        assert Restrict(db, ns.keys)[1..] == Restrict(db[1..], ns.keys);
        KeptSatisfies(E, ns, xs, db[0]);
      }
    }
  }

  /** A list of printed selectors is exact when printing loses nothing in any of them. */
  lemma PrintedUnionIsExact(E: Engine, ns: Set, xs: seq<Text>, xs': seq<Text>, db: Database)
    requires Fits(E, ns, db) && AreForwarded(E, xs) && ArePrintedTexts(E, ns, xs, xs') && KeepsEach(E, ns, xs)
    ensures AllSelectors(xs')
    ensures SelectAny(E, db, SelectorsIn(xs')) == SelectAny(E, Restrict(db, ns.keys), SelectorsIn(xs))
  {
    PrintedUnion(E, ns, xs, xs', db);
    KeptUnion(E, ns, xs, db);
  }
}
