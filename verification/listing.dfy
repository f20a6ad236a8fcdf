/** `pkg/prom/query.go`: the expression that lists metric names, and what it evaluates to. */
module Listing {
  import opened Data
  import opened Matchers
  import opened Storage
  import opened PromQL
  import opened Meaning

  /** `NewExprForCountAllLabels`: `count ({namespace...}) by (__name__)`. */
  function NewExprForCountAllLabels(namespaces: seq<string>): Expr {
    Apply(AggregateOp("count", [METRIC_NAME], false), [NewInstantVectorSelectorsForNamespaces(namespaces)])
  }

  function NewInstantVectorSelectorsForNamespaces(namespaces: seq<string>): Expr {
    VectorSelector("", 0, [Encode(NAMESPACE, namespaces)])
  }

  function NameOf(labels: map<string, string>): string {
    if METRIC_NAME in labels then labels[METRIC_NAME] else ""
  }

  datatype Group = Group(name: string, count: nat)

  function AddTo(groups: seq<Group>, name: string): seq<Group> {
    if groups == [] then [Group(name, 1)]
    else if groups[0].name == name then [Group(name, groups[0].count + 1)] + groups[1..]
    else [groups[0]] + AddTo(groups[1..], name)
  }

  /** `count ... by (__name__)`: one group per name, in order of first appearance. */
  function GroupByName(samples: seq<Sample>): seq<Group> {
    if samples == [] then []
    else AddTo(GroupByName(samples[..|samples| - 1]), NameOf(samples[|samples| - 1].labels))
  }

  function ToSamples(groups: seq<Group>, t: int): seq<Sample> {
    seq(|groups|, i requires 0 <= i < |groups| =>
      Sample(if groups[i].name == "" then map[] else map[METRIC_NAME := groups[i].name], t, groups[i].count as real))
  }

  /** The query engine counts by name: `count by (__name__)` of samples has one sample for each group of them. */
  ghost predicate CountsByName(I: Interpretation) {
    forall skeletons, samples, t ::
      I.operator(AggregateOp("count", ["__name__"], false), skeletons, [Vector(samples)], t) == Vector(ToSamples(GroupByName(samples), t))
  }

  predicate HasDistinctNames(groups: seq<Group>) {
    forall i, j | 0 <= i < j < |groups| :: groups[i].name != groups[j].name
  }

  ghost predicate HasGroup(groups: seq<Group>, name: string) {
    exists i | 0 <= i < |groups| :: groups[i].name == name
  }

  function Total(groups: seq<Group>): nat {
    if groups == [] then 0 else groups[0].count + Total(groups[1..])
  }

  lemma {:induction false} AddingKeepsNamesDistinct(groups: seq<Group>, name: string)
    requires HasDistinctNames(groups)
    ensures HasDistinctNames(AddTo(groups, name))
    ensures forall n :: HasGroup(AddTo(groups, name), n) <==> HasGroup(groups, n) || n == name
    ensures Total(AddTo(groups, name)) == Total(groups) + 1
  {
    var added := AddTo(groups, name);
    if groups == [] {
      assert added[0].name == name && added[1..] == [];
    } else if groups[0].name == name {
      assert added[1..] == groups[1..];
      assert forall i | 0 <= i < |groups| :: added[i].name == groups[i].name;
      assert forall n | HasGroup(groups, n) :: HasGroup(added, n);
    } else {
      var rest := AddTo(groups[1..], name);
      AddingKeepsNamesDistinct(groups[1..], name);
      assert added[1..] == rest;
      HeadOrTail(groups);
      HeadOrTail(added);
      assert forall k | 0 <= k < |groups[1..]| :: groups[1..][k] == groups[k + 1];
      forall j | 1 <= j < |added| ensures added[j].name != added[0].name {
        assert rest[j - 1] == added[j];
        assert HasGroup(rest, added[j].name);
      }
      forall i, j | 0 <= i < j < |added| ensures added[i].name != added[j].name {
        if i > 0 { assert rest[i - 1].name != rest[j - 1].name; }
      }
    }
  }

  lemma HeadOrTail(groups: seq<Group>)
    requires groups != []
    ensures forall n :: HasGroup(groups, n) <==> n == groups[0].name || HasGroup(groups[1..], n)
  {
  }

  /** Grouping yields each name once, no other name, and counts every sample once. */
  lemma {:induction false} GroupsAreTheNames(samples: seq<Sample>)
    ensures HasDistinctNames(GroupByName(samples))
    ensures forall n :: HasGroup(GroupByName(samples), n) <==> exists s | s in samples :: NameOf(s.labels) == n
    ensures Total(GroupByName(samples)) == |samples|
  {
    if samples != [] {
      var init, last := samples[..|samples| - 1], samples[|samples| - 1];
      GroupsAreTheNames(init);
      AddingKeepsNamesDistinct(GroupByName(init), NameOf(last.labels));
      assert forall s :: s in samples <==> s in init || s == last;
    }
  }

  /** The handler's loop over the answer. */
  function NamesOf(samples: seq<Sample>): (names: seq<string>)
    ensures |names| == |samples|
    ensures forall i | 0 <= i < |names| :: names[i] == NameOf(samples[i].labels)
  {
    seq(|samples|, i requires 0 <= i < |samples| => NameOf(samples[i].labels))
  }

  lemma {:induction false} SampledSeries(I: Interpretation, db: Database, t: int, name: string)
    ensures (exists x | x in Instant(I, db, t) :: NameOf(x.labels) == name)
            <==> (exists s | s in db :: I.sample(s, t).Some? && Label(s, METRIC_NAME) == name)
  {
    if db != [] {
      SampledSeries(I, db[1..], t, name);
      var rest := Instant(I, db[1..], t);
      if I.sample(db[0], t).Some? {
        var p := I.sample(db[0], t).value;
        var head := Sample(db[0].labels, p.time, p.value);
        assert Instant(I, db, t) == [head] + rest;
        assert NameOf(head.labels) == Label(db[0], METRIC_NAME);
        assert forall x :: x in Instant(I, db, t) <==> x == head || x in rest;
      }
      assert forall s :: s in db <==> s == db[0] || s in db[1..];
    }
  }

  /** The listing counts the caller's own series that have a sample at the time. */
  lemma ListingValue(E: Engine, I: Interpretation, ns: Set, db: Database, t: int)
    requires Fits(E, ns, db) && CountsByName(I)
    ensures Eval(E, I, db, NewExprForCountAllLabels(ValuesOf(ns.keys)), t)
            == Vector(ToSamples(GroupByName(Instant(I, Restrict(db, ns.keys), t)), t))
  {
    var selector := NewInstantVectorSelectorsForNamespaces(ValuesOf(ns.keys));
    var samples := Instant(I, Restrict(db, ns.keys), t);
    SelectionIsExact(E, ns, [], db);
    assert selector.matchers == FilterMatchers(E, ns, []);
    SelectingAll(E, Restrict(db, ns.keys));
    assert EvalAll(E, I, db, [selector], t) == [Vector(samples)] by {
      assert EvalAll(E, I, db, [], t) == [];
    }
  }

  ghost predicate OwnsSampledSeries(I: Interpretation, ns: Set, db: Database, t: int, name: string) {
    exists s | s in db ::
      Label(s, "namespace") in ns.Keys() && I.sample(s, t).Some? && Label(s, "__name__") == name
  }

  /** The names the listing yields: each once, and exactly those of series in the set with a sample at the time. */
  lemma ListingIsExact(E: Engine, I: Interpretation, ns: Set, db: Database, t: int)
    requires Fits(E, ns, db) && CountsByName(I)
    ensures var value := Eval(E, I, db, NewExprForCountAllLabels(ValuesOf(ns.keys)), t);
            && value.Vector?
            && var names := NamesOf(value.samples);
               && (forall i, j | 0 <= i < j < |names| :: names[i] != names[j])
               && (forall n :: n in names <==> OwnsSampledSeries(I, ns, db, t, n))
  {
    var own := Restrict(db, ns.keys);
    var groups := GroupByName(Instant(I, own, t));
    var names := NamesOf(ToSamples(groups, t));
    ListingValue(E, I, ns, db, t);
    GroupsAreTheNames(Instant(I, own, t));
    assert forall i | 0 <= i < |names| :: names[i] == groups[i].name;
    forall n ensures n in names <==> OwnsSampledSeries(I, ns, db, t, n) {
      assert n in names <==> HasGroup(groups, n);
      SampledSeries(I, own, t, n);
      OwnedSeries(ns, db);
    }
  }

  lemma OwnedSeries(ns: Set, db: Database)
    ensures forall s :: s in Restrict(db, ns.Keys()) <==> s in db && Label(s, NAMESPACE) in ns.Keys()
  {
  }

  lemma {:induction false} SelectingAll(E: Engine, db: Database)
    ensures Select(E, db, []) == db
  {
    if db != [] {
      SelectingAll(E, db[1..]);
      assert db == [db[0]] + db[1..];
    }
  }
}
