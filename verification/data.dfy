/**
 * `pkg/data/set.go` and the list helpers of `pkg/prom/join.go`: the set of
 * namespaces and its canonical enumeration.
 */
module Data {
  import opened Strings

  /** A Go `map[string]struct{}`: nil, or a map with these keys. */
  datatype Set = NilSet | MapSet(keys: set<string>) {
    function Keys(): set<string> {
      match this
      case NilSet => {}
      case MapSet(keys) => keys
    }
  }

  ghost predicate IsLeast(m: string, s: set<string>) {
    m in s && forall x | x in s :: x == m || Less(m, x)
  }

  lemma {:induction false} LeastExists(s: set<string>)
    requires s != {}
    ensures exists m :: IsLeast(m, s)
    decreases |s|
  {
    var x :| x in s;
    var rest := s - {x};
    if rest == {} {
      assert s == {x};
      assert IsLeast(x, s);
    } else {
      LeastExists(rest);
      var m :| IsLeast(m, rest);
      LessTotal(m, x);
      if Less(m, x) {
        assert IsLeast(m, s);
      } else {
        forall y | y in s ensures y == x || Less(x, y) {
          if y != x && y != m { LessTransitive(x, m, y); }
        }
        assert IsLeast(x, s);
      }
    }
  }

  lemma LeastFirst(m: string, rest: seq<string>, s: set<string>)
    requires IsLeast(m, s)
    requires StrictlyIncreasing(rest) && Elements(rest) == s - {m}
    ensures StrictlyIncreasing([m] + rest)
    ensures Elements([m] + rest) == s
  {
    assert forall x | x in rest :: x in Elements(rest) && Less(m, x);
    assert Elements([m] + rest) == {m} + Elements(rest);
  }

  /** The elements of `s` in strictly increasing order. */
  ghost function Enumerate(s: set<string>): (r: seq<string>)
    ensures StrictlyIncreasing(r)
    ensures Elements(r) == s
    decreases |s|
  {
    if s == {} then []
    else
      LeastExists(s);
      var m :| IsLeast(m, s);
      var rest := Enumerate(s - {m});
      LeastFirst(m, rest, s);
      [m] + rest
  }

  /** What `Set.Values` returns, on the keys alone: sorted, without the empty string. */
  ghost function ValuesOf(keys: set<string>): (r: seq<string>)
    ensures StrictlyIncreasing(r)
    ensures Elements(r) == keys - {""}
    ensures forall x :: x in r <==> x in keys && x != ""
  {
    var r := Enumerate(keys - {""});
    assert forall x :: x in r <==> x in Elements(r);
    r
  }

  /** `Values` is the only strictly increasing list of the non-empty keys. */
  lemma ValuesIsCanonical(keys: set<string>, r: seq<string>)
    requires StrictlyIncreasing(r)
    requires forall x :: x in r <==> x in keys && x != ""
    ensures r == ValuesOf(keys)
  {
    assert Elements(r) == Elements(ValuesOf(keys));
    IncreasingListsAreCanonical(r, ValuesOf(keys));
  }

  /** The sublist of the elements that satisfy `keep`, in order. */
  function Keep(xs: seq<string>, keep: string -> bool): (r: seq<string>)
    ensures forall x :: x in r <==> x in xs && keep(x)
  {
    if xs == [] then []
    else (if keep(xs[0]) then [xs[0]] else []) + Keep(xs[1..], keep)
  }

  lemma {:induction false} KeepIsIncreasing(xs: seq<string>, keep: string -> bool)
    requires StrictlyIncreasing(xs)
    ensures StrictlyIncreasing(Keep(xs, keep))
  {
    if xs != [] {
      KeepIsIncreasing(xs[1..], keep);
      var rest := Keep(xs[1..], keep);
      assert forall x | x in rest :: Less(xs[0], x);
    }
  }

  /** Filtering the enumeration is enumerating the filtered set. */
  lemma FilteringCommutesWithValues(keys: set<string>, keep: string -> bool)
    ensures Keep(ValuesOf(keys), keep) == ValuesOf(set k | k in keys && keep(k))
  {
    KeepIsIncreasing(ValuesOf(keys), keep);
    var kept := set k | k in keys && keep(k);
    ValuesIsCanonical(kept, Keep(ValuesOf(keys), keep));
  }

  function Without(xs: seq<string>, ignore: string): seq<string> {
    Keep(xs, value => ignore != value)
  }

  /** Ignoring a member in the enumeration is enumerating the set without it. */
  lemma IgnoringCommutesWithValues(keys: set<string>, ignore: string)
    ensures Without(ValuesOf(keys), ignore) == ValuesOf(keys - {ignore})
  {
    KeepIsIncreasing(ValuesOf(keys), value => ignore != value);
    ValuesIsCanonical(keys - {ignore}, Without(ValuesOf(keys), ignore));
  }

  lemma {:induction false} KeepAppend(xs: seq<string>, x: string, keep: string -> bool)
    ensures Keep(xs + [x], keep) == Keep(xs, keep) + (if keep(x) then [x] else [])
  {
    if xs != [] {
      assert (xs + [x])[1..] == xs[1..] + [x];
      KeepAppend(xs[1..], x, keep);
    } else {
      assert xs + [x] == [x];
    }
  }

  method StringSliceFilter(strSlice: seq<string>, filter: string -> bool) returns (matchNss: seq<string>)
    ensures matchNss == Keep(strSlice, filter)
  {
    matchNss := [];
    for i := 0 to |strSlice|
      invariant matchNss == Keep(strSlice[..i], filter)
    {
      KeepAppend(strSlice[..i], strSlice[i], filter);
      assert strSlice[..i + 1] == strSlice[..i] + [strSlice[i]];
      if filter(strSlice[i]) {
        matchNss := matchNss + [strSlice[i]];
      }
    }
    assert strSlice[..|strSlice|] == strSlice;
  }

  method StringSliceIgnore(strSlice: seq<string>, ignore: string) returns (matchNss: seq<string>)
    ensures matchNss == Without(strSlice, ignore)
  {
    matchNss := StringSliceFilter(strSlice, value => ignore != value);
  }

  /** `sort.Strings` on a slice without duplicates. */
  method SortStrings(xs: seq<string>) returns (r: seq<string>)
    requires forall i, j | 0 <= i < j < |xs| :: xs[i] != xs[j]
    ensures StrictlyIncreasing(r)
    ensures forall x :: x in r <==> x in xs
  {
    r := [];
    for i := 0 to |xs|
      invariant StrictlyIncreasing(r)
      invariant forall x :: x in r <==> x in xs[..i]
    {
      r := InsertSorted(r, xs[i]);
    }
  }

  method InsertSorted(xs: seq<string>, x: string) returns (r: seq<string>)
    requires StrictlyIncreasing(xs) && x !in xs
    ensures StrictlyIncreasing(r)
    ensures forall y :: y in r <==> y in xs || y == x
  {
    var k := 0;
    while k < |xs| && Less(xs[k], x)
      invariant 0 <= k <= |xs|
      invariant forall i | 0 <= i < k :: Less(xs[i], x)
    {
      k := k + 1;
    }
    r := xs[..k] + [x] + xs[k..];
    forall i | k <= i < |xs| ensures Less(x, xs[i]) {
      LessTotal(x, xs[k]);
      if k < i { LessTransitive(x, xs[k], xs[i]); }
    }
    assert forall y :: y in xs <==> y in xs[..k] || y in xs[k..] by { assert xs == xs[..k] + xs[k..]; }
  }

  /** `Set.Values`: collects the keys in whatever order the map yields them, then sorts. */
  method Values(s: Set) returns (ret: seq<string>)
    ensures ret == ValuesOf(s.Keys())
  {
    ret := [];
    var rest := s.Keys();
    var size := |rest|;
    if size == 0 {
      ValuesIsCanonical(s.Keys(), ret);
      return;
    }
    while rest != {}
      invariant rest <= s.Keys()
      invariant forall i, j | 0 <= i < j < |ret| :: ret[i] != ret[j]
      invariant forall x :: x in ret <==> x in s.Keys() - rest && x != ""
      decreases |rest|
    {
      var key :| key in rest;
      assert key !in ret;
      rest := rest - {key};
      if key != "" {
        ret := ret + [key];
      }
    }
    if size > 1 {
      ret := SortStrings(ret);
    } else {
      OneKey(s.Keys());
      assert forall i | 0 <= i < |ret| :: ret[i] in ret;
    }
    ValuesIsCanonical(s.Keys(), ret);
  }

  lemma OneKey(s: set<string>)
    requires |s| == 1
    ensures forall x, y | x in s && y in s :: x == y
  {
    var x :| x in s;
    assert |s - {x}| == 0;
    assert s == {x};
  }

  method NewSet(values: seq<string>) returns (ret: Set)
    ensures ret == MapSet(Elements(values))
  {
    var keys := {};
    for i := 0 to |values|
      invariant keys == Elements(values[..i])
    {
      assert values[..i + 1] == values[..i] + [values[i]];
      keys := keys + {values[i]};
    }
    assert values[..|values|] == values;
    ret := MapSet(keys);
  }
}
