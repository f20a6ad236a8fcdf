/** Strings the way the Go code orders, joins and reads them. */
module Strings {

  /** The order of `sort.Strings`: lexicographic. */
  predicate Less(a: string, b: string) {
    b != [] && (a == [] || a[0] < b[0] || (a[0] == b[0] && Less(a[1..], b[1..])))
  }

  lemma {:induction false} LessIrreflexive(a: string)
    ensures !Less(a, a)
  {
    if a != [] {
      LessIrreflexive(a[1..]);
    }
  }

  lemma {:induction false} LessTransitive(a: string, b: string, c: string)
    requires Less(a, b) && Less(b, c)
    ensures Less(a, c)
  {
    if a != [] && a[0] == b[0] && b[0] == c[0] {
      LessTransitive(a[1..], b[1..], c[1..]);
    }
  }

  lemma {:induction false} LessTotal(a: string, b: string)
    ensures a == b || Less(a, b) || Less(b, a)
  {
    if a != [] && b != [] && a[0] == b[0] {
      LessTotal(a[1..], b[1..]);
      assert a == [a[0]] + a[1..] && b == [b[0]] + b[1..];
    }
  }

  /** `a` and `b` first differ at `i`, where `a` has the smaller character. */
  predicate DifferAt(a: string, b: string, i: int) {
    0 <= i < |a| && i < |b| && a[..i] == b[..i] && a[i] < b[i]
  }

  /** A string comes before another that continues it, and else the first difference decides. */
  lemma {:induction false} LessIsLexicographic(a: string, b: string)
    ensures Less(a, b) <==> (|a| < |b| && a <= b) || exists i :: DifferAt(a, b, i)
  {
    if a == [] {
      assert forall i :: !DifferAt(a, b, i);
    } else if b != [] && a[0] == b[0] {
      var l, r := a[1..], b[1..];
      LessIsLexicographic(l, r);
      assert a == [a[0]] + l && b == [b[0]] + r;
      assert a <= b <==> l <= r;
      if i :| DifferAt(l, r, i) {
        assert a[..i + 1] == [a[0]] + l[..i] && b[..i + 1] == [b[0]] + r[..i];
        assert DifferAt(a, b, i + 1);
      }
      if i :| DifferAt(a, b, i) {
        assert l[..i - 1] == a[..i][1..] && r[..i - 1] == b[..i][1..];
        assert DifferAt(l, r, i - 1);
      }
    } else if b != [] {
      assert a[0] < b[0] ==> DifferAt(a, b, 0);
      assert forall i | DifferAt(a, b, i) :: i == 0;
    }
  }

  predicate StrictlyIncreasing(xs: seq<string>) {
    forall i, j | 0 <= i < j < |xs| :: Less(xs[i], xs[j])
  }

  function Elements(xs: seq<string>): set<string> {
    set x | x in xs
  }

  /** A strictly increasing list is determined by its elements. */
  lemma {:induction false} IncreasingListsAreCanonical(xs: seq<string>, ys: seq<string>)
    requires StrictlyIncreasing(xs) && StrictlyIncreasing(ys)
    requires Elements(xs) == Elements(ys)
    ensures xs == ys
  {
    if xs == [] || ys == [] {
      NoElements(xs);
      NoElements(ys);
    } else {
      HeadsAgree(xs, ys);
      TailElements(xs);
      TailElements(ys);
      IncreasingListsAreCanonical(xs[1..], ys[1..]);
      assert xs == [xs[0]] + xs[1..] && ys == [ys[0]] + ys[1..];
    }
  }

  lemma NoElements(xs: seq<string>)
    ensures Elements(xs) == {} <==> xs == []
  {
    if xs != [] {
      assert xs[0] in Elements(xs);
    }
  }

  lemma HeadsAgree(xs: seq<string>, ys: seq<string>)
    requires StrictlyIncreasing(xs) && StrictlyIncreasing(ys)
    requires Elements(xs) == Elements(ys)
    requires xs != [] && ys != []
    ensures xs[0] == ys[0]
  {
    assert xs[0] in Elements(ys) && ys[0] in Elements(xs);
    if xs[0] != ys[0] {
      assert Less(ys[0], xs[0]) && Less(xs[0], ys[0]);
      LessTransitive(xs[0], ys[0], xs[0]);
      LessIrreflexive(xs[0]);
    }
  }

  lemma TailElements(xs: seq<string>)
    requires StrictlyIncreasing(xs) && xs != []
    ensures Elements(xs[1..]) == Elements(xs) - {xs[0]}
  {
    LessIrreflexive(xs[0]);
    assert forall x | x in xs :: x == xs[0] || x in xs[1..];
  }

  lemma {:induction false} IncreasingListsHaveNoRepeats(xs: seq<string>)
    requires StrictlyIncreasing(xs)
    ensures |Elements(xs)| == |xs|
  {
    if xs == [] {
      NoElements(xs);
    } else {
      TailElements(xs);
      IncreasingListsHaveNoRepeats(xs[1..]);
      assert xs[0] in Elements(xs);
    }
  }

  /** `strings.Join(parts, "|")` */
  function Join(parts: seq<string>): string {
    if parts == [] then ""
    else if |parts| == 1 then parts[0]
    else parts[0] + "|" + Join(parts[1..])
  }

  /** The branches of a pattern, cut at every top-level `|`. */
  function Split(s: string): (parts: seq<string>)
    ensures parts != []
  {
    if s == "" then [""]
    else if s[0] == '|' then [""] + Split(s[1..])
    else
      var rest := Split(s[1..]);
      [[s[0]] + rest[0]] + rest[1..]
  }

  predicate BarFree(s: string) {
    '|' !in s
  }

  lemma {:induction false} SplitAtFirstBar(p: string, s: string)
    requires BarFree(p)
    ensures Split(p) == [p]
    ensures Split(p + "|" + s) == [p] + Split(s)
  {
    var whole := p + "|" + s;
    if p == "" {
      assert whole[1..] == s;
    } else {
      assert whole[1..] == p[1..] + "|" + s;
      SplitAtFirstBar(p[1..], s);
      assert p == [p[0]] + p[1..];
    }
  }

  /** Splitting undoes joining, for every non-empty list of names without `|`. */
  lemma {:induction false} SplitUndoesJoin(parts: seq<string>)
    requires parts != []
    requires forall p | p in parts :: BarFree(p)
    ensures Split(Join(parts)) == parts
  {
    SplitAtFirstBar(parts[0], Join(parts[1..]));
    if |parts| > 1 {
      SplitUndoesJoin(parts[1..]);
    }
    assert parts == [parts[0]] + parts[1..];
  }

  /** Joining undoes splitting, for every string. */
  lemma {:induction false} JoinUndoesSplit(s: string)
    ensures Join(Split(s)) == s
  {
    if s != "" {
      var rest := Split(s[1..]);
      JoinUndoesSplit(s[1..]);
      assert s == [s[0]] + s[1..];
      if s[0] == '|' {
        assert ([""] + rest)[1..] == rest;
      } else {
        var parts := [[s[0]] + rest[0]] + rest[1..];
        assert parts[1..] == rest[1..];
      }
    }
  }

  /** The characters of a joined list are those of its parts, and `|`. */
  lemma {:induction false} JoinCharacters(parts: seq<string>, c: char)
    requires c in Join(parts)
    ensures c == '|' || exists p | p in parts :: c in p
  {
    if |parts| == 1 {
      assert parts[0] in parts;
    } else if |parts| > 1 {
      if c in parts[0] {
        assert parts[0] in parts;
      } else if c != '|' {
        JoinCharacters(parts[1..], c);
        var p :| p in parts[1..] && c in p;
        assert p in parts;
      }
    }
  }
}
