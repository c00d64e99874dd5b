/**
 * The enumeration orders of Python's `itertools.combinations`, which fix the
 * order in which every pairwise check and the subset search visit candidates.
 */
module Itertools {

  /** Lexicographic order on index pairs: the order `combinations(range(n), 2)` yields them. */
  predicate PairBefore(p: (nat, nat), q: (nat, nat)) {
    p.0 < q.0 || (p.0 == q.0 && p.1 < q.1)
  }

  /** The rows of `combinations(range(n), 2)` whose first index is at least `i`. */
  function PairsFrom(i: nat, n: nat): (r: seq<(nat, nat)>)
    ensures forall k :: 0 <= k < |r| ==> i <= r[k].0 < r[k].1 < n
    decreases n - i
  {
    if i >= n then []
    else seq(n - i - 1, k requires 0 <= k < n - i - 1 => (i, i + 1 + k)) + PairsFrom(i + 1, n)
  }

  /** `itertools.combinations(range(n), 2)`: every index pair i < j < n, row by row. */
  function IndexPairs(n: nat): (r: seq<(nat, nat)>)
    ensures forall k :: 0 <= k < |r| ==> r[k].0 < r[k].1 < n
  {
    PairsFrom(0, n)
  }

  lemma {:induction false} PairsFromComplete(i: nat, n: nat, p: (nat, nat))
    requires i <= p.0 < p.1 < n
    ensures p in PairsFrom(i, n)
    decreases p.0 - i
  {
    var row := seq(n - i - 1, k requires 0 <= k < n - i - 1 => (i, i + 1 + k));
    assert PairsFrom(i, n) == row + PairsFrom(i + 1, n);
    if p.0 == i {
      assert row[p.1 - i - 1] == p;
    } else {
      PairsFromComplete(i + 1, n, p);
    }
  }

  lemma {:induction false} PairsFromSorted(i: nat, n: nat)
    ensures forall k, l :: 0 <= k < l < |PairsFrom(i, n)| ==> PairBefore(PairsFrom(i, n)[k], PairsFrom(i, n)[l])
    decreases n - i
  {
    if i < n {
      PairsFromSorted(i + 1, n);
      var row := seq(n - i - 1, k requires 0 <= k < n - i - 1 => (i, i + 1 + k));
      var rest := PairsFrom(i + 1, n);
      var r := PairsFrom(i, n);
      assert r == row + rest;
      forall k, l | 0 <= k < l < |r| ensures PairBefore(r[k], r[l]) {
        if l < |row| {
          assert r[k] == row[k] && r[l] == row[l];
        } else if k < |row| {
          assert r[k] == row[k] && r[l] == rest[l - |row|];
        } else {
          assert r[k] == rest[k - |row|] && r[l] == rest[l - |row|];
        }
      }
    }
  }

  /** The pairs yielded by `combinations(range(n), 2)` are exactly the i < j < n. */
  lemma IndexPairsMembership(n: nat, p: (nat, nat))
    ensures p in IndexPairs(n) <==> p.0 < p.1 < n
  {
    if p.0 < p.1 < n {
      PairsFromComplete(0, n, p);
    }
  }

  /** ... and they come in strictly increasing lexicographic order, so each comes once. */
  lemma IndexPairsSorted(n: nat)
    ensures forall k, l :: 0 <= k < l < |IndexPairs(n)| ==> PairBefore(IndexPairs(n)[k], IndexPairs(n)[l])
  {
    PairsFromSorted(0, n);
  }

  /** Pascal's rule: the number of r-element combinations of n items. */
  function Binomial(n: nat, r: nat): nat {
    if r == 0 then 1
    else if n == 0 then 0
    else Binomial(n - 1, r - 1) + Binomial(n - 1, r)
  }

  lemma {:induction false} BinomialPositive(n: nat, r: nat)
    ensures Binomial(n, r) > 0 <==> r <= n
  {
    if r > 0 && n > 0 {
      BinomialPositive(n - 1, r - 1);
      BinomialPositive(n - 1, r);
    }
  }

  /** `c` is obtained from `s` by deleting elements, keeping the order of the rest. */
  predicate SubseqOf<T(==)>(c: seq<T>, s: seq<T>)
    decreases |s|
  {
    if c == [] then true
    else if s == [] then false
    else (c[0] == s[0] && SubseqOf(c[1..], s[1..])) || SubseqOf(c, s[1..])
  }

  function Prepend<T>(x: T, cs: seq<seq<T>>): (r: seq<seq<T>>)
    ensures |r| == |cs|
    ensures forall k :: 0 <= k < |cs| ==> r[k] == [x] + cs[k]
  {
    seq(|cs|, k requires 0 <= k < |cs| => [x] + cs[k])
  }

  /**
   * `itertools.combinations(xs, r)` as a list of lists: the r-element selections
   * in lexicographic order of positions (those that keep xs[0] come first).
   */
  function Combinations<T(==)>(xs: seq<T>, r: nat): (cs: seq<seq<T>>)
    ensures |cs| == Binomial(|xs|, r)
    ensures forall k :: 0 <= k < |cs| ==> |cs[k]| == r && SubseqOf(cs[k], xs)
    decreases |xs|
  {
    if r == 0 then [[]]
    else if xs == [] then []
    else
      var tails := Combinations(xs[1..], r - 1);
      var keep := Prepend(xs[0], tails);
      var skip := Combinations(xs[1..], r);
      assert forall k :: 0 <= k < |keep| ==> |keep[k]| == r && SubseqOf(keep[k], xs) by {
        forall k | 0 <= k < |keep| ensures |keep[k]| == r && SubseqOf(keep[k], xs) {
          assert keep[k][0] == xs[0] && keep[k][1..] == tails[k];
        }
      }
      assert forall k :: 0 <= k < |skip| ==> SubseqOf(skip[k], xs) by {
        forall k | 0 <= k < |skip| ensures SubseqOf(skip[k], xs) {
          assert skip[k] != [];
        }
      }
      keep + skip
  }

  /** The positions in `p` strictly increase. */
  predicate Increasing(p: seq<nat>) {
    forall a, b :: 0 <= a < b < |p| ==> p[a] < p[b]
  }

  /** Lexicographic order on position lists of one length. */
  predicate LexLess(a: seq<nat>, b: seq<nat>)
    decreases |a|
  {
    a != [] && b != [] && (a[0] < b[0] || (a[0] == b[0] && LexLess(a[1..], b[1..])))
  }

  /**
   * `combinations(range(lo, n), r)`: the r-element position lists drawn from
   * lo .. n-1, in the order `combinations` yields them.
   */
  function PositionCombinations(lo: nat, n: nat, r: nat): (ps: seq<seq<nat>>)
    requires lo <= n
    ensures forall k :: 0 <= k < |ps| ==> |ps[k]| == r && Increasing(ps[k])
    ensures forall k, m :: 0 <= k < |ps| && 0 <= m < |ps[k]| ==> lo <= ps[k][m] < n
    decreases n - lo
  {
    if r == 0 then [[]]
    else if lo == n then []
    else
      var tails := PositionCombinations(lo + 1, n, r - 1);
      var keep := Prepend(lo, tails);
      assert forall k :: 0 <= k < |keep| ==> keep[k][1..] == tails[k];
      keep + PositionCombinations(lo + 1, n, r)
  }

  /** The elements of `xs` at the positions `p`. */
  function Select<T>(xs: seq<T>, p: seq<nat>): (r: seq<T>)
    requires forall m :: 0 <= m < |p| ==> p[m] < |xs|
    ensures |r| == |p| && forall m :: 0 <= m < |p| ==> r[m] == xs[p[m]]
  {
    seq(|p|, m requires 0 <= m < |p| => xs[p[m]])
  }

  /** A list drawn from `cs` reappears, headed by `x`, among `Prepend(x, cs)`. */
  lemma PrependMember<T>(x: T, t: seq<T>, cs: seq<seq<T>>)
    requires t in cs
    ensures [x] + t in Prepend(x, cs)
  {
    var k :| 0 <= k < |cs| && cs[k] == t;
    assert Prepend(x, cs)[k] == [x] + t;
  }

  /** Every increasing position list of length r within lo .. n-1 is yielded. */
  lemma {:induction false} PositionCombinationsComplete(lo: nat, n: nat, p: seq<nat>)
    requires lo <= n && Increasing(p)
    requires forall m :: 0 <= m < |p| ==> lo <= p[m] < n
    ensures p in PositionCombinations(lo, n, |p|)
    decreases n - lo
  {
    if p != [] {
      var r := |p|;
      assert lo <= p[0] < n;
      var tails := PositionCombinations(lo + 1, n, r - 1);
      var skip := PositionCombinations(lo + 1, n, r);
      assert PositionCombinations(lo, n, r) == Prepend(lo, tails) + skip;
      if p[0] == lo {
        var t := p[1..];
        forall a, b | 0 <= a < b < |t| ensures t[a] < t[b] {
          assert t[a] == p[a + 1] && t[b] == p[b + 1];
        }
        forall m | 0 <= m < |t| ensures lo + 1 <= t[m] < n {
          assert t[m] == p[m + 1] && p[0] < p[m + 1];
        }
        PositionCombinationsComplete(lo + 1, n, t);
        PrependMember(lo, t, tails);
        assert [lo] + t == p;
      } else {
        forall m | 0 <= m < |p| ensures lo + 1 <= p[m] < n {
          assert m == 0 || p[0] < p[m];
        }
        PositionCombinationsComplete(lo + 1, n, p);
      }
    }
  }

  /** Position lists in strictly increasing lexicographic order. */
  predicate LexSorted(ps: seq<seq<nat>>) {
    forall k, l :: 0 <= k < l < |ps| ==> LexLess(ps[k], ps[l])
  }

  /** The position lists come in strictly increasing lexicographic order, so none repeats. */
  lemma {:induction false} PositionCombinationsSorted(lo: nat, n: nat, r: nat)
    requires lo <= n
    ensures LexSorted(PositionCombinations(lo, n, r))
    decreases n - lo
  {
    if r > 0 && lo < n {
      var ps := PositionCombinations(lo, n, r);
      var tails := PositionCombinations(lo + 1, n, r - 1);
      var skip := PositionCombinations(lo + 1, n, r);
      PositionCombinationsSorted(lo + 1, n, r - 1);
      PositionCombinationsSorted(lo + 1, n, r);
      assert ps == Prepend(lo, tails) + skip;
      forall k, l | 0 <= k < l < |ps| ensures LexLess(ps[k], ps[l]) {
        if l < |tails| {
          assert LexLess(tails[k], tails[l]);
          assert ps[k] == [lo] + tails[k] && ps[l] == [lo] + tails[l];
          assert ps[k][1..] == tails[k] && ps[l][1..] == tails[l];
        } else if k < |tails| {
          assert ps[k] == [lo] + tails[k] && ps[l] == skip[l - |tails|];
          assert |ps[l]| == r && ps[l][0] >= lo + 1;
        } else {
          assert LexLess(skip[k - |tails|], skip[l - |tails|]);
          assert ps[k] == skip[k - |tails|] && ps[l] == skip[l - |tails|];
        }
      }
    }
  }

  /** The combinations of a suffix `xs[lo..]` are the selections by the position lists of lo .. |xs|-1. */
  lemma {:induction false} CombinationsSelectFrom<T>(xs: seq<T>, lo: nat, r: nat)
    requires lo <= |xs|
    ensures var ps := PositionCombinations(lo, |xs|, r);
            |Combinations(xs[lo..], r)| == |ps|
            && forall k :: 0 <= k < |ps| ==> Combinations(xs[lo..], r)[k] == Select(xs, ps[k])
    decreases |xs| - lo
  {
    if r > 0 && lo < |xs| {
      var ps := PositionCombinations(lo, |xs|, r);
      var tails := PositionCombinations(lo + 1, |xs|, r - 1);
      var skip := PositionCombinations(lo + 1, |xs|, r);
      CombinationsSelectFrom(xs, lo + 1, r - 1);
      CombinationsSelectFrom(xs, lo + 1, r);
      var ys := xs[lo..];
      assert ys[0] == xs[lo] && ys[1..] == xs[lo + 1..];
      var cs := Combinations(ys, r);
      var keepC := Prepend(xs[lo], Combinations(xs[lo + 1..], r - 1));
      var skipC := Combinations(xs[lo + 1..], r);
      assert cs == keepC + skipC;
      assert ps == Prepend(lo, tails) + skip;
      forall k | 0 <= k < |ps| ensures cs[k] == Select(xs, ps[k]) {
        if k < |tails| {
          assert cs[k] == [xs[lo]] + Select(xs, tails[k]);
          SelectCons(xs, lo, tails[k]);
        } else {
          assert cs[k] == skipC[k - |tails|] && ps[k] == skip[k - |tails|];
        }
      }
    }
  }

  /** Selecting at `[i] + p` is the element at i followed by the selection at p. */
  lemma SelectCons<T>(xs: seq<T>, i: nat, p: seq<nat>)
    requires i < |xs| && forall m :: 0 <= m < |p| ==> p[m] < |xs|
    ensures Select(xs, [i] + p) == [xs[i]] + Select(xs, p)
  {
    assert forall m :: 0 <= m < |[i] + p| ==> ([i] + p)[m] < |xs|;
  }

  /**
   * `combinations(xs, r)` selects from xs by `combinations(range(len(xs)), r)`:
   * every increasing choice of r positions is yielded, and the choices come in
   * strictly increasing lexicographic order, each once.
   */
  lemma CombinationsByPositions<T>(xs: seq<T>, r: nat)
    ensures var ps := PositionCombinations(0, |xs|, r);
            && |Combinations(xs, r)| == |ps|
            && (forall k :: 0 <= k < |ps| ==> Combinations(xs, r)[k] == Select(xs, ps[k]))
            && LexSorted(ps)
            && (forall p :: |p| == r && Increasing(p) && (forall m :: 0 <= m < r ==> p[m] < |xs|) ==> p in ps)
  {
    CombinationsSelectFrom(xs, 0, r);
    assert xs[0..] == xs;
    PositionCombinationsSorted(0, |xs|, r);
    forall p | |p| == r && Increasing(p) && (forall m :: 0 <= m < r ==> p[m] < |xs|)
      ensures p in PositionCombinations(0, |xs|, r)
    {
      PositionCombinationsComplete(0, |xs|, p);
    }
  }

  /** Two positions i < j of a subsequence come from two positions i' < j' of the sequence. */
  lemma {:induction false} SubseqPair<T>(c: seq<T>, s: seq<T>, i: nat, j: nat)
    requires SubseqOf(c, s) && i < j < |c|
    ensures exists i', j' :: 0 <= i' < j' < |s| && s[i'] == c[i] && s[j'] == c[j]
    decreases |s|
  {
    if c[0] == s[0] && SubseqOf(c[1..], s[1..]) {
      if i == 0 {
        SubseqElement(c[1..], s[1..], j - 1);
        var j'' :| 0 <= j'' < |s[1..]| && s[1..][j''] == c[1..][j - 1];
        assert s[0] == c[0] && s[j'' + 1] == c[j];
      } else {
        SubseqPair(c[1..], s[1..], i - 1, j - 1);
        var i'', j'' :| 0 <= i'' < j'' < |s[1..]| && s[1..][i''] == c[1..][i - 1] && s[1..][j''] == c[1..][j - 1];
        assert s[i'' + 1] == c[i] && s[j'' + 1] == c[j];
      }
    } else {
      SubseqPair(c, s[1..], i, j);
      var i'', j'' :| 0 <= i'' < j'' < |s[1..]| && s[1..][i''] == c[i] && s[1..][j''] == c[j];
      assert s[i'' + 1] == c[i] && s[j'' + 1] == c[j];
    }
  }

  /** Every element of a subsequence occurs in the sequence. */
  lemma {:induction false} SubseqElement<T>(c: seq<T>, s: seq<T>, i: nat)
    requires SubseqOf(c, s) && i < |c|
    ensures exists i' :: 0 <= i' < |s| && s[i'] == c[i]
    decreases |s|
  {
    if c[0] == s[0] && SubseqOf(c[1..], s[1..]) {
      if i == 0 {
        assert s[0] == c[0];
      } else {
        SubseqElement(c[1..], s[1..], i - 1);
        var i'' :| 0 <= i'' < |s[1..]| && s[1..][i''] == c[1..][i - 1];
        assert s[i'' + 1] == c[i];
      }
    } else {
      SubseqElement(c, s[1..], i);
      var i'' :| 0 <= i'' < |s[1..]| && s[1..][i''] == c[i];
      assert s[i'' + 1] == c[i];
    }
  }
}
