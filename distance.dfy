/**
 * The distance engine of utils.py: fixed-window Hamming distance between
 * barcode sequences, pairwise self-compatibility, the list of incompatible
 * pairs, and the minimum sequence length used as the default window.
 */
module Distance {
  import opened Wrappers
  import opened Itertools

  /** A length as utils.py computes it: a Python int, or `float('inf')` meaning "no bound". */
  datatype Length = Finite(n: nat) | Infinity

  /** Python's `min` and `max` (JavaScript's `Math.min`) on two naturals. */
  function Min(a: nat, b: nat): nat {
    if a <= b then a else b
  }

  function Max(a: nat, b: nat): nat {
    if a <= b then b else a
  }

  /** Python's `min` over two such lengths. */
  function MinLength(a: Length, b: Length): (r: Length)
    ensures r == a || r == b
    ensures r == Infinity <==> a == Infinity && b == Infinity
    ensures r.Finite? && a.Finite? ==> r.n <= a.n
    ensures r.Finite? && b.Finite? ==> r.n <= b.n
  {
    match (a, b)
    case (Infinity, _) => b
    case (_, Infinity) => a
    case (Finite(x), Finite(y)) => Finite(Min(x, y))
  }

  /** `str.upper()` on one character (ASCII letters only). */
  function UpperChar(c: char): char {
    if 'a' <= c <= 'z' then (c as int - 32) as char else c
  }

  /** `str.upper()`: upper-cases ASCII letters and keeps the length. */
  function Upper(s: string): string {
    seq(|s|, i requires 0 <= i < |s| => UpperChar(s[i]))
  }

  /** Python's `s[0:n]` for a non-negative int `n`: the slice stops at the end of `s`. */
  function Prefix(s: string, n: nat): (r: string)
    ensures r <= s && |r| == Min(|s|, n)
  {
    if n <= |s| then s[..n] else s
  }

  /** `sum(1 for a, b in zip(x, y) if a != b)` for equal-length strings. */
  function CountMismatches(x: string, y: string): (r: nat)
    requires |x| == |y|
    ensures r <= |x|
    ensures r == 0 <==> x == y
  {
    if x == [] then 0
    else
      var n := |x| - 1;
      assert x == x[..n] + [x[n]] && y == y[..n] + [y[n]];
      CountMismatches(x[..n], y[..n]) + (if x[n] != y[n] then 1 else 0)
  }

  /** The positions at which two equal-length strings differ. */
  ghost function MismatchPositions(x: string, y: string): set<nat>
    requires |x| == |y|
  {
    set i: nat | i < |x| && x[i] != y[i]
  }

  lemma {:induction false} CountMismatchesIsSize(x: string, y: string)
    requires |x| == |y|
    ensures CountMismatches(x, y) == |MismatchPositions(x, y)|
  {
    if x != [] {
      var n := |x| - 1;
      CountMismatchesIsSize(x[..n], y[..n]);
      var before := MismatchPositions(x[..n], y[..n]);
      assert forall i :: i in before ==> i < n;
      if x[n] != y[n] {
        assert MismatchPositions(x, y) == before + {n};
      } else {
        assert MismatchPositions(x, y) == before;
      }
    }
  }

  /**
   * `hamming_distance(this, that)`: `None` when either string is empty or the
   * lengths differ, otherwise the number of positions at which they differ.
   */
  function HammingDistance(x: string, y: string): (r: Option<nat>)
    ensures r.None? <==> x == [] || y == [] || |x| != |y|
    ensures r.Some? ==> r.value == |MismatchPositions(x, y)|
  {
    if x == [] || y == [] || |x| != |y| then None
    else
      CountMismatchesIsSize(x, y);
      if x == y then Some(0) else Some(CountMismatches(x, y))
  }

  /** Distance 0 exactly for equal strings, and the distance never exceeds the length. */
  lemma HammingZeroIffEqual(x: string, y: string)
    requires x != [] && |x| == |y|
    ensures HammingDistance(x, y) == Some(0) <==> x == y
    ensures HammingDistance(x, y).value <= |x|
  {
    CountMismatchesIsSize(x, y);
  }

  /** The distance does not depend on the order of its arguments. */
  lemma HammingSymmetric(x: string, y: string)
    ensures HammingDistance(x, y) == HammingDistance(y, x)
  {
    if HammingDistance(x, y).Some? {
      assert MismatchPositions(x, y) == MismatchPositions(y, x);
    }
  }

  /**
   * `hamming_distance(a[0:w].upper(), b[0:w].upper()) < min_distance`, the test
   * at utils.py:80-83, 237-239 and 269-272. `Ok(true)` means the pair is too
   * close. Python 3 raises TypeError when the distance is `None` (`None < int`)
   * and when the window is `float('inf')` (slice indices must be integers).
   */
  function TooClose(a: string, b: string, window: Length, minDistance: int): (r: Result<bool>)
    ensures r.Err? ==> r.error == TypeError
    ensures r.Ok? <==> window.Finite? && Prefix(a, window.n) != [] && |Prefix(a, window.n)| == |Prefix(b, window.n)|
    ensures r.Ok? ==> (r.value <==> HammingDistance(Upper(Prefix(a, window.n)), Upper(Prefix(b, window.n))).value < minDistance)
  {
    match window
    case Infinity => Err(TypeError)
    case Finite(n) =>
      match HammingDistance(Upper(Prefix(a, n)), Upper(Prefix(b, n)))
      case None => Err(TypeError)
      case Some(d) => Ok(d < minDistance)
  }

  /** Windows of a common positive length that both sequences reach are always comparable. */
  lemma TooCloseDefined(a: string, b: string, n: nat, minDistance: int)
    requires 0 < n <= |a| && n <= |b|
    ensures TooClose(a, b, Finite(n), minDistance).Ok?
  {
  }

  lemma TooCloseSymmetric(a: string, b: string, window: Length, minDistance: int)
    ensures TooClose(a, b, window, minDistance) == TooClose(b, a, window, minDistance)
  {
    if window.Finite? {
      HammingSymmetric(Upper(Prefix(a, window.n)), Upper(Prefix(b, window.n)));
    }
  }

  /**
   * The verdict for the pair of positions `p` of `xs` (IndexError for a position
   * outside `xs`, which no caller produces).
   */
  function PairTooClose(xs: seq<string>, p: (nat, nat), window: Length, minDistance: int): Result<bool> {
    if p.0 < |xs| && p.1 < |xs| then TooClose(xs[p.0], xs[p.1], window, minDistance) else Err(IndexError)
  }

  /**
   * The early-return scan of utils.py:236-241: the first pair that is too close
   * answers `False`, the first undefined comparison raises, otherwise `True`.
   */
  function ScanPairs(xs: seq<string>, pairs: seq<(nat, nat)>, window: Length, minDistance: int): (r: Result<bool>)
    requires forall k :: 0 <= k < |pairs| ==> pairs[k].0 < |xs| && pairs[k].1 < |xs|
    ensures r == Ok(true) <==> forall k :: 0 <= k < |pairs| ==> PairTooClose(xs, pairs[k], window, minDistance) == Ok(false)
    ensures r.Err? ==> r.error == TypeError
    ensures (forall k :: 0 <= k < |pairs| ==> PairTooClose(xs, pairs[k], window, minDistance).Ok?) ==> r.Ok?
  {
    if pairs == [] then Ok(true)
    else
      match PairTooClose(xs, pairs[0], window, minDistance)
      case Err(e) => Err(e)
      case Ok(true) => Ok(false)
      case Ok(false) =>
        var rest := ScanPairs(xs, pairs[1..], window, minDistance);
        assert forall k :: 1 <= k < |pairs| ==> pairs[k] == pairs[1..][k - 1];
        rest
  }

  /** The pair at position k decides the scan when every pair before it is far enough apart. */
  lemma {:induction false} ScanPairsFirstDecides(xs: seq<string>, pairs: seq<(nat, nat)>, window: Length, minDistance: int, k: nat)
    requires forall l :: 0 <= l < |pairs| ==> pairs[l].0 < |xs| && pairs[l].1 < |xs|
    requires k < |pairs|
    requires forall l :: 0 <= l < k ==> PairTooClose(xs, pairs[l], window, minDistance) == Ok(false)
    ensures PairTooClose(xs, pairs[k], window, minDistance) == Ok(true) ==> ScanPairs(xs, pairs, window, minDistance) == Ok(false)
    ensures PairTooClose(xs, pairs[k], window, minDistance).Err? ==> ScanPairs(xs, pairs, window, minDistance).Err?
  {
    if k > 0 {
      var tail := pairs[1..];
      assert forall l :: 0 <= l < |tail| ==> tail[l] == pairs[l + 1];
      assert PairTooClose(xs, pairs[0], window, minDistance) == Ok(false);
      assert ScanPairs(xs, pairs, window, minDistance) == ScanPairs(xs, tail, window, minDistance);
      ScanPairsFirstDecides(xs, tail, window, minDistance, k - 1);
    }
  }

  /** The window `is_self_compatible` uses: `length`, or the shortest sequence when `length` is None. */
  function EffectiveWindow(xs: seq<string>, length: Option<Length>): Length {
    match length
    case None => MinLength(MinimumIndexLengthFromLists([xs]), Infinity)
    case Some(l) => l
  }

  /** Every pair i < j of `xs` is comparable over `window` and at least `minDistance` apart. */
  ghost predicate AllPairsFar(xs: seq<string>, window: Length, minDistance: int) {
    forall i, j :: 0 <= i < j < |xs| ==> TooClose(xs[i], xs[j], window, minDistance) == Ok(false)
  }

  lemma AllIndexPairsFar(xs: seq<string>, window: Length, minDistance: int)
    ensures forall k :: 0 <= k < |IndexPairs(|xs|)| ==> IndexPairs(|xs|)[k].0 < |xs| && IndexPairs(|xs|)[k].1 < |xs|
    ensures (forall k :: 0 <= k < |IndexPairs(|xs|)| ==> PairTooClose(xs, IndexPairs(|xs|)[k], window, minDistance) == Ok(false))
            <==> AllPairsFar(xs, window, minDistance)
  {
    var pairs := IndexPairs(|xs|);
    forall k | 0 <= k < |pairs| ensures pairs[k].0 < pairs[k].1 < |xs| {
      IndexPairsMembership(|xs|, pairs[k]);
    }
    if forall k :: 0 <= k < |pairs| ==> PairTooClose(xs, pairs[k], window, minDistance) == Ok(false) {
      forall i, j | 0 <= i < j < |xs| ensures TooClose(xs[i], xs[j], window, minDistance) == Ok(false) {
        IndexPairsMembership(|xs|, (i, j));
        var k :| 0 <= k < |pairs| && pairs[k] == (i, j);
        assert PairTooClose(xs, pairs[k], window, minDistance) == Ok(false);
      }
    }
  }

  /**
   * `is_self_compatible(index_list, min_distance, length)` (utils.py:227-241):
   * an empty list is compatible; otherwise each pair of upper-cased windows is
   * tested in `combinations` order.
   */
  function IsSelfCompatible(xs: seq<string>, minDistance: int, length: Option<Length>): (r: Result<bool>)
    ensures |xs| <= 1 ==> r == Ok(true)
    ensures r == Ok(true) <==> |xs| == 0 || AllPairsFar(xs, EffectiveWindow(xs, length), minDistance)
    ensures r.Err? ==> r.error == TypeError
  {
    if |xs| == 0 then Ok(true)
    else
      AllIndexPairsFar(xs, EffectiveWindow(xs, length), minDistance);
      ScanPairs(xs, IndexPairs(|xs|), EffectiveWindow(xs, length), minDistance)
  }

  /** Over any window, the scan of all index pairs is decided by the first pair that is not far enough apart. */
  lemma ScanIndexPairsFirstFailure(xs: seq<string>, window: Length, minDistance: int, i: nat, j: nat)
    requires i < j < |xs|
    requires forall i', j' :: 0 <= i' < j' < |xs| && PairBefore((i', j'), (i, j)) ==>
               TooClose(xs[i'], xs[j'], window, minDistance) == Ok(false)
    ensures forall k :: 0 <= k < |IndexPairs(|xs|)| ==> IndexPairs(|xs|)[k].0 < |xs| && IndexPairs(|xs|)[k].1 < |xs|
    ensures TooClose(xs[i], xs[j], window, minDistance) == Ok(true) ==> ScanPairs(xs, IndexPairs(|xs|), window, minDistance) == Ok(false)
    ensures TooClose(xs[i], xs[j], window, minDistance).Err? ==> ScanPairs(xs, IndexPairs(|xs|), window, minDistance).Err?
  {
    var pairs := IndexPairs(|xs|);
    forall k | 0 <= k < |pairs| ensures pairs[k].0 < pairs[k].1 < |xs| {
      IndexPairsMembership(|xs|, pairs[k]);
    }
    IndexPairsMembership(|xs|, (i, j));
    IndexPairsSorted(|xs|);
    var k :| 0 <= k < |pairs| && pairs[k] == (i, j);
    forall l | 0 <= l < k ensures PairTooClose(xs, pairs[l], window, minDistance) == Ok(false) {
      assert PairBefore(pairs[l], pairs[k]);
    }
    ScanPairsFirstDecides(xs, pairs, window, minDistance, k);
  }

  /**
   * `is_self_compatible` answers False exactly at a too-close pair (i, j) such
   * that every pair before it in `combinations` order is comparable and far
   * enough apart; it raises when an undefined comparison comes first.
   */
  lemma IsSelfCompatibleFirstFailure(xs: seq<string>, minDistance: int, length: Option<Length>, i: nat, j: nat)
    requires i < j < |xs|
    requires forall i', j' :: 0 <= i' < j' < |xs| && PairBefore((i', j'), (i, j)) ==>
               TooClose(xs[i'], xs[j'], EffectiveWindow(xs, length), minDistance) == Ok(false)
    ensures TooClose(xs[i], xs[j], EffectiveWindow(xs, length), minDistance) == Ok(true) ==> IsSelfCompatible(xs, minDistance, length) == Ok(false)
    ensures TooClose(xs[i], xs[j], EffectiveWindow(xs, length), minDistance).Err? ==> IsSelfCompatible(xs, minDistance, length) == Err(TypeError)
  {
    ScanIndexPairsFirstFailure(xs, EffectiveWindow(xs, length), minDistance, i, j);
  }

  /**
   * Dropping sequences from a compatible list keeps it compatible, when the
   * window is given explicitly (as every caller that narrows a list does).
   */
  lemma {:induction false} IsSelfCompatibleSubseq(c: seq<string>, s: seq<string>, minDistance: int, window: Length)
    requires SubseqOf(c, s)
    requires IsSelfCompatible(s, minDistance, Some(window)) == Ok(true)
    ensures IsSelfCompatible(c, minDistance, Some(window)) == Ok(true)
  {
    if |c| > 0 {
      assert AllPairsFar(s, window, minDistance) by {
        SubseqElement(c, s, 0);
      }
      forall i, j | 0 <= i < j < |c| ensures TooClose(c[i], c[j], window, minDistance) == Ok(false) {
        SubseqPair(c, s, i, j);
        var i', j' :| 0 <= i' < j' < |s| && s[i'] == c[i] && s[j'] == c[j];
        assert TooClose(s[i'], s[j'], window, minDistance) == Ok(false);
      }
      assert AllPairsFar(c, window, minDistance);
    }
  }

  /** When every pair is comparable over the window, the check answers rather than raises. */
  lemma IsSelfCompatibleDefined(xs: seq<string>, minDistance: int, length: Option<Length>)
    requires forall i, j :: 0 <= i < j < |xs| ==> TooClose(xs[i], xs[j], EffectiveWindow(xs, length), minDistance).Ok?
    ensures IsSelfCompatible(xs, minDistance, length).Ok?
  {
    var pairs := IndexPairs(|xs|);
    forall k | 0 <= k < |pairs| ensures pairs[k].0 < pairs[k].1 < |xs| {
      IndexPairsMembership(|xs|, pairs[k]);
    }
  }

  /** With `length=float('inf')` passed explicitly, any list of two or more sequences raises TypeError. */
  lemma IsSelfCompatibleInfiniteWindow(xs: seq<string>, minDistance: int)
    requires |xs| >= 2
    ensures IsSelfCompatible(xs, minDistance, Some(Infinity)) == Err(TypeError)
  {
    IsSelfCompatibleFirstFailure(xs, minDistance, Some(Infinity), 0, 1);
  }

  /** The shortest length in one list, or infinity for an empty list. */
  function MinimumLength(xs: seq<string>): (r: Length)
    ensures r == Infinity <==> xs == []
    ensures r.Finite? ==> (forall s :: s in xs ==> r.n <= |s|) && (exists s :: s in xs && |s| == r.n)
  {
    if xs == [] then Infinity
    else MinLength(Finite(|xs[0]|), MinimumLength(xs[1..]))
  }

  /**
   * `minimum_index_length_from_lists(*index_list)` (utils.py:209-214): the
   * shortest sequence over all the lists, `float('inf')` when they are all empty.
   */
  function MinimumIndexLengthFromLists(lists: seq<seq<string>>): (r: Length)
    ensures r == Infinity <==> forall k :: 0 <= k < |lists| ==> lists[k] == []
    ensures r.Finite? ==> forall k, s :: 0 <= k < |lists| && s in lists[k] ==> r.n <= |s|
    ensures r.Finite? ==> exists k, s :: 0 <= k < |lists| && s in lists[k] && |s| == r.n
  {
    if lists == [] then Infinity
    else
      var rest := MinimumIndexLengthFromLists(lists[1..]);
      assert forall k :: 1 <= k < |lists| ==> lists[k] == lists[1..][k - 1];
      var r := MinLength(MinimumLength(lists[0]), rest);
      assert r.Finite? && r == rest ==> exists k, s :: 0 <= k < |lists| && s in lists[k] && |s| == r.n by {
        if r.Finite? && r == rest {
          var k, s :| 0 <= k < |lists[1..]| && s in lists[1..][k] && |s| == r.n;
          assert s in lists[k + 1];
        }
      }
      r
  }

  /** The incompatible pair of positions at `p` with the two sequences it names. */
  datatype IncompatibleReport =
    | SequencesAndPositions(pairs: seq<(string, string)>, positions: seq<(nat, nat)>)
    | SequencesOnly(pairs: seq<(string, string)>)
    | PositionsOnly(positions: seq<(nat, nat)>)

  /**
   * The position pairs that `find_incompatible_index_pairs` appends, scanning
   * `pairs` in order; any undefined comparison raises TypeError.
   */
  function IncompatiblePositions(xs: seq<string>, pairs: seq<(nat, nat)>, window: Length, minDistance: int): (r: Result<seq<(nat, nat)>>)
    requires forall k :: 0 <= k < |pairs| ==> pairs[k].0 < |xs| && pairs[k].1 < |xs|
    ensures r.Ok? <==> forall k :: 0 <= k < |pairs| ==> PairTooClose(xs, pairs[k], window, minDistance).Ok?
    ensures r.Err? ==> r.error == TypeError
    ensures r.Ok? ==> forall k :: 0 <= k < |r.value| ==> r.value[k].0 < |xs| && r.value[k].1 < |xs|
  {
    if pairs == [] then Ok([])
    else
      var init := pairs[..|pairs| - 1];
      var last := pairs[|pairs| - 1];
      assert pairs == init + [last];
      match IncompatiblePositions(xs, init, window, minDistance)
      case Err(e) => Err(e)
      case Ok(acc) =>
        match PairTooClose(xs, last, window, minDistance)
        case Err(e) => Err(e)
        case Ok(close) => if close then Ok(acc + [last]) else Ok(acc)
  }

  /** One step of the scan: the verdict on pairs[k] decides what the first k + 1 pairs report. */
  lemma IncompatiblePositionsStep(xs: seq<string>, pairs: seq<(nat, nat)>, k: nat, window: Length, minDistance: int)
    requires forall l :: 0 <= l < |pairs| ==> pairs[l].0 < |xs| && pairs[l].1 < |xs|
    requires k < |pairs|
    ensures var prev := IncompatiblePositions(xs, pairs[..k], window, minDistance);
            var next := IncompatiblePositions(xs, pairs[..k + 1], window, minDistance);
            var close := PairTooClose(xs, pairs[k], window, minDistance);
            next == if prev.Err? then prev
                    else if close.Err? then Err(close.error)
                    else if close.value then Ok(prev.value + [pairs[k]])
                    else prev
  {
    assert pairs[..k + 1][..k] == pairs[..k];
  }

  /** One undefined comparison anywhere in the scan makes the whole scan raise. */
  lemma IncompatiblePositionsFailsAt(xs: seq<string>, pairs: seq<(nat, nat)>, k: nat, window: Length, minDistance: int)
    requires forall l :: 0 <= l < |pairs| ==> pairs[l].0 < |xs| && pairs[l].1 < |xs|
    requires k < |pairs| && PairTooClose(xs, pairs[k], window, minDistance).Err?
    ensures IncompatiblePositions(xs, pairs, window, minDistance) == Err(TypeError)
  {
  }

  /** A pair is reported exactly when it is scanned and found too close. */
  lemma {:induction false} IncompatiblePositionsMembership(xs: seq<string>, pairs: seq<(nat, nat)>, window: Length, minDistance: int)
    requires forall k :: 0 <= k < |pairs| ==> pairs[k].0 < |xs| && pairs[k].1 < |xs|
    ensures var r := IncompatiblePositions(xs, pairs, window, minDistance);
            r.Ok? ==> forall p :: p in r.value <==> p in pairs && PairTooClose(xs, p, window, minDistance) == Ok(true)
  {
    if pairs != [] {
      var init := pairs[..|pairs| - 1];
      assert pairs == init + [pairs[|pairs| - 1]];
      IncompatiblePositionsMembership(xs, init, window, minDistance);
    }
  }

  /** Scanning pairs in increasing order reports the incompatible ones in increasing order. */
  lemma {:induction false} IncompatiblePositionsSorted(xs: seq<string>, pairs: seq<(nat, nat)>, window: Length, minDistance: int)
    requires forall k :: 0 <= k < |pairs| ==> pairs[k].0 < |xs| && pairs[k].1 < |xs|
    requires forall k, l :: 0 <= k < l < |pairs| ==> PairBefore(pairs[k], pairs[l])
    ensures var r := IncompatiblePositions(xs, pairs, window, minDistance);
            r.Ok? ==> forall k, l :: 0 <= k < l < |r.value| ==> PairBefore(r.value[k], r.value[l])
  {
    if pairs != [] {
      var init := pairs[..|pairs| - 1];
      var last := pairs[|pairs| - 1];
      assert pairs == init + [last];
      IncompatiblePositionsSorted(xs, init, window, minDistance);
      IncompatiblePositionsMembership(xs, init, window, minDistance);
      var r := IncompatiblePositions(xs, pairs, window, minDistance);
      var prev := IncompatiblePositions(xs, init, window, minDistance);
      if r.Ok? {
        assert forall k :: 0 <= k < |init| ==> init[k] == pairs[k];
        assert prev.Ok?;
        var acc := prev.value;
        assert r.value == acc || r.value == acc + [last];
        if r.value == acc + [last] {
          forall k | 0 <= k < |acc| ensures PairBefore(acc[k], last) {
            assert acc[k] in init;
            var m :| 0 <= m < |init| && init[m] == acc[k];
            assert pairs[m] == acc[k];
          }
          forall k, l | 0 <= k < l < |r.value| ensures PairBefore(r.value[k], r.value[l]) {
            assert r.value[k] == acc[k];
            if l < |acc| {
              assert r.value[l] == acc[l];
              assert PairBefore(acc[k], acc[l]);
            } else {
              assert r.value[l] == last;
              assert PairBefore(acc[k], last);
            }
          }
        }
      }
    }
  }

  /** The sequences named by each pair of positions, in the same order. */
  function PairValues(xs: seq<string>, positions: seq<(nat, nat)>): (r: seq<(string, string)>)
    requires forall k :: 0 <= k < |positions| ==> positions[k].0 < |xs| && positions[k].1 < |xs|
  {
    seq(|positions|, k requires 0 <= k < |positions| => (xs[positions[k].0], xs[positions[k].1]))
  }

  lemma PairValuesAppend(xs: seq<string>, positions: seq<(nat, nat)>, p: (nat, nat))
    requires forall k :: 0 <= k < |positions| ==> positions[k].0 < |xs| && positions[k].1 < |xs|
    requires p.0 < |xs| && p.1 < |xs|
    ensures PairValues(xs, positions + [p]) == PairValues(xs, positions) + [(xs[p.0], xs[p.1])]
  {
  }

  /**
   * The loop of `find_incompatible_index_pairs` (utils.py:78-86): it scans
   * the pairs in order and appends each one that is too close, both as
   * positions and as the sequences they name.
   */
  method ScanIncompatible(xs: seq<string>, pairs: seq<(nat, nat)>, window: Length, minDistance: int)
    returns (found: Result<seq<(nat, nat)>>, values: seq<(string, string)>)
    requires forall k :: 0 <= k < |pairs| ==> pairs[k].0 < |xs| && pairs[k].1 < |xs|
    ensures found == IncompatiblePositions(xs, pairs, window, minDistance)
    ensures found.Ok? ==> values == PairValues(xs, found.value)
  {
    values := [];
    var incompatiblePositions: seq<(nat, nat)> := [];
    var k := 0;
    while k < |pairs|
      invariant 0 <= k <= |pairs|
      invariant IncompatiblePositions(xs, pairs[..k], window, minDistance) == Ok(incompatiblePositions)
      invariant values == PairValues(xs, incompatiblePositions)
    {
      var p := pairs[k];
      var close := TooClose(xs[p.0], xs[p.1], window, minDistance);
      if close.Err? {
        IncompatiblePositionsFailsAt(xs, pairs, k, window, minDistance);
        return Err(TypeError), values;
      }
      IncompatiblePositionsStep(xs, pairs, k, window, minDistance);
      if close.value {
        PairValuesAppend(xs, incompatiblePositions, p);
        values := values + [(xs[p.0], xs[p.1])];
        incompatiblePositions := incompatiblePositions + [p];
      }
      k := k + 1;
    }
    assert pairs[..k] == pairs;
    found := Ok(incompatiblePositions);
  }

  /**
   * `find_incompatible_index_pairs` (utils.py:71-94): every pair i < j, in
   * `combinations` order, whose upper-cased windows are closer than
   * `minDistance`, as sequences, as positions or both. The window defaults to
   * the shortest sequence. ValueError when neither output is asked for.
   */
  method FindIncompatibleIndexPairs(xs: seq<string>, minDistance: int, indexLength: Option<Length>,
                                    sequences: bool, positions: bool)
    returns (r: Result<IncompatibleReport>)
    ensures var spec := IncompatiblePositions(xs, IndexPairs(|xs|), DefaultWindow(xs, indexLength), minDistance);
            && (spec.Err? ==> r == Err(TypeError))
            && (spec.Ok? ==> r == Report(PairValues(xs, spec.value), spec.value, sequences, positions))
  {
    var window := DefaultWindow(xs, indexLength);
    var found, values := ScanIncompatible(xs, IndexPairs(|xs|), window, minDistance);
    if found.Err? {
      return Err(TypeError);
    }
    r := Report(values, found.value, sequences, positions);
  }

  /** The window `find_incompatible_index_pairs` uses: `index_length`, or the shortest sequence. */
  function DefaultWindow(xs: seq<string>, indexLength: Option<Length>): Length {
    if indexLength.Some? then indexLength.value else MinimumIndexLengthFromLists([xs])
  }

  /**
   * An explicit `index_length=float('inf')` cannot slice, so with two or more
   * sequences `find_incompatible_index_pairs` raises TypeError.
   */
  lemma FindIncompatibleInfiniteWindow(xs: seq<string>, minDistance: int)
    requires |xs| >= 2
    ensures IncompatiblePositions(xs, IndexPairs(|xs|), DefaultWindow(xs, Some(Infinity)), minDistance) == Err(TypeError)
  {
    var pairs := IndexPairs(|xs|);
    IndexPairsMembership(|xs|, (0, 1));
    var k :| 0 <= k < |pairs| && pairs[k] == (0, 1);
    assert PairTooClose(xs, pairs[k], Infinity, minDistance).Err?;
  }

  /** The return statement at utils.py:87-94. */
  function Report(pairs: seq<(string, string)>, positions: seq<(nat, nat)>, sequences: bool, wantPositions: bool): (r: Result<IncompatibleReport>)
    ensures r.Err? <==> !sequences && !wantPositions
  {
    if sequences && wantPositions then Ok(SequencesAndPositions(pairs, positions))
    else if sequences then Ok(SequencesOnly(pairs))
    else if wantPositions then Ok(PositionsOnly(positions))
    else Err(ValueError)
  }

  /**
   * What `find_incompatible_index_pairs` reports: a pair of positions is listed
   * exactly when i < j and the pair is too close, and the list is in
   * `combinations` order.
   */
  lemma IncompatiblePairsExact(xs: seq<string>, window: Length, minDistance: int)
    ensures forall k :: 0 <= k < |IndexPairs(|xs|)| ==> IndexPairs(|xs|)[k].0 < |xs| && IndexPairs(|xs|)[k].1 < |xs|
    ensures var r := IncompatiblePositions(xs, IndexPairs(|xs|), window, minDistance);
            r.Ok? ==>
              && (forall i: nat, j: nat :: (i, j) in r.value <==> i < j < |xs| && TooClose(xs[i], xs[j], window, minDistance) == Ok(true))
              && (forall k, l :: 0 <= k < l < |r.value| ==> PairBefore(r.value[k], r.value[l]))
  {
    var pairs := IndexPairs(|xs|);
    AllIndexPairsFar(xs, window, minDistance);
    IndexPairsSorted(|xs|);
    IncompatiblePositionsSorted(xs, pairs, window, minDistance);
    IncompatiblePositionsMembership(xs, pairs, window, minDistance);
    forall i: nat, j: nat ensures (i, j) in pairs <==> i < j < |xs| {
      IndexPairsMembership(|xs|, (i, j));
    }
  }
}
