/**
 * The operations of utils.py on whole pools of index sequences: joining two
 * compatible lists, filtering a pool against the sequences already chosen,
 * and ordering the pools for the search.
 */
module Pools {
  import opened Wrappers
  import opened Itertools
  import opened Distance

  // ----- join_two_compatible_sets -----

  /**
   * `join_two_compatible_sets(a, b, b_is_self_compatible, min_distance, length)`
   * (utils.py:193-206): `a + b` when it is self-compatible, else None; `b` is
   * checked on its own first unless the caller vouches for it.
   */
  function JoinTwoCompatibleSets(a: seq<string>, b: seq<string>, bIsSelfCompatible: bool, minDistance: int, length: Length)
    : (r: Result<Option<seq<string>>>)
    ensures r.Err? ==> r.error == TypeError
    ensures r.Ok? && r.value.Some? ==> r.value.value == a + b
  {
    var bCheck := if bIsSelfCompatible then Ok(true) else IsSelfCompatible(b, minDistance, Some(length));
    match bCheck
    case Err(e) => Err(e)
    case Ok(false) => Ok(None)
    case Ok(true) =>
      match IsSelfCompatible(a + b, minDistance, Some(length))
      case Err(e) => Err(e)
      case Ok(compatible) => if compatible then Ok(Some(a + b)) else Ok(None)
  }

  /** The tail of a compatible list is compatible. */
  lemma SuffixCompatible(a: seq<string>, b: seq<string>, minDistance: int, length: Length)
    requires IsSelfCompatible(a + b, minDistance, Some(length)) == Ok(true)
    ensures IsSelfCompatible(b, minDistance, Some(length)) == Ok(true)
  {
    if |b| > 0 {
      forall i, j | 0 <= i < j < |b| ensures TooClose(b[i], b[j], length, minDistance) == Ok(false) {
        assert (a + b)[|a| + i] == b[i] && (a + b)[|a| + j] == b[j];
      }
    }
  }

  /**
   * The join succeeds exactly when `a + b` is self-compatible, whatever the
   * caller says about `b`: the flag only saves the separate check of `b`.
   */
  lemma JoinSucceedsIff(a: seq<string>, b: seq<string>, bIsSelfCompatible: bool, minDistance: int, length: Length)
    ensures JoinTwoCompatibleSets(a, b, bIsSelfCompatible, minDistance, length) == Ok(Some(a + b))
            <==> IsSelfCompatible(a + b, minDistance, Some(length)) == Ok(true)
    ensures JoinTwoCompatibleSets(a, b, true, minDistance, length).Ok? && JoinTwoCompatibleSets(a, b, true, minDistance, length).value.Some?
            <==> JoinTwoCompatibleSets(a, b, false, minDistance, length).Ok? && JoinTwoCompatibleSets(a, b, false, minDistance, length).value.Some?
  {
    if IsSelfCompatible(a + b, minDistance, Some(length)) == Ok(true) {
      SuffixCompatible(a, b, minDistance, length);
    }
  }

  /** Called with its default `length=float('inf')`, the join raises TypeError for any two sequences. */
  lemma JoinDefaultLengthRaises(a: seq<string>, b: seq<string>, bIsSelfCompatible: bool, minDistance: int)
    requires |a| + |b| >= 2
    ensures JoinTwoCompatibleSets(a, b, bIsSelfCompatible, minDistance, Infinity) == Err(TypeError)
  {
    IsSelfCompatibleInfiniteWindow(a + b, minDistance);
    if |b| >= 2 {
      IsSelfCompatibleInfiniteWindow(b, minDistance);
    }
  }

  // ----- remove_incompatible_indexes_from_queryset -----

  /** Some sequence of `cs` is too close to `x` over the window. */
  ghost predicate Rejected(x: string, cs: seq<string>, window: Length, minDistance: int) {
    exists k :: 0 <= k < |cs| && TooClose(x, cs[k], window, minDistance) == Ok(true)
  }

  /** Every sequence of `cs` is comparable with `x` and far enough from it. */
  ghost predicate Far(x: string, cs: seq<string>, window: Length, minDistance: int) {
    forall k :: 0 <= k < |cs| ==> TooClose(x, cs[k], window, minDistance) == Ok(false)
  }

  /** The copies of `x` that the inner loop over `cs` appends to the incompatible list. */
  function RowRejects(x: string, cs: seq<string>, window: Length, minDistance: int): (r: Result<seq<string>>)
    ensures r.Ok? <==> forall k :: 0 <= k < |cs| ==> TooClose(x, cs[k], window, minDistance).Ok?
    ensures r.Err? ==> r.error == TypeError
  {
    if cs == [] then Ok([])
    else
      var n := |cs| - 1;
      assert forall k :: 0 <= k < n ==> cs[..n][k] == cs[k];
      match RowRejects(x, cs[..n], window, minDistance)
      case Err(e) => Err(e)
      case Ok(acc) =>
        match TooClose(x, cs[n], window, minDistance)
        case Err(e) => Err(e)
        case Ok(close) => Ok(if close then acc + [x] else acc)
  }

  lemma {:induction false} RowRejectsMembership(x: string, cs: seq<string>, window: Length, minDistance: int)
    ensures var r := RowRejects(x, cs, window, minDistance);
            r.Ok? ==> (forall y :: y in r.value ==> y == x) && (r.value != [] <==> Rejected(x, cs, window, minDistance))
  {
    if cs != [] {
      var n := |cs| - 1;
      var init := cs[..n];
      RowRejectsMembership(x, init, window, minDistance);
      var r := RowRejects(x, cs, window, minDistance);
      if r.Ok? {
        var prev := RowRejects(x, init, window, minDistance).value;
        var close := TooClose(x, cs[n], window, minDistance).value;
        assert r.value == if close then prev + [x] else prev;
        RejectedSnoc(x, cs, window, minDistance);
      }
    }
  }

  /** Rejection by `cs` is rejection by all but its last sequence, or by the last one. */
  lemma RejectedSnoc(x: string, cs: seq<string>, window: Length, minDistance: int)
    requires cs != []
    ensures Rejected(x, cs, window, minDistance)
            <==> Rejected(x, cs[..|cs| - 1], window, minDistance) || TooClose(x, cs[|cs| - 1], window, minDistance) == Ok(true)
  {
    var n := |cs| - 1;
    if Rejected(x, cs, window, minDistance) {
      var k :| 0 <= k < |cs| && TooClose(x, cs[k], window, minDistance) == Ok(true);
      if k < n {
        assert cs[..n][k] == cs[k];
      }
    }
    if Rejected(x, cs[..n], window, minDistance) {
      var k :| 0 <= k < n && TooClose(x, cs[..n][k], window, minDistance) == Ok(true);
      assert cs[..n][k] == cs[k];
    }
  }

  /** The incompatible list the loop over `itertools.product(xs, cs)` builds (utils.py:268-273). */
  function ProductRejects(xs: seq<string>, cs: seq<string>, window: Length, minDistance: int): (r: Result<seq<string>>)
    ensures r.Ok? <==> forall i, k :: 0 <= i < |xs| && 0 <= k < |cs| ==> TooClose(xs[i], cs[k], window, minDistance).Ok?
    ensures r.Err? ==> r.error == TypeError
  {
    if xs == [] then Ok([])
    else
      var n := |xs| - 1;
      assert forall i :: 0 <= i < n ==> xs[..n][i] == xs[i];
      match ProductRejects(xs[..n], cs, window, minDistance)
      case Err(e) => Err(e)
      case Ok(acc) =>
        match RowRejects(xs[n], cs, window, minDistance)
        case Err(e) => Err(e)
        case Ok(row) => Ok(acc + row)
  }

  lemma {:induction false} ProductRejectsMembership(xs: seq<string>, cs: seq<string>, window: Length, minDistance: int)
    ensures var r := ProductRejects(xs, cs, window, minDistance);
            r.Ok? ==> forall y :: y in r.value <==> y in xs && Rejected(y, cs, window, minDistance)
  {
    if xs != [] {
      var n := |xs| - 1;
      var init := xs[..n];
      assert xs == init + [xs[n]];
      ProductRejectsMembership(init, cs, window, minDistance);
      RowRejectsMembership(xs[n], cs, window, minDistance);
      var r := ProductRejects(xs, cs, window, minDistance);
      if r.Ok? {
        var acc := ProductRejects(init, cs, window, minDistance).value;
        var row := RowRejects(xs[n], cs, window, minDistance).value;
        assert r.value == acc + row;
        forall y ensures y in r.value <==> y in xs && Rejected(y, cs, window, minDistance) {
          assert y in r.value <==> y in acc || y in row;
          if y == xs[n] && Rejected(y, cs, window, minDistance) {
            assert row[0] in row;
          } else if y !in init {
            assert y !in row;
          }
        }
      }
    }
  }

  /** The comprehension `[i for i in xs if i not in bad]` (utils.py:275). */
  function Without(xs: seq<string>, bad: seq<string>): (r: seq<string>)
    ensures forall y :: y in r <==> y in xs && y !in bad
  {
    if xs == [] then []
    else (if xs[0] in bad then [] else [xs[0]]) + Without(xs[1..], bad)
  }

  /** The pool sequences, in pool order and with their repeats, that are far from every committed one. */
  ghost function KeepFar(xs: seq<string>, cs: seq<string>, window: Length, minDistance: int): (r: seq<string>)
    ensures forall y :: y in r <==> y in xs && Far(y, cs, window, minDistance)
  {
    if xs == [] then []
    else (if Far(xs[0], cs, window, minDistance) then [xs[0]] else []) + KeepFar(xs[1..], cs, window, minDistance)
  }

  lemma {:induction false} KeepFarSubseq(xs: seq<string>, cs: seq<string>, window: Length, minDistance: int)
    ensures SubseqOf(KeepFar(xs, cs, window, minDistance), xs)
  {
    if xs != [] {
      KeepFarSubseq(xs[1..], cs, window, minDistance);
      var rest := KeepFar(xs[1..], cs, window, minDistance);
      if Far(xs[0], cs, window, minDistance) {
        assert ([xs[0]] + rest)[1..] == rest;
      } else {
        assert KeepFar(xs, cs, window, minDistance) == rest;
      }
    }
  }

  lemma {:induction false} WithoutIsKeepFar(xs: seq<string>, bad: seq<string>, cs: seq<string>, window: Length, minDistance: int)
    requires forall y :: y in xs ==> (y in bad <==> !Far(y, cs, window, minDistance))
    ensures Without(xs, bad) == KeepFar(xs, cs, window, minDistance)
  {
    if xs != [] {
      assert xs[0] in xs;
      assert forall y :: y in xs[1..] ==> y in xs;
      WithoutIsKeepFar(xs[1..], bad, cs, window, minDistance);
    }
  }

  /** The window of utils.py:265: the shortest sequence of both lists, capped by `length`. */
  function ReductionWindow(pool: seq<string>, committed: seq<string>, length: Length): Length {
    MinLength(MinimumIndexLengthFromLists([pool, committed]), length)
  }

  /**
   * What `remove_incompatible_indexes_from_queryset(pool, committed,
   * min_distance, length)` returns (utils.py:261-275): the pool itself when
   * nothing is committed, otherwise the pool without every value that is too
   * close to some committed sequence.
   */
  function RemoveIncompatible(pool: seq<string>, committed: seq<string>, minDistance: int, length: Length): (r: Result<seq<string>>)
    ensures committed == [] ==> r == Ok(pool)
    ensures r.Err? ==> r.error == TypeError
  {
    if committed == [] then Ok(pool)
    else
      match ProductRejects(pool, committed, ReductionWindow(pool, committed, length), minDistance)
      case Err(e) => Err(e)
      case Ok(bad) => Ok(Without(pool, bad))
  }

  /**
   * Against a non-empty committed list the reduction fails exactly when some
   * comparison is undefined, and otherwise keeps, in pool order and with
   * every copy, exactly the values far from all committed sequences.
   */
  lemma RemoveIncompatibleExact(pool: seq<string>, committed: seq<string>, minDistance: int, length: Length)
    requires committed != []
    ensures var w := ReductionWindow(pool, committed, length);
            var r := RemoveIncompatible(pool, committed, minDistance, length);
            && (r.Ok? <==> forall i, k :: 0 <= i < |pool| && 0 <= k < |committed| ==> TooClose(pool[i], committed[k], w, minDistance).Ok?)
            && (r.Ok? ==> r.value == KeepFar(pool, committed, w, minDistance) && SubseqOf(r.value, pool))
            && (r.Ok? ==> forall y :: y in r.value <==> y in pool && Far(y, committed, w, minDistance))
  {
    var w := ReductionWindow(pool, committed, length);
    var r := ProductRejects(pool, committed, w, minDistance);
    if r.Ok? {
      ProductRejectsMembership(pool, committed, w, minDistance);
      forall y | y in pool ensures y in r.value <==> !Far(y, committed, w, minDistance) {
        var i :| 0 <= i < |pool| && pool[i] == y;
        forall k | 0 <= k < |committed| ensures TooClose(y, committed[k], w, minDistance).Ok? {
          assert TooClose(pool[i], committed[k], w, minDistance).Ok?;
        }
      }
      WithoutIsKeepFar(pool, r.value, committed, w, minDistance);
      KeepFarSubseq(pool, committed, w, minDistance);
    }
  }

  /**
   * The reduction never raises when every sequence is non-empty and `length`
   * is not 0: the window then lies within every sequence.
   */
  lemma RemoveIncompatibleDefined(pool: seq<string>, committed: seq<string>, minDistance: int, length: Length)
    requires forall k :: 0 <= k < |pool| ==> pool[k] != []
    requires forall k :: 0 <= k < |committed| ==> committed[k] != []
    requires length != Finite(0)
    ensures RemoveIncompatible(pool, committed, minDistance, length).Ok?
  {
    if committed != [] {
      var lists := [pool, committed];
      var m := MinimumIndexLengthFromLists(lists);
      assert committed[0] in lists[1];
      var w := ReductionWindow(pool, committed, length);
      assert m.Finite? && m.n > 0 by {
        var k, s :| 0 <= k < |lists| && s in lists[k] && |s| == m.n;
      }
      forall i, k | 0 <= i < |pool| && 0 <= k < |committed| ensures TooClose(pool[i], committed[k], w, minDistance).Ok? {
        assert pool[i] in lists[0] && committed[k] in lists[1];
        TooCloseDefined(pool[i], committed[k], w.n, minDistance);
      }
      RemoveIncompatibleExact(pool, committed, minDistance, length);
    }
  }

  /**
   * `remove_incompatible_indexes_from_queryset` as written: the loop over
   * `itertools.product(pool, committed)` collects every pool value too close
   * to a committed sequence (once per such pair), then the pool is filtered
   * against that list.
   */
  method RemoveIncompatibleIndexes(pool: seq<string>, committed: seq<string>, minDistance: int, length: Length)
    returns (r: Result<seq<string>>)
    ensures r == RemoveIncompatible(pool, committed, minDistance, length)
  {
    if committed == [] {
      return Ok(pool);
    }
    var window := ReductionWindow(pool, committed, length);
    var incompatible: seq<string> := [];
    var i := 0;
    while i < |pool|
      invariant 0 <= i <= |pool|
      invariant ProductRejects(pool[..i], committed, window, minDistance) == Ok(incompatible)
    {
      var row := ScanRow(pool[i], committed, window, minDistance);
      if row.Err? {
        ProductRejectsRowFails(pool, committed, window, minDistance, i);
        return Err(TypeError);
      }
      ProductRejectsStep(pool, committed, i, window, minDistance);
      incompatible := incompatible + row.value;
      i := i + 1;
    }
    assert pool[..i] == pool;
    r := Ok(Without(pool, incompatible));
  }

  /** The iterations of the product loop that share the pool value `x`. */
  method ScanRow(x: string, committed: seq<string>, window: Length, minDistance: int) returns (r: Result<seq<string>>)
    ensures r == RowRejects(x, committed, window, minDistance)
  {
    var row: seq<string> := [];
    var j := 0;
    while j < |committed|
      invariant 0 <= j <= |committed|
      invariant RowRejects(x, committed[..j], window, minDistance) == Ok(row)
    {
      var close := TooClose(x, committed[j], window, minDistance);
      if close.Err? {
        assert committed[..j + 1][j] == committed[j];
        assert !RowRejects(x, committed[..j + 1], window, minDistance).Ok?;
        RowRejectsPrefix(x, committed, window, minDistance, j + 1);
        return Err(TypeError);
      }
      RowRejectsStep(x, committed, j, window, minDistance);
      if close.value {
        row := row + [x];
      }
      j := j + 1;
    }
    assert committed[..j] == committed;
    r := Ok(row);
  }

  lemma RowRejectsPrefix(x: string, cs: seq<string>, window: Length, minDistance: int, n: nat)
    requires n <= |cs|
    requires RowRejects(x, cs[..n], window, minDistance).Err?
    ensures RowRejects(x, cs, window, minDistance) == Err(TypeError)
  {
    var k :| 0 <= k < n && !TooClose(x, cs[..n][k], window, minDistance).Ok?;
    assert cs[..n][k] == cs[k];
  }

  lemma ProductRejectsRowFails(xs: seq<string>, cs: seq<string>, window: Length, minDistance: int, i: nat)
    requires i < |xs|
    requires RowRejects(xs[i], cs, window, minDistance).Err?
    ensures ProductRejects(xs, cs, window, minDistance) == Err(TypeError)
  {
    var k :| 0 <= k < |cs| && !TooClose(xs[i], cs[k], window, minDistance).Ok?;
  }

  lemma RowRejectsStep(x: string, cs: seq<string>, j: nat, window: Length, minDistance: int)
    requires j < |cs|
    ensures var prev := RowRejects(x, cs[..j], window, minDistance);
            var close := TooClose(x, cs[j], window, minDistance);
            prev.Ok? && close.Ok? ==> RowRejects(x, cs[..j + 1], window, minDistance) == Ok(if close.value then prev.value + [x] else prev.value)
  {
    assert cs[..j + 1][..j] == cs[..j];
  }

  lemma ProductRejectsStep(xs: seq<string>, cs: seq<string>, i: nat, window: Length, minDistance: int)
    requires i < |xs|
    ensures var prev := ProductRejects(xs[..i], cs, window, minDistance);
            var row := RowRejects(xs[i], cs, window, minDistance);
            prev.Ok? && row.Ok? ==> ProductRejects(xs[..i + 1], cs, window, minDistance) == Ok(prev.value + row.value)
  {
    assert xs[..i + 1][..i] == xs[..i];
  }

  // ----- optimize_set_order -----

  /** One row of the zip at utils.py:257-258: set size, shortest sequence length, position. */
  datatype SetEntry = SetEntry(setLength: Length, seqLength: nat, position: nat)

  /** Python's `<` between an int and `float('inf')`. */
  predicate LengthLess(a: Length, b: Length) {
    match (a, b)
    case (Finite(x), Finite(y)) => x < y
    case (Finite(_), Infinity) => true
    case (Infinity, _) => false
  }

  /**
   * The sort key `(-seq_length, set_length)`, ties kept in input order, which
   * for the zipped rows is the order of positions.
   */
  predicate Before(e: SetEntry, f: SetEntry) {
    || e.seqLength > f.seqLength
    || (e.seqLength == f.seqLength && LengthLess(e.setLength, f.setLength))
    || (e.seqLength == f.seqLength && e.setLength == f.setLength && e.position < f.position)
  }

  /** `e` may come before `f`: `f` does not come strictly first. */
  predicate NotAfter(e: SetEntry, f: SetEntry) {
    !Before(f, e)
  }

  predicate SortedEntries(es: seq<SetEntry>) {
    forall k, l :: 0 <= k < l < |es| ==> NotAfter(es[k], es[l])
  }

  lemma NotAfterTransitive(a: SetEntry, b: SetEntry, c: SetEntry)
    requires NotAfter(a, b) && NotAfter(b, c)
    ensures NotAfter(a, c)
  {
  }

  function Insert(e: SetEntry, es: seq<SetEntry>): seq<SetEntry> {
    if es == [] then [e]
    else if Before(es[0], e) then [es[0]] + Insert(e, es[1..])
    else [e] + es
  }

  lemma {:induction false} InsertMultiset(e: SetEntry, es: seq<SetEntry>)
    ensures multiset(Insert(e, es)) == multiset(es) + multiset{e}
  {
    if es != [] {
      assert es == [es[0]] + es[1..];
      InsertMultiset(e, es[1..]);
    }
  }

  lemma {:induction false} InsertSorted(e: SetEntry, es: seq<SetEntry>)
    requires SortedEntries(es)
    ensures SortedEntries(Insert(e, es))
  {
    if es != [] {
      if Before(es[0], e) {
        InsertSorted(e, es[1..]);
        var r := Insert(e, es);
        var rest := Insert(e, es[1..]);
        InsertMultiset(e, es[1..]);
        forall l | 0 < l < |r| ensures NotAfter(es[0], r[l]) {
          assert r[l] in multiset(rest);
          assert r[l] in multiset(es[1..]) + multiset{e};
          if r[l] != e {
            var m :| 0 <= m < |es[1..]| && es[1..][m] == r[l];
            assert es[m + 1] == r[l];
          }
        }
      } else {
        forall l | 0 <= l < |es| ensures NotAfter(e, es[l]) {
          if l > 0 {
            NotAfterTransitive(e, es[0], es[l]);
          }
        }
      }
    }
  }

  /** Python's `sorted` on the zipped rows (an insertion sort: the sorted order is unique). */
  function SortEntries(es: seq<SetEntry>): seq<SetEntry> {
    if es == [] then [] else Insert(es[0], SortEntries(es[1..]))
  }

  lemma {:induction false} SortEntriesMultiset(es: seq<SetEntry>)
    ensures multiset(SortEntries(es)) == multiset(es)
  {
    if es != [] {
      assert es == [es[0]] + es[1..];
      SortEntriesMultiset(es[1..]);
      InsertMultiset(es[0], SortEntries(es[1..]));
    }
  }

  lemma {:induction false} SortEntriesSorted(es: seq<SetEntry>)
    ensures SortedEntries(SortEntries(es))
  {
    if es != [] {
      SortEntriesSorted(es[1..]);
      InsertSorted(es[0], SortEntries(es[1..]));
    }
  }

  /** `[o for (stl, sql, o) in ...]`: the positions of the sorted rows. */
  function Positions(es: seq<SetEntry>): (r: seq<nat>)
    ensures |r| == |es|
  {
    seq(|es|, k requires 0 <= k < |es| => es[k].position)
  }

  /** `range(n)` as a sequence. */
  function Range(n: nat): (r: seq<nat>)
    ensures |r| == n
    ensures forall k :: 0 <= k < n ==> r[k] == k
  {
    seq(n, k => k)
  }

  /** The key a pool gets: its size and shortest sequence, or `(inf, 0)` when either lookup fails. */
  function PoolEntry(pool: Option<seq<string>>, position: nat): SetEntry {
    match pool
    case None => SetEntry(Infinity, 0, position)
    case Some(p) => if p == [] then SetEntry(Infinity, 0, position) else SetEntry(Finite(|p|), MinimumLength(p).n, position)
  }

  function PoolEntries(pools: seq<Option<seq<string>>>): (r: seq<SetEntry>)
    ensures |r| == |pools|
  {
    seq(|pools|, k requires 0 <= k < |pools| => PoolEntry(pools[k], k))
  }

  lemma PositionsConcat(a: seq<SetEntry>, b: seq<SetEntry>)
    ensures Positions(a + b) == Positions(a) + Positions(b)
  {
  }

  /** Reordering the rows reorders their positions. */
  lemma {:induction false} PositionsMultiset(es: seq<SetEntry>, fs: seq<SetEntry>)
    requires multiset(es) == multiset(fs)
    ensures multiset(Positions(es)) == multiset(Positions(fs))
    decreases |es|
  {
    if es != [] {
      var e := es[0];
      assert e in multiset(fs);
      var m :| 0 <= m < |fs| && fs[m] == e;
      var before, after := fs[..m], fs[m + 1..];
      var fs' := before + after;
      assert fs == before + [e] + after;
      assert es == [e] + es[1..];
      assert multiset(es[1..]) == multiset(fs') by {
        assert multiset(es[1..]) == multiset(es) - multiset{e};
        assert multiset(fs') == multiset(fs) - multiset{e};
      }
      PositionsMultiset(es[1..], fs');
      PositionsConcat([e], es[1..]);
      PositionsConcat(before + [e], after);
      PositionsConcat(before, [e]);
      PositionsConcat(before, after);
    }
  }

  /**
   * `optimize_set_order(*pools)` (utils.py:244-258) with each pool's two
   * lookups kept together: the positions of the pools, longest shortest
   * sequence first, then smallest set, ties in input order. A missing or
   * empty pool is ranked as `(inf, 0)`.
   */
  method OptimizeSetOrder(pools: seq<Option<seq<string>>>) returns (order: seq<nat>)
    ensures order == Positions(SortEntries(PoolEntries(pools)))
    ensures RanksPools(pools, order)
  {
    var entries: seq<SetEntry> := [];
    for k := 0 to |pools|
      invariant entries == PoolEntries(pools[..k])
    {
      PoolEntriesAppend(pools, k);
      entries := entries + [PoolEntry(pools[k], k)];
    }
    assert pools[..|pools|] == pools;
    var sorted := SortEntries(entries);
    order := Positions(sorted);
    OptimizeSetOrderRanks(pools);
  }

  lemma PoolEntriesAppend(pools: seq<Option<seq<string>>>, k: nat)
    requires k < |pools|
    ensures PoolEntries(pools[..k + 1]) == PoolEntries(pools[..k]) + [PoolEntry(pools[k], k)]
  {
  }

  /**
   * `order` lists every position of `pools` once, and a pool comes before
   * another only if its key does not sort after the other's.
   */
  ghost predicate RanksPools(pools: seq<Option<seq<string>>>, order: seq<nat>) {
    && multiset(order) == multiset(Range(|pools|))
    && forall k, l :: 0 <= k < l < |order| ==>
         (order[k] < |pools| && order[l] < |pools| &&
          NotAfter(PoolEntry(pools[order[k]], order[k]), PoolEntry(pools[order[l]], order[l])))
  }

  lemma OptimizeSetOrderRanks(pools: seq<Option<seq<string>>>)
    ensures RanksPools(pools, Positions(SortEntries(PoolEntries(pools))))
  {
    var es := PoolEntries(pools);
    var sorted := SortEntries(es);
    SortEntriesSorted(es);
    SortEntriesMultiset(es);
    PositionsMultiset(sorted, es);
    assert Positions(es) == Range(|pools|);
    forall k | 0 <= k < |sorted| ensures sorted[k].position < |pools| && sorted[k] == PoolEntry(pools[sorted[k].position], sorted[k].position) {
      assert sorted[k] in multiset(es);
      var m :| 0 <= m < |es| && es[m] == sorted[k];
    }
  }

  /**
   * The set-size list utils.py:249-255 builds for one pool. For a pool that is
   * present but empty, `len` succeeds and is appended before `min_length`
   * raises, and the except clause appends `inf` as well.
   */
  function SetLengthsOf(pool: Option<seq<string>>): seq<Length> {
    match pool
    case None => [Infinity]
    case Some(p) => if p == [] then [Finite(0), Infinity] else [Finite(|p|)]
  }

  function SeqLengthOf(pool: Option<seq<string>>): nat {
    match pool
    case None => 0
    case Some(p) => if p == [] then 0 else MinimumLength(p).n
  }

  function SetLengthsAsWritten(pools: seq<Option<seq<string>>>): (r: seq<Length>)
    ensures |r| <= 2 * |pools|
    ensures Infinity in r ==> exists k :: 0 <= k < |pools| && (pools[k].None? || pools[k] == Some([]))
  {
    if pools == [] then [] else SetLengthsAsWritten(pools[..|pools| - 1]) + SetLengthsOf(pools[|pools| - 1])
  }

  function SeqLengthsAsWritten(pools: seq<Option<seq<string>>>): (r: seq<nat>)
    ensures |r| == |pools|
  {
    seq(|pools|, k requires 0 <= k < |pools| => SeqLengthOf(pools[k]))
  }

  lemma {:induction false} SetLengthsAsWrittenLength(pools: seq<Option<seq<string>>>)
    ensures |SetLengthsAsWritten(pools)| >= |pools|
  {
    if pools != [] {
      SetLengthsAsWrittenLength(pools[..|pools| - 1]);
    }
  }

  /** `zip(set_lengths, seq_lengths, range(n))`, which stops at the shortest of the three. */
  function ZipEntries(setLengths: seq<Length>, seqLengths: seq<nat>, n: nat): (r: seq<SetEntry>)
  {
    var m := if |setLengths| < |seqLengths| then |setLengths| else |seqLengths|;
    var m' := if m < n then m else n;
    seq(m', k requires 0 <= k < m' => SetEntry(setLengths[k], seqLengths[k], k))
  }

  /**
   * `optimize_set_order` as written: the two lists are appended to separately
   * and zipped with the positions, so after a present-but-empty pool the set
   * sizes are shifted one place against the pools they belong to.
   */
  method OptimizeSetOrderAsWritten(pools: seq<Option<seq<string>>>) returns (order: seq<nat>)
    ensures order == Positions(SortEntries(ZipEntries(SetLengthsAsWritten(pools), SeqLengthsAsWritten(pools), |pools|)))
  {
    var setLengths: seq<Length> := [];
    var seqLengths: seq<nat> := [];
    for k := 0 to |pools|
      invariant setLengths == SetLengthsAsWritten(pools[..k])
      invariant seqLengths == SeqLengthsAsWritten(pools[..k])
    {
      AsWrittenAppend(pools, k);
      match pools[k]
      case None =>
        setLengths := setLengths + [Infinity];
        seqLengths := seqLengths + [0];
      case Some(p) =>
        setLengths := setLengths + [Finite(|p|)];
        if p == [] {
          setLengths := setLengths + [Infinity];
          seqLengths := seqLengths + [0];
        } else {
          seqLengths := seqLengths + [MinimumLength(p).n];
        }
    }
    assert pools[..|pools|] == pools;
    order := Positions(SortEntries(ZipEntries(setLengths, seqLengths, |pools|)));
  }

  lemma AsWrittenAppend(pools: seq<Option<seq<string>>>, k: nat)
    requires k < |pools|
    ensures SetLengthsAsWritten(pools[..k + 1]) == SetLengthsAsWritten(pools[..k]) + SetLengthsOf(pools[k])
    ensures SeqLengthsAsWritten(pools[..k + 1]) == SeqLengthsAsWritten(pools[..k]) + [SeqLengthOf(pools[k])]
  {
    assert pools[..k + 1][..k] == pools[..k];
  }

  /** As written, the zip still covers every pool once, so the result is a permutation of `range(n)`. */
  lemma OptimizeSetOrderAsWrittenPermutation(pools: seq<Option<seq<string>>>)
    ensures multiset(Positions(SortEntries(ZipEntries(SetLengthsAsWritten(pools), SeqLengthsAsWritten(pools), |pools|))))
            == multiset(Range(|pools|))
  {
    SetLengthsAsWrittenLength(pools);
    var es := ZipEntries(SetLengthsAsWritten(pools), SeqLengthsAsWritten(pools), |pools|);
    SortEntriesMultiset(es);
    PositionsMultiset(SortEntries(es), es);
    assert Positions(es) == Range(|pools|);
  }

  lemma {:induction false} SetLengthsWithoutEmptyPools(pools: seq<Option<seq<string>>>)
    requires forall k :: 0 <= k < |pools| ==> pools[k] != Some([])
    ensures |SetLengthsAsWritten(pools)| == |pools|
    ensures forall k :: 0 <= k < |pools| ==> SetLengthsAsWritten(pools)[k] == PoolEntry(pools[k], k).setLength
  {
    if pools != [] {
      var n := |pools| - 1;
      var init := pools[..n];
      assert forall k :: 0 <= k < n ==> init[k] == pools[k];
      SetLengthsWithoutEmptyPools(init);
      var prev := SetLengthsAsWritten(init);
      var all := SetLengthsAsWritten(pools);
      assert SetLengthsOf(pools[n]) == [PoolEntry(pools[n], n).setLength];
      assert all == prev + SetLengthsOf(pools[n]);
      forall k | 0 <= k < |pools| ensures all[k] == PoolEntry(pools[k], k).setLength {
        if k < n {
          assert all[k] == prev[k] == PoolEntry(init[k], k).setLength;
        }
      }
    }
  }

  /** Without an empty pool the two versions agree. */
  lemma {:induction false} AsWrittenAgreesWithoutEmptyPools(pools: seq<Option<seq<string>>>)
    requires forall k :: 0 <= k < |pools| ==> pools[k] != Some([])
    ensures ZipEntries(SetLengthsAsWritten(pools), SeqLengthsAsWritten(pools), |pools|) == PoolEntries(pools)
  {
    SetLengthsWithoutEmptyPools(pools);
    var written := ZipEntries(SetLengthsAsWritten(pools), SeqLengthsAsWritten(pools), |pools|);
    assert |written| == |pools|;
    forall k | 0 <= k < |pools| ensures written[k] == PoolEntries(pools)[k] {
      assert written[k] == SetEntry(PoolEntry(pools[k], k).setLength, SeqLengthOf(pools[k]), k);
    }
  }

  /**
   * An empty pool in front of two pools of 8-base sequences, of 5 and 10
   * sequences: as written, the first is ranked by the second's size and the
   * second by `inf`, so the order is [2, 1, 0] instead of [1, 2, 0].
   */
  lemma OptimizeSetOrderMisaligned()
    ensures var five := seq(5, k => "ACGTACGT");
            var ten := seq(10, k => "ACGTACGT");
            var pools := [Some([]), Some(five), Some(ten)];
            && Positions(SortEntries(ZipEntries(SetLengthsAsWritten(pools), SeqLengthsAsWritten(pools), |pools|))) == [2, 1, 0]
            && Positions(SortEntries(PoolEntries(pools))) == [1, 2, 0]
  {
    MisalignedEntries();
    MisalignedSorts();
  }

  /**
   * An empty pool in front shifts every later set size one pool to the left:
   * the second pool is ranked with `inf` and the third with the second's size.
   */
  lemma LeadingEmptyPoolShifts(p1: seq<string>, p2: seq<string>)
    requires p1 != [] && p2 != []
    ensures var pools := [Some([]), Some(p1), Some(p2)];
            && ZipEntries(SetLengthsAsWritten(pools), SeqLengthsAsWritten(pools), |pools|)
               == [SetEntry(Finite(0), 0, 0), SetEntry(Infinity, MinimumLength(p1).n, 1), SetEntry(Finite(|p1|), MinimumLength(p2).n, 2)]
            && PoolEntries(pools)
               == [SetEntry(Infinity, 0, 0), SetEntry(Finite(|p1|), MinimumLength(p1).n, 1), SetEntry(Finite(|p2|), MinimumLength(p2).n, 2)]
  {
    var pools := [Some([]), Some(p1), Some(p2)];
    LeadingEmptySetLengths(p1, p2);
    var written := ZipEntries(SetLengthsAsWritten(pools), SeqLengthsAsWritten(pools), |pools|);
    assert |written| == 3;
    assert written[0] == SetEntry(Finite(0), 0, 0);
    assert written[1] == SetEntry(Infinity, MinimumLength(p1).n, 1);
    assert written[2] == SetEntry(Finite(|p1|), MinimumLength(p2).n, 2);
    ThreeEntries(written, written[0], written[1], written[2]);
    var intended := PoolEntries(pools);
    assert intended[0] == SetEntry(Infinity, 0, 0);
    assert intended[1] == SetEntry(Finite(|p1|), MinimumLength(p1).n, 1);
    assert intended[2] == SetEntry(Finite(|p2|), MinimumLength(p2).n, 2);
    ThreeEntries(intended, intended[0], intended[1], intended[2]);
  }

  lemma ThreeEntries(es: seq<SetEntry>, a: SetEntry, b: SetEntry, c: SetEntry)
    requires |es| == 3 && es[0] == a && es[1] == b && es[2] == c
    ensures es == [a, b, c]
  {
  }

  lemma LeadingEmptySetLengths(p1: seq<string>, p2: seq<string>)
    requires p1 != [] && p2 != []
    ensures SetLengthsAsWritten([Some([]), Some(p1), Some(p2)]) == [Finite(0), Infinity, Finite(|p1|), Finite(|p2|)]
  {
    var pools := [Some([]), Some(p1), Some(p2)];
    var first: seq<Option<seq<string>>> := [Some([])];
    assert pools[..2][..1] == first && pools[..2] == first + [Some(p1)] && first[..0] == [];
    assert SetLengthsAsWritten(first) == [Finite(0), Infinity];
    assert SetLengthsAsWritten(pools[..2]) == [Finite(0), Infinity, Finite(|p1|)];
  }

  /** The rows both versions zip for the example pools. */
  lemma MisalignedEntries()
    ensures var five := seq(5, k => "ACGTACGT");
            var ten := seq(10, k => "ACGTACGT");
            var pools := [Some([]), Some(five), Some(ten)];
            && ZipEntries(SetLengthsAsWritten(pools), SeqLengthsAsWritten(pools), |pools|)
               == [SetEntry(Finite(0), 0, 0), SetEntry(Infinity, 8, 1), SetEntry(Finite(5), 8, 2)]
            && PoolEntries(pools) == [SetEntry(Infinity, 0, 0), SetEntry(Finite(5), 8, 1), SetEntry(Finite(10), 8, 2)]
  {
    var five := seq(5, k => "ACGTACGT");
    var ten := seq(10, k => "ACGTACGT");
    MinimumLengthAllEqual(five, 8);
    MinimumLengthAllEqual(ten, 8);
    LeadingEmptyPoolShifts(five, ten);
  }

  /** How `sorted` orders those rows. */
  lemma MisalignedSorts()
    ensures Positions(SortEntries([SetEntry(Finite(0), 0, 0), SetEntry(Infinity, 8, 1), SetEntry(Finite(5), 8, 2)])) == [2, 1, 0]
    ensures Positions(SortEntries([SetEntry(Infinity, 0, 0), SetEntry(Finite(5), 8, 1), SetEntry(Finite(10), 8, 2)])) == [1, 2, 0]
  {
    var w0, w1, w2 := SetEntry(Finite(0), 0, 0), SetEntry(Infinity, 8, 1), SetEntry(Finite(5), 8, 2);
    SortThree(w0, w1, w2);
    assert Insert(w1, [w2]) == [w2, w1];
    assert [w2, w1][1..] == [w1] && [w1][1..] == [];
    assert Insert(w0, [w1]) == [w1, w0];
    assert Insert(w0, [w2, w1]) == [w2, w1, w0];
    var e0, e1, e2 := SetEntry(Infinity, 0, 0), SetEntry(Finite(5), 8, 1), SetEntry(Finite(10), 8, 2);
    SortThree(e0, e1, e2);
    assert Insert(e1, [e2]) == [e1, e2];
    assert [e1, e2][1..] == [e2] && [e2][1..] == [];
    assert Insert(e0, [e2]) == [e2, e0];
    assert Insert(e0, [e1, e2]) == [e1, e2, e0];
  }

  lemma SortThree(a: SetEntry, b: SetEntry, c: SetEntry)
    ensures SortEntries([a, b, c]) == Insert(a, Insert(b, [c]))
  {
    assert [c][1..] == [];
    assert SortEntries([c]) == Insert(c, []) == [c];
    assert [b, c][1..] == [c];
    assert SortEntries([b, c]) == Insert(b, [c]);
    assert [a, b, c][1..] == [b, c];
  }

  lemma {:induction false} MinimumLengthAllEqual(xs: seq<string>, n: nat)
    requires xs != [] && forall k :: 0 <= k < |xs| ==> |xs[k]| == n
    ensures MinimumLength(xs) == Finite(n)
  {
    if |xs| > 1 {
      MinimumLengthAllEqual(xs[1..], n);
    }
  }
}
