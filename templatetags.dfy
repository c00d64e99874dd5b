/**
 * The two template filters of the site: `list2table`, which breaks a list into
 * table rows of `n` cells, and `nbsp`, which replaces every space by a
 * non-breaking space entity (`mark_safe` only tags the string, so it is the
 * identity here).
 */
module TemplateTags {
  import opened Wrappers
  import opened Strings

  /**
   * What `list2table` returns: the rows, or `[thelist]` around a value that
   * `list()` cannot iterate (its contents are not modelled).
   */
  datatype Table<T> = Rows(rows: seq<seq<T>>) | Wrapped

  /** Python's `xs[lo:hi]` for non-negative bounds: both stop at the end of the list. */
  function Slice<T>(xs: seq<T>, lo: nat, hi: nat): seq<T> {
    var end := if hi <= |xs| then hi else |xs|;
    var start := if lo <= end then lo else end;
    xs[start..end]
  }

  /** `math.ceil(a / n)` for a positive `n`: the number of n-item rows that hold a items. */
  function CeilDiv(a: nat, n: nat): (r: nat)
    requires n > 0
    ensures r <= a
    ensures r == 0 <==> a == 0
  {
    if a == 0 then 0
    else if a <= n then 1
    else 1 + CeilDiv(a - n, n)
  }

  lemma MulMono(a: nat, b: nat, n: nat)
    requires a <= b
    ensures a * n <= b * n
  {
  }

  lemma MulSucc(a: nat, n: nat)
    ensures (a + 1) * n == a * n + n
  {
  }

  lemma DivUnique(y: nat, n: nat, q: nat, r: nat)
    requires n > 0 && y == q * n + r && r < n
    ensures y / n == q
  {
    var q' := y / n;
    var r' := y % n;
    assert y == q' * n + r';
    if q < q' {
      MulMono(q + 1, q', n);
      MulSucc(q, n);
    } else if q' < q {
      MulMono(q' + 1, q, n);
      MulSucc(q', n);
    }
  }

  /** The row count is Python's `ceil(len / n)`, which for ints is `(len + n - 1) // n`. */
  lemma {:induction false} CeilDivIsQuotient(a: nat, n: nat)
    requires n > 0
    ensures CeilDiv(a, n) == (a + n - 1) / n
    decreases a
  {
    if a == 0 {
      DivUnique(n - 1, n, 0, n - 1);
    } else if a <= n {
      DivUnique(a + n - 1, n, 1, a - 1);
    } else {
      CeilDivIsQuotient(a - n, n);
      var q := (a - 1) / n;
      var r := (a - 1) % n;
      assert a - 1 == q * n + r;
      MulSucc(q, n);
      DivUnique(a + n - 1, n, q + 1, r);
    }
  }

  /** `n * i`, the offset of row i, as repeated addition. */
  function Start(i: nat, n: nat): nat {
    if i == 0 then 0 else Start(i - 1, n) + n
  }

  lemma {:induction false} StartIsProduct(i: nat, n: nat)
    ensures Start(i, n) == n * i
  {
    if i > 0 {
      StartIsProduct(i - 1, n);
      MulSucc(i - 1, n);
    }
  }

  /** The row count is the ceiling: the least q with q * n >= a. */
  lemma {:induction false} CeilDivIsCeiling(a: nat, n: nat)
    requires n > 0
    ensures Start(CeilDiv(a, n), n) >= a
    ensures CeilDiv(a, n) == 0 || Start(CeilDiv(a, n) - 1, n) < a
    decreases a
  {
    if a > n {
      CeilDivIsCeiling(a - n, n);
    }
  }

  /** Slicing after dropping k items is slicing k further on. */
  lemma SliceDrop<T>(xs: seq<T>, k: nat, lo: nat, hi: nat)
    requires k <= |xs| && lo <= hi
    ensures Slice(xs[k..], lo, hi) == Slice(xs, lo + k, hi + k)
  {
  }

  /**
   * The rows of list2table.py:62 for an `n` of at least 1: the first n items,
   * then the rows of the rest; `ChunkIsSlice` shows that row i is
   * `thelist[n * i:n * (i + 1)]`, and `ChunkSizes` that there are
   * `ceil(len / n)` rows.
   */
  function Chunks<T>(xs: seq<T>, n: nat): (r: seq<seq<T>>)
    requires n > 0
    ensures |r| <= |xs|
    ensures forall i :: 0 <= i < |r| ==> 0 < |r[i]| <= n
    decreases |xs|
  {
    if xs == [] then []
    else if |xs| <= n then [xs]
    else [xs[..n]] + Chunks(xs[n..], n)
  }

  /**
   * `list2table(thelist, n)` (list2table.py:57-62). `n` is the outcome of
   * `int(n)` (None when it raises) and `thelist` the outcome of
   * `list(thelist)` (None when it raises); either failure returns
   * `[thelist]`. `n == 0` raises ZeroDivisionError outside the `try`, and a
   * negative `n` gives no rows because `ceil(len / n) <= 0`.
   */
  function List2Table<T>(thelist: Option<seq<T>>, n: Option<int>): Result<Table<T>> {
    if n.None? then
      if thelist.Some? then Ok(Rows([thelist.value])) else Ok(Wrapped)
    else if thelist.None? then Ok(Wrapped)
    else if n.value == 0 then Err(ZeroDivisionError)
    else if n.value < 0 then Ok(Rows([]))
    else Ok(Rows(Chunks(thelist.value, n.value)))
  }

  /** The rows laid end to end. */
  function Flatten<T>(rows: seq<seq<T>>): seq<T> {
    if rows == [] then [] else rows[0] + Flatten(rows[1..])
  }

  /** Row i is the slice `thelist[n * i:n * (i + 1)]` of the comprehension. */
  lemma {:induction false} ChunkIsSlice<T>(xs: seq<T>, n: nat, i: nat)
    requires n > 0 && i < |Chunks(xs, n)|
    ensures Chunks(xs, n)[i] == Slice(xs, Start(i, n), Start(i + 1, n))
    ensures Start(i, n) == n * i && Start(i + 1, n) == n * (i + 1)
    decreases |xs|
  {
    StartIsProduct(i, n);
    StartIsProduct(i + 1, n);
    if i > 0 {
      assert |xs| > n;
      var rest := Chunks(xs[n..], n);
      assert Chunks(xs, n)[i] == rest[i - 1];
      ChunkIsSlice(xs[n..], n, i - 1);
      SliceDrop(xs, n, Start(i - 1, n), Start(i, n));
    }
  }

  /** For n >= 1 the rows, laid end to end, give back the list. */
  lemma {:induction false} FlattenChunks<T>(xs: seq<T>, n: nat)
    requires n > 0
    ensures Flatten(Chunks(xs, n)) == xs
    decreases |xs|
  {
    if |xs| > n {
      FlattenChunks(xs[n..], n);
      assert ([xs[..n]] + Chunks(xs[n..], n))[1..] == Chunks(xs[n..], n);
      assert xs == xs[..n] + xs[n..];
    }
  }

  /**
   * There are ceil(len / n) rows; every row but the last holds exactly n
   * items and the last one 1 to n.
   */
  lemma {:induction false} ChunkSizes<T>(xs: seq<T>, n: nat)
    requires n > 0
    ensures var rows := Chunks(xs, n);
            && |rows| == CeilDiv(|xs|, n) == (|xs| + n - 1) / n
            && (forall i :: 0 <= i < |rows| - 1 ==> |rows[i]| == n)
            && (rows != [] ==> 1 <= |rows[|rows| - 1]| <= n)
    decreases |xs|
  {
    CeilDivIsQuotient(|xs|, n);
    if |xs| > n {
      ChunkSizes(xs[n..], n);
      var rows := Chunks(xs, n);
      var rest := Chunks(xs[n..], n);
      assert rows == [xs[..n]] + rest;
      forall i | 0 <= i < |rows| - 1 ensures |rows[i]| == n {
        if i > 0 {
          assert rows[i] == rest[i - 1];
        }
      }
      assert rows[|rows| - 1] == rest[|rest| - 1];
    }
  }

  /** A non-empty list no longer than n fits in a single row. */
  lemma SingleRow<T>(xs: seq<T>, n: int)
    requires 0 < |xs| <= n
    ensures List2Table(Some(xs), Some(n)) == Ok(Rows([xs]))
  {
  }

  /** `list2table`'s error and fallback outcomes. */
  lemma List2TableEdges<T>(xs: seq<T>, n: int)
    ensures List2Table(Some(xs), None) == Ok(Rows([xs]))
    ensures List2Table<T>(None, Some(n)) == Ok(Wrapped)
    ensures List2Table(Some(xs), Some(0)) == Err(ZeroDivisionError)
    ensures n < 0 ==> List2Table(Some(xs), Some(n)) == Ok(Rows([]))
    ensures n > 0 ==> List2Table<T>(Some([]), Some(n)) == Ok(Rows([]))
  {
  }

  /** The entity `nbsp` puts in place of a space. */
  const Entity: string := "&nbsp;"

  /** `nbsp(value)` (nbsp.py:30): `'&nbsp;'.join(value.split(' '))`. */
  function Nbsp(value: string): string {
    Join(Split(value, ' '), Entity)
  }

  /** Joining space-free pieces with the entity, which holds no space, leaves no space. */
  lemma {:induction false} JoinWithoutSpace(parts: seq<string>)
    requires forall k :: 0 <= k < |parts| ==> ' ' !in parts[k]
    ensures ' ' !in Join(parts, Entity)
  {
    if |parts| > 1 {
      JoinWithoutSpace(parts[1..]);
      assert ' ' !in Entity;
    }
  }

  /** Every space is replaced, leading and trailing ones included, and each adds five characters. */
  lemma {:induction false} NbspReplacesEverySpace(value: string)
    ensures ' ' !in Nbsp(value)
    ensures |Nbsp(value)| == |value| + 5 * Count(value, ' ')
  {
    SplitShape(value, ' ');
    JoinWithoutSpace(Split(value, ' '));
    NbspLength(value);
  }

  lemma {:induction false} NbspLength(value: string)
    ensures |Nbsp(value)| == |value| + 5 * Count(value, ' ')
  {
    if value != [] {
      NbspLength(value[1..]);
      var rest := Split(value[1..], ' ');
      if value[0] == ' ' {
        assert Split(value, ' ') == [[]] + rest;
        assert ([[]] + rest)[1..] == rest;
      } else if |rest| > 1 {
        var parts := Split(value, ' ');
        assert parts[1..] == rest[1..];
        assert Join(rest, Entity) == rest[0] + Entity + Join(rest[1..], Entity);
      }
    }
  }

  /** A string without spaces comes back unchanged. */
  lemma NbspWithoutSpaces(value: string)
    requires ' ' !in value
    ensures Nbsp(value) == value
  {
    JoinSplit(value, ' ');
    assert Split(value, ' ') == [value];
  }

  lemma NbspAtFirstSpace(a: string, b: string)
    requires ' ' !in a
    ensures Nbsp(a + " " + b) == a + Entity + Nbsp(b)
  {
    SplitAtFirst(a, b, ' ');
    assert ([a] + Split(b, ' '))[1..] == Split(b, ' ');
  }

  /** A leading space is converted like any other, never stripped. */
  lemma NbspLeadingSpace(value: string)
    ensures Nbsp(" " + value) == Entity + Nbsp(value)
  {
    NbspAtFirstSpace("", value);
    assert "" + " " + value == " " + value;
  }

  /** So is a trailing one. */
  lemma NbspTrailingSpace(value: string)
    ensures Nbsp(value + " ") == Nbsp(value) + Entity
  {
    SplitAtLast(value, ' ');
    JoinAtLast(Split(value, ' '), [], Entity);
  }
}
