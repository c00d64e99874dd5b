/**
 * The stored index sets of models.py: an `Index` is a named barcode sequence
 * checked by a regular-expression validator, and an `IndexSet` holds the
 * indexes whose shortest length sets the comparison window of its
 * self-compatibility check.
 */
module Models {
  import opened Wrappers
  import opened Itertools
  import opened Distance

  /** The `max_length` of the name and sequence fields. */
  const MaxLength: nat := 255

  /** A character of the validator's class `[ACGT]` under `re.I`. */
  predicate IsBase(c: char) {
    c in "ACGTacgt"
  }

  /**
   * The `RegexValidator('^[ACGT]+$', flags=re.I)` of models.py:26-35, which
   * Django applies with `re.search`: one or more bases, where `$` also matches
   * just before a final "\n".
   */
  predicate MatchesSequencePattern(s: string) {
    if s != [] && s[|s| - 1] == '\n' then
      |s| > 1 && AllBases(s[..|s| - 1])
    else
      s != [] && AllBases(s)
  }

  predicate AllBases(s: string) {
    forall k :: 0 <= k < |s| ==> IsBase(s[k])
  }

  /** The sequence field accepts a value that matches the pattern and fits `max_length`. */
  predicate ValidSequence(s: string) {
    |s| <= MaxLength && MatchesSequencePattern(s)
  }

  /**
   * Position by position: the first character is a base, and every other one
   * is a base except that the very last may be a newline.
   */
  lemma SequencePatternByPosition(s: string)
    ensures MatchesSequencePattern(s) <==>
              && s != [] && IsBase(s[0])
              && forall k :: 0 <= k < |s| ==> IsBase(s[k]) || (k == |s| - 1 && s[k] == '\n')
  {
    if s != [] && s[|s| - 1] == '\n' {
      var body := s[..|s| - 1];
      assert forall k :: 0 <= k < |body| ==> body[k] == s[k];
      if |s| == 1 {
        assert !IsBase(s[0]);
      }
    }
  }

  /** `Index`: one named sequence of a set. */
  datatype Index = Index(name: string, sequence: string)

  /** `IndexSet` with its related indexes (`self.index_set.all()`). */
  datatype IndexSet = IndexSet(name: string, indexes: seq<Index>)

  /** `[i.sequence for i in self.index_set.all()]`. */
  function Sequences(s: IndexSet): (r: seq<string>)
    ensures |r| == |s.indexes|
    ensures forall k :: 0 <= k < |r| ==> r[k] == s.indexes[k].sequence
  {
    seq(|s.indexes|, k requires 0 <= k < |s.indexes| => s.indexes[k].sequence)
  }

  /**
   * The database constraints on a stored set: `unique_together` on
   * (index_set, name) (models.py:39) and validated, bounded fields.
   */
  ghost predicate WellFormed(s: IndexSet) {
    && (forall i, j :: 0 <= i < j < |s.indexes| ==> s.indexes[i].name != s.indexes[j].name)
    && (forall k :: 0 <= k < |s.indexes| ==> ValidSequence(s.indexes[k].sequence) && |s.indexes[k].name| <= MaxLength)
  }

  /**
   * `IndexSet.min_length()` (models.py:77-79): the shortest sequence length;
   * `min` of an empty list raises ValueError.
   */
  function MinLength(s: IndexSet): (r: Result<nat>)
    ensures r.Err? <==> s.indexes == []
    ensures r.Err? ==> r.error == ValueError
    ensures r.Ok? ==> (forall k :: 0 <= k < |s.indexes| ==> r.value <= |s.indexes[k].sequence|)
                      && (exists k :: 0 <= k < |s.indexes| && |s.indexes[k].sequence| == r.value)
  {
    var seqs := Sequences(s);
    if seqs == [] then Err(ValueError)
    else
      var m := MinimumLength(seqs);
      assert seqs[0] in seqs;
      var w :| w in seqs && |w| == m.n;
      var k :| 0 <= k < |seqs| && seqs[k] == w;
      Ok(m.n)
  }

  /**
   * `IndexSet.is_self_compatible(min_distance, length)` (models.py:81-89):
   * every pair of sequences, upper-cased and cut to
   * `min(self.min_length(), length)`, must be at least `min_distance` apart;
   * the loop returns False at the first pair that is not. The distance is
   * `None` (and `None < min_distance` raises TypeError) only when that window
   * is 0.
   */
  function IsSelfCompatible(s: IndexSet, minDistance: int, length: Length): (r: Result<bool>)
    ensures s.indexes == [] ==> r == Err(ValueError)
  {
    match MinLength(s)
    case Err(e) => Err(e)
    case Ok(m) =>
      var window := MinLength'(m, length);
      Distance.IsSelfCompatible(Sequences(s), minDistance, Some(Finite(window)))
  }

  /** Python's `min(int, length)`: always an int, since `length` is an int or infinity. */
  function MinLength'(m: nat, length: Length): (r: nat)
    ensures r <= m && (length.Finite? ==> r <= length.n)
    ensures r == m || (length.Finite? && r == length.n)
  {
    if length.Finite? && length.n < m then length.n else m
  }

  /** Far enough apart over a window of w characters, stated with `hamming_distance` itself. */
  lemma PairFarMeaning(a: string, b: string, w: nat, minDistance: int)
    ensures TooClose(a, b, Finite(w), minDistance) == Ok(false) <==>
              HammingDistance(Upper(Prefix(a, w)), Upper(Prefix(b, w))) != None
              && HammingDistance(Upper(Prefix(a, w)), Upper(Prefix(b, w))).value >= minDistance
  {
  }

  /**
   * A set is compatible exactly when every pair of its sequences is far
   * enough apart over the common window; one sequence is always compatible.
   */
  lemma IsSelfCompatibleMeaning(s: IndexSet, minDistance: int, length: Length)
    requires s.indexes != []
    ensures var w := MinLength'(MinLength(s).value, length);
            var xs := Sequences(s);
            IsSelfCompatible(s, minDistance, length) == Ok(true) <==>
              |xs| == 1 ||
              forall i, j :: 0 <= i < j < |xs| ==>
                HammingDistance(Upper(Prefix(xs[i], w)), Upper(Prefix(xs[j], w))) != None
                && HammingDistance(Upper(Prefix(xs[i], w)), Upper(Prefix(xs[j], w))).value >= minDistance
  {
    var w := MinLength'(MinLength(s).value, length);
    var xs := Sequences(s);
    forall i, j | 0 <= i < j < |xs| {
      PairFarMeaning(xs[i], xs[j], w, minDistance);
    }
  }

  /**
   * Every sequence reaches the common window, so all windows have the same
   * length and the check raises only when that window is 0.
   */
  lemma IsSelfCompatibleRaisesOnlyOnEmptyWindow(s: IndexSet, minDistance: int, length: Length)
    requires s.indexes != []
    ensures var w := MinLength'(MinLength(s).value, length);
            && (forall k :: 0 <= k < |s.indexes| ==> |Prefix(s.indexes[k].sequence, w)| == w)
            && (IsSelfCompatible(s, minDistance, length).Err? ==> w == 0)
  {
    var w := MinLength'(MinLength(s).value, length);
    var xs := Sequences(s);
    if w > 0 {
      forall i, j | 0 <= i < j < |xs| ensures TooClose(xs[i], xs[j], Finite(w), minDistance).Ok? {
        TooCloseDefined(xs[i], xs[j], w, minDistance);
      }
      IsSelfCompatibleDefined(xs, minDistance, Some(Finite(w)));
    }
  }

  /**
   * A stored, validated set never makes `is_self_compatible` raise: every
   * sequence matches the pattern and so is non-empty, and the window is 0
   * only when `length` is.
   */
  lemma WellFormedNeverRaises(s: IndexSet, minDistance: int, length: Length)
    requires WellFormed(s) && s.indexes != [] && length != Finite(0)
    ensures IsSelfCompatible(s, minDistance, length).Ok?
  {
    IsSelfCompatibleRaisesOnlyOnEmptyWindow(s, minDistance, length);
    var m := MinLength(s).value;
    var k :| 0 <= k < |s.indexes| && |s.indexes[k].sequence| == m;
    assert ValidSequence(s.indexes[k].sequence);
  }
}
