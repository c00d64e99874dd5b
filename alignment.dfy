/**
 * The text alignments of utils.py shown beside an incompatible pair: one mark
 * per position ('|' for a case-insensitive match, ' ' for a mismatch, '-'
 * outside the compared window), and the reverse complement of a sequence.
 */
module Alignment {
  import opened Wrappers
  import opened Distance

  /** `c * n`: the string of `n` copies of `c`. */
  function Repeat(c: char, n: nat): (r: string)
    ensures |r| == n
    ensures forall k :: 0 <= k < n ==> r[k] == c
  {
    seq(n, k => c)
  }

  /** The comprehension of utils.py:98-99: one mark per position that both strings reach. */
  function MatchMarks(a: string, b: string): (r: string)
    ensures |r| == Min(|a|, |b|)
  {
    seq(Min(|a|, |b|), k requires 0 <= k < Min(|a|, |b|) => if UpperChar(a[k]) == UpperChar(b[k]) then '|' else ' ')
  }

  /**
   * `generate_alignment(first, second, mark_unaligned, length)` (utils.py:97-108):
   * the match marks, padded with '-' up to the longer string when
   * `mark_unaligned`, then every mark from position `length` on replaced by '-'.
   */
  function GenerateAlignment(first: string, second: string, markUnaligned: bool, length: Length): (r: string)
    ensures |r| == if markUnaligned then Max(|first|, |second|) else Min(|first|, |second|)
  {
    var diff := if |first| <= |second| then |second| - |first| else |first| - |second|;
    var alignment := MatchMarks(first, second) + (if markUnaligned then Repeat('-', diff) else []);
    if length.Finite? && |alignment| > length.n then
      alignment[..length.n] + Repeat('-', |alignment| - length.n)
    else
      alignment
  }

  /** The mark one position gets: inside both strings and the window it compares, elsewhere '-'. */
  function ExpectedMark(first: string, second: string, length: Length, k: nat): char {
    if k < Min(|first|, |second|) && (length.Infinity? || k < length.n) then
      (if UpperChar(first[k]) == UpperChar(second[k]) then '|' else ' ')
    else '-'
  }

  /**
   * The alignment is as long as the longer string (the shorter one without
   * `mark_unaligned`); the window never changes its length, it only turns
   * the marks from `length` on into '-'.
   */
  lemma GenerateAlignmentShape(first: string, second: string, markUnaligned: bool, length: Length)
    ensures var r := GenerateAlignment(first, second, markUnaligned, length);
            && |r| == (if markUnaligned then Max(|first|, |second|) else Min(|first|, |second|))
            && forall k :: 0 <= k < |r| ==> r[k] == ExpectedMark(first, second, length, k)
  {
    var diff := if |first| <= |second| then |second| - |first| else |first| - |second|;
    var marks := MatchMarks(first, second);
    var alignment := marks + (if markUnaligned then Repeat('-', diff) else []);
    var r := GenerateAlignment(first, second, markUnaligned, length);
    forall k | 0 <= k < |r| ensures r[k] == ExpectedMark(first, second, length, k) {
      if length.Finite? && |alignment| > length.n && k >= length.n {
        assert r[k] == '-';
      } else {
        assert r[k] == alignment[k];
        if k < |marks| {
          assert alignment[k] == marks[k];
        }
      }
    }
  }

  /**
   * For two sequences of equal length cut to a window they both reach, the
   * mismatch marks sit exactly where `hamming_distance` counts a difference,
   * so the alignment shows as many blanks as the distance.
   */
  lemma AlignmentBlanksAreMismatches(first: string, second: string, n: nat)
    requires 0 < n <= |first| && |first| == |second|
    ensures var r := GenerateAlignment(first, second, true, Finite(n));
            var x := Upper(Prefix(first, n));
            var y := Upper(Prefix(second, n));
            && (set k: nat | k < |r| && r[k] == ' ') == MismatchPositions(x, y)
            && HammingDistance(x, y) == Some(|set k: nat | k < |r| && r[k] == ' '|)
  {
    GenerateAlignmentShape(first, second, true, Finite(n));
    var r := GenerateAlignment(first, second, true, Finite(n));
    var x := Upper(Prefix(first, n));
    var y := Upper(Prefix(second, n));
    forall k: nat ensures k in (set k: nat | k < |r| && r[k] == ' ') <==> k in MismatchPositions(x, y) {
      if k < |r| && k < n {
        assert x[k] == UpperChar(first[k]) && y[k] == UpperChar(second[k]);
      }
    }
    assert (set k: nat | k < |r| && r[k] == ' ') == MismatchPositions(x, y);
  }

  /**
   * `generate_incompatible_alignments(pairs, length)` (utils.py:111-120): the
   * alignment of every pair in order, the window defaulting to infinity.
   */
  method GenerateIncompatibleAlignments(pairs: seq<(string, string)>, length: Option<nat>) returns (alignments: seq<string>)
    ensures |alignments| == |pairs|
    ensures forall k :: 0 <= k < |pairs| ==>
              alignments[k] == GenerateAlignment(pairs[k].0, pairs[k].1, true, if length.Some? then Finite(length.value) else Infinity)
  {
    var window := if length.Some? then Finite(length.value) else Infinity;
    alignments := [];
    for k := 0 to |pairs|
      invariant |alignments| == k
      invariant forall l :: 0 <= l < k ==> alignments[l] == GenerateAlignment(pairs[l].0, pairs[l].1, true, window)
    {
      alignments := alignments + [GenerateAlignment(pairs[k].0, pairs[k].1, true, window)];
    }
  }

  /** `str.maketrans('ACGTacgt', 'TGCAtgca')`: complement the bases, keep every other character. */
  function Complement(c: char): (r: char)
    ensures c in "ACGTacgt" <==> r in "ACGTacgt"
    ensures c !in "ACGTacgt" ==> r == c
  {
    match c
    case 'A' => 'T' case 'C' => 'G' case 'G' => 'C' case 'T' => 'A'
    case 'a' => 't' case 'c' => 'g' case 'g' => 'c' case 't' => 'a'
    case _ => c
  }

  /** `reverse_complement(seq)` (utils.py:278-279): complement each character, then reverse. */
  function ReverseComplement(s: string): (r: string)
    ensures |r| == |s|
  {
    seq(|s|, k requires 0 <= k < |s| => Complement(s[|s| - 1 - k]))
  }

  lemma ComplementChar(c: char)
    ensures Complement(Complement(c)) == c
    ensures c in "ACGTacgt" ==> Complement(c) in "ACGTacgt" && Complement(c) != c
  {
    assert "ACGTacgt" == ['A', 'C', 'G', 'T', 'a', 'c', 'g', 't'];
  }

  /** Taking the reverse complement twice gives back the sequence. */
  lemma ReverseComplementInvolution(s: string)
    ensures ReverseComplement(ReverseComplement(s)) == s
  {
    var r := ReverseComplement(s);
    forall k | 0 <= k < |s| ensures ReverseComplement(r)[k] == s[k] {
      assert r[|s| - 1 - k] == Complement(s[k]);
      ComplementChar(s[k]);
    }
  }

  /** A string of bases stays one, and every base differs from the one it was mirrored from. */
  lemma ReverseComplementBases(s: string)
    requires forall k :: 0 <= k < |s| ==> s[k] in "ACGTacgt"
    ensures forall k :: 0 <= k < |s| ==> ReverseComplement(s)[k] in "ACGTacgt"
    ensures forall k :: 0 <= k < |s| ==> ReverseComplement(s)[k] != s[|s| - 1 - k]
  {
    forall k | 0 <= k < |s| ensures ReverseComplement(s)[k] in "ACGTacgt" && ReverseComplement(s)[k] != s[|s| - 1 - k] {
      ComplementChar(s[|s| - 1 - k]);
    }
  }
}
