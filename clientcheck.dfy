/**
 * The browser-side check of app.js: `hamming` counts mismatches over the
 * common prefix of two strings, and `checkCompatibility` marks every
 * selected index that is too close to another selected one and every
 * unselected index that is too close to a selected one. The page's index
 * elements are abstracted into two lists of sequences, and an element is
 * named by its list and its position.
 */
module ClientCheck {
  import opened Wrappers
  import opened Distance

  /** `min_dist` of `checkCompatibility`. */
  const MinDist: nat := 3

  // ----- hamming -----

  /**
   * What `hamming(a, b)` returns: the number of positions below the shorter
   * length at which the characters differ, compared exactly (`!==`).
   */
  function Mismatches(a: string, b: string): (r: nat)
    ensures r <= Min(|a|, |b|)
  {
    CountMismatches(a[..Min(|a|, |b|)], b[..Min(|a|, |b|)])
  }

  /** `hamming(input1, input2)` (app.js:56-66), with its counting loop. */
  method Hamming(a: string, b: string) returns (distance: nat)
    ensures distance == Mismatches(a, b)
  {
    var length := if |a| <= |b| then |a| else |b|;
    distance := 0;
    var i := 0;
    while i < length
      invariant 0 <= i <= length
      invariant distance == CountMismatches(a[..i], b[..i])
    {
      assert a[..i + 1][..i] == a[..i] && b[..i + 1][..i] == b[..i];
      if a[i] != b[i] {
        distance := distance + 1;
      }
      i := i + 1;
    }
  }

  /** The positions below the shorter length at which the strings differ. */
  ghost function MismatchSet(a: string, b: string): set<nat> {
    set i: nat | i < Min(|a|, |b|) && a[i] != b[i]
  }

  /** `hamming` counts exactly the differing positions of the common prefix. */
  lemma MismatchesCountsPositions(a: string, b: string)
    ensures Mismatches(a, b) == |MismatchSet(a, b)|
  {
    var m := Min(|a|, |b|);
    CountMismatchesIsSize(a[..m], b[..m]);
    assert MismatchPositions(a[..m], b[..m]) == MismatchSet(a, b);
  }

  /**
   * `hamming(s, s)` is 0, `hamming` is symmetric, it never exceeds the
   * shorter length, and it is 0 exactly when one string is a prefix of the
   * other.
   */
  lemma MismatchesProperties(a: string, b: string)
    ensures Mismatches(a, a) == 0
    ensures Mismatches(a, b) == Mismatches(b, a)
    ensures Mismatches(a, b) <= |a| && Mismatches(a, b) <= |b|
    ensures Mismatches(a, b) == 0 <==> a[..Min(|a|, |b|)] == b[..Min(|a|, |b|)]
  {
    MismatchesCountsPositions(a, b);
    MismatchesCountsPositions(b, a);
    assert MismatchSet(a, b) == MismatchSet(b, a);
  }

  /** A length difference adds nothing: characters beyond the shorter string are never compared. */
  lemma MismatchesIgnoresTail(a: string, b: string, tail: string)
    requires |a| <= |b|
    ensures Mismatches(a, b + tail) == Mismatches(a, b)
  {
    assert (b + tail)[..|a|] == b[..|a|];
  }

  /** On non-empty strings of one length, `hamming` agrees with the server's `hamming_distance`. */
  lemma MismatchesAgreesWithServer(a: string, b: string)
    requires a != [] && |a| == |b|
    ensures HammingDistance(a, b) == Some(Mismatches(a, b))
  {
    assert a[..|a|] == a && b[..|b|] == b;
    CountMismatchesIsSize(a, b);
  }

  /** The comparison is case-sensitive: "a" and "A" are one apart. */
  lemma MismatchesCaseSensitive()
    ensures Mismatches("a", "A") == 1
  {
    assert "a"[..1] == "a" && "A"[..1] == "A";
    assert "a"[..0] == [] && "A"[..0] == [];
  }

  // ----- checkCompatibility -----

  /** An index element of the page: the i-th selected or the n-th unselected one. */
  datatype Element = SelectedAt(i: nat) | UnselectedAt(n: nat)

  /** `hamming(x, y) < min_dist`. */
  predicate Close(x: string, y: string) {
    Mismatches(x, y) < MinDist
  }

  /**
   * The marks of `checkCompatibility` as a rule: a selected index is marked
   * when another selected index is too close to it, and an unselected one
   * when some selected index is too close to it. Two unselected indexes are
   * never compared.
   */
  ghost predicate Marked(selected: seq<string>, unselected: seq<string>, e: Element) {
    match e
    case SelectedAt(i) =>
      i < |selected| && exists j :: 0 <= j < |selected| && j != i && Close(selected[i], selected[j])
    case UnselectedAt(n) =>
      n < |unselected| && exists s :: 0 <= s < |selected| && Close(selected[s], unselected[n])
  }

  /**
   * What the nested loops have pushed once they are past row `s1`, past
   * pair (s1, s2) of the first inner loop and past element `n` of the
   * second.
   */
  ghost predicate Pushed(selected: seq<string>, unselected: seq<string>, e: Element, s1: nat, s2: nat, n: nat) {
    match e
    case SelectedAt(i) =>
      exists a, b :: 0 <= a < b < |selected| && (a < s1 || (a == s1 && b < s2)) && (i == a || i == b)
                     && Close(selected[a], selected[b])
    case UnselectedAt(m) =>
      m < |unselected| && exists a :: 0 <= a < |selected| && (a < s1 || (a == s1 && m < n))
                                      && Close(selected[a], unselected[m])
  }

  /** After the last row, what was pushed is what the rule marks. */
  lemma PushedAllMarked(selected: seq<string>, unselected: seq<string>, e: Element)
    ensures Pushed(selected, unselected, e, |selected|, 0, 0) <==> Marked(selected, unselected, e)
  {
    if e.SelectedAt? {
      var i := e.i;
      if Marked(selected, unselected, e) {
        var j :| 0 <= j < |selected| && j != i && Close(selected[i], selected[j]);
        MismatchesProperties(selected[i], selected[j]);
        if i < j {
          assert Close(selected[i], selected[j]);
        } else {
          assert Close(selected[j], selected[i]);
        }
      }
      if Pushed(selected, unselected, e, |selected|, 0, 0) {
        var a, b :| 0 <= a < b < |selected| && (i == a || i == b) && Close(selected[a], selected[b]);
        MismatchesProperties(selected[a], selected[b]);
      }
    }
  }

  /** The first inner loop (app.js:79-87): both members of every close selected pair (s1, s2), s2 > s1. */
  method PushSelectedPairs(selected: seq<string>, unselected: seq<string>, s1: nat, incompatible: seq<Element>)
    returns (pushed: seq<Element>)
    requires s1 < |selected|
    requires forall e :: e in incompatible <==> Pushed(selected, unselected, e, s1, 0, 0)
    ensures forall e :: e in pushed <==> Pushed(selected, unselected, e, s1, |selected|, 0)
  {
    pushed := incompatible;
    var s2 := s1 + 1;
    while s2 < |selected|
      invariant s1 + 1 <= s2 <= |selected|
      invariant forall e :: e in pushed <==> Pushed(selected, unselected, e, s1, s2, 0)
    {
      var distance := Hamming(selected[s1], selected[s2]);
      if distance < MinDist {
        pushed := pushed + [SelectedAt(s1), SelectedAt(s2)];
      }
      PushedPairStep(selected, unselected, s1, s2);
      s2 := s2 + 1;
    }
  }

  lemma PushedPairStep(selected: seq<string>, unselected: seq<string>, s1: nat, s2: nat)
    requires s1 < s2 < |selected|
    ensures forall e: Element :: e.SelectedAt? && e.i != s1 && e.i != s2 ==>
              (Pushed(selected, unselected, e, s1, s2 + 1, 0) <==> Pushed(selected, unselected, e, s1, s2, 0))
    ensures forall e: Element :: e.UnselectedAt? ==>
              (Pushed(selected, unselected, e, s1, s2 + 1, 0) <==> Pushed(selected, unselected, e, s1, s2, 0))
    ensures Close(selected[s1], selected[s2]) ==>
              Pushed(selected, unselected, SelectedAt(s1), s1, s2 + 1, 0)
              && Pushed(selected, unselected, SelectedAt(s2), s1, s2 + 1, 0)
  {
  }

  /** The second inner loop (app.js:90-97): every unselected element too close to selected `s1`. */
  method PushUnselected(selected: seq<string>, unselected: seq<string>, s1: nat, incompatible: seq<Element>)
    returns (pushed: seq<Element>)
    requires s1 < |selected|
    requires forall e :: e in incompatible <==> Pushed(selected, unselected, e, s1, |selected|, 0)
    ensures forall e :: e in pushed <==> Pushed(selected, unselected, e, s1 + 1, 0, 0)
  {
    pushed := incompatible;
    var n := 0;
    while n < |unselected|
      invariant 0 <= n <= |unselected|
      invariant forall e :: e in pushed <==> Pushed(selected, unselected, e, s1, |selected|, n)
    {
      var distance := Hamming(selected[s1], unselected[n]);
      if distance < MinDist {
        pushed := pushed + [UnselectedAt(n)];
      }
      n := n + 1;
    }
  }

  /**
   * The loops of `checkCompatibility` (app.js:79-98): the elements pushed on
   * `incompatible`, which are exactly those the rule marks.
   */
  method IncompatibleElements(selected: seq<string>, unselected: seq<string>) returns (incompatible: seq<Element>)
    ensures forall e :: e in incompatible <==> Marked(selected, unselected, e)
  {
    incompatible := [];
    var s1 := 0;
    while s1 < |selected|
      invariant 0 <= s1 <= |selected|
      invariant forall e :: e in incompatible <==> Pushed(selected, unselected, e, s1, 0, 0)
    {
      incompatible := PushSelectedPairs(selected, unselected, s1, incompatible);
      incompatible := PushUnselected(selected, unselected, s1, incompatible);
      s1 := s1 + 1;
    }
    forall e ensures e in incompatible <==> Marked(selected, unselected, e) {
      PushedAllMarked(selected, unselected, e);
    }
  }

  /** The page's index elements and which of them carry the `incompatible` class. */
  class Page {
    var marked: set<Element>

    constructor ()
      ensures marked == {}
    {
      marked := {};
    }

    /**
     * `checkCompatibility()` (app.js:69-102): every old mark is removed, then
     * the elements the loops pushed are marked, so the marks depend on the
     * current selection only.
     */
    method CheckCompatibility(selected: seq<string>, unselected: seq<string>)
      modifies this
      ensures forall e :: e in marked <==> Marked(selected, unselected, e)
    {
      var incompatible := IncompatibleElements(selected, unselected);
      marked := {};
      marked := set e | e in incompatible;
    }
  }
}
