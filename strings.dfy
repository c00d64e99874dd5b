/**
 * The Python `str` methods the forms, the indexing classes and the template
 * tags rely on: `count`, `split` and `join` with an explicit separator,
 * `replace(c, '')` and `splitlines`.
 */
module Strings {

  /** `s.count(c)` for a one-character `c`. */
  function Count(s: string, c: char): (r: nat)
    ensures r <= |s|
    ensures r == 0 <==> c !in s
  {
    if s == [] then 0
    else (if s[0] == c then 1 else 0) + Count(s[1..], c)
  }

  /** `s.split(c)` with an explicit separator: the pieces between occurrences of `c`, empty ones kept. */
  function Split(s: string, c: char): (parts: seq<string>)
    ensures parts != []
  {
    if s == [] then [[]]
    else
      var rest := Split(s[1..], c);
      if s[0] == c then [[]] + rest
      else [[s[0]] + rest[0]] + rest[1..]
  }

  /** A split has one piece more than there are separators, and no piece holds one. */
  lemma {:induction false} SplitShape(s: string, c: char)
    ensures |Split(s, c)| == Count(s, c) + 1
    ensures forall k :: 0 <= k < |Split(s, c)| ==> c !in Split(s, c)[k]
  {
    if s != [] {
      SplitShape(s[1..], c);
      var rest := Split(s[1..], c);
      if s[0] != c {
        assert c !in [s[0]] + rest[0];
        assert forall k :: 1 <= k < |Split(s, c)| ==> Split(s, c)[k] == rest[k];
      } else {
        assert forall k :: 1 <= k < |Split(s, c)| ==> Split(s, c)[k] == rest[k - 1];
      }
    }
  }

  /** `sep.join(parts)`. */
  function Join(parts: seq<string>, sep: string): (r: string)
    ensures parts == [] ==> r == []
    ensures parts != [] ==> parts[0] <= r
  {
    if parts == [] then []
    else if |parts| == 1 then parts[0]
    else parts[0] + sep + Join(parts[1..], sep)
  }

  /** Joining after an empty first piece starts with the separator. */
  lemma JoinEmptyHead(parts: seq<string>, sep: string)
    requires parts != []
    ensures Join([[]] + parts, sep) == sep + Join(parts, sep)
  {
    assert ([[]] + parts)[1..] == parts;
  }

  /** Joining after text is glued to the first piece puts that text in front. */
  lemma JoinPrepend(x: string, parts: seq<string>, sep: string)
    requires parts != []
    ensures Join([x + parts[0]] + parts[1..], sep) == x + Join(parts, sep)
  {
    var glued := [x + parts[0]] + parts[1..];
    if |parts| > 1 {
      assert glued[1..] == parts[1..];
    }
  }

  /** Joining the pieces of a split with the separator gives back the string. */
  lemma {:induction false} JoinSplit(s: string, c: char)
    ensures Join(Split(s, c), [c]) == s
  {
    if s != [] {
      JoinSplit(s[1..], c);
      var rest := Split(s[1..], c);
      if s[0] == c {
        JoinEmptyHead(rest, [c]);
      } else {
        JoinPrepend([s[0]], rest, [c]);
      }
      assert s == [s[0]] + s[1..];
    }
  }

  /** The pieces of a split up to the first separator. */
  lemma {:induction false} SplitAtFirst(a: string, b: string, c: char)
    requires c !in a
    ensures Split(a + [c] + b, c) == [a] + Split(b, c)
  {
    if a == [] {
      assert [] + [c] + b == [c] + b;
      assert ([c] + b)[1..] == b;
    } else {
      SplitAtFirst(a[1..], b, c);
      var rest := Split(a[1..] + [c] + b, c);
      assert (a + [c] + b)[0] == a[0] && (a + [c] + b)[1..] == a[1..] + [c] + b;
      assert rest[0] == a[1..] && rest[1..] == Split(b, c);
      assert [a[0]] + a[1..] == a;
    }
  }

  /** The pieces of a split after a final separator: an empty one. */
  lemma {:induction false} SplitAtLast(a: string, c: char)
    ensures Split(a + [c], c) == Split(a, c) + [[]]
  {
    if a == [] {
      assert [c][1..] == [];
      assert Split([c], c) == [[]] + Split([], c);
    } else {
      var t := a[1..];
      SplitAtLast(t, c);
      var rest := Split(t, c);
      assert (a + [c])[0] == a[0] && (a + [c])[1..] == t + [c];
      assert Split(a + [c], c) == if a[0] == c then [[]] + (rest + [[]])
                                  else [[a[0]] + (rest + [[]])[0]] + (rest + [[]])[1..];
      if a[0] != c {
        assert (rest + [[]])[0] == rest[0] && (rest + [[]])[1..] == rest[1..] + [[]];
      }
    }
  }

  /** Joining one more piece appends the separator and the piece. */
  lemma {:induction false} JoinAtLast(parts: seq<string>, last: string, sep: string)
    requires parts != []
    ensures Join(parts + [last], sep) == Join(parts, sep) + sep + last
  {
    if |parts| > 1 {
      JoinAtLast(parts[1..], last, sep);
      assert (parts + [last])[1..] == parts[1..] + [last];
    }
  }

  /** `s.replace(c, '')`: `s` with every `c` removed. */
  function RemoveChar(s: string, c: char): (r: string)
    ensures |r| <= |s|
  {
    if s == [] then []
    else (if s[0] == c then [] else [s[0]]) + RemoveChar(s[1..], c)
  }

  /** Removal leaves no `c` behind and shortens the string by the number of `c`s. */
  lemma {:induction false} RemoveCharDrops(s: string, c: char)
    ensures c !in RemoveChar(s, c)
    ensures |RemoveChar(s, c)| == |s| - Count(s, c)
  {
    if s != [] {
      RemoveCharDrops(s[1..], c);
    }
  }

  /** Removal keeps every other character, in order, and nothing else. */
  lemma {:induction false} RemoveCharKeeps(s: string, c: char, d: char)
    requires d != c
    ensures Count(RemoveChar(s, c), d) == Count(s, d)
    ensures d in RemoveChar(s, c) <==> d in s
  {
    if s != [] {
      RemoveCharKeeps(s[1..], c, d);
      var head: string := if s[0] == c then [] else [s[0]];
      CountConcat(head, RemoveChar(s[1..], c), d);
      assert s == [s[0]] + s[1..];
    }
  }

  lemma {:induction false} CountConcat(a: string, b: string, c: char)
    ensures Count(a + b, c) == Count(a, c) + Count(b, c)
  {
    if a != [] {
      CountConcat(a[1..], b, c);
      assert (a + b)[0] == a[0] && (a + b)[1..] == a[1..] + b;
    } else {
      assert a + b == b;
    }
  }

  /** The line boundaries of Python's `str.splitlines`. */
  predicate LineBreak(c: char) {
    c in "\n\r\U{0B}\U{0C}\U{1C}\U{1D}\U{1E}\U{85}\U{2028}\U{2029}"
  }

  /**
   * `s.splitlines()`: the text between line boundaries, "\r\n" counting as one
   * boundary, with no empty line after a final boundary.
   */
  function SplitLines(s: string): (lines: seq<string>)
    ensures s == [] <==> lines == []
    ensures forall k :: 0 <= k < |lines| ==> forall i :: 0 <= i < |lines[k]| ==> !LineBreak(lines[k][i])
  {
    if s == [] then []
    else if LineBreak(s[0]) then
      var skip := if s[0] == '\r' && |s| > 1 && s[1] == '\n' then 2 else 1;
      [[]] + SplitLines(s[skip..])
    else
      var rest := SplitLines(s[1..]);
      if rest == [] then [[s[0]]]
      else
        assert forall i :: 0 <= i < |rest[0]| ==> ([s[0]] + rest[0])[i + 1] == rest[0][i];
        [[s[0]] + rest[0]] + rest[1..]
  }

  /** Text whose only line boundary is "\n" and that does not end with one is its lines joined by "\n". */
  lemma {:induction false} JoinSplitLines(s: string)
    requires forall i :: 0 <= i < |s| ==> LineBreak(s[i]) ==> s[i] == '\n'
    requires s != [] ==> s[|s| - 1] != '\n'
    ensures Join(SplitLines(s), "\n") == s
  {
    if s != [] {
      var t := s[1..];
      assert forall i :: 0 <= i < |t| ==> t[i] == s[i + 1];
      JoinSplitLines(t);
      var rest := SplitLines(t);
      if LineBreak(s[0]) {
        assert t != [];
        JoinEmptyHead(rest, "\n");
      } else if rest != [] {
        JoinPrepend([s[0]], rest, "\n");
      }
      assert s == [s[0]] + t;
    }
  }
}
