/**
 * The two text-parsing helpers of forms.py: `clean_custom_index_text`
 * checks the index lines pasted into a form, and
 * `convert_index_list_to_indexing_data` turns them into an
 * `IndexingDataSet`, one record per line.
 */
module Forms {
  import opened Wrappers
  import opened Strings
  import opened Indexing

  const BasesMessage: string := "Input sequences must be composed of valid bases (e.g., ACGT)."
  const MixMessage: string := "Input is mix of single-indexing and dual-indexing."
  const CommaMessage: string := "Input sequences are neither single-indexed nor dual-indexed."

  // ----- clean_custom_index_text -----

  /** A character the class `[^acgt,]` with `re.IGNORECASE` does not match. */
  predicate Allowed(c: char) {
    c in "acgtACGT,"
  }

  /** `re.search('[^acgt,]', line, flags=re.IGNORECASE)` finds a match. */
  predicate HasInvalidChar(line: string) {
    exists k :: 0 <= k < |line| && !Allowed(line[k])
  }

  /** `list(filter(None, lines))`: the non-empty lines, in order. */
  function NonEmpty(lines: seq<string>): (r: seq<string>)
    ensures |r| <= |lines|
    ensures forall k :: 0 <= k < |r| ==> r[k] != []
    ensures forall x :: x in r <==> x in lines && x != []
  {
    if lines == [] then []
    else if lines[0] == [] then NonEmpty(lines[1..])
    else [lines[0]] + NonEmpty(lines[1..])
  }

  /** `[i.replace(' ', '') for i in lines]`. */
  function Despaced(lines: seq<string>): (r: seq<string>)
    ensures |r| == |lines| && forall k :: 0 <= k < |lines| ==> r[k] == RemoveChar(lines[k], ' ')
  {
    seq(|lines|, k requires 0 <= k < |lines| => RemoveChar(lines[k], ' '))
  }

  /** The list `clean_custom_index_text` builds before its checks (forms.py:13-15). */
  function CleanedLines(text: string): (r: seq<string>)
    ensures |r| <= |SplitLines(text)|
    ensures forall k :: 0 <= k < |r| ==> ' ' !in r[k]
  {
    var lines := NonEmpty(SplitLines(text));
    assert forall k :: 0 <= k < |lines| ==> ' ' !in RemoveChar(lines[k], ' ') by {
      forall k | 0 <= k < |lines| {
        RemoveCharDrops(lines[k], ' ');
      }
    }
    Despaced(lines)
  }

  /** The lines do not all have the same number of commas. */
  predicate MixedCommas(lines: seq<string>) {
    exists i, j :: 0 <= i < |lines| && 0 <= j < |lines| && Count(lines[i], ',') != Count(lines[j], ',')
  }

  /**
   * What `clean_custom_index_text` promises, stated over the cleaned lines:
   * a ValidationError about the bases when a line holds a character other
   * than a base or a comma, otherwise one about mixing when the lines
   * disagree on their comma count, otherwise the lines themselves.
   */
  function CleanedText(text: string): Result<seq<string>> {
    var lines := CleanedLines(text);
    if exists k :: 0 <= k < |lines| && HasInvalidChar(lines[k]) then Err(ValidationError(BasesMessage))
    else if MixedCommas(lines) then Err(ValidationError(MixMessage))
    else Ok(lines)
  }

  /** How many of the lines have `c` commas: the `comma_count[c]` of the Counter. */
  function Tally(lines: seq<string>, c: nat): (r: nat)
    ensures r <= |lines|
  {
    if lines == [] then 0
    else Tally(lines[..|lines| - 1], c) + (if Count(lines[|lines| - 1], ',') == c then 1 else 0)
  }

  /** The comma counts that occur among the lines: the keys of the Counter. */
  function CommaCounts(lines: seq<string>): set<nat> {
    set k | 0 <= k < |lines| :: Count(lines[k], ',')
  }

  /** `counter[c] += 1` on a Counter, where a missing key counts as 0. */
  function Bump(counter: map<nat, nat>, c: nat): (r: map<nat, nat>)
    ensures r.Keys == counter.Keys + {c}
    ensures r[c] == (if c in counter then counter[c] else 0) + 1
    ensures forall x :: x in counter && x != c ==> r[x] == counter[x]
  {
    counter[c := (if c in counter then counter[c] else 0) + 1]
  }

  /** The Counter holds, for every comma count that occurs, the number of lines that have it. */
  predicate CountsLines(counter: map<nat, nat>, lines: seq<string>) {
    && counter.Keys == CommaCounts(lines)
    && forall c :: c in counter ==> counter[c] == Tally(lines, c)
  }

  /** Tallying one more line keeps the Counter exact. */
  lemma CounterStep(counter: map<nat, nat>, lines: seq<string>, k: nat)
    requires k < |lines| && CountsLines(counter, lines[..k])
    ensures CountsLines(Bump(counter, Count(lines[k], ',')), lines[..k + 1])
  {
    var commas := Count(lines[k], ',');
    var prefix := lines[..k + 1];
    assert prefix[..k] == lines[..k];
    CommaCountsSnoc(prefix);
    if commas !in counter {
      TallyAbsent(lines[..k], commas);
    }
  }

  /** A Counter with more than one key is exactly a list of lines that disagree on their commas. */
  lemma MixedCommasByCounts(lines: seq<string>)
    requires lines != []
    ensures |CommaCounts(lines)| > 1 <==> MixedCommas(lines)
  {
    var counts := CommaCounts(lines);
    var first := Count(lines[0], ',');
    assert first in counts;
    if MixedCommas(lines) {
      var i, j :| 0 <= i < |lines| && 0 <= j < |lines| && Count(lines[i], ',') != Count(lines[j], ',');
      var other := if Count(lines[i], ',') != first then Count(lines[i], ',') else Count(lines[j], ',');
      assert other in counts - {first};
      assert |counts - {first}| == |counts| - 1;
    } else {
      assert counts == {first} by {
        forall x | x in counts ensures x == first {
          var k :| 0 <= k < |lines| && Count(lines[k], ',') == x;
        }
      }
    }
  }

  /**
   * The loop of forms.py:18-23: it tallies each line's comma count in a
   * Counter and stops at the first line holding a character that is not a
   * base or a comma.
   */
  method TallyLines(lines: seq<string>) returns (commaCount: map<nat, nat>, invalid: bool)
    ensures invalid <==> exists k :: 0 <= k < |lines| && HasInvalidChar(lines[k])
    ensures !invalid ==> CountsLines(commaCount, lines)
  {
    commaCount := map[];
    var k := 0;
    while k < |lines|
      invariant 0 <= k <= |lines|
      invariant forall i :: 0 <= i < k ==> !HasInvalidChar(lines[i])
      invariant CountsLines(commaCount, lines[..k])
    {
      CounterStep(commaCount, lines, k);
      commaCount := Bump(commaCount, Count(lines[k], ','));
      if HasInvalidChar(lines[k]) {
        return commaCount, true;
      }
      k := k + 1;
    }
    assert lines[..k] == lines;
    return commaCount, false;
  }

  /**
   * `clean_custom_index_text(text)` (forms.py:12-30): after the loop, a
   * Counter with more than one key raises the mixing error. An empty list
   * skips both checks.
   */
  method CleanCustomIndexText(text: string) returns (r: Result<seq<string>>)
    ensures r == CleanedText(text)
  {
    var lines := CleanedLines(text);
    if |lines| > 0 {
      var commaCount, invalid := TallyLines(lines);
      if invalid {
        return Err(ValidationError(BasesMessage));
      }
      MixedCommasByCounts(lines);
      if |commaCount| > 1 {
        return Err(ValidationError(MixMessage));
      }
    }
    return Ok(lines);
  }

  lemma TallyAbsent(lines: seq<string>, c: nat)
    requires c !in CommaCounts(lines)
    ensures Tally(lines, c) == 0
  {
    if lines != [] {
      var init := lines[..|lines| - 1];
      assert CommaCounts(init) <= CommaCounts(lines) by {
        forall x | x in CommaCounts(init) ensures x in CommaCounts(lines) {
          var k :| 0 <= k < |init| && Count(init[k], ',') == x;
          assert init[k] == lines[k];
        }
      }
      TallyAbsent(init, c);
    }
  }

  lemma CommaCountsSnoc(lines: seq<string>)
    requires lines != []
    ensures CommaCounts(lines) == CommaCounts(lines[..|lines| - 1]) + {Count(lines[|lines| - 1], ',')}
  {
    var init := lines[..|lines| - 1];
    forall x | x in CommaCounts(lines) ensures x in CommaCounts(init) + {Count(lines[|lines| - 1], ',')} {
      var k :| 0 <= k < |lines| && Count(lines[k], ',') == x;
      if k < |init| {
        assert init[k] == lines[k];
      }
    }
    forall x | x in CommaCounts(init) ensures x in CommaCounts(lines) {
      var k :| 0 <= k < |init| && Count(init[k], ',') == x;
      assert lines[k] == init[k];
    }
  }

  /**
   * What the cleaning keeps: a line for every non-empty input line, in
   * order, with its spaces removed and every other character (commas and
   * letter case included) kept. A line of spaces alone survives as ''.
   */
  lemma {:induction false} CleanedLinesKeep(text: string, k: int, d: char)
    requires 0 <= k < |CleanedLines(text)| && d != ' '
    ensures var line := NonEmpty(SplitLines(text))[k];
            && line in SplitLines(text) && line != []
            && ' ' !in CleanedLines(text)[k]
            && Count(CleanedLines(text)[k], d) == Count(line, d)
            && (CleanedLines(text)[k] == [] <==> forall i :: 0 <= i < |line| ==> line[i] == ' ')
  {
    var line := NonEmpty(SplitLines(text))[k];
    assert line in NonEmpty(SplitLines(text));
    RemoveCharDrops(line, ' ');
    RemoveCharKeeps(line, ' ', d);
    if forall i :: 0 <= i < |line| ==> line[i] == ' ' {
      OnlySpaces(line);
    } else {
      var i :| 0 <= i < |line| && line[i] != ' ';
      RemoveCharKeeps(line, ' ', line[i]);
      assert line[i] in line;
    }
  }

  lemma {:induction false} OnlySpaces(s: string)
    requires forall i :: 0 <= i < |s| ==> s[i] == ' '
    ensures RemoveChar(s, ' ') == []
  {
    if s != [] {
      OnlySpaces(s[1..]);
    }
  }

  /**
   * An accepted text yields lines of bases and commas that all share one
   * comma count, whatever that count is: lines with two or more commas pass
   * when they all agree.
   */
  lemma CleanedTextAccepted(text: string)
    requires CleanedText(text).Ok?
    ensures var lines := CleanedText(text).value;
            && lines == CleanedLines(text)
            && (forall k :: 0 <= k < |lines| ==> forall i :: 0 <= i < |lines[k]| ==> Allowed(lines[k][i]))
            && (forall i, j :: 0 <= i < |lines| && 0 <= j < |lines| ==> Count(lines[i], ',') == Count(lines[j], ','))
  {
  }

  /** A text whose lines all pass is accepted, whatever their common comma count. */
  lemma CleanedTextAccepts(text: string)
    requires var lines := CleanedLines(text);
             && (forall k :: 0 <= k < |lines| ==> forall i :: 0 <= i < |lines[k]| ==> Allowed(lines[k][i]))
             && (forall i, j :: 0 <= i < |lines| && 0 <= j < |lines| ==> Count(lines[i], ',') == Count(lines[j], ','))
    ensures CleanedText(text) == Ok(CleanedLines(text))
  {
  }

  /** A bad character is reported before, and instead of, a mix of comma counts. */
  lemma CleanedTextBasesFirst(text: string, k: int)
    requires 0 <= k < |CleanedLines(text)| && HasInvalidChar(CleanedLines(text)[k])
    ensures CleanedText(text) == Err(ValidationError(BasesMessage))
  {
  }

  // ----- convert_index_list_to_indexing_data -----

  /** The line has two or more commas. */
  predicate TooManyCommas(line: string) {
    Count(line, ',') > 1
  }

  /** The record built for a line of at most one comma (forms.py:38-43). */
  function LineRecord(line: string): (d: IndexingData)
    requires !TooManyCommas(line)
    ensures d.index1.Some? && d.index1Ids == [] && d.index2Ids == [] && d.sampleId.None?
    ensures d.index2.None? <==> Count(line, ',') == 0
  {
    if Count(line, ',') == 0 then SingleRecord(line)
    else
      var parts := Split(line, ',');
      SplitShape(line, ',');
      NewIndexingData(Some(parts[0]), IdList([]), Some(parts[1]), IdList([]), None)
  }

  /**
   * Each line becomes the record that `IndexingDataSet.add` would append for
   * the same string: with no comma the whole line is index 1; with one, the
   * two sides of the comma, joined again, give back the line.
   */
  lemma LineRecordAsAdded(line: string)
    requires !TooManyCommas(line)
    ensures Appended(Text(line)) == Ok([Record(LineRecord(line))])
    ensures Count(line, ',') == 0 ==> LineRecord(line).index1 == Some(line)
    ensures Count(line, ',') == 1 ==>
              LineRecord(line).index1.value + "," + LineRecord(line).index2.value == line
  {
    AppendedText(line);
  }

  /**
   * `convert_index_list_to_indexing_data(lines)` (forms.py:33-48): a new,
   * empty set gets one record per line, in order; the first line with two or
   * more commas raises a ValidationError, and the half-built set is dropped.
   */
  method ConvertIndexListToIndexingData(lines: seq<string>) returns (r: Result<IndexingDataSet>)
    ensures r.Err? <==> exists k :: 0 <= k < |lines| && TooManyCommas(lines[k])
    ensures r.Err? ==> r.error == ValidationError(CommaMessage)
    ensures r.Ok? ==> fresh(r.value) && |r.value.indexData| == |lines|
                      && forall k :: 0 <= k < |lines| ==> r.value.indexData[k] == Record(LineRecord(lines[k]))
  {
    var dataSet := new IndexingDataSet(RecordList([]));
    var k := 0;
    while k < |lines|
      invariant 0 <= k <= |lines|
      invariant fresh(dataSet)
      invariant forall i :: 0 <= i < k ==> !TooManyCommas(lines[i])
      invariant |dataSet.indexData| == k
      invariant forall i :: 0 <= i < k ==> dataSet.indexData[i] == Record(LineRecord(lines[i]))
    {
      var line := lines[k];
      if Count(line, ',') > 1 {
        return Err(ValidationError(CommaMessage));
      }
      var raised := dataSet.Add(Value(Data(LineRecord(line))));
      k := k + 1;
    }
    return Ok(dataSet);
  }

  /** The type of the records built from a list of lines, as `get_indexing_type` sees it. */
  function ConvertedEntries(lines: seq<string>): (es: seq<Entry>)
    requires forall k :: 0 <= k < |lines| ==> !TooManyCommas(lines[k])
    ensures |es| == |lines| && forall k :: 0 <= k < |lines| ==> es[k] == Record(LineRecord(lines[k]))
  {
    seq(|lines|, k requires 0 <= k < |lines| && !TooManyCommas(lines[k]) => Record(LineRecord(lines[k])))
  }

  /**
   * Lines without commas make a 'single' set. Lines with one comma and
   * something after it make a 'dual' one; a line that ends in its comma has
   * an empty index 2, which the set counts as absent.
   */
  lemma ConvertedIndexingType(lines: seq<string>)
    requires lines != [] && forall k :: 0 <= k < |lines| ==> !TooManyCommas(lines[k])
    ensures (forall k :: 0 <= k < |lines| ==> Count(lines[k], ',') == 0) ==>
              GetIndexingType(ConvertedEntries(lines)) == Ok(Some(SingleSet))
    ensures (forall k :: 0 <= k < |lines| ==> Count(lines[k], ',') == 1 && lines[k][|lines[k]| - 1] != ',') ==>
              GetIndexingType(ConvertedEntries(lines)) == Ok(Some(DualSet))
  {
    var es := ConvertedEntries(lines);
    assert Records(es).Ok?;
    if forall k :: 0 <= k < |lines| ==> Count(lines[k], ',') == 1 && lines[k][|lines[k]| - 1] != ',' {
      forall k | 0 <= k < |lines| ensures Present(es[k].data.index2) {
        var line := lines[k];
        var parts := Split(line, ',');
        SplitShape(line, ',');
        JoinSplit(line, ',');
        assert parts[1..] == [parts[1]];
        assert line == parts[0] + "," + parts[1];
      }
    }
  }
}
