/**
 * The indexing classes of classes.py. `IndexingData` is one sample's index
 * pair with its identifiers. `IndexingDataSet` is a list of such records
 * that `add` extends in place, with queries over the whole list.
 */
module Indexing {
  import opened Wrappers
  import opened Strings
  import opened Distance

  // ----- IndexingData -----

  /**
   * What a caller may pass as `index_1_id` or `index_2_id`: a list, or any
   * single value (a string, or None).
   */
  datatype IdArg = IdList(ids: seq<Option<string>>) | IdItem(id: Option<string>)

  /** An `IndexingData` record once `__post_init__` has run: both id fields are lists. */
  datatype IndexingData = IndexingData(
    index1: Option<string>,
    index1Ids: seq<Option<string>>,
    index2: Option<string>,
    index2Ids: seq<Option<string>>,
    sampleId: Option<string>)

  /** The `__post_init__` rule of classes.py:34-38 for one id field: a non-list is wrapped in a list. */
  function IdField(arg: IdArg): (r: seq<Option<string>>)
    ensures arg.IdItem? ==> |r| == 1 && r[0] == arg.id
    ensures arg.IdList? ==> r == arg.ids
  {
    match arg
    case IdList(ids) => ids
    case IdItem(id) => [id]
  }

  /** `IndexingData(index_1_sequence, index_1_id, index_2_sequence, index_2_id, sample_id)`. */
  function NewIndexingData(index1: Option<string>, id1: IdArg, index2: Option<string>, id2: IdArg, sampleId: Option<string>)
    : IndexingData
  {
    IndexingData(index1, IdField(id1), index2, IdField(id2), sampleId)
  }

  /** `IndexingData(seq)`: every other field takes its default (empty id lists, None). */
  function SingleRecord(sequence: string): (r: IndexingData)
    ensures IndexingType(r) == Ok(SingleIndex) && r.index1 == Some(sequence)
    ensures r.index1Ids == [] && r.index2Ids == [] && r.sampleId == None
  {
    NewIndexingData(Some(sequence), IdList([]), None, IdList([]), None)
  }

  /**
   * Building a record keeps the sequences and the sample id. A list id is
   * taken as it is and a single value becomes a one-element list, so
   * rebuilding a record from its own fields changes nothing.
   */
  lemma NewIndexingDataNormalises(index1: Option<string>, id1: IdArg, index2: Option<string>, id2: IdArg, sampleId: Option<string>)
    ensures var d := NewIndexingData(index1, id1, index2, id2, sampleId);
            && d.index1 == index1 && d.index2 == index2 && d.sampleId == sampleId
            && (id1.IdItem? ==> d.index1Ids == [id1.id]) && (id1.IdList? ==> d.index1Ids == id1.ids)
            && (id2.IdItem? ==> d.index2Ids == [id2.id]) && (id2.IdList? ==> d.index2Ids == id2.ids)
            && NewIndexingData(d.index1, IdList(d.index1Ids), d.index2, IdList(d.index2Ids), d.sampleId) == d
  {
  }

  /** What `IndexingData.indexing_type` answers. */
  datatype RecordType = SingleIndex | DualIndex

  /**
   * `indexing_type()` (classes.py:40-46): ValueError without an index 1
   * sequence, 'single' without an index 2 sequence, and 'dual' otherwise,
   * even for an empty index 2 string.
   */
  function IndexingType(d: IndexingData): (r: Result<RecordType>)
    ensures r.Err? <==> d.index1.None?
    ensures r.Err? ==> r.error == ValueError
    ensures r == Ok(SingleIndex) <==> d.index1.Some? && d.index2.None?
    ensures r == Ok(DualIndex) <==> d.index1.Some? && d.index2.Some?
  {
    if d.index1.None? then Err(ValueError)
    else if d.index2.None? then Ok(SingleIndex)
    else Ok(DualIndex)
  }

  // ----- IndexingDataSet -----

  /**
   * An element of `index_data`: a record, or the list of records that `add`
   * appends for a list of strings (classes.py:106), which the queries then
   * trip over.
   */
  datatype Entry = Record(data: IndexingData) | Nested(items: seq<IndexingData>)

  /** What `IndexingDataSet(index_data)` is given: one record, or a list of them. */
  datatype SetInit = OneRecord(record: IndexingData) | RecordList(records: seq<IndexingData>)

  /** An element of a list passed to `add`. */
  datatype Item = StrItem(s: string) | DataItem(d: IndexingData) | OtherItem

  /** A value passed to `add`, other than an `IndexingDataSet`. */
  datatype AddValue = Data(d: IndexingData) | Text(s: string) | List(items: seq<Item>) | Other

  /** What `add` is given: another set (possibly the same object), or a value. */
  datatype Addend = DataSet(other: IndexingDataSet) | Value(v: AddValue)

  /** The records of a list, as entries. */
  function AsEntries(ds: seq<IndexingData>): (r: seq<Entry>)
    ensures |r| == |ds| && forall k :: 0 <= k < |ds| ==> r[k] == Record(ds[k])
  {
    seq(|ds|, k requires 0 <= k < |ds| => Record(ds[k]))
  }

  /** `index_data` after `__post_init__` (classes.py:84-86): a single record is wrapped in a list. */
  function InitialEntries(init: SetInit): (r: seq<Entry>)
    ensures init.OneRecord? ==> r == [Record(init.record)]
    ensures init.RecordList? ==> r == AsEntries(init.records)
  {
    match init
    case OneRecord(d) => [Record(d)]
    case RecordList(ds) => AsEntries(ds)
  }

  /** Every item of the list is a string (vacuously so for `[]`). */
  predicate AllStrings(items: seq<Item>) {
    forall k :: 0 <= k < |items| ==> items[k].StrItem?
  }

  /** Every item of the list is a record. */
  predicate AllRecords(items: seq<Item>) {
    forall k :: 0 <= k < |items| ==> items[k].DataItem?
  }

  /**
   * What `add(other)` appends for a value (classes.py:89-112), or the
   * TypeError it raises. The `List[str]` test of line 102 never holds, since
   * no object has that typing alias as its type.
   */
  function Appended(v: AddValue): (r: Result<seq<Entry>>)
    ensures r.Err? ==> r.error == TypeError
  {
    match v
    case Data(d) => Ok([Record(d)])
    case Text(s) =>
      var commas := Count(s, ',');
      if commas == 0 then Ok([Record(SingleRecord(s))])
      else if commas == 1 then
        var parts := Split(s, ',');
        SplitShape(s, ',');
        Ok([Record(NewIndexingData(Some(parts[0]), IdList([]), Some(parts[1]), IdList([]), None))])
      else Err(TypeError)
    case List(items) =>
      if AllStrings(items) then Ok([Nested(seq(|items|, k requires 0 <= k < |items| && items[k].StrItem? => SingleRecord(items[k].s)))])
      else if AllRecords(items) then Ok(AsEntries(seq(|items|, k requires 0 <= k < |items| && items[k].DataItem? => items[k].d)))
      else Err(TypeError)
    case Other => Err(TypeError)
  }

  /**
   * A string is accepted exactly when it has at most one comma. Without a
   * comma it becomes a single-index record. With one, it becomes a dual
   * record whose two sequences, joined by the comma, give back the string.
   */
  lemma {:induction false} AppendedText(s: string)
    ensures Appended(Text(s)).Ok? <==> Count(s, ',') <= 1
    ensures Appended(Text(s)).Ok? ==> |Appended(Text(s)).value| == 1 && Appended(Text(s)).value[0].Record?
    ensures Count(s, ',') == 0 ==> Appended(Text(s)).value[0].data == SingleRecord(s)
    ensures Count(s, ',') == 1 ==>
              var d := Appended(Text(s)).value[0].data;
              && d.index1.Some? && d.index2.Some?
              && ',' !in d.index1.value && ',' !in d.index2.value
              && d.index1.value + "," + d.index2.value == s
              && IndexingType(d) == Ok(DualIndex)
  {
    if Count(s, ',') == 1 {
      var parts := Split(s, ',');
      SplitShape(s, ',');
      JoinSplit(s, ',');
      assert Join(parts, ",") == parts[0] + "," + Join(parts[1..], ",");
      assert parts[1..] == [parts[1]];
    }
  }

  /**
   * A list is accepted exactly when all its items are strings or all are
   * records. Strings (and `[]`) become one nested entry, and records are
   * appended one by one, in order.
   */
  lemma AppendedList(items: seq<Item>)
    ensures Appended(List(items)).Ok? <==> AllStrings(items) || AllRecords(items)
    ensures AllStrings(items) ==>
              var r := Appended(List(items)).value;
              |r| == 1 && r[0].Nested? && |r[0].items| == |items|
              && forall k :: 0 <= k < |items| ==> r[0].items[k] == SingleRecord(items[k].s)
    ensures !AllStrings(items) && AllRecords(items) ==>
              var r := Appended(List(items)).value;
              |r| == |items| && forall k :: 0 <= k < |items| ==> r[k] == Record(items[k].d)
  {
  }

  /** The object of classes.py:49-112 whose `index_data` list `add` extends in place. */
  class IndexingDataSet {
    var indexData: seq<Entry>

    /** `IndexingDataSet(index_data)` with its `__post_init__`. */
    constructor (init: SetInit)
      ensures indexData == InitialEntries(init)
    {
      indexData := InitialEntries(init);
    }

    /**
     * `add(other)` (classes.py:88-112): another set's entries, as they were
     * before the call, are appended (so adding a set to itself doubles it).
     * Any other value is appended as `Appended` says, and on a TypeError
     * nothing changes.
     */
    method Add(addend: Addend) returns (raised: Option<Exception>)
      modifies this
      ensures addend.DataSet? ==> raised == None && indexData == old(indexData) + old(addend.other.indexData)
      ensures addend.Value? && Appended(addend.v).Ok? ==>
                raised == None && indexData == old(indexData) + Appended(addend.v).value
      ensures addend.Value? && Appended(addend.v).Err? ==>
                raised == Some(Appended(addend.v).error) && indexData == old(indexData)
    {
      match addend
      case DataSet(other) =>
        indexData := indexData + other.indexData;
        raised := None;
      case Value(v) =>
        var entries := Appended(v);
        if entries.Err? {
          return Some(entries.error);
        }
        indexData := indexData + entries.value;
        raised := None;
    }
  }

  // ----- The queries of IndexingDataSet, over its index_data -----

  /**
   * The records the comprehensions of classes.py:115-148 walk over. A
   * nested list has none of the record attributes, so reaching one raises
   * AttributeError.
   */
  function Records(es: seq<Entry>): (r: Result<seq<IndexingData>>)
    ensures r.Ok? <==> forall k :: 0 <= k < |es| ==> es[k].Record?
    ensures r.Err? ==> r.error == AttributeError
    ensures r.Ok? ==> |r.value| == |es| && forall k :: 0 <= k < |es| ==> r.value[k] == es[k].data
  {
    if es == [] then Ok([])
    else if es[0].Nested? then Err(AttributeError)
    else
      match Records(es[1..])
      case Err(e) => Err(e)
      case Ok(rest) => Ok([es[0].data] + rest)
  }

  /** Records of two lists laid end to end are the records of each, laid end to end. */
  lemma {:induction false} RecordsAppend(a: seq<Entry>, b: seq<Entry>)
    requires Records(a).Ok? && Records(b).Ok?
    ensures Records(a + b) == Ok(Records(a).value + Records(b).value)
  {
    var r := Records(a + b);
    assert forall k :: 0 <= k < |a + b| ==> (a + b)[k].Record? by {
      forall k | 0 <= k < |a + b| ensures (a + b)[k].Record? {
        if k < |a| {
          assert (a + b)[k] == a[k];
        } else {
          assert (a + b)[k] == b[k - |a|];
        }
      }
    }
    assert r.value == Records(a).value + Records(b).value;
  }

  /** Python's `set(xs)`. */
  function Elements<T>(xs: seq<T>): set<T> {
    set x | x in xs
  }

  /** No value occurs twice. */
  predicate Distinct<T(==)>(xs: seq<T>) {
    forall i, j :: 0 <= i < j < |xs| ==> xs[i] != xs[j]
  }

  /** A list has at least as many items as its set, and exactly as many when no value repeats. */
  lemma {:induction false} ElementsCard<T>(xs: seq<T>)
    ensures |Elements(xs)| <= |xs|
    ensures |Elements(xs)| == |xs| <==> Distinct(xs)
  {
    if xs != [] {
      ElementsCard(xs[1..]);
      assert Elements(xs) == {xs[0]} + Elements(xs[1..]);
      if xs[0] in xs[1..] {
        var j :| 0 <= j < |xs[1..]| && xs[1..][j] == xs[0];
        assert xs[0] == xs[j + 1];
        assert Elements(xs) == Elements(xs[1..]);
      } else {
        assert xs[0] !in Elements(xs[1..]);
        if Distinct(xs[1..]) {
          forall i, j | 0 <= i < j < |xs| ensures xs[i] != xs[j] {
            if i == 0 {
              assert xs[j] == xs[1..][j - 1];
            } else {
              assert xs[i] == xs[1..][i - 1] && xs[j] == xs[1..][j - 1];
            }
          }
        }
        if Distinct(xs) {
          forall i, j | 0 <= i < j < |xs[1..]| ensures xs[1..][i] != xs[1..][j] {
            assert xs[1..][i] == xs[i + 1] && xs[1..][j] == xs[j + 1];
          }
        }
      }
    }
  }

  /** `len(xs) > len(set(xs))` is the test for a repeated value. */
  function HasRepeats<T(==)>(xs: seq<T>): (r: bool)
    ensures r <==> !Distinct(xs)
  {
    ElementsCard(xs);
    |xs| > |Elements(xs)|
  }

  /** The (index 1, index 2) pair of every record, in order. */
  function IndexPairsOf(ds: seq<IndexingData>): (r: seq<(Option<string>, Option<string>)>)
    ensures |r| == |ds| && forall k :: 0 <= k < |ds| ==> r[k] == (ds[k].index1, ds[k].index2)
  {
    seq(|ds|, k requires 0 <= k < |ds| => (ds[k].index1, ds[k].index2))
  }

  /**
   * `has_unique_index_seqs()` (classes.py:114-120): False exactly when two
   * records share both their index 1 and their index 2 sequence.
   */
  function HasUniqueIndexSeqs(es: seq<Entry>): (r: Result<bool>)
    ensures r.Err? <==> Records(es).Err?
    ensures r.Ok? ==> (r.value <==> forall i, j :: 0 <= i < j < |es| ==>
                         (es[i].data.index1, es[i].data.index2) != (es[j].data.index1, es[j].data.index2))
  {
    match Records(es)
    case Err(e) => Err(e)
    case Ok(ds) =>
      var pairs := IndexPairsOf(ds);
      Ok(!HasRepeats(pairs))
  }

  /**
   * `has_unique_sample_ids()` (classes.py:122-127): False exactly when two
   * records share a sample id, two missing ids (None) included.
   */
  function HasUniqueSampleIds(es: seq<Entry>): (r: Result<bool>)
    ensures r.Err? <==> Records(es).Err?
    ensures r.Ok? ==> (r.value <==> forall i, j :: 0 <= i < j < |es| ==> es[i].data.sampleId != es[j].data.sampleId)
  {
    match Records(es)
    case Err(e) => Err(e)
    case Ok(ds) =>
      var ids := seq(|ds|, k requires 0 <= k < |ds| => ds[k].sampleId);
      assert forall k :: 0 <= k < |ds| ==> ids[k] == es[k].data.sampleId;
      Ok(!HasRepeats(ids))
  }

  /** A set with a record at least doubles into a set whose index pairs repeat, as `s.add(s)` does. */
  lemma DoubledSetRepeats(es: seq<Entry>)
    requires es != [] && Records(es).Ok?
    ensures HasUniqueIndexSeqs(es + es) == Ok(false)
  {
    RecordsAppend(es, es);
    assert (es + es)[0] == (es + es)[|es|];
  }

  /** Python truthiness of an index 2 value: None and '' are false. */
  predicate Present(index2: Option<string>) {
    index2.Some? && index2.value != []
  }

  /** `len(list(filter(None, xs)))`. */
  function CountPresent(xs: seq<Option<string>>): (r: nat)
    ensures r <= |xs|
    ensures r == 0 <==> forall k :: 0 <= k < |xs| ==> !Present(xs[k])
    ensures r == |xs| <==> forall k :: 0 <= k < |xs| ==> Present(xs[k])
  {
    if xs == [] then 0
    else
      var rest := CountPresent(xs[1..]);
      assert forall k :: 1 <= k < |xs| ==> xs[k] == xs[1..][k - 1];
      (if Present(xs[0]) then 1 else 0) + rest
  }

  /** What `get_indexing_type` answers for a non-empty set. */
  datatype SetType = SingleSet | DualSet | MixedSet

  /** The index 1 sequence of every record, in order. */
  function Index1Of(ds: seq<IndexingData>): (r: seq<Option<string>>)
    ensures |r| == |ds| && forall k :: 0 <= k < |ds| ==> r[k] == ds[k].index1
  {
    seq(|ds|, k requires 0 <= k < |ds| => ds[k].index1)
  }

  /** The index 2 sequence of every record, in order. */
  function Index2Of(ds: seq<IndexingData>): (r: seq<Option<string>>)
    ensures |r| == |ds| && forall k :: 0 <= k < |ds| ==> r[k] == ds[k].index2
  {
    seq(|ds|, k requires 0 <= k < |ds| => ds[k].index2)
  }

  /** The sample id of every record, in order, '' for a missing one. */
  function SampleIdOf(ds: seq<IndexingData>): (r: seq<string>)
    ensures |r| == |ds| && forall k :: 0 <= k < |ds| ==>
              r[k] == (if ds[k].sampleId.Some? then ds[k].sampleId.value else "")
  {
    seq(|ds|, k requires 0 <= k < |ds| => if ds[k].sampleId.Some? then ds[k].sampleId.value else "")
  }

  /** `get_index_1_sequences()` (classes.py:140-141). */
  function Index1Sequences(es: seq<Entry>): (r: Result<seq<Option<string>>>)
    ensures r.Err? <==> Records(es).Err?
    ensures r.Ok? ==> |r.value| == |es| && forall k :: 0 <= k < |es| ==> r.value[k] == es[k].data.index1
  {
    match Records(es)
    case Err(e) => Err(e)
    case Ok(ds) => Ok(Index1Of(ds))
  }

  /** `get_index_2_sequences()` (classes.py:143-144), which `get_indexing_type` also builds. */
  function Index2Sequences(es: seq<Entry>): (r: Result<seq<Option<string>>>)
    ensures r.Err? <==> Records(es).Err?
    ensures r.Ok? ==> |r.value| == |es| && forall k :: 0 <= k < |es| ==> r.value[k] == es[k].data.index2
  {
    match Records(es)
    case Err(e) => Err(e)
    case Ok(ds) => Ok(Index2Of(ds))
  }

  /** `get_sample_ids()` (classes.py:146-148): a missing sample id reads as ''. */
  function SampleIds(es: seq<Entry>): (r: Result<seq<string>>)
    ensures r.Err? <==> Records(es).Err?
    ensures r.Ok? ==> |r.value| == |es| && forall k :: 0 <= k < |es| ==>
                        r.value[k] == (if es[k].data.sampleId.Some? then es[k].data.sampleId.value else "")
  {
    match Records(es)
    case Err(e) => Err(e)
    case Ok(ds) => Ok(SampleIdOf(ds))
  }

  /**
   * The getters distribute over `add`: on the entries of two sets laid end
   * to end, each getter lists the first set's values, then the second's.
   */
  lemma GettersAppend(a: seq<Entry>, b: seq<Entry>)
    requires Records(a).Ok? && Records(b).Ok?
    ensures Index1Sequences(a + b) == Ok(Index1Sequences(a).value + Index1Sequences(b).value)
    ensures Index2Sequences(a + b) == Ok(Index2Sequences(a).value + Index2Sequences(b).value)
    ensures SampleIds(a + b) == Ok(SampleIds(a).value + SampleIds(b).value)
  {
    RecordsAppend(a, b);
    ProjectionsAppend(Records(a).value, Records(b).value);
  }

  lemma ProjectionsAppend(x: seq<IndexingData>, y: seq<IndexingData>)
    ensures Index1Of(x + y) == Index1Of(x) + Index1Of(y)
    ensures Index2Of(x + y) == Index2Of(x) + Index2Of(y)
    ensures SampleIdOf(x + y) == SampleIdOf(x) + SampleIdOf(y)
  {
  }

  /**
   * `get_indexing_type()` (classes.py:129-138): None for an empty set;
   * otherwise 'single' when no index 2 value is truthy, 'dual' when all are,
   * and 'mixed' in between.
   */
  function GetIndexingType(es: seq<Entry>): (r: Result<Option<SetType>>)
    ensures es == [] ==> r == Ok(None)
    ensures es != [] ==> (r.Err? <==> Records(es).Err?)
    ensures r == Ok(Some(SingleSet)) <==>
              es != [] && Records(es).Ok? && forall k :: 0 <= k < |es| ==> !Present(es[k].data.index2)
    ensures r == Ok(Some(DualSet)) <==>
              es != [] && Records(es).Ok? && forall k :: 0 <= k < |es| ==> Present(es[k].data.index2)
    ensures r == Ok(Some(MixedSet)) <==>
              Records(es).Ok? && (exists k :: 0 <= k < |es| && Present(es[k].data.index2))
                              && (exists k :: 0 <= k < |es| && !Present(es[k].data.index2))
  {
    if es == [] then Ok(None)
    else
      match Index2Sequences(es)
      case Err(e) => Err(e)
      case Ok(seqs) =>
        var present := CountPresent(seqs);
        if present == 0 then Ok(Some(SingleSet))
        else if present == |seqs| then Ok(Some(DualSet))
        else Ok(Some(MixedSet))
  }

  /**
   * An empty index 2 string makes a record 'dual' on its own but counts as
   * absent for the set, which calls a set of that one record 'single'.
   */
  lemma EmptyIndex2Disagrees(d: IndexingData)
    requires d.index1.Some? && d.index2 == Some("")
    ensures IndexingType(d) == Ok(DualIndex)
    ensures GetIndexingType([Record(d)]) == Ok(Some(SingleSet))
  {
  }

  /** A single record that `indexing_type` calls 'single' makes a 'single' set. */
  lemma SingleRecordSet(d: IndexingData)
    requires IndexingType(d) == Ok(SingleIndex)
    ensures GetIndexingType([Record(d)]) == Ok(Some(SingleSet))
  {
  }

  // ----- _get_min_index_length -----

  /** The index sequences `_get_min_index_length` picks (classes.py:151-156). */
  function IndexSequences(es: seq<Entry>, indexNumber: int): (r: Result<seq<Option<string>>>)
    ensures indexNumber != 1 && indexNumber != 2 ==> r == Err(ValueError)
    ensures indexNumber == 1 ==> r == Index1Sequences(es)
    ensures indexNumber == 2 ==> r == Index2Sequences(es)
  {
    if indexNumber == 1 then Index1Sequences(es)
    else if indexNumber == 2 then Index2Sequences(es)
    else Err(ValueError)
  }

  /**
   * The comprehension of classes.py:157, `[item for sublist in index_list
   * for item in sublist]`. It iterates over each sequence, so it yields its
   * characters as one-character strings, and iterating over None raises
   * TypeError.
   */
  function FlattenAsWritten(xs: seq<Option<string>>): (r: Result<seq<string>>)
    ensures r.Err? <==> exists k :: 0 <= k < |xs| && xs[k].None?
    ensures r.Err? ==> r.error == TypeError
    ensures r.Ok? ==> forall k :: 0 <= k < |r.value| ==> |r.value[k]| == 1
  {
    if xs == [] then Ok([])
    else if xs[0].None? then Err(TypeError)
    else
      assert forall k :: 1 <= k < |xs| ==> xs[k] == xs[1..][k - 1];
      var s := xs[0].value;
      match FlattenAsWritten(xs[1..])
      case Err(e) => Err(e)
      case Ok(rest) => Ok(seq(|s|, i requires 0 <= i < |s| => [s[i]]) + rest)
  }

  /** Flattening as written keeps every character. */
  lemma {:induction false} FlattenAsWrittenLength(xs: seq<Option<string>>)
    requires FlattenAsWritten(xs).Ok?
    ensures |FlattenAsWritten(xs).value| == 0 <==> forall k :: 0 <= k < |xs| ==> xs[k].value == []
  {
    if xs != [] {
      assert xs[0] in xs;
      FlattenAsWrittenLength(xs[1..]);
      assert forall k :: 1 <= k < |xs| ==> xs[k] == xs[1..][k - 1];
    }
  }

  /**
   * `_get_min_index_length(index_number)` as written (classes.py:150-161):
   * the minimum over the flattened characters, so 1 as soon as any sequence
   * is non-empty, `float('inf')` otherwise.
   */
  function MinIndexLengthAsWritten(es: seq<Entry>, indexNumber: int): (r: Result<Length>)
    ensures indexNumber != 1 && indexNumber != 2 ==> r == Err(ValueError)
  {
    match IndexSequences(es, indexNumber)
    case Err(e) => Err(e)
    case Ok(xs) =>
      match FlattenAsWritten(xs)
      case Err(e) => Err(e)
      case Ok(items) => Ok(MinimumLength(items))
  }

  /** The values of a list that holds no None. */
  function Values(xs: seq<Option<string>>): (r: seq<string>)
    requires forall k :: 0 <= k < |xs| ==> xs[k].Some?
    ensures |r| == |xs| && forall k :: 0 <= k < |xs| ==> r[k] == xs[k].value
  {
    seq(|xs|, k requires 0 <= k < |xs| && xs[k].Some? => xs[k].value)
  }

  /**
   * `_get_min_index_length` as evidently intended: the length of the
   * shortest index sequence, `float('inf')` for an empty set, TypeError for a
   * missing sequence (as `len(None)` raises).
   */
  function MinIndexLength(es: seq<Entry>, indexNumber: int): (r: Result<Length>)
    ensures indexNumber != 1 && indexNumber != 2 ==> r == Err(ValueError)
    ensures r.Ok? ==> IndexSequences(es, indexNumber).Ok?
    ensures r.Ok? && r.value.Finite? ==>
              var xs := IndexSequences(es, indexNumber).value;
              && (forall k :: 0 <= k < |xs| ==> xs[k].Some? && r.value.n <= |xs[k].value|)
              && (exists k :: 0 <= k < |xs| && |xs[k].value| == r.value.n)
    ensures r.Ok? && r.value == Infinity ==> es == []
    ensures IndexSequences(es, indexNumber).Err? ==> r == Err(IndexSequences(es, indexNumber).error)
    ensures IndexSequences(es, indexNumber).Ok? ==>
              var xs := IndexSequences(es, indexNumber).value;
              && (r.Ok? <==> forall k :: 0 <= k < |xs| ==> xs[k].Some?)
              && (r.Err? ==> r.error == TypeError)
    ensures indexNumber == 1 || indexNumber == 2 ==> (r == Ok(Infinity) <==> es == [])
  {
    match IndexSequences(es, indexNumber)
    case Err(e) => Err(e)
    case Ok(xs) =>
      if exists k :: 0 <= k < |xs| && xs[k].None? then Err(TypeError)
      else
        var values := Values(xs);
        var m := MinimumLength(values);
        assert m.Finite? ==> exists k :: 0 <= k < |xs| && |xs[k].value| == m.n by {
          if m.Finite? {
            var s :| s in values && |s| == m.n;
            var k :| 0 <= k < |values| && values[k] == s;
          }
        }
        assert forall k :: 0 <= k < |xs| ==> values[k] in values;
        Ok(m)
  }

  /** As written, any set with a non-empty sequence reports a minimum length of 1. */
  lemma {:induction false} MinIndexLengthAsWrittenIsOne(es: seq<Entry>, indexNumber: int)
    requires indexNumber == 1 || indexNumber == 2
    requires IndexSequences(es, indexNumber).Ok?
    requires var xs := IndexSequences(es, indexNumber).value;
             (forall k :: 0 <= k < |xs| ==> xs[k].Some?) && exists k :: 0 <= k < |xs| && xs[k].value != []
    ensures MinIndexLengthAsWritten(es, indexNumber) == Ok(Finite(1))
  {
    var xs := IndexSequences(es, indexNumber).value;
    FlattenAsWrittenLength(xs);
    var items := FlattenAsWritten(xs).value;
    var m := MinimumLength(items);
    assert items[0] in items;
    var s :| s in items && |s| == m.n;
  }

  /**
   * The discrepancy: for the set of one record with index 1 sequence "ACGT",
   * the code answers 1 where the shortest sequence has length 4.
   */
  lemma MinIndexLengthCounterexample()
    ensures var es := [Record(SingleRecord("ACGT"))];
            MinIndexLengthAsWritten(es, 1) == Ok(Finite(1)) && MinIndexLength(es, 1) == Ok(Finite(4))
  {
    var es := [Record(SingleRecord("ACGT"))];
    var xs := IndexSequences(es, 1).value;
    assert xs == [Some("ACGT")];
    MinIndexLengthAsWrittenIsOne(es, 1);
    assert Values(xs) == ["ACGT"];
  }
}
