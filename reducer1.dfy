/**
 * The term-frequency reducer (IndexBuilder).  It reads (term, doc, count)
 * lines, folds consecutive records with the same (term, doc) into one group,
 * writes one inverted_index row when a group is closed, and adds the group's
 * count to the document's length.  At the end it closes the last group and
 * writes one doc_length row per document.
 *
 * The store is modelled by the rows it accepted; an insert that raises is
 * modelled by a set of rows the store refuses, fixed when the builder is made.
 */
module TermFrequency {
  import opened Wrappers
  import opened Text
  import opened FrequencyMapper

  /** A row of the inverted_index table. */
  datatype IndexRow = IndexRow(term: string, doc: string, freq: int)

  /** A row of the doc_length table. */
  datatype LengthRow = LengthRow(doc: string, length: int)

  /** Python truthiness of current_term and current_doc: set and non-empty. */
  predicate Present(s: Option<string>) {
    s.Some? && s.value != ""
  }

  /**
   * The builder's state: the open group (current_term, current_doc,
   * current_count), the doc_lengths dictionary and the inverted_index rows
   * the store has accepted so far, in write order.
   */
  datatype BuilderState = BuilderState(
    term: Option<string>,
    doc: Option<string>,
    count: int,
    lengths: map<string, int>,
    index: seq<IndexRow>)

  /** A fresh builder: no group, no lengths, nothing written. */
  const Initial := BuilderState(None, None, 0, map[], [])

  /** doc_lengths[doc] of a defaultdict(int). */
  function LengthOf(lengths: map<string, int>, doc: string): int {
    if doc in lengths then lengths[doc] else 0
  }

  /**
   * save_current_term: when both key fields are present, insert the group's
   * row; only if the store accepts it is the count added to the document's
   * length.  The group itself stays open.
   */
  function Flush(b: BuilderState, refused: set<IndexRow>): BuilderState {
    if Present(b.term) && Present(b.doc) then
      var row := IndexRow(b.term.value, b.doc.value, b.count);
      if row in refused then b
      else b.(index := b.index + [row], lengths := b.lengths[row.doc := LengthOf(b.lengths, row.doc) + b.count])
    else b
  }

  /**
   * process_term: a record with the open group's key adds to its count;
   * any other record closes the group and opens a new one holding just itself.
   */
  function Step(b: BuilderState, r: Occurrence, refused: set<IndexRow>): BuilderState {
    if Some(r.term) == b.term && Some(r.doc) == b.doc then
      b.(count := b.count + r.count)
    else
      Flush(b, refused).(term := Some(r.term), doc := Some(r.doc), count := r.count)
  }

  /** The builder after processing recs in order. */
  function Feed(b: BuilderState, recs: seq<Occurrence>, refused: set<IndexRow>): BuilderState {
    if recs == [] then b
    else Step(Feed(b, recs[..|recs| - 1], refused), recs[|recs| - 1], refused)
  }

  // ------------------------------------------------------------ the input lines

  /**
   * The body of main's loop on one line: strip it, skip it when blank, split it
   * at tabs into exactly three fields and read the third as an integer; any
   * failure skips the line.
   */
  function ParseLine(line: string): Option<Occurrence> {
    var s := Strip(line);
    if s == [] then None
    else
      var fields := Split(s, '\t');
      if |fields| != 3 then None
      else
        match ParseInt(fields[2])
        case None => None
        case Some(n) => Some(Occurrence(fields[0], fields[1], n))
  }

  /** The records main passes to process_term, in order: the lines that parse. */
  function Records(lines: seq<string>): seq<Occurrence> {
    if lines == [] then []
    else
      var init := Records(lines[..|lines| - 1]);
      match ParseLine(lines[|lines| - 1])
      case None => init
      case Some(r) => init + [r]
  }

  lemma FormatIsJoin(o: Occurrence)
    ensures FormatOccurrence(o) == Join([o.term, o.doc, ShowInt(o.count)], '\t')
  {
    var fields := [o.term, o.doc, ShowInt(o.count)];
    assert fields[1..] == [o.doc, ShowInt(o.count)] && fields[1..][1..] == [ShowInt(o.count)];
    assert Join(fields[1..], '\t') == o.doc + "\t" + ShowInt(o.count);
    assert Join(fields, '\t') == o.term + "\t" + (o.doc + "\t" + ShowInt(o.count));
  }

  lemma ShowIntHasNoTab(n: int)
    ensures '\t' !in ShowInt(n)
  {
    var s := ShowInt(n);
    if n < 0 {
      assert s == "-" + ShowNat(-n);
      assert forall i :: 1 <= i < |s| ==> s[i] == ShowNat(-n)[i - 1];
    }
  }

  /** A line the frequency mapper prints is read back as the triple it was printed from. */
  lemma ParseFormatted(o: Occurrence)
    requires o.term != [] && !IsSpace(o.term[0])
    requires '\t' !in o.term && '\t' !in o.doc
    ensures ParseLine(FormatOccurrence(o)) == Some(o)
  {
    var line := FormatOccurrence(o);
    ParseShowInt(o.count);
    FormattedIsTrimmed(o);
    FormattedFields(o);
    assert Strip(line) == line && line != [];
  }

  lemma FormattedIsTrimmed(o: Occurrence)
    requires o.term != [] && !IsSpace(o.term[0])
    ensures Strip(FormatOccurrence(o)) == FormatOccurrence(o)
  {
    var count := ShowInt(o.count);
    var line := FormatOccurrence(o);
    ParseShowInt(o.count);
    assert line == o.term + "\t" + o.doc + "\t" + count;
    assert line[0] == o.term[0] && line[|line| - 1] == count[|count| - 1];
    StripTrimmed(line);
  }

  lemma FormattedFields(o: Occurrence)
    requires '\t' !in o.term && '\t' !in o.doc
    ensures Split(FormatOccurrence(o), '\t') == [o.term, o.doc, ShowInt(o.count)]
  {
    ShowIntHasNoTab(o.count);
    FormatIsJoin(o);
    SplitJoin([o.term, o.doc, ShowInt(o.count)], '\t');
  }

  // ------------------------------------------------------------ the class

  /** IndexBuilder, with the session reduced to the rows the store accepted. */
  class IndexBuilder {
    var currentTerm: Option<string>
    var currentDoc: Option<string>
    var currentCount: int
    var docLengths: map<string, int>
    /** The inverted_index rows the store accepted, in write order. */
    var invertedIndex: seq<IndexRow>
    /** The doc_length rows the store accepted, in write order. */
    var docLengthTable: seq<LengthRow>
    /** The rows whose insert raises. */
    const refusedIndex: set<IndexRow>
    const refusedLengths: set<LengthRow>

    function State(): BuilderState
      reads this
    {
      BuilderState(currentTerm, currentDoc, currentCount, docLengths, invertedIndex)
    }

    constructor (refusedIndex: set<IndexRow>, refusedLengths: set<LengthRow>)
      ensures State() == Initial && docLengthTable == []
      ensures this.refusedIndex == refusedIndex && this.refusedLengths == refusedLengths
    {
      currentTerm, currentDoc, currentCount := None, None, 0;
      docLengths := map[];
      invertedIndex, docLengthTable := [], [];
      this.refusedIndex, this.refusedLengths := refusedIndex, refusedLengths;
    }

    /** process_term */
    method ProcessTerm(term: string, doc: string, count: int)
      modifies this
      ensures State() == Step(old(State()), Occurrence(term, doc, count), refusedIndex)
      ensures docLengthTable == old(docLengthTable)
    {
      if Some(term) == currentTerm && Some(doc) == currentDoc {
        currentCount := currentCount + count;
      } else {
        SaveCurrentTerm();
        currentTerm := Some(term);
        currentDoc := Some(doc);
        currentCount := count;
      }
    }

    /** save_current_term */
    method SaveCurrentTerm()
      modifies this
      ensures State() == Flush(old(State()), refusedIndex)
      ensures docLengthTable == old(docLengthTable)
    {
      if Present(currentTerm) && Present(currentDoc) {
        var row := IndexRow(currentTerm.value, currentDoc.value, currentCount);
        if row !in refusedIndex {
          invertedIndex := invertedIndex + [row];
          docLengths := docLengths[row.doc := LengthOf(docLengths, row.doc) + currentCount];
        }
      }
    }

    /** save_doc_lengths: one insert per document; a refused insert does not stop the others. */
    method SaveDocLengths()
      modifies this`docLengthTable
      ensures |docLengthTable| >= |old(docLengthTable)|
      ensures docLengthTable[..|old(docLengthTable)|] == old(docLengthTable)
      ensures DistinctDocs(docLengthTable[|old(docLengthTable)|..])
      ensures RowSet(docLengthTable[|old(docLengthTable)|..]) == LengthRows(docLengths) - refusedLengths
    {
      var start := |docLengthTable|;
      var todo := docLengths.Keys;
      while todo != {}
        invariant todo <= docLengths.Keys
        invariant |docLengthTable| >= start
        invariant docLengthTable[..start] == old(docLengthTable)
        invariant DistinctDocs(docLengthTable[start..])
        invariant forall k :: start <= k < |docLengthTable| ==> docLengthTable[k].doc !in todo
        invariant RowSet(docLengthTable[start..]) == LengthRows(docLengths) - LengthRowsAmong(docLengths, todo) - refusedLengths
        decreases todo
      {
        var doc :| doc in todo;
        var row := LengthRow(doc, docLengths[doc]);
        ghost var written := docLengthTable[start..];
        if row !in refusedLengths {
          docLengthTable := docLengthTable + [row];
          assert docLengthTable[start..] == written + [row];
          LengthRowsAppend(written, row);
        }
        todo := todo - {doc};
      }
    }
  }

  /** The rows of the doc_length table for every document of lengths. */
  function LengthRows(lengths: map<string, int>): set<LengthRow> {
    set doc | doc in lengths :: LengthRow(doc, lengths[doc])
  }

  function LengthRowsAmong(lengths: map<string, int>, docs: set<string>): set<LengthRow> {
    set doc | doc in lengths && doc in docs :: LengthRow(doc, lengths[doc])
  }

  function RowSet(rows: seq<LengthRow>): set<LengthRow> {
    set i | 0 <= i < |rows| :: rows[i]
  }

  predicate DistinctDocs(rows: seq<LengthRow>) {
    forall i, j :: 0 <= i < j < |rows| ==> rows[i].doc != rows[j].doc
  }

  lemma LengthRowsAppend(rows: seq<LengthRow>, row: LengthRow)
    ensures RowSet(rows + [row]) == RowSet(rows) + {row}
  {
    assert (rows + [row])[|rows|] == row;
    forall r | r in RowSet(rows)
      ensures r in RowSet(rows + [row])
    {
      var i :| 0 <= i < |rows| && rows[i] == r;
      assert (rows + [row])[i] == r;
    }
  }

  /**
   * main: feed every line that parses to process_term, close the last group,
   * then write the document lengths.  The result is the rows the store accepted.
   */
  method BuildIndex(lines: seq<string>, refusedIndex: set<IndexRow>, refusedLengths: set<LengthRow>)
    returns (index: seq<IndexRow>, lengthRows: seq<LengthRow>)
    ensures index == Flush(Feed(Initial, Records(lines), refusedIndex), refusedIndex).index
    ensures DistinctDocs(lengthRows)
    ensures RowSet(lengthRows) ==
            LengthRows(Flush(Feed(Initial, Records(lines), refusedIndex), refusedIndex).lengths) - refusedLengths
  {
    var builder := new IndexBuilder(refusedIndex, refusedLengths);
    for i := 0 to |lines|
      invariant builder.State() == Feed(Initial, Records(lines[..i]), refusedIndex)
      invariant builder.docLengthTable == []
      invariant builder.refusedIndex == refusedIndex && builder.refusedLengths == refusedLengths
    {
      assert lines[..i + 1][..i] == lines[..i];
      match ParseLine(lines[i]) {
        case None =>
        case Some(r) =>
          FeedAppend(Initial, Records(lines[..i]), r, refusedIndex);
          builder.ProcessTerm(r.term, r.doc, r.count);
      }
    }
    assert lines[..|lines|] == lines;
    builder.SaveCurrentTerm();
    builder.SaveDocLengths();
    index, lengthRows := builder.invertedIndex, builder.docLengthTable;
  }

  lemma FeedAppend(b: BuilderState, recs: seq<Occurrence>, r: Occurrence, refused: set<IndexRow>)
    ensures Feed(b, recs + [r], refused) == Step(Feed(b, recs, refused), r, refused)
  {
    assert (recs + [r])[..|recs|] == recs;
  }
}
