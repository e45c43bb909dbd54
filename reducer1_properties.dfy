/**
 * What the term-frequency reducer guarantees.
 *
 * - On any input and whatever inserts fail, each document's length is the sum
 *   of the freq of the inverted_index rows written for it.
 * - When no insert fails and every record has a non-empty term and document,
 *   each document's length is the sum of the counts read for it.
 * - When, in addition, records with equal (term, doc) arrive together (a
 *   stream sorted by (term, doc) is one such stream), each key is written
 *   exactly once, with the sum of its counts.
 */
module IndexProperties {
  import opened Wrappers
  import opened Text
  import opened FrequencyMapper
  import opened TermFrequency

  // ------------------------------------------------------------ single steps

  /** A record of the open group only adds to its count; nothing is written. */
  lemma {:induction false} SameKeyAccumulates(b: BuilderState, r: Occurrence, refused: set<IndexRow>)
    requires b.term == Some(r.term) && b.doc == Some(r.doc)
    ensures Step(b, r, refused).index == b.index && Step(b, r, refused).lengths == b.lengths
    ensures Step(b, r, refused).count == b.count + r.count
    ensures Step(b, r, refused).term == b.term && Step(b, r, refused).doc == b.doc
  {
  }

  /** A record with another key closes the open group, then the group is exactly that record. */
  lemma {:induction false} NewKeyClosesGroup(b: BuilderState, r: Occurrence, refused: set<IndexRow>)
    requires b.term != Some(r.term) || b.doc != Some(r.doc)
    ensures Step(b, r, refused).index == Flush(b, refused).index
    ensures Step(b, r, refused).lengths == Flush(b, refused).lengths
    ensures Step(b, r, refused).term == Some(r.term) && Step(b, r, refused).doc == Some(r.doc)
    ensures Step(b, r, refused).count == r.count
  {
  }

  /**
   * Closing a group writes nothing when a key field is None or empty, or when
   * the insert fails; otherwise it writes the group's row and adds its count
   * to that document's length only.
   */
  lemma {:induction false} FlushEffect(b: BuilderState, refused: set<IndexRow>)
    ensures !Present(b.term) || !Present(b.doc) ==> Flush(b, refused) == b
    ensures Present(b.term) && Present(b.doc) && IndexRow(b.term.value, b.doc.value, b.count) in refused ==>
              Flush(b, refused) == b
    ensures Present(b.term) && Present(b.doc) && IndexRow(b.term.value, b.doc.value, b.count) !in refused ==>
              var doc := b.doc.value;
              && Flush(b, refused).index == b.index + [IndexRow(b.term.value, doc, b.count)]
              && Flush(b, refused).lengths.Keys == b.lengths.Keys + {doc}
              && Flush(b, refused).lengths[doc] == LengthOf(b.lengths, doc) + b.count
              && (forall d :: d in b.lengths && d != doc ==> Flush(b, refused).lengths[d] == b.lengths[d])
  {
  }

  /** After any non-empty stream the open group has the key of the last record. */
  lemma {:induction false} FeedHoldsLastKey(recs: seq<Occurrence>, refused: set<IndexRow>)
    requires recs != []
    ensures Feed(Initial, recs, refused).term == Some(recs[|recs| - 1].term)
    ensures Feed(Initial, recs, refused).doc == Some(recs[|recs| - 1].doc)
  {
  }

  // ------------------------------------------------------- lines and key fields

  /**
   * A non-blank line with no surrounding whitespace is read by its tab
   * fields: it gives a record exactly when there are three fields and the
   * third is an integer literal, and is skipped otherwise.
   */
  lemma {:induction false} LineOfFields(fields: seq<string>)
    requires |fields| >= 1 && forall i :: 0 <= i < |fields| ==> '\t' !in fields[i]
    requires Join(fields, '\t') != [] && Trimmed(Join(fields, '\t'))
    ensures ParseLine(Join(fields, '\t')).Some? <==> |fields| == 3 && IsIntLiteral(fields[2])
    ensures ParseLine(Join(fields, '\t')).Some? ==>
              ParseLine(Join(fields, '\t')) == Some(Occurrence(fields[0], fields[1], ParseInt(fields[2]).value))
  {
    StripTrimmed(Join(fields, '\t'));
    SplitJoin(fields, '\t');
  }

  /** Every written row has a non-empty term and document. */
  predicate KeysPresent(index: seq<IndexRow>) {
    forall i :: 0 <= i < |index| ==> index[i].term != "" && index[i].doc != ""
  }

  lemma {:induction false} FeedKeysPresent(recs: seq<Occurrence>, refused: set<IndexRow>)
    ensures KeysPresent(Feed(Initial, recs, refused).index)
  {
    if recs != [] {
      FeedKeysPresent(recs[..|recs| - 1], refused);
    }
  }

  /**
   * A group whose term or document is empty (a line such as a, tab, tab, 3)
   * is never written, on any input and whatever inserts fail.
   */
  lemma EmptyKeyNeverWritten(recs: seq<Occurrence>, refused: set<IndexRow>)
    ensures KeysPresent(Flush(Feed(Initial, recs, refused), refused).index)
  {
    FeedKeysPresent(recs, refused);
  }

  // ------------------------------------------------ lengths agree with the rows

  /** The sum of the freq of the rows written for doc. */
  function DocTotal(index: seq<IndexRow>, doc: string): int {
    if index == [] then 0
    else
      var last := index[|index| - 1];
      DocTotal(index[..|index| - 1], doc) + (if last.doc == doc then last.freq else 0)
  }

  /** The documents that have a row. */
  function IndexDocs(index: seq<IndexRow>): set<string> {
    set i | 0 <= i < |index| :: index[i].doc
  }

  /** doc_lengths has exactly the documents with a written row, each with the sum of their freq. */
  ghost predicate LengthsAgree(b: BuilderState) {
    && b.lengths.Keys == IndexDocs(b.index)
    && forall doc :: doc in b.lengths ==> b.lengths[doc] == DocTotal(b.index, doc)
  }

  lemma {:induction false} IndexDocsAppend(index: seq<IndexRow>, row: IndexRow)
    ensures IndexDocs(index + [row]) == IndexDocs(index) + {row.doc}
  {
    assert (index + [row])[|index|] == row;
    forall d | d in IndexDocs(index)
      ensures d in IndexDocs(index + [row])
    {
      var i :| 0 <= i < |index| && index[i].doc == d;
      assert (index + [row])[i] == index[i];
    }
  }

  lemma {:induction false} DocTotalAbsent(index: seq<IndexRow>, doc: string)
    requires doc !in IndexDocs(index)
    ensures DocTotal(index, doc) == 0
  {
    if index != [] {
      IndexDocsAppend(index[..|index| - 1], index[|index| - 1]);
      assert index[..|index| - 1] + [index[|index| - 1]] == index;
      DocTotalAbsent(index[..|index| - 1], doc);
    }
  }

  lemma {:induction false} FlushKeepsLengthsAgree(b: BuilderState, refused: set<IndexRow>)
    requires LengthsAgree(b)
    ensures LengthsAgree(Flush(b, refused))
  {
    if Present(b.term) && Present(b.doc) {
      var row := IndexRow(b.term.value, b.doc.value, b.count);
      if row !in refused {
        var index := b.index + [row];
        assert index[..|b.index|] == b.index;
        IndexDocsAppend(b.index, row);
        if row.doc !in b.lengths {
          DocTotalAbsent(b.index, row.doc);
        }
      }
    }
  }

  lemma {:induction false} FeedKeepsLengthsAgree(recs: seq<Occurrence>, refused: set<IndexRow>)
    ensures LengthsAgree(Feed(Initial, recs, refused))
  {
    if recs != [] {
      var b := Feed(Initial, recs[..|recs| - 1], refused);
      FeedKeepsLengthsAgree(recs[..|recs| - 1], refused);
      FlushKeepsLengthsAgree(b, refused);
    } else {
      assert IndexDocs([]) == {};
    }
  }

  /**
   * On any input, sorted or not, and whatever inserts fail, each document's
   * length is the sum of the freq of the rows written for it, and exactly the
   * documents with a written row get a length.
   */
  lemma {:induction false} LengthsMatchWrittenRows(recs: seq<Occurrence>, refused: set<IndexRow>)
    ensures LengthsAgree(Flush(Feed(Initial, recs, refused), refused))
  {
    FeedKeepsLengthsAgree(recs, refused);
    FlushKeepsLengthsAgree(Feed(Initial, recs, refused), refused);
  }

  // ------------------------------------------------ lengths count every record

  /** Every record has a non-empty term and document. */
  predicate AllPresent(recs: seq<Occurrence>) {
    forall i :: 0 <= i < |recs| ==> recs[i].term != "" && recs[i].doc != ""
  }

  /** The sum of the counts of the records for doc. */
  function DocCount(recs: seq<Occurrence>, doc: string): int {
    if recs == [] then 0
    else
      var last := recs[|recs| - 1];
      DocCount(recs[..|recs| - 1], doc) + (if last.doc == doc then last.count else 0)
  }

  lemma {:induction false} FeedConservesCounts(recs: seq<Occurrence>, doc: string)
    requires AllPresent(recs)
    ensures var b := Feed(Initial, recs, {});
            LengthOf(b.lengths, doc) + (if b.doc == Some(doc) then b.count else 0) == DocCount(recs, doc)
  {
    if recs != [] {
      var init := recs[..|recs| - 1];
      var r := recs[|recs| - 1];
      assert AllPresent(init);
      FeedConservesCounts(init, doc);
      if init != [] {
        FeedHoldsLastKey(init, {});
        assert init[|init| - 1] == recs[|recs| - 2];
      }
    }
  }

  /**
   * When no insert fails and every key field is non-empty, each document's
   * length is the sum of all counts read for it.
   */
  lemma {:induction false} DocLengthsCountRecords(recs: seq<Occurrence>, doc: string)
    requires AllPresent(recs)
    ensures LengthOf(Flush(Feed(Initial, recs, {}), {}).lengths, doc) == DocCount(recs, doc)
  {
    FeedConservesCounts(recs, doc);
    if recs != [] {
      FeedHoldsLastKey(recs, {});
    }
  }

  // ---------------------------------------- each key written once, with its sum

  predicate SameKey(x: Occurrence, y: Occurrence) {
    x.term == y.term && x.doc == y.doc
  }

  /** Records with equal keys are adjacent: once another key comes, a key never returns. */
  predicate Contiguous(recs: seq<Occurrence>) {
    forall i, j, k :: 0 <= i < j < k < |recs| && SameKey(recs[i], recs[k]) ==> SameKey(recs[i], recs[j])
  }

  /** The sum of the counts of the records with key (term, doc). */
  function KeySum(recs: seq<Occurrence>, term: string, doc: string): int {
    if recs == [] then 0
    else
      var last := recs[|recs| - 1];
      KeySum(recs[..|recs| - 1], term, doc) + (if last.term == term && last.doc == doc then last.count else 0)
  }

  /** The keys of the records. */
  function Keys(recs: seq<Occurrence>): set<(string, string)> {
    set i | 0 <= i < |recs| :: (recs[i].term, recs[i].doc)
  }

  /** The keys of the written rows. */
  function RowKeys(index: seq<IndexRow>): set<(string, string)> {
    set i | 0 <= i < |index| :: (index[i].term, index[i].doc)
  }

  /** No key is written twice. */
  predicate DistinctRowKeys(index: seq<IndexRow>) {
    forall i, j :: 0 <= i < j < |index| ==> (index[i].term, index[i].doc) != (index[j].term, index[j].doc)
  }

  lemma {:induction false} KeysAppend(recs: seq<Occurrence>, r: Occurrence)
    ensures Keys(recs + [r]) == Keys(recs) + {(r.term, r.doc)}
  {
    assert (recs + [r])[|recs|] == r;
    forall key | key in Keys(recs)
      ensures key in Keys(recs + [r])
    {
      var i :| 0 <= i < |recs| && (recs[i].term, recs[i].doc) == key;
      assert (recs + [r])[i] == recs[i];
    }
  }

  lemma {:induction false} RowKeysAppend(index: seq<IndexRow>, row: IndexRow)
    ensures RowKeys(index + [row]) == RowKeys(index) + {(row.term, row.doc)}
  {
    assert (index + [row])[|index|] == row;
    forall key | key in RowKeys(index)
      ensures key in RowKeys(index + [row])
    {
      var i :| 0 <= i < |index| && (index[i].term, index[i].doc) == key;
      assert (index + [row])[i] == index[i];
    }
  }

  lemma {:induction false} KeySumAppend(recs: seq<Occurrence>, r: Occurrence, term: string, doc: string)
    ensures KeySum(recs + [r], term, doc) ==
            KeySum(recs, term, doc) + (if r.term == term && r.doc == doc then r.count else 0)
  {
    assert (recs + [r])[..|recs|] == recs;
  }

  lemma {:induction false} KeySumAbsent(recs: seq<Occurrence>, term: string, doc: string)
    requires (term, doc) !in Keys(recs)
    ensures KeySum(recs, term, doc) == 0
  {
    if recs != [] {
      var init := recs[..|recs| - 1];
      KeysAppend(init, recs[|recs| - 1]);
      assert init + [recs[|recs| - 1]] == recs;
      KeySumAbsent(init, term, doc);
    }
  }

  /** In a contiguous stream, a record whose key differs from its predecessor's brings a key not seen before. */
  lemma {:induction false} NewKeyIsFresh(p: seq<Occurrence>, r: Occurrence)
    requires p != [] && Contiguous(p + [r])
    requires !SameKey(p[|p| - 1], r)
    ensures (r.term, r.doc) !in Keys(p)
  {
    var s := p + [r];
    forall i | 0 <= i < |p|
      ensures (p[i].term, p[i].doc) != (r.term, r.doc)
    {
      assert s[i] == p[i] && s[|p| - 1] == p[|p| - 1] && s[|p|] == r;
      if i < |p| - 1 && SameKey(s[i], s[|p|]) {
        assert SameKey(s[i], s[|p| - 1]);
      }
    }
  }

  /**
   * After a non-empty contiguous stream with present keys and no refused
   * insert: the open group holds the last key and that key's whole sum; the
   * closed groups were each written once, with their sums; together they
   * cover every key read.
   */
  ghost predicate GroupInvariant(recs: seq<Occurrence>, b: BuilderState)
    requires recs != []
  {
    var last := recs[|recs| - 1];
    && b.term == Some(last.term) && b.doc == Some(last.doc)
    && b.count == KeySum(recs, last.term, last.doc)
    && DistinctRowKeys(b.index)
    && (last.term, last.doc) !in RowKeys(b.index)
    && RowKeys(b.index) + {(last.term, last.doc)} == Keys(recs)
    && forall i :: 0 <= i < |b.index| ==> b.index[i].freq == KeySum(recs, b.index[i].term, b.index[i].doc)
  }

  lemma {:induction false} GroupStepSameKey(p: seq<Occurrence>, r: Occurrence)
    requires p != [] && SameKey(p[|p| - 1], r)
    requires GroupInvariant(p, Feed(Initial, p, {}))
    ensures GroupInvariant(p + [r], Feed(Initial, p + [r], {}))
  {
    var b := Feed(Initial, p, {});
    var recs := p + [r];
    FeedAppend(Initial, p, r, {});
    KeysAppend(p, r);
    KeySumAppend(p, r, r.term, r.doc);
    forall i | 0 <= i < |b.index|
      ensures b.index[i].freq == KeySum(recs, b.index[i].term, b.index[i].doc)
    {
      KeySumAppend(p, r, b.index[i].term, b.index[i].doc);
      assert (b.index[i].term, b.index[i].doc) in RowKeys(b.index);
    }
  }

  lemma {:induction false} GroupStepNewKey(p: seq<Occurrence>, r: Occurrence)
    requires p != [] && !SameKey(p[|p| - 1], r)
    requires Contiguous(p + [r]) && AllPresent(p + [r])
    requires GroupInvariant(p, Feed(Initial, p, {}))
    ensures GroupInvariant(p + [r], Feed(Initial, p + [r], {}))
  {
    var b := Feed(Initial, p, {});
    var recs := p + [r];
    var last := p[|p| - 1];
    assert recs[|p| - 1] == last;
    var row := IndexRow(last.term, last.doc, b.count);
    FeedAppend(Initial, p, r, {});
    assert Feed(Initial, recs, {}).index == b.index + [row];
    NewKeyIsFresh(p, r);
    KeySumAbsent(p, r.term, r.doc);
    KeysAppend(p, r);
    RowKeysAppend(b.index, row);
    KeySumAppend(p, r, r.term, r.doc);
    KeySumAppend(p, r, last.term, last.doc);
    var index := b.index + [row];
    forall i | 0 <= i < |index|
      ensures index[i].freq == KeySum(recs, index[i].term, index[i].doc)
    {
      if i < |b.index| {
        assert index[i] == b.index[i];
        KeySumAppend(p, r, b.index[i].term, b.index[i].doc);
        assert (b.index[i].term, b.index[i].doc) in RowKeys(b.index);
      }
    }
    forall i, j | 0 <= i < j < |index|
      ensures (index[i].term, index[i].doc) != (index[j].term, index[j].doc)
    {
      if j == |b.index| {
        assert (index[i].term, index[i].doc) in RowKeys(b.index);
      }
    }
  }

  lemma {:induction false} FeedGroupInvariant(recs: seq<Occurrence>)
    requires recs != [] && Contiguous(recs) && AllPresent(recs)
    ensures GroupInvariant(recs, Feed(Initial, recs, {}))
  {
    var p := recs[..|recs| - 1];
    var r := recs[|recs| - 1];
    assert recs == p + [r];
    if p == [] {
      assert Keys(recs) == {(r.term, r.doc)} by {
        KeysAppend([], r);
        assert Keys([]) == {};
      }
      assert RowKeys([]) == {};
    } else {
      assert Contiguous(p) && AllPresent(p);
      FeedGroupInvariant(p);
      assert p[|p| - 1] == recs[|recs| - 2];
      if SameKey(p[|p| - 1], r) {
        GroupStepSameKey(p, r);
      } else {
        GroupStepNewKey(p, r);
      }
    }
  }

  /**
   * With equal keys contiguous, every key field present and every insert
   * accepted, the rows written are one per key read, each key once, and each
   * row's freq is the sum of the counts read for its key.
   */
  lemma {:induction false} GroupsWrittenOnce(recs: seq<Occurrence>)
    requires Contiguous(recs) && AllPresent(recs)
    ensures var index := Flush(Feed(Initial, recs, {}), {}).index;
            && DistinctRowKeys(index)
            && RowKeys(index) == Keys(recs)
            && forall i :: 0 <= i < |index| ==> index[i].freq == KeySum(recs, index[i].term, index[i].doc)
  {
    if recs == [] {
      assert Keys(recs) == {} && RowKeys([]) == {};
    } else {
      FeedGroupInvariant(recs);
      var b := Feed(Initial, recs, {});
      var last := recs[|recs| - 1];
      var row := IndexRow(last.term, last.doc, b.count);
      RowKeysAppend(b.index, row);
      var index := b.index + [row];
      forall i, j | 0 <= i < j < |index|
        ensures (index[i].term, index[i].doc) != (index[j].term, index[j].doc)
      {
        if j == |b.index| {
          assert (index[i].term, index[i].doc) in RowKeys(b.index);
        }
      }
    }
  }

  // ------------------------------------------------------ sorted is contiguous

  /** Code-point lexicographic order on strings, the order of the shuffle's sort. */
  predicate StrLe(a: string, b: string)
    decreases |a|
  {
    a == [] || (b != [] && (a[0] < b[0] || (a[0] == b[0] && StrLe(a[1..], b[1..]))))
  }

  /** Order on (term, doc) keys: by term, then by document. */
  predicate KeyLe(x: Occurrence, y: Occurrence) {
    if x.term == y.term then StrLe(x.doc, y.doc) else StrLe(x.term, y.term)
  }

  predicate SortedByKey(recs: seq<Occurrence>) {
    forall i, j :: 0 <= i < j < |recs| ==> KeyLe(recs[i], recs[j])
  }

  lemma {:induction false} StrLeAntisymmetric(a: string, b: string)
    requires StrLe(a, b) && StrLe(b, a)
    ensures a == b
    decreases |a|
  {
    if a != [] && b != [] && a[0] == b[0] {
      StrLeAntisymmetric(a[1..], b[1..]);
      assert a == [a[0]] + a[1..] && b == [b[0]] + b[1..];
    }
  }

  /** A stream sorted by (term, doc) has its equal keys contiguous. */
  lemma {:induction false} SortedIsContiguous(recs: seq<Occurrence>)
    requires SortedByKey(recs)
    ensures Contiguous(recs)
  {
    forall i, j, k | 0 <= i < j < k < |recs| && SameKey(recs[i], recs[k])
      ensures SameKey(recs[i], recs[j])
    {
      assert KeyLe(recs[i], recs[j]) && KeyLe(recs[j], recs[k]);
      if recs[i].term == recs[j].term {
        StrLeAntisymmetric(recs[i].doc, recs[j].doc);
      } else {
        StrLeAntisymmetric(recs[i].term, recs[j].term);
      }
    }
  }

  // ------------------------------------------------------------ worked examples

  /** the/docA/2, the/docA/3, cat/docA/1 give (the, docA, 5), (cat, docA, 1) and docA length 6. */
  lemma RepeatedTermExample()
    ensures var recs := [Occurrence("the", "docA", 2), Occurrence("the", "docA", 3), Occurrence("cat", "docA", 1)];
            var b := Flush(Feed(Initial, recs, {}), {});
            b.index == [IndexRow("the", "docA", 5), IndexRow("cat", "docA", 1)] && b.lengths == map["docA" := 6]
  {
    var r0, r1, r2 := Occurrence("the", "docA", 2), Occurrence("the", "docA", 3), Occurrence("cat", "docA", 1);
    FeedAppend(Initial, [], r0, {});
    FeedAppend(Initial, [r0], r1, {});
    FeedAppend(Initial, [r0, r1], r2, {});
    assert [] + [r0] == [r0] && [r0] + [r1] == [r0, r1] && [r0, r1] + [r2] == [r0, r1, r2];
    var b1 := Step(Initial, r0, {});
    assert b1 == BuilderState(Some("the"), Some("docA"), 2, map[], []);
    var b2 := Step(b1, r1, {});
    assert b2 == BuilderState(Some("the"), Some("docA"), 5, map[], []);
    var b3 := Step(b2, r2, {});
    assert b3 == BuilderState(Some("cat"), Some("docA"), 1, map["docA" := 5], [IndexRow("the", "docA", 5)]);
  }

  /** the/docA/1 then the/docB/4 give two rows and lengths docA = 1, docB = 4. */
  lemma TwoDocumentsExample()
    ensures var recs := [Occurrence("the", "docA", 1), Occurrence("the", "docB", 4)];
            var b := Flush(Feed(Initial, recs, {}), {});
            b.index == [IndexRow("the", "docA", 1), IndexRow("the", "docB", 4)]
            && b.lengths == map["docA" := 1, "docB" := 4]
  {
    var r0, r1 := Occurrence("the", "docA", 1), Occurrence("the", "docB", 4);
    FeedAppend(Initial, [], r0, {});
    FeedAppend(Initial, [r0], r1, {});
    assert [] + [r0] == [r0] && [r0] + [r1] == [r0, r1];
    var b1 := Step(Initial, r0, {});
    assert b1 == BuilderState(Some("the"), Some("docA"), 1, map[], []);
  }

  /** One more line adds its record when it parses, and nothing otherwise. */
  lemma {:induction false} RecordsAppend(lines: seq<string>, line: string)
    ensures Records(lines + [line]) == Records(lines) + (if ParseLine(line).Some? then [ParseLine(line).value] else [])
  {
    assert (lines + [line])[..|lines|] == lines;
  }

  lemma {:induction false} RecordSkipped(lines: seq<string>, line: string)
    requires ParseLine(line) == None
    ensures Records(lines + [line]) == Records(lines)
  {
    RecordsAppend(lines, line);
  }

  /**
   * A line that does not parse is dropped without a trace: the records of the
   * lines around it are the same as if it were absent, so it neither breaks
   * the group it sits in nor adds to it.
   */
  lemma {:induction false} MalformedLineSkipped(pre: seq<string>, m: string, post: seq<string>)
    requires ParseLine(m) == None
    ensures Records(pre + [m] + post) == Records(pre + post)
  {
    RecordsConcat(pre + [m], post);
    RecordsConcat(pre, post);
    RecordSkipped(pre, m);
  }

  /** The records of two runs of lines are the records of each, in order. */
  lemma {:induction false} RecordsConcat(a: seq<string>, b: seq<string>)
    ensures Records(a + b) == Records(a) + Records(b)
  {
    if b == [] {
      assert a + b == a;
    } else {
      var init := b[..|b| - 1];
      var last := b[|b| - 1];
      var x := if ParseLine(last).Some? then [ParseLine(last).value] else [];
      RecordsConcat(a, init);
      assert (a + b)[..|a + b| - 1] == a + init;
      assert Records(a + b) == Records(a + init) + x;
      assert Records(a) + Records(init) + x == Records(a) + (Records(init) + x);
    }
  }
}
