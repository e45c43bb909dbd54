/**
 * The corpus-statistics reducer (StatsProcessor).  It reads (term, doc)
 * lines, collects for every term the set of documents it occurs in, reads
 * the doc_length rows back from the store to count the documents and average
 * their lengths, and writes one statistics row per term.
 *
 * As in TermFrequency, the store is modelled by the rows it accepted, and an
 * insert that raises by a set of rows the store refuses.
 */
module CorpusStats {
  import opened Wrappers
  import opened Text
  import opened PresenceMapper
  import TermFrequency

  /** A row of the statistics table: document frequency, corpus size and average length. */
  datatype StatsRow = StatsRow(term: string, df: int, n: int, avg: real)

  // ------------------------------------------------------------ the input lines

  /**
   * The body of main's loop on one line: strip it, skip it when blank, and
   * split it at tabs into exactly two fields; any other count skips the line.
   */
  function ParsePair(line: string): Option<Presence> {
    var s := Strip(line);
    if s == [] then None
    else
      var fields := Split(s, '\t');
      if |fields| != 2 then None else Some(Presence(fields[0], fields[1]))
  }

  /** The line the presence mapper prints for a pair. */
  function FormatPresence(p: Presence): string {
    p.term + "\t" + p.doc
  }

  /** The pairs main passes to process_term_doc_pair, in order: the lines that parse. */
  function Pairs(lines: seq<string>): seq<Presence> {
    if lines == [] then []
    else
      var init := Pairs(lines[..|lines| - 1]);
      match ParsePair(lines[|lines| - 1])
      case None => init
      case Some(p) => init + [p]
  }

  lemma PresenceIsJoin(p: Presence)
    ensures FormatPresence(p) == Join([p.term, p.doc], '\t')
  {
    var fields := [p.term, p.doc];
    assert fields[1..] == [p.doc] && fields[1..][1..] == [];
  }

  lemma WordHasNoTab(w: string)
    requires IsWord(w)
    ensures '\t' !in w && w != [] && !IsSpace(w[0])
  {
    assert forall i :: 0 <= i < |w| ==> IsWordChar(w[i]);
  }

  /** A line the presence mapper prints for a word and a non-empty document id is read back as that pair. */
  lemma ParseFormattedPair(p: Presence)
    requires IsWord(p.term) && '\t' !in p.doc
    requires p.doc != [] && !IsSpace(p.doc[|p.doc| - 1])
    ensures ParsePair(FormatPresence(p)) == Some(p)
  {
    var line := FormatPresence(p);
    WordHasNoTab(p.term);
    PresenceIsJoin(p);
    assert line[0] == p.term[0] && line[|line| - 1] == p.doc[|p.doc| - 1];
    StripPadded([], line, []);
    assert [] + line + [] == line;
    SplitJoin([p.term, p.doc], '\t');
  }

  /**
   * A word printed with an empty document id (an input file whose name
   * starts with '.') loses its tab to strip and is skipped.
   */
  lemma EmptyDocIdPairSkipped(term: string)
    requires IsWord(term)
    ensures ParsePair(FormatPresence(Presence(term, ""))) == None
  {
    assert forall i :: 0 <= i < |term| ==> IsWordChar(term[i]);
    assert FormatPresence(Presence(term, "")) == [] + term + "\t";
    assert AllSpace("\t");
    StripPadded([], term, "\t");
    assert Join([term], '\t') == term;
    SplitJoin([term], '\t');
  }

  /**
   * A non-blank line with no surrounding whitespace is read by its tab
   * fields: it gives a pair exactly when there are two fields.
   */
  lemma {:induction false} PairLineOfFields(fields: seq<string>)
    requires |fields| >= 1 && forall i :: 0 <= i < |fields| ==> '\t' !in fields[i]
    requires Join(fields, '\t') != [] && Trimmed(Join(fields, '\t'))
    ensures ParsePair(Join(fields, '\t')).Some? <==> |fields| == 2
    ensures |fields| == 2 ==> ParsePair(Join(fields, '\t')) == Some(Presence(fields[0], fields[1]))
  {
    var line := Join(fields, '\t');
    StripPadded([], line, []);
    assert [] + line + [] == line;
    SplitJoin(fields, '\t');
  }

  /** One more line adds its pair when it parses, and leaves the pairs unchanged otherwise. */
  lemma {:induction false} PairsAppend(lines: seq<string>, line: string)
    ensures Pairs(lines + [line]) == Pairs(lines) + (if ParsePair(line).Some? then [ParsePair(line).value] else [])
  {
    assert (lines + [line])[..|lines|] == lines;
  }

  // ------------------------------------------------------- collecting the pairs

  /** term_documents and total_docs. */
  datatype Collected = Collected(termDocs: map<string, set<string>>, allDocs: set<string>)

  const Empty := Collected(map[], {})

  /** term_documents[term] of a defaultdict(set). */
  function DocsOf(termDocs: map<string, set<string>>, term: string): set<string> {
    if term in termDocs then termDocs[term] else {}
  }

  /** process_term_doc_pair */
  function AddPair(c: Collected, p: Presence): Collected {
    Collected(c.termDocs[p.term := DocsOf(c.termDocs, p.term) + {p.doc}], c.allDocs + {p.doc})
  }

  /** The state after processing pairs in order. */
  function Collect(c: Collected, pairs: seq<Presence>): Collected {
    if pairs == [] then c else AddPair(Collect(c, pairs[..|pairs| - 1]), pairs[|pairs| - 1])
  }

  /**
   * A pair adds its document to its term's set and to the corpus, and changes
   * nothing else; adding the same pair again changes nothing.
   */
  lemma AddPairEffect(c: Collected, p: Presence)
    ensures AddPair(c, p).termDocs.Keys == c.termDocs.Keys + {p.term}
    ensures AddPair(c, p).termDocs[p.term] == DocsOf(c.termDocs, p.term) + {p.doc}
    ensures forall t :: t in c.termDocs && t != p.term ==> AddPair(c, p).termDocs[t] == c.termDocs[t]
    ensures AddPair(c, p).allDocs == c.allDocs + {p.doc}
    ensures AddPair(AddPair(c, p), p) == AddPair(c, p)
  {
  }

  /** The terms of the pairs. */
  function PairTerms(pairs: seq<Presence>): set<string> {
    set i | 0 <= i < |pairs| :: pairs[i].term
  }

  /** The documents paired with term. */
  function PairDocs(pairs: seq<Presence>, term: string): set<string> {
    set i | 0 <= i < |pairs| && pairs[i].term == term :: pairs[i].doc
  }

  /** All documents of the pairs. */
  function AllPairDocs(pairs: seq<Presence>): set<string> {
    set i | 0 <= i < |pairs| :: pairs[i].doc
  }

  lemma {:induction false} PairSetsAppend(pairs: seq<Presence>, p: Presence)
    ensures PairTerms(pairs + [p]) == PairTerms(pairs) + {p.term}
    ensures AllPairDocs(pairs + [p]) == AllPairDocs(pairs) + {p.doc}
    ensures forall t :: PairDocs(pairs + [p], t) == PairDocs(pairs, t) + (if p.term == t then {p.doc} else {})
  {
    var s := pairs + [p];
    assert s[|pairs|] == p;
    assert forall i :: 0 <= i < |pairs| ==> s[i] == pairs[i];
    forall t
      ensures PairDocs(s, t) == PairDocs(pairs, t) + (if p.term == t then {p.doc} else {})
    {
      forall d | d in PairDocs(pairs, t)
        ensures d in PairDocs(s, t)
      {
        var i :| 0 <= i < |pairs| && pairs[i].term == t && pairs[i].doc == d;
        assert s[i] == pairs[i];
      }
    }
    forall t | t in PairTerms(pairs)
      ensures t in PairTerms(s)
    {
      var i :| 0 <= i < |pairs| && pairs[i].term == t;
      assert s[i] == pairs[i];
    }
    forall d | d in AllPairDocs(pairs)
      ensures d in AllPairDocs(s)
    {
      var i :| 0 <= i < |pairs| && pairs[i].doc == d;
      assert s[i] == pairs[i];
    }
  }

  lemma CollectAppend(c: Collected, pairs: seq<Presence>, p: Presence)
    ensures Collect(c, pairs + [p]) == AddPair(Collect(c, pairs), p)
  {
    assert (pairs + [p])[..|pairs|] == pairs;
  }

  /**
   * After any pairs, term_documents holds exactly the terms read, each with
   * exactly the documents paired with it, and total_docs every document read.
   */
  lemma {:induction false} CollectMatchesPairs(pairs: seq<Presence>)
    ensures Collect(Empty, pairs).termDocs.Keys == PairTerms(pairs)
    ensures forall t :: t in Collect(Empty, pairs).termDocs ==> Collect(Empty, pairs).termDocs[t] == PairDocs(pairs, t)
    ensures Collect(Empty, pairs).allDocs == AllPairDocs(pairs)
  {
    if pairs == [] {
      assert PairTerms(pairs) == {} && AllPairDocs(pairs) == {};
    } else {
      var init := pairs[..|pairs| - 1];
      var p := pairs[|pairs| - 1];
      assert init + [p] == pairs;
      CollectMatchesPairs(init);
      PairSetsAppend(init, p);
    }
  }

  lemma PairDocsMembership(pairs: seq<Presence>, t: string, d: string)
    ensures d in PairDocs(pairs, t) <==> Presence(t, d) in pairs
  {
    if Presence(t, d) in pairs {
      var i :| 0 <= i < |pairs| && pairs[i] == Presence(t, d);
    }
  }

  /**
   * df does not depend on the order of the pairs or on repeated pairs: two
   * streams with the same pairs leave the same state.
   */
  lemma CollectIgnoresOrderAndRepeats(a: seq<Presence>, b: seq<Presence>)
    requires forall p :: p in a <==> p in b
    ensures Collect(Empty, a) == Collect(Empty, b)
  {
    CollectMatchesPairs(a);
    CollectMatchesPairs(b);
    SamePairSets(a, b);
    var ca, cb := Collect(Empty, a), Collect(Empty, b);
    assert ca.termDocs.Keys == cb.termDocs.Keys;
    forall t | t in ca.termDocs
      ensures ca.termDocs[t] == cb.termDocs[t]
    {
      SamePairDocs(a, b, t);
    }
  }

  lemma SamePairSets(a: seq<Presence>, b: seq<Presence>)
    requires forall p :: p in a <==> p in b
    ensures PairTerms(a) == PairTerms(b) && AllPairDocs(a) == AllPairDocs(b)
  {
    forall t | t in PairTerms(a)
      ensures t in PairTerms(b)
    {
      var i :| 0 <= i < |a| && a[i].term == t;
      assert a[i] in b;
    }
    forall t | t in PairTerms(b)
      ensures t in PairTerms(a)
    {
      var i :| 0 <= i < |b| && b[i].term == t;
      assert b[i] in a;
    }
    forall d | d in AllPairDocs(a)
      ensures d in AllPairDocs(b)
    {
      var i :| 0 <= i < |a| && a[i].doc == d;
      assert a[i] in b;
    }
    forall d | d in AllPairDocs(b)
      ensures d in AllPairDocs(a)
    {
      var i :| 0 <= i < |b| && b[i].doc == d;
      assert b[i] in a;
    }
  }

  lemma SamePairDocs(a: seq<Presence>, b: seq<Presence>, t: string)
    requires forall p :: p in a <==> p in b
    ensures PairDocs(a, t) == PairDocs(b, t)
  {
    forall d
      ensures d in PairDocs(a, t) <==> d in PairDocs(b, t)
    {
      PairDocsMembership(a, t, d);
      PairDocsMembership(b, t, d);
    }
  }

  // ------------------------------------------------------- the stored lengths

  /** {row.doc_id: row.length for row in rows}: a later row for a document overrides an earlier one. */
  function LengthTable(rows: seq<TermFrequency.LengthRow>): map<string, int> {
    if rows == [] then map[]
    else
      var last := rows[|rows| - 1];
      LengthTable(rows[..|rows| - 1])[last.doc := last.length]
  }

  /** The rows other than doc's. */
  function Without(rows: seq<TermFrequency.LengthRow>, doc: string): seq<TermFrequency.LengthRow> {
    if rows == [] then []
    else
      var last := rows[|rows| - 1];
      Without(rows[..|rows| - 1], doc) + (if last.doc == doc then [] else [last])
  }

  /** The entries of the dictionary as rows: each document once, with its last length. */
  function Dedup(rows: seq<TermFrequency.LengthRow>): seq<TermFrequency.LengthRow> {
    if rows == [] then []
    else
      var last := rows[|rows| - 1];
      Without(Dedup(rows[..|rows| - 1]), last.doc) + [last]
  }

  function DocSet(rows: seq<TermFrequency.LengthRow>): set<string> {
    set i | 0 <= i < |rows| :: rows[i].doc
  }

  /** The sum of the lengths. */
  function SumLengths(rows: seq<TermFrequency.LengthRow>): int {
    if rows == [] then 0 else SumLengths(rows[..|rows| - 1]) + rows[|rows| - 1].length
  }

  lemma {:induction false} WithoutDoc(rows: seq<TermFrequency.LengthRow>, doc: string)
    requires TermFrequency.DistinctDocs(rows)
    ensures TermFrequency.DistinctDocs(Without(rows, doc))
    ensures DocSet(Without(rows, doc)) == DocSet(rows) - {doc}
    ensures |Without(rows, doc)| == |rows| - (if doc in DocSet(rows) then 1 else 0)
    ensures forall r :: r in Without(rows, doc) <==> r in rows && r.doc != doc
  {
    if rows != [] {
      var init := rows[..|rows| - 1];
      var last := rows[|rows| - 1];
      assert init + [last] == rows;
      assert TermFrequency.DistinctDocs(init);
      WithoutDoc(init, doc);
      DocSetAppend(init, last);
      assert last.doc !in DocSet(init) by {
        forall i | 0 <= i < |init|
          ensures init[i].doc != last.doc
        {
          assert rows[i] == init[i];
        }
      }
      var w := Without(init, doc);
      if last.doc == doc {
        assert Without(rows, doc) == w;
        assert DocSet(rows) - {doc} == DocSet(init) - {doc};
      } else {
        assert Without(rows, doc) == w + [last];
        DocSetAppend(w, last);
        DistinctDocsAppend(w, last);
        assert DocSet(rows) - {doc} == (DocSet(init) - {doc}) + {last.doc};
      }
    }
  }

  lemma DocSetAppend(rows: seq<TermFrequency.LengthRow>, r: TermFrequency.LengthRow)
    ensures DocSet(rows + [r]) == DocSet(rows) + {r.doc}
  {
    var s := rows + [r];
    assert s[|rows|] == r;
    forall d | d in DocSet(rows)
      ensures d in DocSet(s)
    {
      var i :| 0 <= i < |rows| && rows[i].doc == d;
      assert s[i] == rows[i];
    }
  }

  lemma DistinctDocsAppend(rows: seq<TermFrequency.LengthRow>, r: TermFrequency.LengthRow)
    requires TermFrequency.DistinctDocs(rows) && r.doc !in DocSet(rows)
    ensures TermFrequency.DistinctDocs(rows + [r])
  {
    var s := rows + [r];
    forall i, j | 0 <= i < j < |s|
      ensures s[i].doc != s[j].doc
    {
      assert s[i] == rows[i];
      if j < |rows| {
        assert s[j] == rows[j];
      } else {
        assert rows[i].doc in DocSet(rows);
      }
    }
  }

  /**
   * The deduplicated rows are the dictionary's entries: each document once,
   * exactly the documents of the dictionary, each with its dictionary length.
   */
  lemma {:induction false} DedupIsTable(rows: seq<TermFrequency.LengthRow>)
    ensures TermFrequency.DistinctDocs(Dedup(rows))
    ensures DocSet(Dedup(rows)) == LengthTable(rows).Keys
    ensures forall r :: r in Dedup(rows) ==> LengthTable(rows)[r.doc] == r.length
  {
    if rows == [] {
      assert DocSet([]) == {};
    } else {
      var init := rows[..|rows| - 1];
      var last := rows[|rows| - 1];
      DedupIsTable(init);
      var d := Dedup(init);
      WithoutDoc(d, last.doc);
      var w := Without(d, last.doc);
      assert Dedup(rows) == w + [last];
      DocSetAppend(w, last);
      DistinctDocsAppend(w, last);
      var t := LengthTable(init);
      assert LengthTable(rows) == t[last.doc := last.length];
      forall r | r in Dedup(rows)
        ensures LengthTable(rows)[r.doc] == r.length
      {
        if r != last {
          assert r in w;
        }
      }
    }
  }

  /** The number of entries is the size of the dictionary. */
  lemma {:induction false} DedupSize(rows: seq<TermFrequency.LengthRow>)
    ensures |Dedup(rows)| == |LengthTable(rows)|
  {
    if rows != [] {
      var init := rows[..|rows| - 1];
      var last := rows[|rows| - 1];
      DedupSize(init);
      DedupIsTable(init);
      var d := Dedup(init);
      WithoutDoc(d, last.doc);
      var t := LengthTable(init);
      if last.doc in t {
        assert |t[last.doc := last.length]| == |t|;
      } else {
        assert |t[last.doc := last.length]| == |t| + 1;
      }
    }
  }

  /** Distinct rows are their own entries. */
  lemma {:induction false} DedupOfDistinct(rows: seq<TermFrequency.LengthRow>)
    requires TermFrequency.DistinctDocs(rows)
    ensures Dedup(rows) == rows
  {
    if rows != [] {
      var init := rows[..|rows| - 1];
      var last := rows[|rows| - 1];
      assert TermFrequency.DistinctDocs(init);
      DedupOfDistinct(init);
      assert last.doc !in DocSet(init) by {
        forall i | 0 <= i < |init|
          ensures init[i].doc != last.doc
        {
          assert rows[i] == init[i];
        }
      }
      WithoutAbsent(init, last.doc);
      assert init + [last] == rows;
    }
  }

  lemma {:induction false} WithoutAbsent(rows: seq<TermFrequency.LengthRow>, doc: string)
    requires doc !in DocSet(rows)
    ensures Without(rows, doc) == rows
  {
    if rows != [] {
      var init := rows[..|rows| - 1];
      DocSetAppend(init, rows[|rows| - 1]);
      assert init + [rows[|rows| - 1]] == rows;
      WithoutAbsent(init, doc);
    }
  }

  /** What calculate_statistics returns, with the total it divides. */
  datatype DocStats = DocStats(count: nat, total: int, avg: real)

  /**
   * calculate_statistics on the rows read back: the number of documents in
   * the dictionary, the sum of their lengths and its average, 0 for none.
   */
  function CalculateStatistics(rows: seq<TermFrequency.LengthRow>): (s: DocStats)
    ensures s.count == |LengthTable(rows)|
    ensures s.count == 0 <==> rows == []
    ensures s.count == 0 ==> s.avg == 0.0
    ensures s.count > 0 ==> s.avg * s.count as real == s.total as real
  {
    var entries := Dedup(rows);
    DedupSize(rows);
    TableEmptyIffNoRows(rows);
    var total := SumLengths(entries);
    var count := |entries|;
    if count == 0 then DocStats(0, total, 0.0)
    else
      QuotientTimesDivisor(total as real, count as real);
      DocStats(count, total, total as real / count as real)
  }

  lemma TableEmptyIffNoRows(rows: seq<TermFrequency.LengthRow>)
    ensures |LengthTable(rows)| == 0 <==> rows == []
  {
    if rows != [] {
      var m := LengthTable(rows);
      assert rows[|rows| - 1].doc in m.Keys;
      assert |m.Keys| > 0;
    }
  }

  lemma QuotientTimesDivisor(x: real, y: real)
    requires y != 0.0
    ensures (x / y) * y == x
  {
  }

  /**
   * The doc_length table has one row per document, so read back whole the
   * count is the number of rows and the total the sum of their lengths.
   */
  lemma StatisticsOfDistinctRows(rows: seq<TermFrequency.LengthRow>)
    requires TermFrequency.DistinctDocs(rows)
    ensures CalculateStatistics(rows).count == |rows|
    ensures CalculateStatistics(rows).total == SumLengths(rows)
  {
    DedupOfDistinct(rows);
  }

  /** Taking a document's one row out of duplicate-free rows takes its length out of the sum. */
  lemma {:induction false} SumWithout(rows: seq<TermFrequency.LengthRow>, r: TermFrequency.LengthRow)
    requires TermFrequency.DistinctDocs(rows) && r in rows
    ensures SumLengths(rows) == SumLengths(Without(rows, r.doc)) + r.length
  {
    var init := rows[..|rows| - 1];
    var last := rows[|rows| - 1];
    assert init + [last] == rows;
    assert TermFrequency.DistinctDocs(init);
    if last.doc == r.doc {
      var i :| 0 <= i < |rows| && rows[i] == r;
      assert i == |rows| - 1;
      assert r == last && Without(rows, r.doc) == Without(init, r.doc);
      assert r.doc !in DocSet(init) by {
        forall k | 0 <= k < |init|
          ensures init[k].doc != r.doc
        {
          assert rows[k] == init[k];
        }
      }
      WithoutAbsent(init, r.doc);
    } else {
      var i :| 0 <= i < |rows| && rows[i] == r;
      assert init[i] == r;
      SumWithout(init, r);
      var w := Without(init, r.doc);
      assert (w + [last])[..|w|] == w;
    }
  }

  /** Two duplicate-free listings of the same rows, in any order, have the same sum. */
  lemma {:induction false} SumOfSameEntries(e: seq<TermFrequency.LengthRow>, f: seq<TermFrequency.LengthRow>)
    requires TermFrequency.DistinctDocs(e) && TermFrequency.DistinctDocs(f)
    requires forall r :: r in e <==> r in f
    ensures SumLengths(e) == SumLengths(f)
    decreases |e|
  {
    if e == [] {
      if f != [] {
        FirstRowListed(f);
        assert false;
      }
    } else {
      var init := e[..|e| - 1];
      var last := e[|e| - 1];
      assert init + [last] == e;
      assert TermFrequency.DistinctDocs(init);
      SumWithout(f, last);
      WithoutDoc(f, last.doc);
      var g := Without(f, last.doc);
      forall r
        ensures r in init <==> r in g
      {
        if r in init {
          var i :| 0 <= i < |init| && init[i] == r;
          assert e[i] == r;
        }
        if r in g {
          assert r in e && r != last;
          var i :| 0 <= i < |e| && e[i] == r;
          assert i != |e| - 1;
          assert init[i] == r;
        }
      }
      SumOfSameEntries(init, g);
    }
  }

  lemma FirstRowListed(f: seq<TermFrequency.LengthRow>)
    requires f != []
    ensures f[0] in f
  {
  }

  /**
   * The total calculate_statistics divides is sum(doc_lengths.values()): the
   * sum of the lengths of the dictionary's entries, listed once each in any order.
   */
  lemma TotalOfEntries(rows: seq<TermFrequency.LengthRow>, entries: seq<TermFrequency.LengthRow>)
    requires TermFrequency.DistinctDocs(entries)
    requires forall r :: r in entries <==> r.doc in LengthTable(rows) && LengthTable(rows)[r.doc] == r.length
    ensures CalculateStatistics(rows).total == SumLengths(entries)
  {
    DedupIsTable(rows);
    var d := Dedup(rows);
    forall r
      ensures r in d <==> r in entries
    {
      if r in entries {
        assert r.doc in DocSet(d);
        var i :| 0 <= i < |d| && d[i].doc == r.doc;
        assert d[i] in d;
      }
      if r in d {
        var i :| 0 <= i < |d| && d[i] == r;
        assert r.doc in DocSet(d);
      }
    }
    SumOfSameEntries(d, entries);
  }

  /** The statistics depend on the dictionary alone, not on the order or repeats of the rows read. */
  lemma StatisticsOfSameTable(a: seq<TermFrequency.LengthRow>, b: seq<TermFrequency.LengthRow>)
    requires LengthTable(a) == LengthTable(b)
    ensures CalculateStatistics(a) == CalculateStatistics(b)
  {
    DedupIsTable(a);
    var d := Dedup(a);
    forall r
      ensures r in d <==> r.doc in LengthTable(b) && LengthTable(b)[r.doc] == r.length
    {
      if r.doc in LengthTable(b) && LengthTable(b)[r.doc] == r.length {
        assert r.doc in DocSet(d);
        var i :| 0 <= i < |d| && d[i].doc == r.doc;
        assert d[i] in d;
      }
      if r in d {
        var i :| 0 <= i < |d| && d[i] == r;
        assert r.doc in DocSet(d);
      }
    }
    TotalOfEntries(a, d);
    TotalOfEntries(b, d);
  }

  // ------------------------------------------------------------ the class

  /** The statistics rows for every term of termDocs, all with the same n and average. */
  function StatsRows(termDocs: map<string, set<string>>, n: int, avg: real): set<StatsRow> {
    set t | t in termDocs :: StatsRow(t, |termDocs[t]|, n, avg)
  }

  function StatsRowsAmong(termDocs: map<string, set<string>>, terms: set<string>, n: int, avg: real): set<StatsRow> {
    set t | t in termDocs && t in terms :: StatsRow(t, |termDocs[t]|, n, avg)
  }

  function StatsRowSet(rows: seq<StatsRow>): set<StatsRow> {
    set i | 0 <= i < |rows| :: rows[i]
  }

  predicate DistinctStatTerms(rows: seq<StatsRow>) {
    forall i, j :: 0 <= i < j < |rows| ==> rows[i].term != rows[j].term
  }

  lemma StatsRowSetAppend(rows: seq<StatsRow>, row: StatsRow)
    ensures StatsRowSet(rows + [row]) == StatsRowSet(rows) + {row}
  {
    assert (rows + [row])[|rows|] == row;
    forall r | r in StatsRowSet(rows)
      ensures r in StatsRowSet(rows + [row])
    {
      var i :| 0 <= i < |rows| && rows[i] == r;
      assert (rows + [row])[i] == r;
    }
  }

  /** StatsProcessor, with the session reduced to the rows the store accepted. */
  class StatsProcessor {
    var termDocuments: map<string, set<string>>
    var totalDocs: set<string>
    /** The statistics rows the store accepted, in write order. */
    var statistics: seq<StatsRow>
    /** The rows whose insert raises. */
    const refused: set<StatsRow>

    function State(): Collected
      reads this
    {
      Collected(termDocuments, totalDocs)
    }

    constructor (refused: set<StatsRow>)
      ensures State() == Empty && statistics == [] && this.refused == refused
    {
      termDocuments, totalDocs, statistics := map[], {}, [];
      this.refused := refused;
    }

    /** process_term_doc_pair */
    method ProcessTermDocPair(term: string, doc: string)
      modifies this`termDocuments, this`totalDocs
      ensures State() == AddPair(old(State()), Presence(term, doc))
    {
      termDocuments := termDocuments[term := DocsOf(termDocuments, term) + {doc}];
      totalDocs := totalDocs + {doc};
    }

    /** save_statistics: one insert per term; a refused insert does not stop the others. */
    method SaveStatistics(n: int, avg: real)
      modifies this`statistics
      ensures |statistics| >= |old(statistics)|
      ensures statistics[..|old(statistics)|] == old(statistics)
      ensures DistinctStatTerms(statistics[|old(statistics)|..])
      ensures StatsRowSet(statistics[|old(statistics)|..]) == StatsRows(termDocuments, n, avg) - refused
    {
      var start := |statistics|;
      var todo := termDocuments.Keys;
      while todo != {}
        invariant todo <= termDocuments.Keys
        invariant |statistics| >= start
        invariant statistics[..start] == old(statistics)
        invariant DistinctStatTerms(statistics[start..])
        invariant forall k :: start <= k < |statistics| ==> statistics[k].term !in todo
        invariant StatsRowSet(statistics[start..]) ==
                  StatsRows(termDocuments, n, avg) - StatsRowsAmong(termDocuments, todo, n, avg) - refused
        decreases todo
      {
        var term :| term in todo;
        var row := StatsRow(term, |termDocuments[term]|, n, avg);
        ghost var written := statistics[start..];
        if row !in refused {
          statistics := statistics + [row];
          assert statistics[start..] == written + [row];
          StatsRowSetAppend(written, row);
        }
        todo := todo - {term};
      }
    }
  }

  /**
   * main: feed every line that parses to process_term_doc_pair, compute the
   * corpus size and average from the doc_length rows read back, and write the
   * statistics.  The result is the rows the store accepted.
   */
  method ProcessStatistics(lines: seq<string>, stored: seq<TermFrequency.LengthRow>, refused: set<StatsRow>)
    returns (rows: seq<StatsRow>)
    ensures DistinctStatTerms(rows)
    ensures StatsRowSet(rows) ==
            StatsRows(Collect(Empty, Pairs(lines)).termDocs,
                      CalculateStatistics(stored).count, CalculateStatistics(stored).avg) - refused
  {
    var processor := new StatsProcessor(refused);
    for i := 0 to |lines|
      invariant processor.State() == Collect(Empty, Pairs(lines[..i]))
      invariant processor.statistics == [] && processor.refused == refused
    {
      assert lines[..i + 1][..i] == lines[..i];
      match ParsePair(lines[i]) {
        case None =>
        case Some(p) =>
          assert Pairs(lines[..i]) + [p] == Pairs(lines[..i + 1]);
          processor.ProcessTermDocPair(p.term, p.doc);
      }
    }
    assert lines[..|lines|] == lines;
    var stats := CalculateStatistics(stored);
    processor.SaveStatistics(stats.count, stats.avg);
    rows := processor.statistics;
  }

  /**
   * The rows to write are one per term read, with df the number of distinct
   * documents paired with it and the same n and average on every row.
   */
  lemma StatsRowsOfPairs(pairs: seq<Presence>, n: int, avg: real, row: StatsRow)
    ensures row in StatsRows(Collect(Empty, pairs).termDocs, n, avg) <==>
            row.term in PairTerms(pairs) && row.df == |PairDocs(pairs, row.term)| && row.n == n && row.avg == avg
  {
    CollectMatchesPairs(pairs);
  }

  /**
   * n is the number of stored documents, not the number of documents seen in
   * the pairs: with no doc_length rows, a term seen in one document is
   * written with n = 0.
   */
  lemma CorpusSizeComesFromStore()
    ensures var c := Collect(Empty, [Presence("cat", "doc1")]);
            |c.allDocs| == 1 && CalculateStatistics([]).count == 0
            && StatsRows(c.termDocs, CalculateStatistics([]).count, CalculateStatistics([]).avg) == {StatsRow("cat", 1, 0, 0.0)}
  {
    var p0 := Presence("cat", "doc1");
    CollectAppend(Empty, [], p0);
    assert [] + [p0] == [p0];
    var c := AddPair(Empty, p0);
    assert c.termDocs == map["cat" := {"doc1"}] && c.allDocs == {"doc1"};
  }

  lemma TwoPairsCollected()
    ensures Collect(Empty, [Presence("cat", "doc1"), Presence("dog", "doc1")]).termDocs ==
            map["cat" := {"doc1"}, "dog" := {"doc1"}]
  {
    var p0, p1 := Presence("cat", "doc1"), Presence("dog", "doc1");
    CollectAppend(Empty, [], p0);
    CollectAppend(Empty, [p0], p1);
    assert [] + [p0] == [p0] && [p0] + [p1] == [p0, p1];
    var c1 := AddPair(Empty, p0);
    assert DocsOf(Empty.termDocs, "cat") + {"doc1"} == {"doc1"};
    assert c1.termDocs == map["cat" := {"doc1"}];
    assert DocsOf(c1.termDocs, "dog") + {"doc1"} == {"doc1"};
  }

  /** cat/doc1, dog/doc1, cat/doc2 leave cat with both documents and dog with doc1. */
  lemma ThreePairsCollected()
    ensures Collect(Empty, [Presence("cat", "doc1"), Presence("dog", "doc1"), Presence("cat", "doc2")]).termDocs ==
            map["cat" := {"doc1", "doc2"}, "dog" := {"doc1"}]
  {
    var p0, p1, p2 := Presence("cat", "doc1"), Presence("dog", "doc1"), Presence("cat", "doc2");
    TwoPairsCollected();
    CollectAppend(Empty, [p0, p1], p2);
    assert [p0, p1] + [p2] == [p0, p1, p2];
    var c2 := Collect(Empty, [p0, p1]);
    assert DocsOf(c2.termDocs, "cat") + {"doc2"} == {"doc1", "doc2"};
  }

  /** Stored lengths doc1 = 10 and doc2 = 20 give two documents of average length 15. */
  lemma TwoStoredLengths()
    ensures CalculateStatistics([TermFrequency.LengthRow("doc1", 10), TermFrequency.LengthRow("doc2", 20)]) ==
            DocStats(2, 30, 15.0)
  {
    var stored := [TermFrequency.LengthRow("doc1", 10), TermFrequency.LengthRow("doc2", 20)];
    assert TermFrequency.DistinctDocs(stored);
    StatisticsOfDistinctRows(stored);
    assert stored[..1] == [stored[0]] && [stored[0]][..0] == [];
    assert SumLengths(stored) == 30;
  }

  /**
   * cat/doc1, dog/doc1, cat/doc2 with stored lengths doc1 = 10 and doc2 = 20
   * give cat with df 2 and dog with df 1, both with n = 2 and average 15.
   */
  lemma TwoDocumentExample()
    ensures var pairs := [Presence("cat", "doc1"), Presence("dog", "doc1"), Presence("cat", "doc2")];
            var stored := [TermFrequency.LengthRow("doc1", 10), TermFrequency.LengthRow("doc2", 20)];
            var s := CalculateStatistics(stored);
            StatsRows(Collect(Empty, pairs).termDocs, s.count, s.avg) ==
            {StatsRow("cat", 2, 2, 15.0), StatsRow("dog", 1, 2, 15.0)}
  {
    ThreePairsCollected();
    TwoStoredLengths();
    var m: map<string, set<string>> := map["cat" := {"doc1", "doc2"}, "dog" := {"doc1"}];
    assert |m["cat"]| == 2 && |m["dog"]| == 1;
    var expected := {StatsRow("cat", 2, 2, 15.0), StatsRow("dog", 1, 2, 15.0)};
    assert StatsRow("cat", 2, 2, 15.0) in StatsRows(m, 2, 15.0);
    assert StatsRow("dog", 1, 2, 15.0) in StatsRows(m, 2, 15.0);
    forall r | r in StatsRows(m, 2, 15.0)
      ensures r in expected
    {
      var t :| t in m && r == StatsRow(t, |m[t]|, 2, 15.0);
      assert t == "cat" || t == "dog";
    }
  }
}
