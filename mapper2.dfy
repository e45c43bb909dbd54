/**
 * The presence mapper: for one document it emits each (word, doc) pair at
 * most once, by remembering the words it has already emitted.  The order in
 * which one line's new words come out follows set iteration, so only the set
 * of emitted pairs and their distinctness are specified.
 */
module PresenceMapper {
  import opened Text
  import opened DocumentIdentity
  import FrequencyMapper

  /** One record of the presence stream: a term and a document it occurs in. */
  datatype Presence = Presence(term: string, doc: string)

  /** The terms of a sequence of presence records. */
  function Terms(out: seq<Presence>): set<string> {
    set i | 0 <= i < |out| :: out[i].term
  }

  /** No term occurs twice. */
  predicate DistinctTerms(out: seq<Presence>) {
    forall i, j :: 0 <= i < j < |out| ==> out[i].term != out[j].term
  }

  predicate AllOfDoc(out: seq<Presence>, doc: string) {
    forall i :: 0 <= i < |out| ==> out[i].doc == doc
  }

  /** extract_unique_words: the set of words of the lower-cased text. */
  function UniqueWords(text: string): (words: set<string>)
    ensures forall w :: w in words ==> IsWord(w) && FrequencyMapper.NoUpper(w)
  {
    set w | w in FrequencyMapper.ExtractWords(text)
  }

  /** The list comprehension of process_line: one record per word of a set, each once. */
  method Emit(words: set<string>, docId: string) returns (out: seq<Presence>)
    ensures DistinctTerms(out) && Terms(out) == words
    ensures AllOfDoc(out, docId)
  {
    out := [];
    var todo := words;
    while todo != {}
      invariant todo <= words
      invariant Terms(out) == words - todo
      invariant DistinctTerms(out) && AllOfDoc(out, docId)
      decreases todo
    {
      var w :| w in todo;
      TermsAppend(out, Presence(w, docId));
      out := out + [Presence(w, docId)];
      todo := todo - {w};
    }
  }

  lemma TermsAppend(out: seq<Presence>, p: Presence)
    ensures Terms(out + [p]) == Terms(out) + {p.term}
  {
    assert (out + [p])[|out|] == p;
    forall t | t in Terms(out)
      ensures t in Terms(out + [p])
    {
      var i :| 0 <= i < |out| && out[i].term == t;
      assert (out + [p])[i] == out[i];
    }
  }

  /** A sequence without terms is empty. */
  lemma NoTermsNoRecords(out: seq<Presence>)
    ensures Terms(out) == {} ==> out == []
  {
    if out != [] {
      assert out[0].term in Terms(out);
    }
  }

  /** Two duplicate-free sequences with disjoint terms concatenate to a duplicate-free one. */
  lemma DistinctConcat(a: seq<Presence>, b: seq<Presence>)
    requires DistinctTerms(a) && DistinctTerms(b) && Terms(a) !! Terms(b)
    ensures DistinctTerms(a + b) && Terms(a + b) == Terms(a) + Terms(b)
  {
    var ab := a + b;
    forall i, j | 0 <= i < j < |ab|
      ensures ab[i].term != ab[j].term
    {
      if j < |a| {
        assert ab[i] == a[i] && ab[j] == a[j];
      } else if |a| <= i {
        assert ab[i] == b[i - |a|] && ab[j] == b[j - |a|];
      } else {
        assert ab[i].term in Terms(a);
        assert ab[j] == b[j - |a|];
        assert ab[j].term in Terms(b);
      }
    }
    forall t | t in Terms(a) + Terms(b)
      ensures t in Terms(ab)
    {
      if t in Terms(a) {
        var i :| 0 <= i < |a| && a[i].term == t;
        assert ab[i] == a[i];
      } else {
        var i :| 0 <= i < |b| && b[i].term == t;
        assert ab[|a| + i] == b[i];
      }
    }
  }

  /** StatsCollector: the document id of the task and the words it has emitted so far. */
  class StatsCollector {
    const docId: string
    var processedWords: set<string>

    constructor (env: map<string, string>)
      ensures docId == DocumentId(env) && processedWords == {}
    {
      docId := DocumentId(env);
      processedWords := {};
    }

    /** process_line: emit the line's words not seen before, then remember all of them. */
    method ProcessLine(line: string) returns (out: seq<Presence>)
      modifies this`processedWords
      ensures processedWords == old(processedWords) + UniqueWords(line)
      ensures DistinctTerms(out) && Terms(out) == UniqueWords(line) - old(processedWords)
      ensures AllOfDoc(out, docId)
    {
      var words := UniqueWords(line);
      var newWords := words - processedWords;
      processedWords := processedWords + words;
      out := Emit(newWords, docId);
    }
  }

  /** Processing the same line twice: the second call emits nothing. */
  method ProcessLineTwice(env: map<string, string>, line: string) returns (first: seq<Presence>, second: seq<Presence>)
    ensures Terms(first) == UniqueWords(line) && AllOfDoc(first, DocumentId(env))
    ensures second == []
  {
    var collector := new StatsCollector(env);
    first := collector.ProcessLine(line);
    second := collector.ProcessLine(line);
    NoTermsNoRecords(second);
  }

  /** The union of the words of all lines. */
  function WordsOf(lines: seq<string>): set<string> {
    if lines == [] then {} else WordsOf(lines[..|lines| - 1]) + UniqueWords(lines[|lines| - 1])
  }

  /** The words of one more line; a blank line has none, and stripping loses none. */
  lemma WordsOfNext(lines: seq<string>, i: nat)
    requires i < |lines|
    ensures WordsOf(lines[..i + 1]) == WordsOf(lines[..i]) + UniqueWords(Strip(lines[i]))
    ensures UniqueWords([]) == {}
  {
    assert lines[..i + 1][..i] == lines[..i];
    FrequencyMapper.WordsOfStripped(lines[i]);
    assert FrequencyMapper.ExtractWords([]) == [];
  }

  lemma AllOfDocConcat(a: seq<Presence>, b: seq<Presence>, doc: string)
    requires AllOfDoc(a, doc) && AllOfDoc(b, doc)
    ensures AllOfDoc(a + b, doc)
  {
  }

  /** Appending the records of a line's new words keeps the records duplicate-free and covering every word seen. */
  lemma EmittedExtends(out: seq<Presence>, emitted: seq<Presence>, seen: set<string>, words: set<string>, doc: string)
    requires DistinctTerms(out) && Terms(out) == seen && AllOfDoc(out, doc)
    requires DistinctTerms(emitted) && Terms(emitted) == words - seen && AllOfDoc(emitted, doc)
    ensures DistinctTerms(out + emitted) && Terms(out + emitted) == seen + words
    ensures AllOfDoc(out + emitted, doc)
  {
    DistinctConcat(out, emitted);
    AllOfDocConcat(out, emitted, doc);
  }

  /** The main loop over one document: every word of the document is emitted exactly once. */
  method CollectDocument(env: map<string, string>, lines: seq<string>) returns (out: seq<Presence>)
    ensures DistinctTerms(out) && Terms(out) == WordsOf(lines)
    ensures AllOfDoc(out, DocumentId(env))
  {
    var collector := new StatsCollector(env);
    out := [];
    for i := 0 to |lines|
      invariant collector.processedWords == WordsOf(lines[..i])
      invariant Terms(out) == collector.processedWords
      invariant DistinctTerms(out)
      invariant AllOfDoc(out, collector.docId)
    {
      WordsOfNext(lines, i);
      var line := Strip(lines[i]);
      if line != [] {
        ghost var seen := collector.processedWords;
        var emitted := collector.ProcessLine(line);
        EmittedExtends(out, emitted, seen, UniqueWords(line), collector.docId);
        out := out + emitted;
      }
    }
    assert lines[..|lines|] == lines;
  }
}
