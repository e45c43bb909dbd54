/**
 * The frequency mapper: every word of a line becomes one (word, doc, 1)
 * triple, in the order the words occur and with duplicates kept.  The
 * reducer in TermFrequency sums these triples per (word, doc).
 */
module FrequencyMapper {
  import opened Text

  /** One record of the frequency stream: term, document id and count. */
  datatype Occurrence = Occurrence(term: string, doc: string, count: int)

  predicate NoUpper(s: string) {
    forall i :: 0 <= i < |s| ==> !('A' <= s[i] <= 'Z')
  }

  /** extract_words: the maximal runs of word characters of the lower-cased text. */
  function ExtractWords(text: string): (words: seq<string>)
    ensures forall k :: 0 <= k < |words| ==> IsWord(words[k]) && NoUpper(words[k])
  {
    var lowered := Lower(text);
    TokensKeepNoUpper(lowered);
    Tokens(lowered)
  }

  /** Tokens are runs of the text's own characters, so they inherit having no capitals. */
  lemma {:induction false} TokensKeepNoUpper(s: string)
    requires NoUpper(s)
    ensures forall k :: 0 <= k < |Tokens(s)| ==> NoUpper(Tokens(s)[k])
    decreases |s|
  {
    if s != [] {
      if !IsWordChar(s[0]) {
        TokensKeepNoUpper(s[1..]);
      } else {
        var n := RunLength(s);
        TokensKeepNoUpper(s[n..]);
        assert Tokens(s) == [s[..n]] + Tokens(s[n..]);
      }
    }
  }

  /** process_line: one triple per extracted word, carrying the task's document id and count 1. */
  function ProcessLine(docId: string, line: string): (out: seq<Occurrence>)
    ensures |out| == |ExtractWords(line)|
    ensures forall i :: 0 <= i < |out| ==> out[i].term == ExtractWords(line)[i]
    ensures forall i :: 0 <= i < |out| ==> out[i].doc == docId && out[i].count == 1
  {
    var words := ExtractWords(line);
    seq(|words|, i requires 0 <= i < |words| => Occurrence(words[i], docId, 1))
  }

  /** Text without capitals is its own lower-case form. */
  lemma LowerOfNoUpper(s: string)
    requires NoUpper(s)
    ensures Lower(s) == s
  {
  }

  /** "the cat the" gives the, cat, the: one triple per word, in order, duplicates kept. */
  lemma RepeatedWordsKept(docId: string)
    ensures |ProcessLine(docId, "the cat the")| == 3
    ensures ExtractWords("the cat the") == ["the", "cat", "the"]
  {
    var words := ["the", "cat", "the"];
    assert words[1..] == ["cat", "the"] && words[1..][1..] == ["the"];
    assert Join(words, ' ') == "the cat the";
    LowerOfNoUpper("the cat the");
    TokensOfJoined(words, ' ');
  }

  /** The sum of the counts of a sequence of triples. */
  function TotalCount(out: seq<Occurrence>): int {
    if out == [] then 0 else TotalCount(out[..|out| - 1]) + out[|out| - 1].count
  }

  lemma {:induction false} TotalCountOfOnes(out: seq<Occurrence>)
    requires forall i :: 0 <= i < |out| ==> out[i].count == 1
    ensures TotalCount(out) == |out|
  {
    if out != [] {
      TotalCountOfOnes(out[..|out| - 1]);
    }
  }

  /** The counts a line emits add up to the number of words in it. */
  lemma CountsSumToWords(docId: string, line: string)
    ensures TotalCount(ProcessLine(docId, line)) == |ExtractWords(line)|
  {
    TotalCountOfOnes(ProcessLine(docId, line));
  }

  /** The main loop on one input line: strip it, skip it when blank, otherwise process it. */
  function MapLine(docId: string, line: string): seq<Occurrence> {
    var s := Strip(line);
    if s == [] then [] else ProcessLine(docId, s)
  }

  /** A line of only whitespace emits nothing. */
  lemma BlankLineEmitsNothing(docId: string, line: string)
    requires AllSpace(line)
    ensures MapLine(docId, line) == []
  {
  }

  lemma SpacesHaveNoWordChar(s: string)
    requires AllSpace(s)
    ensures NoWordChar(Lower(s))
  {
  }

  /** Whitespace never belongs to a word, so stripping a line keeps its words. */
  lemma WordsOfStripped(line: string)
    ensures ExtractWords(Strip(line)) == ExtractWords(line)
  {
    var s := Strip(line);
    var before, after := StripParts(line);
    LowerConcat(before + s, after);
    LowerConcat(before, s);
    SpacesHaveNoWordChar(before);
    SpacesHaveNoWordChar(after);
    TokensPadded(Lower(before), Lower(s), Lower(after));
  }

  /** Stripping the line first changes nothing the mapper emits. */
  lemma StripKeepsOutput(docId: string, line: string)
    ensures MapLine(docId, line) == ProcessLine(docId, line)
  {
    WordsOfStripped(line);
    if Strip(line) == [] {
      assert ExtractWords([]) == [];
    }
  }

  /** The line the mapper prints for a triple: its three fields separated by tabs. */
  function FormatOccurrence(o: Occurrence): string {
    o.term + "\t" + o.doc + "\t" + ShowInt(o.count)
  }
}
