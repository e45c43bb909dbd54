# Inverted-index map/reduce job: a Dafny model

This project models the two map/reduce passes that build a search index:

- The **frequency mapper** (`DocumentProcessor`) lower-cases each input line and splits it into maximal runs of word characters. It emits one `(word, doc, 1)` triple per word. The document id is the stem of the input file's name.
- The **term-frequency reducer** (`IndexBuilder`) reads the sorted triples. It folds consecutive triples with the same `(term, doc)` into one `inverted_index` row. Each written row's count is added to that document's length, and the lengths are written to `doc_length` at the end.
- The **presence mapper** (`StatsCollector`) emits each `(word, doc)` pair of a document once. It does this by remembering the words it has already emitted.
- The **corpus-statistics reducer** (`StatsProcessor`) collects the set of documents of every term. It reads the `doc_length` rows back to count the documents and average their lengths. It then writes one `statistics` row per term.

Files:

- `wrappers.dfy`: `Option`.
- `text.dfy` (module `Text`): the string operations the scripts rely on.
  - `str.strip`, `str.split('\t')` and `'\t'.join`.
  - `int()` on a field and the printing of an integer.
  - `str.lower`.
  - The `\b\w+\b` tokeniser, as maximal runs of word characters.
- `docid.dfy` (module `DocumentIdentity`): `_get_document_id`. The environment is a map parameter.
- `mapper1.dfy` (module `FrequencyMapper`): the frequency mapper, as functions. The source is a list comprehension over a `findall`.
- `mapper2.dfy` (module `PresenceMapper`):
  - The presence mapper, as a class `StatsCollector` whose `processedWords` set field is updated by `ProcessLine`.
  - `CollectDocument`, the main loop over one document.
- `reducer1.dfy` (module `TermFrequency`):
  - The specification of the term-frequency reducer as a fold over the records: `Step`, `Flush`, `Feed`.
  - The line parser.
  - A class `IndexBuilder` whose methods are proved against that fold.
  - `BuildIndex`, the main loop.
- `reducer1_properties.dfy` (module `IndexProperties`): what the fold guarantees.
  - Lengths agree with the written rows on any input.
  - When no insert fails, lengths count every record.
  - When equal keys are contiguous, each key is written once with its sum.
  - A stream sorted by key is contiguous.
- `reducer2.dfy` (module `CorpusStats`):
  - The statistics reducer: the pair parser and the fold `Collect`.
  - `CalculateStatistics`, a pure function of the rows read back.
  - A class `StatsProcessor`.
  - `ProcessStatistics`, the main loop.

The Cassandra store is reduced to the rows it accepted. Each reducer class keeps a sequence of the rows written, in write order. An insert that raises is modelled by a set of rows the store refuses, fixed when the object is made. A refused row is skipped and the loop goes on, as the `try`/`except` around each insert does.

Python's truthiness of `current_term` and `current_doc` is modelled by `Present`: the value is set and non-empty. So a line such as `a`, tab, tab, `3` parses to a record with an empty document. That record is grouped like any other, but its group is never written (`IndexProperties.EmptyKeyNeverWritten`).

A document whose file name starts with `.` gets the empty id:
- Its triples reach `inverted_index` never (`EmptyKeyNeverWritten`).
- Its pairs lose their tab to `strip` in the statistics reducer and are skipped (`CorpusStats.EmptyDocIdPairSkipped`).

## Model

| member | source | states |
|---|---|---|
| Text.Strip | app/mapper1.py:41 | The stripped line has no whitespace at either end, is no longer than the line, and is empty exactly when the line is all whitespace |
| Text.StripParts | app/mapper1.py:41 | Every line is leading whitespace, then its stripped form, then trailing whitespace |
| Text.StripTrimmed | app/mapper1.py:41 | Stripping a line that has no whitespace at either end leaves it unchanged |
| Text.StripPadded | app/mapreduce/reducer1.py:135 | Stripping a text with no whitespace at its ends, padded by whitespace, gives that text back |
| Text.Split | app/mapreduce/reducer1.py:140 | A split has at least one field and no field contains the separator |
| Text.JoinSplit | app/mapreduce/reducer1.py:140 | Joining the fields of a split with the separator gives the text back |
| Text.SplitJoin | app/mapreduce/reducer1.py:140 | Splitting a join of separator-free fields gives the fields back |
| Text.ParseInt | app/mapreduce/reducer1.py:141 | `int(count)` succeeds exactly on an optionally signed decimal literal; a `-` sign gives a value at most 0, otherwise the value is at least 0 |
| Text.ParseShowInt | app/mapreduce/reducer1.py:141 | Reading back the decimal text of any integer gives that integer; the text ends in a digit |
| Text.Lower | app/mapper1.py:30 | Lower-casing keeps the length, leaves no capital letter and keeps whether each character is a word character |
| Text.RunLength | app/mapper1.py:19 | The length of the longest prefix made of word characters: all of it are word characters and the next one is not |
| Text.Tokens | app/mapper1.py:19 | Every match of the word pattern is a non-empty run of word characters |
| Text.TokensSplit | app/mapper1.py:19 | No match spans a non-word character: the matches of `a + [c] + b` are those of `a` then those of `b` |
| Text.TokensOfJoined | app/mapper1.py:19 | Words separated by a non-word character are matched back as exactly those words, in order, repeats kept |
| Text.TokensPadded | app/mapper1.py:19 | Non-word characters around a text add no match |
| DocumentIdentity.Basename | app/mapper1.py:26 | The basename has no `/`, is a suffix of the path and follows the path's last `/` |
| DocumentIdentity.Stem | app/mapper1.py:26 | `split('.')[0]` has no `.`, is a prefix of the name and stops at the name's first `.` |
| DocumentIdentity.DocumentId | app/mapper1.py:22-27 | The id is the stem of the basename of `mapreduce_map_input_file` when set, else of `map_input_file` when set, else `unknown_doc`; it has no `/` and no `.` |
| DocumentIdentity.DocumentIdOfInputFile | app/mapper1.py:22-27 | A task reading `dir/stem.ext` works under the id `stem` |
| DocumentIdentity.HiddenFileHasEmptyId | app/mapper1.py:26 | A file named `.hidden` gives the empty id |
| DocumentIdentity.BasenameOfPath | app/mapper1.py:26 | The basename of `dir/file` is `file` when `file` has no `/` |
| DocumentIdentity.StemOfName | app/mapper1.py:26 | The stem of `stem.ext` is `stem` when `stem` has no `.` |
| FrequencyMapper.ExtractWords | app/mapper1.py:29-30 | Every extracted word is a non-empty run of word characters with no capital letter |
| FrequencyMapper.ProcessLine | app/mapper1.py:32-34 | One triple per extracted word, in the same order, each with that word, the task's document id and count 1 |
| FrequencyMapper.MapLine | app/mapper1.py:41-45 | What the main loop emits for one raw line: nothing for a blank line, else `process_line` of the stripped line. `BlankLineEmitsNothing` and `StripKeepsOutput` describe it |
| FrequencyMapper.FormatOccurrence | app/mapper1.py:46 | The printed line `word, tab, doc, tab, count`. `TermFrequency.ParseFormatted` reads it back as the triple it was printed from |
| FrequencyMapper.CountsSumToWords | app/mapper1.py:34 | The counts a line emits add up to its number of words |
| FrequencyMapper.RepeatedWordsKept | app/mapper1.py:33-34 | `the cat the` gives the words `the`, `cat`, `the` and three triples: repeats are kept |
| FrequencyMapper.BlankLineEmitsNothing | app/mapper1.py:41-43 | A line of only whitespace emits nothing |
| FrequencyMapper.WordsOfStripped | app/mapper1.py:41 | Stripping a line does not change its words |
| FrequencyMapper.StripKeepsOutput | app/mapper1.py:41-45 | The main loop's strip-and-skip emits exactly what `process_line` emits on the raw line |
| PresenceMapper.UniqueWords | app/mapreduce/mapper2.py:30-31 | The word set of a line holds only non-empty runs of word characters without capitals |
| PresenceMapper.Emit | app/mapreduce/mapper2.py:37 | The pairs built from a word set have no repeated word, exactly the words of the set, and all the same document id |
| PresenceMapper.StatsCollector.constructor | app/mapreduce/mapper2.py:18-21 | A new collector has the task's document id and no processed words |
| PresenceMapper.StatsCollector.ProcessLine | app/mapreduce/mapper2.py:33-37 | The pairs emitted are exactly the line's words not processed before, each once, with the collector's id; afterwards the processed words are the old ones plus the line's |
| PresenceMapper.ProcessLineTwice | app/mapreduce/mapper2.py:35-36 | Processing the same line a second time emits nothing |
| PresenceMapper.CollectDocument | app/mapreduce/mapper2.py:43-49 | Over a whole document every emitted word is distinct, the emitted words are the union of all lines' words, and every pair carries the document's id |
| TermFrequency.Step | app/mapreduce/reducer1.py:93-100 | `process_term` on the builder state. `IndexProperties.SameKeyAccumulates` and `IndexProperties.NewKeyClosesGroup` describe both branches |
| TermFrequency.Flush | app/mapreduce/reducer1.py:102-111 | `save_current_term` on the builder state. `IndexProperties.FlushEffect` describes the skipped and the written cases |
| TermFrequency.Feed | app/mapreduce/reducer1.py:134-144 | `process_term` applied to each record in order. `IndexProperties.FeedHoldsLastKey`, `LengthsMatchWrittenRows`, `DocLengthsCountRecords` and `GroupsWrittenOnce` describe the result |
| TermFrequency.ParseLine | app/mapreduce/reducer1.py:135-141 | One line of the main loop: strip it, skip it when blank, split it on tabs into exactly three fields and read the third as an integer. `IndexProperties.LineOfFields` and `TermFrequency.ParseFormatted` describe it |
| TermFrequency.Records | app/mapreduce/reducer1.py:134-144 | The records handed to `process_term`, in input order, with every line that does not parse dropped. `IndexProperties.RecordsAppend`, `RecordsConcat` and `MalformedLineSkipped` describe it |
| TermFrequency.IndexBuilder.constructor | app/mapreduce/reducer1.py:21-27 | A new builder has no open group, count 0, no lengths and nothing written |
| TermFrequency.IndexBuilder.ProcessTerm | app/mapreduce/reducer1.py:93-100 | The new state is one `Step` of the fold on the old state; `doc_length` is untouched |
| TermFrequency.IndexBuilder.SaveCurrentTerm | app/mapreduce/reducer1.py:102-111 | The new state is `Flush` of the old state; `doc_length` is untouched |
| TermFrequency.IndexBuilder.SaveDocLengths | app/mapreduce/reducer1.py:114-124 | The rows appended are one per document, each at most once, exactly the accepted rows of `doc_lengths`; earlier rows are kept |
| TermFrequency.BuildIndex | app/mapreduce/reducer1.py:126-147 | The `inverted_index` rows written are those of the fold over the parsed lines plus the final flush; the `doc_length` rows are one per document of the final lengths, minus refused inserts |
| TermFrequency.ParseFormatted | app/mapreduce/reducer1.py:140-141 | A line printed by the frequency mapper is read back as the triple it was printed from |
| IndexProperties.SameKeyAccumulates | app/mapreduce/reducer1.py:94-95 | A record with the open group's key adds its count and writes nothing |
| IndexProperties.NewKeyClosesGroup | app/mapreduce/reducer1.py:96-100 | A record with another key first closes the open group, then the group is exactly that record |
| IndexProperties.FlushEffect | app/mapreduce/reducer1.py:102-111 | A flush writes nothing when the term or the document is unset or empty, or when the insert fails; otherwise it writes the group's row and adds its count to that document's length only |
| IndexProperties.FeedHoldsLastKey | app/mapreduce/reducer1.py:96-100 | After a non-empty stream the open group has the key of the last record |
| IndexProperties.LineOfFields | app/mapreduce/reducer1.py:134-144 | A non-blank line without surrounding whitespace gives a record exactly when it has three tab fields and the third is an integer literal; otherwise it is skipped |
| IndexProperties.RecordsAppend | app/mapreduce/reducer1.py:134-144 | A line that does not parse leaves the records, and so the builder's state, unchanged |
| IndexProperties.MalformedLineSkipped | app/mapreduce/reducer1.py:139-144 | A line that does not parse, wherever it sits, leaves the records exactly as if it were absent, so it neither breaks the group around it nor adds to it |
| IndexProperties.RecordsConcat | app/mapreduce/reducer1.py:134-144 | The records of two runs of lines are the records of the first followed by those of the second |
| IndexProperties.EmptyKeyNeverWritten | app/mapreduce/reducer1.py:103 | On any input, every written row has a non-empty term and document |
| IndexProperties.LengthsMatchWrittenRows | app/mapreduce/reducer1.py:102-111 | On any input, sorted or not, and for any set of refused rows, exactly the documents with a written row have a length, and each length is the sum of the freq of that document's rows |
| IndexProperties.DocLengthsCountRecords | app/mapreduce/reducer1.py:93-111 | With no failed insert and no empty key, each document's final length is the sum of all counts read for it |
| IndexProperties.NewKeyIsFresh | app/mapreduce/reducer1.py:96 | In a contiguous stream, a record whose key differs from its predecessor's has a key not seen before |
| IndexProperties.GroupsWrittenOnce | app/mapreduce/reducer1.py:93-111 | With equal keys contiguous, no empty key and no failed insert, the final rows have one row per key read, no key twice, and each freq is the sum of that key's counts |
| IndexProperties.SortedIsContiguous | app/mapreduce/reducer1.py:94 | A stream sorted by (term, doc) has its equal keys contiguous |
| IndexProperties.StrLeAntisymmetric | app/mapreduce/reducer1.py:94 | Two strings each at most the other in code-point order are equal |
| IndexProperties.RepeatedTermExample | app/mapreduce/reducer1.py:93-100 | `the/docA/2`, `the/docA/3`, `cat/docA/1` write `(the, docA, 5)` and `(cat, docA, 1)`, and docA's length is 6 |
| IndexProperties.TwoDocumentsExample | app/mapreduce/reducer1.py:93-111 | `the/docA/1` then `the/docB/4` write two rows, with docA length 1 and docB length 4 |
| CorpusStats.ParsePair | app/mapreduce/reducer2.py:122-127 | One line of the main loop: strip it, skip it when blank, split it on tabs into exactly two fields. `CorpusStats.PairLineOfFields`, `ParseFormattedPair` and `EmptyDocIdPairSkipped` describe it |
| CorpusStats.Pairs | app/mapreduce/reducer2.py:121-131 | The pairs handed to `process_term_doc_pair`, in input order, with every line that does not parse dropped. `CorpusStats.PairsAppend` describes it |
| CorpusStats.FormatPresence | app/mapreduce/mapper2.py:49 | The printed line `word, tab, doc`. `CorpusStats.ParseFormattedPair` reads it back as that pair |
| CorpusStats.AddPair | app/mapreduce/reducer2.py:84-86 | `process_term_doc_pair` on the collected state. `CorpusStats.AddPairEffect` describes it |
| CorpusStats.Collect | app/mapreduce/reducer2.py:121-131 | `process_term_doc_pair` applied to each pair in order. `CorpusStats.CollectMatchesPairs` and `CollectIgnoresOrderAndRepeats` describe the result |
| CorpusStats.LengthTable | app/mapreduce/reducer2.py:91 | The dictionary comprehension over the rows read back, where a later row for a document overrides an earlier one. `CorpusStats.DedupIsTable`, `DedupSize` and `StatisticsOfSameTable` describe it |
| CorpusStats.Dedup | app/mapreduce/reducer2.py:91-93 | The entries of that dictionary as rows. `CorpusStats.DedupIsTable` shows each document appears once, with its last length, and `DedupSize` that there are as many entries as the dictionary has |
| CorpusStats.PairLineOfFields | app/mapreduce/reducer2.py:121-131 | A non-blank line without surrounding whitespace gives a pair exactly when it has two tab fields |
| CorpusStats.PairsAppend | app/mapreduce/reducer2.py:121-131 | A line that does not parse leaves the pairs, and so the state, unchanged |
| CorpusStats.ParseFormattedPair | app/mapreduce/reducer2.py:127 | A line printed by the presence mapper with a non-empty document id is read back as that pair |
| CorpusStats.EmptyDocIdPairSkipped | app/mapreduce/reducer2.py:122-127 | A pair printed with an empty document id loses its tab to strip and is skipped |
| CorpusStats.AddPairEffect | app/mapreduce/reducer2.py:84-86 | A pair adds its document to its term's set and to the corpus and changes nothing else; the same pair again changes nothing |
| CorpusStats.StatsProcessor.constructor | app/mapreduce/reducer2.py:21-25 | A new processor has no terms, no documents and nothing written |
| CorpusStats.StatsProcessor.ProcessTermDocPair | app/mapreduce/reducer2.py:84-86 | The new state is `AddPair` of the old state |
| CorpusStats.CollectMatchesPairs | app/mapreduce/reducer2.py:84-86 | After any pairs, the terms are exactly those read, each with exactly the documents paired with it, and the corpus is every document read |
| CorpusStats.CollectIgnoresOrderAndRepeats | app/mapreduce/reducer2.py:85 | Two streams with the same pairs, in any order and with any repeats, give the same state, so the same df |
| CorpusStats.DedupIsTable | app/mapreduce/reducer2.py:90-91 | The dictionary built from the rows read back has each document once, with the length of its last row |
| CorpusStats.DedupSize | app/mapreduce/reducer2.py:91-94 | The number of dictionary entries is the size of the dictionary |
| CorpusStats.CalculateStatistics | app/mapreduce/reducer2.py:88-98 | The document count is the size of the dictionary, and it is zero exactly when no row was read. The average is 0 when the count is 0; otherwise average times count equals the total length. `CorpusStats.TotalOfEntries` fixes the total for all rows |
| CorpusStats.StatisticsOfDistinctRows | app/mapreduce/reducer2.py:90-94 | Rows with distinct documents, as in the `doc_length` table, give the number of rows as count and the sum of their lengths as total |
| CorpusStats.TotalOfEntries | app/mapreduce/reducer2.py:91-93 | The total is `sum(doc_lengths.values())`: the sum of the lengths of the dictionary's entries, listed once each in any order |
| CorpusStats.StatisticsOfSameTable | app/mapreduce/reducer2.py:88-98 | Count, total and average depend on the dictionary alone: rows giving the same dictionary, in any order and with any overridden rows, give the same statistics |
| CorpusStats.StatsRows | app/mapreduce/reducer2.py:102-108 | One statistics row per term of `term_documents`, with df the size of its document set and the common n and average. `CorpusStats.StatsRowsOfPairs` describes it in terms of the pairs read |
| CorpusStats.StatsProcessor.SaveStatistics | app/mapreduce/reducer2.py:100-111 | The rows appended are one per term, each at most once, exactly the accepted rows with df the size of its document set and the given n and average; earlier rows are kept |
| CorpusStats.ProcessStatistics | app/mapreduce/reducer2.py:113-134 | The statistics written are one per term of the parsed pairs, none twice, with n and average from the rows read back, minus refused inserts |
| CorpusStats.StatsRowsOfPairs | app/mapreduce/reducer2.py:102-108 | A row is to be written exactly when its term was read, its df is the number of distinct documents paired with it, and its n and average are the common ones |
| CorpusStats.CorpusSizeComesFromStore | app/mapreduce/reducer2.py:133-134 | n comes from the stored rows, not from the documents seen: with nothing stored, a term seen in one document is written with n = 0 and average 0 |
| CorpusStats.TwoDocumentExample | app/mapreduce/reducer2.py:84-108 | `cat/doc1`, `dog/doc1`, `cat/doc2` with stored lengths 10 and 20 give `cat` (df 2) and `dog` (df 1), both with n = 2 and average 15 |

## Left out

- Connecting to Cassandra (socket probe, localhost fallback, retry), creating the keyspace and tables, logging, `traceback`, `sys.exit`, reading standard input and printing: these are I/O. The lines read are a `seq<string>` parameter. The rows written are the classes' logs. The environment of `_get_document_id` is a map parameter.
- Cassandra's behaviour on a repeated primary key (upsert) is not modelled. The logs record every accepted write.
- The shuffle and sort between the passes are not modelled. `IndexProperties.GroupsWrittenOnce` takes contiguous equal keys as a precondition, and `IndexProperties.SortedIsContiguous` shows a sorted stream meets it.
- `_get_document_id` in app/mapreduce/mapper2.py:23-28 is the same code as in app/mapper1.py:22-27. It is modelled once, as `DocumentIdentity.DocumentId`.
- Text.ParseInt: does not accept the surrounding whitespace or the `_` digit separators that Python's `int()` accepts. Only an optional sign and ASCII digits are read. Negative counts are accepted, as in the source.
- Text.Strip: strips the ASCII whitespace characters and the separators U+001C to U+001F. The other Unicode whitespace that `str.strip` removes is not modelled.
- Text.Lower: lower-cases ASCII letters only. Full Unicode case mapping is not modelled.
- Text.Tokens: word characters are ASCII letters, digits and `_`. Unicode `\w` is not modelled.
- PresenceMapper.StatsCollector.ProcessLine: the order in which a line's new words are emitted follows set iteration and is not modelled. The contract gives the set of pairs and that none repeats.
- TermFrequency.IndexBuilder.SaveDocLengths: the order of the rows follows dict iteration and is not modelled. The contract gives the set of rows and that no document repeats.
- TermFrequency.IndexBuilder: whether an insert fails depends only on the row's content, through the refused set fixed when the builder is made. A store that refuses a row once and accepts the same row later, for instance a group flushed twice in an unsorted stream, is not modelled.
- CorpusStats.StatsProcessor.SaveStatistics: the order of the rows follows dict iteration and is not modelled. The contract gives the set of rows and that no term repeats. Failed inserts are given by row content, so a row the store refuses is refused wherever it comes. The attempted inserts are not logged, only the accepted ones.
- CorpusStats.CalculateStatistics: the average is an exact rational (`real`), not a floating-point number, so rounding is not modelled. The `total_docs` set is collected (`Collected.allDocs`) but, as in the source, never used for `n`.
- The SELECT of `doc_length` rows is a parameter of `CalculateStatistics`. Nothing ties it to what the term-frequency reducer wrote, because the two passes run separately.
