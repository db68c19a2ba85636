# Tagging "that" with TreeTagger: a verified model of the scripts

The repository trains and evaluates TreeTagger on sentences where "that" plays five
roles: adverb, conjunction after a noun, conjunction after a verb, singular determiner
and relative pronoun. Its Python scripts do four kinds of bookkeeping around the
tagger, the NLTK tokenizer, tagger and lemmatizer, pandas and matplotlib. This
project models that bookkeeping in Dafny and proves what the scripts promise about it:

- **Corpus reformatting** (`format_file.dfy`, module `FormatFile`). `format_file.py`
  turns `token tag token tag ...` lines into `token<TAB>tag` lines, with a blank line
  after each sentence. It rejects lines with an odd number of fields. The model proves
  that reading the output back gives exactly the fields of the accepted lines.
- **Tag mapping and lexicons**:
  - `tagging.dfy` (`Tagging`) and `tagging_output.dfy` (`TaggingOutput`) model
    `Tagging.py`. They cover the Penn-to-CLAWS table, the "that" override, the
    per-file tagging loop, the shared `word -> {(tag, lemma)}` lexicon held in a
    `Lexicon` class whose methods update it in place, and the `openCLs.txt`,
    `lexicon.txt` and `train.txt` writers.
  - `wordnet_pos.dfy` (`WordNetPos`) holds the prefix chain of `get_lemma` that both
    `Tagging.py` and `lexicon.py` use. The two differ only in the verb prefix.
  - `lexicon.dfy` (`LexiconBuilder`) models `lexicon.py`.
  - `open_cls.dfy` (`OpenClasses`) models `openCls.py`.
- **Evaluation**. The three evaluation scripts share one model:
  - `evaluation.dfy` (`Evaluation`) covers the "that" search, per-file scoring,
    confusion rows, accuracy and the results file.
  - `evaluation_run.dfy` (`EvaluationRun`) covers the loop over the file
    configurations and the completion of the confusion matrix.
  - Each script then instantiates that model with its own labels, data folder,
    tag extraction and output prefix: `evaluation_penn.dfy`, `evaluation_bnc.dfy`,
    `our_model_evaluation.dfy`.
- **Text statistics**:
  - `text_statistics.dfy` (`TextStatistics`) is the sentence-level analysis shared by
    both statistics scripts.
  - `word_statistics.dfy` (`WordStatistics`) is the word-level analysis of
    `statical_analysis.py`: cleaning, lexical diversity, `Counter.most_common` and
    the report.
  - `statical_analysis.dfy` and `statical-analysis.dfy` are the two scripts.

Supporting modules:

- `text.dfy` (`Text`): the Python string operations used: `strip`, `split()`,
  `split(c)`, `join`, ASCII `lower`, `replace`, `startswith`, `os.path.basename`,
  `os.path.join`.
- `order.dfy` (`Order`): Python's string and tuple ordering, `sorted` of a set, stable
  `sorted(key=...)`, set iteration and occurrence counting.
- `wrappers.dfy` (`Wrappers`): `Option`, and the `RunStatus` of a run over input files.

How the outside world enters the model:

- A file is the sequence of its lines, or its text. The existing files are a map
  from path to content.
- In `format_file.py`, `Tagging.py` and `lexicon.py`, opening a missing file (which
  raises in Python) is a `RunStatus.MissingInput` result, together with what was done
  before it.
- TreeTagger, NLTK's `word_tokenize` + `pos_tag`, the WordNet lemmatizer and the
  stop-word list are parameters.
- The scripts' loops that update variables are methods with loop invariants.
  - Most are proved equal to a recursive function of their inputs, and the properties
    are lemmas about that function: `ScoreFile`, `WriteResults`, `EvaluateFiles`,
    `WritePairs`, `TransformFile`, `ReadFile`, `WriteBlock`, `WriteLexiconFile`,
    `ExtractUniqueTags`, `WriteTags`, `ProcessSentence`, `ProcessFile`,
    `AnalyzeSentences` and `AnalyzeWords`.
  - The loops over input files that stop at the first missing one (`ProcessAllFiles`,
    `CreateLexicon`, `TagAllFiles`) are proved equal to such a function up to where
    they stop.
  - `AllPredTags` is proved equal to a set comprehension, and `FillRows` is specified
    key by key.
  - `SortSet`, `Enumerate`, `WriteWordLines`, `FurtherAnalysis` and `EvaluateModels`
    are specified by properties only: order and membership, a condition on each
    index, or, for the model loop, a condition on each pass and when the loop stops.

## Model

| member | source | states |
|---|---|---|
| FormatFile.OutputNameOfTxt | format_file.py:5-6 | the output name of `dir/stem.txt` is `os.path.join(output_dir, stem + "_formatted.txt")` |
| FormatFile.OutputNameInDir | format_file.py:5-6 | with an output directory ending in '/', as the script's does, the output path is that directory followed by `stem_formatted.txt` |
| FormatFile.Fields | format_file.py:11 | every field of `line.strip().split()` is non-empty and free of whitespace |
| FormatFile.PairLinesAt | format_file.py:21-24 | pair line k is field 2k, a tab, then field 2k+1 |
| FormatFile.WritePairs | format_file.py:21-24 | the stride-2 loop writes exactly the pair lines of the fields |
| FormatFile.TransformOne | format_file.py:11-26 | one input line writes its pair lines and a blank line when accepted; nothing, and a rejection when the field count is odd, otherwise |
| FormatFile.TransformFile | format_file.py:8-26 | the line loop writes the concatenated output of every line and reports every odd-length line, in order |
| FormatFile.TransformAll | format_file.py:9-26 | the output is empty or ends with the blank line closing a sentence |
| FormatFile.SkippedLineWritesNothing | format_file.py:12-18 | a line with no fields, or with an odd number of them, adds nothing to the output |
| FormatFile.AcceptedLineWritesPairs | format_file.py:21-26 | a line with 2k fields appends exactly k `token<TAB>tag` lines in order, then one blank line, and leaves earlier output unchanged |
| FormatFile.ReadBackTransform | format_file.py:11-26 | round trip: splitting each non-blank output line at the tab and closing a sentence at each blank line gives exactly the field lists of the accepted input lines |
| FormatFile.ProcessAllFiles | format_file.py:31-36 | every listed file is transformed in order; the run completes iff every input exists, and otherwise stops at the first missing one with the earlier outputs written |
| FormatFile.WrittenFilesLast | format_file.py:35-36 | each output file holds the transformation of the last input mapped to that name |
| WordNetPos.ChoosePos | Tagging.py:19-34 | verb iff the tag starts with the verb prefix; adjective iff not that and it starts with JJ; adverb iff the first matching prefix is RB or, after PRP and DT/WDT fail, IN; noun otherwise |
| WordNetPos.VerbPrefixesDiffer | lexicon.py:16-31 | lexicon.py treats the Penn tag VBD as a verb, and Tagging.py, which tests "VV", treats it as a noun |
| Tagging.MapTagIdempotent | Tagging.py:37-79 | mapping a mapped tag again changes nothing |
| Tagging.TableInjective | Tagging.py:37-79 | no two listed Penn tags share a CLAWS-like tag |
| Tagging.TableTagsVerbOrNoun | Tagging.py:37-79 | every value of the table is lemmatized as a verb exactly when it starts with "VV", and as a noun otherwise; the mapped JJ and RB tags never reach the adjective and adverb branches |
| Tagging.OverrideTagsVerbOrNoun | Tagging.py:129-133 | the five override tags RA, CST, CJT, WPR and DD1 are lemmatized as a verb only when they start with "VV", which none does, and as nouns otherwise |
| Tagging.TagTokensAt | Tagging.py:97-103 | the i-th token of a sentence is its i-th tagged word; its tag is the file's override tag when the word lower-cases to "that" and `map_tag` of the tagger's tag otherwise, and its lemma is `get_lemma` of the word under that tag |
| Tagging.FileThatTags | Tagging.py:94-102 | across a file, every token that lower-cases to "that" carries the override tag, and every other token carries `map_tag` of a tag the tagger gave that word in one of the sentences |
| Tagging.AddTokensExact | Tagging.py:108-111 | after adding tokens, a word is a lexicon key iff it was one or occurs among them, and its pairs are the old ones plus the (tag, lemma) pairs the tokens give it |
| Tagging.ProcessKeepsPairs | Tagging.py:108-111 | `process_file` only grows the lexicon: every old pair of every old word stays |
| Tagging.ProcessRecordsTokens | Tagging.py:104-111 | afterwards every processed token's (tag, lemma) pair is in the lexicon under its word |
| Tagging.AddWords | Tagging.py:108-111 | the key order after adding tokens has no repeats and lists exactly the old keys and the new words |
| Tagging.Lexicon.Add | Tagging.py:108-111 | adding one token updates the lexicon in place: its pair joins the word's set, and a new word is appended to the key order |
| Tagging.ProcessSentence | Tagging.py:95-111 | the loop over one sentence's tagged words writes one `word<TAB>tag` line per token, collects their tags and adds them to the lexicon |
| Tagging.ProcessFile | Tagging.py:87-117 | `process_file` writes the newline-joined lines of every non-blank line's tokens, each sentence closed by an empty entry; it returns the set of tags used, and the lexicon gains every token |
| Tagging.ReturnedTagsAreWritten | Tagging.py:105-106 | the tag set `process_file` returns is exactly the set of tags its output lines carry |
| Tagging.FileLinesCount | Tagging.py:105-113 | the output has one line per token plus one empty line per sentence |
| Tagging.BlankLineAddsNothing | Tagging.py:90 | a blank input line contributes no sentence |
| TaggingOutput.RunJob | Tagging.py:138-140 | one job runs `process_file` on its input path and writes its output path |
| TaggingOutput.TagAllFiles | Tagging.py:137-141 | the main loop tags every job in order; all tags and the shared lexicon accumulate; the run completes iff every input exists, and otherwise stops at the first missing one |
| TaggingOutput.OutputsLast | Tagging.py:137-141 | each output path holds the text of the last job writing to it |
| TaggingOutput.DistinctOutputs | Tagging.py:128-134 | the five jobs write five different output paths |
| TaggingOutput.TrainTextLength | Tagging.py:160-167 | train.txt is as long as all outputs plus one newline each |
| TaggingOutput.WriteOpenCls | Tagging.py:144-146 | openCLs.txt holds every tag once, in ascending order, space-separated |
| TaggingOutput.OpenClsReadBack | Tagging.py:146 | splitting openCLs.txt on whitespace gives the sorted tags back |
| TaggingOutput.SortedPairs | Tagging.py:154 | a word's pair set sorted: ascending tuples, each pair once |
| TaggingOutput.WriteLexicon | Tagging.py:151-157 | lexicon.txt has one line per lexicon word, the words in stable order of their lower-cased form (words with the same lower-cased form stay in the order they entered the lexicon), each line the word and its sorted pairs, then the closing `.<TAB>SENT<TAB>.` line |
| TaggingOutput.WriteWordLines | Tagging.py:153-156 | the word loop writes, for each word, its sorted pairs as one tab-joined line |
| TaggingOutput.LexiconLineFields | Tagging.py:155-156 | splitting a lexicon line at tabs gives the word, then the tag and lemma of each pair |
| TaggingOutput.LowerBeforeStrictOrder | Tagging.py:153 | the sort key `x.lower()` compared with `<` is a strict order, so the stable sort is well defined |
| TaggingOutput.LowerBeforeStrictWeakOrder | Tagging.py:153 | words with equal lower-cased forms tie under the key as equal keys do: whenever a comes before c, any b comes after a or before c |
| LexiconBuilder.LineEntryFields | lexicon.py:45-54 | a line yields an entry iff it has at least two fields; the key is the first field, and the entry splits into the second field and the lemma's words, so extra fields are ignored |
| LexiconBuilder.AddEntryValid | lexicon.py:57-59 | adding an entry keeps the dictionary well formed, adds its token as a key and adds the entry to that key's set only |
| LexiconBuilder.AddParsedSpec | lexicon.py:43-59 | after the lines, the keys are the old ones plus the first fields of the accepted lines, and each key's set is the old one plus the entries recorded for it |
| LexiconBuilder.ParsedKeysAreFields | lexicon.py:45-49 | every key is a single non-empty field without whitespace |
| LexiconBuilder.Record | lexicon.py:57-59 | the dictionary update of one accepted line |
| LexiconBuilder.ReadFile | lexicon.py:42-59 | the line loop over one file adds every accepted line's entry in order |
| LexiconBuilder.CreateLexicon | lexicon.py:37-61 | every line of every file in order; the run completes iff every file exists, and then gives the dictionary of all accepted lines; otherwise it stops at the first missing file, every earlier file having been read, with the dictionary of their accepted lines |
| LexiconBuilder.AddFilesSpec | lexicon.py:37-61 | the dictionary built from any files is well formed and keyed by single fields |
| LexiconBuilder.WriteLexiconFile | lexicon.py:64-68 | one `token entry` line per entry of each key, the keys in insertion order; each key's entries are visited once each; the line count is the sum of the set sizes |
| LexiconBuilder.WriteKey | lexicon.py:66-68 | one pass of the key loop writes the key's block after the earlier ones |
| LexiconBuilder.WriteBlock | lexicon.py:67-68 | a key's block: one `token entry` line per visited entry |
| LexiconBuilder.BlockLines | lexicon.py:67-68 | a block has one line per entry visited |
| OpenClasses.ExtractUniqueTags | openCls.py:1-16 | the tag set is the set of second fields of three-field lines; it is written in strictly ascending order, one newline-terminated tag per line, each tag once |
| OpenClasses.WriteTags | openCls.py:15-16 | each tag is written followed by a newline |
| OpenClasses.UniqueTagsAreFields | openCls.py:7-10 | every tag collected is a single non-empty field |
| OpenClasses.LineTagOfWritten | openCls.py:7-9 | a `key entry` line written by lexicon.py yields the tag of the entry |
| OpenClasses.EntryTagOf | openCls.py:7-9 | an entry `tag lemma` has a tag exactly when the lemma is one word |
| OpenClasses.LexiconFileTags | openCls.py:5-10 | read from the file lexicon.py writes, the tags collected are exactly the tags of the entries whose lemma is one word, whatever order each set was visited in |
| Evaluation.FirstThat | evaluation_penn.py:58-60 | the position of the first tagger line whose first tab field lower-cases to "that" and that has a second field; none iff there is no such line |
| Evaluation.ThatTagIsFirst | evaluation_penn.py:57-63 | the early-return scan of `get_that_tag` returns the extraction of the first "that" line's second field, and None when there is none |
| Evaluation.ThatTagFrom | evaluation-bnc.py:58-60 | a tag found is the extraction of some second tab field |
| Evaluation.BeforeSlash | evaluation_penn.py:62 | `tag.split("/")[0]` is the prefix of the tag up to its first '/', the whole tag when it has none |
| Evaluation.ScoreAt | evaluation_penn.py:100 | result i is sentence i with the expected label and the prediction for it |
| Evaluation.Bump | our_model_evaluation.py:108 | the confusion update adds the tag as a key and raises its cell by one |
| Evaluation.BumpOther | our_model_evaluation.py:108 | the update leaves every other cell unchanged |
| Evaluation.ScoreFile | evaluation_penn.py:87-109 | every non-blank line, stripped, is scored in order; total is the number scored, correct the number predicted as expected, and the row the count of each prediction |
| Evaluation.ScoreLine | evaluation_penn.py:89-109 | one pass of the line loop: a line that strips to nothing changes nothing, and any other line is stripped, scored and counted |
| Evaluation.Tally | evaluation_penn.py:93-109 | counting one sentence keeps total, correct and the row in step with the results |
| Evaluation.TabulateIsCountMap | evaluation_penn.py:107-109 | the row built bump by bump holds, for each prediction made, how often it was made |
| Evaluation.CorrectAtMostTotal | evaluation_penn.py:103-104 | the correct predictions are at most the sentences counted |
| Evaluation.RowSumIsTotal | evaluation_penn.py:107-109 | a file's confusion row, summed over columns that list each of its tags once, gives the file's number of sentences |
| Evaluation.RowSumEmpty | evaluation_penn.py:85 | an empty row sums to zero |
| Evaluation.Accuracy | evaluation_penn.py:112 | 0 for a file without sentences, otherwise correct/total × 100, so it lies in [0, 100] when correct ≤ total |
| Evaluation.ResultLines | evaluation_penn.py:119-122 | a results file is the header, the rule, then one `sentence \| true \| pred` line per scored sentence in order |
| Evaluation.WriteResults | evaluation_penn.py:118-122 | the writes of a results file, each line ended by a newline |
| Evaluation.HeadOneLine | evaluation_penn.py:119-120 | the header and the rule are single lines; the rule is sixty dashes |
| Evaluation.ResultsReadBack | evaluation_penn.py:118-122 | reading a results file back line by line gives the header, the rule and one line per sentence |
| EvaluationRun.EvaluateFiles | evaluation_penn.py:77-125 | the configuration loop: each existing file is scored; its labels and predictions are appended, and its accuracy, row and results file recorded; a missing file gets an empty row only |
| EvaluationRun.OverallLengths | evaluation_penn.py:97-98 | `overall_true` and `overall_pred` are both as long as the number of sentences counted over all files |
| EvaluationRun.RowPerConfig | evaluation_penn.py:85 | a file id has a confusion row iff it is configured, whether or not its file exists |
| EvaluationRun.AccuracyOnlyIfFound | evaluation_penn.py:87-113 | a file id has an accuracy entry iff a configuration with that id has an existing file |
| EvaluationRun.AccuracyBounds | evaluation_penn.py:112 | every accuracy lies in [0, 100] |
| EvaluationRun.RowTagsArePredictions | evaluation_penn.py:94-109 | every tag in a confusion row is a prediction `get_that_tag` made for some sentence |
| EvaluationRun.RowsSumToTotals | evaluation_penn.py:84-109 | every row of the matrix sums, over columns listing each of its tags once, to the sentence count of a configured file, which is zero for a missing one |
| EvaluationRun.LastRow | evaluation_penn.py:85-109 | the last configuration's row is the prediction counts of its file, or empty when the file is missing |
| EvaluationRun.WrittenPaths | evaluation_penn.py:117-118 | a results file is written exactly for each configuration whose file exists |
| EvaluationRun.AllPredTags | evaluation_penn.py:129-131 | the union of the keys of every row |
| EvaluationRun.SortTags | evaluation_penn.py:132 | the tags in ascending order, each once; nothing, as the sort raises, exactly when None is among two or more tags |
| EvaluationRun.Fill | evaluation_penn.py:137 | a completed row has exactly the columns as keys |
| EvaluationRun.FillRows | evaluation_penn.py:136-137 | every file id's row is filled to the columns, and there are no other rows |
| EvaluationRun.CompleteMatrix | evaluation_penn.py:129-137 | `conf_matrix_complete`: every row over the sorted union of the predicted tags, missing cells 0; nothing when the sort raises |
| EvaluationRun.CompletionKeepsCounts | evaluation_penn.py:137 | completion keeps every count a row had and gives 0 to every other predicted tag |
| EvaluationPenn.GetThatTagIsFirst | evaluation_penn.py:53-63 | the Penn `get_that_tag` returns the part before the first "/" of the first "that" line's second field, or None |
| EvaluationPenn.EvaluatePenn | evaluation_penn.py:17-137 | the script is the configuration loop with its five configurations, its extraction and the `results_` prefix, followed by the completion |
| EvaluationPenn.TagsHaveNoSlash | evaluation_penn.py:62 | no tag in the Penn confusion matrix holds a "/" |
| EvaluationBnc.GetThatTagIsFirst | evaluation-bnc.py:52-61 | the BNC `get_that_tag` returns the whole second field of the first "that" line, or None |
| EvaluationBnc.EvaluateBnc | evaluation-bnc.py:16-135 | the script is the configuration loop with its five configurations, the `Data` folder and the `bnc_results_` prefix, followed by the completion |
| OurModelEvaluation.ModelNameOf | our_model_evaluation.py:54 | the model name of `dir/stem.par` is `stem` |
| OurModelEvaluation.ModelOutputPath | our_model_evaluation.py:116 | every results file of a model is `Results/<model name>_results_<id>.txt`, and the model name holds no '/' |
| OurModelEvaluation.EvaluateModel | our_model_evaluation.py:58-160 | one model's pass starts from empty containers and is the configuration loop with that model's tagger and name prefix, followed by the completion; the pass raises (in the tag sort or in `classification_report`) exactly when some prediction is None, which is always so when the sort raises |
| OurModelEvaluation.EvaluateModels | our_model_evaluation.py:49-171 | the model loop gives each model, in order, its own pass with that model's tagger; every pass but the last runs without raising, the loop stops after the first pass that raises, and it reaches every model exactly when no pass raises |
| OurModelEvaluation.EvaluateNext | our_model_evaluation.py:52-160 | one turn of the model loop adds the next model's pass, keeps the earlier ones and says whether the new pass raises |
| TextStatistics.SentencesOfFacts | statical_analysis.py:42-43 | every sentence is non-empty, holds no '.', '!' or '?' and has at least one word |
| TextStatistics.AnalyzeFileFacts | statical_analysis.py:37-46 | `analyze_file` returns a count equal to the length of the length list, and every length is at least 1 |
| TextStatistics.DisplayLabelA | statical_analysis.py:64 | "That as a X" is shown as X |
| TextStatistics.DisplayLabelAn | statical-analysis.py:53 | "That as an X" is shown as X: the first replacement does not match, and the second removes the prefix |
| TextStatistics.DisplayLabels | statical_analysis.py:64 | the five labels are shown as "Conjunction for a Noun", "Adverb", "Conjunction for a Verb", "Singular Determiner" and "Relative Pronoun" |
| TextStatistics.CategoriesDistinct | statical-analysis.py:78 | the five display labels differ, so the display dictionaries keep every category |
| TextStatistics.AnalyzeSentences | statical_analysis.py:55-61 | the sentence loop records `analyze_file` of every existing file under its label |
| TextStatistics.TabulateKeys | statical-analysis.py:47-50 | a label is a key of both tables exactly when one of its files exists |
| TextStatistics.TabulateAgrees | statical-analysis.py:48-50 | each recorded count is the length of the recorded length list, and every length is at least 1 |
| TextStatistics.TabulateRecords | statical_analysis.py:58-61 | with distinct labels, an existing file's lengths are recorded under its own label |
| SentenceAnalysis.Analyze | statical-analysis.py:44-50 | the script fills the sentence tables from the files under `Data` |
| WordStatistics.RemovePunctuation | statical_analysis.py:126-127 | deleting `string.punctuation` leaves no ASCII punctuation and never lengthens the text |
| WordStatistics.RemovePunctuationOne | statical_analysis.py:126-127 | a single character is deleted exactly when it is ASCII punctuation, and kept otherwise |
| WordStatistics.RemovePunctuationAppend | statical_analysis.py:126-127 | deleting punctuation works character by character: on a concatenation it is the concatenation of the two results |
| WordStatistics.RemovePunctuationIdempotent | statical_analysis.py:126-127 | deleting punctuation twice is deleting it once |
| WordStatistics.CleanWordsFacts | statical_analysis.py:126-130 | every word counted is non-empty, holds no whitespace, punctuation or upper-case ASCII letter, and is not a stop word |
| WordStatistics.DropStopWordsKeeps | statical_analysis.py:130 | the filter keeps only words of the input that are not stop words |
| WordStatistics.DropStopWordsCount | statical_analysis.py:130 | after the filter a stop word occurs 0 times and every other word as often as before |
| WordStatistics.WordSetSize | statical_analysis.py:132-133 | unique ≤ total, equal iff no word repeats, and at least 1 when there is a word |
| WordStatistics.LexicalDiversityBounds | statical_analysis.py:134 | the diversity lies in [0, 1]; it is 0 iff no word is left, and 1 iff no word repeats |
| WordStatistics.ItemsFacts | statical_analysis.py:137 | the items of `Counter(words)` are each distinct word with its count, each once |
| WordStatistics.SortedItems | statical_analysis.py:138 | the sorted items are a reordering of the items, by falling count |
| WordStatistics.MostCommonOrdered | statical_analysis.py:137-138 | `most_common(n)` has n entries, or every distinct word when there are fewer, with counts not increasing; every entry is a word of the text, and entries with equal counts come in the order of their words' first occurrences in the text |
| WordStatistics.SortedItemsTies | statical_analysis.py:137-138 | among all the sorted items, two with equal counts come in the order of their words' first occurrences in the text |
| WordStatistics.MostCommonEntries | statical_analysis.py:138 | each entry is a distinct word of the text with its count |
| WordStatistics.MostCommonIsMost | statical_analysis.py:138 | a word left out of `most_common(n)` means n entries were returned, none less common than it |
| WordStatistics.CountsSumToTotal | statical_analysis.py:132-137 | the counts of `Counter(words)` sum to the number of words |
| WordStatistics.AnalyzeWords | statical_analysis.py:120-139 | the word loop records the diversity, top ten and counts of every existing file under its label |
| WordStatistics.TabulateWordsKeys | statical_analysis.py:120-139 | a label is a key of all three tables exactly when one of its files exists |
| WordStatistics.TabulateWordsBounds | statical_analysis.py:134-138 | every recorded diversity is in [0, 1] and every top list has at most ten entries |
| WordStatistics.FurtherAnalysis | statical_analysis.py:173-179 | the report loop writes each label's diversity and top words in order, and stops with a KeyError at the first label missing from either table |
| WordStatistics.LabelFound | statical_analysis.py:120-177 | with distinct labels, a label has a diversity and top words exactly when its own data file exists |
| WordStatistics.ReportCompletes | statical_analysis.py:120-177 | with distinct labels, every configured label is in both tables iff every data file exists |
| StaticalAnalysis.LabelsDistinct | statical_analysis.py:23-29 | the five configured labels differ |
| StaticalAnalysis.EveryLabelFound | statical_analysis.py:120-177 | every label has a diversity and top words exactly when all five data files exist |
| StaticalAnalysis.Analyze | statical_analysis.py:55-179 | the script fills the sentence and word tables and writes the report, which completes iff all five files exist; it holds one entry per category, the category's diversity and top words, up to the first category whose file is missing, and every earlier file exists |
| Text.SplitWsStrip | format_file.py:11 | `s.strip().split()` equals `s.split()` |
| Text.Strip | evaluation_penn.py:90-91 | the stripped line is empty iff the line is all whitespace, and otherwise neither starts nor ends with whitespace |
| Text.StripIsSlice | evaluation_penn.py:90 | the stripped line is a slice of the line, and what is cut from each end is all whitespace |
| Text.Sentences | Tagging.py:90 | every sentence kept, a stripped non-blank line, is non-empty, and no more are kept than lines given |
| Text.SentencesAreStrippedLines | Tagging.py:90 | the sentences are the stripped lines at the ascending positions of exactly the lines that do not strip to nothing |
| Text.SentenceMembers | Tagging.py:90 | a string is a sentence exactly when it is non-empty and some line strips to it |
| Text.SentencesHaveWords | statical_analysis.py:43-44 | every sentence kept has at least one word |
| Text.Lower | Tagging.py:99 | `lower()` maps each ASCII capital to its small letter, keeps every other character and leaves no ASCII capital |
| Text.SplitOnAny | statical_analysis.py:42 | `re.split(r'[.!?]', text)` gives at least one piece and no piece holds a separator |
| Text.SplitOnAnyJoin | statical_analysis.py:42 | there is one more piece than separator characters in the text, and putting the separators back between the pieces, in order, gives the text |
| Text.SplitOnJoin | evaluation_penn.py:59 | splitting a tab-joined line at tabs gives its fields back when no field holds a tab |
| Text.TerminatedReadBack | openCls.py:15-16 | newline-terminated lines read back give the lines and a final empty piece |
| Order.SortSet | openCls.py:15 | `sorted` of a set: every element once, in strictly ascending order |
| Order.StrLtStrictTotal | openCls.py:15 | Python's `<` on strings is a strict total order |
| Order.SortByIsSorted | Tagging.py:153 | the stable sort by key leaves no element before one with a smaller key |
| Order.SortByStable | Tagging.py:153 | the sort is stable: for a key order, two elements that the key does not order come out in an order in which they occur in the input |
| Order.DistinctFirstOccurrence | statical_analysis.py:137 | the distinct values, in the order `Counter` keeps its keys, come in ascending order of their first occurrences |
| Order.Enumerate | lexicon.py:67 | iterating over a set visits each element exactly once |
| Order.CountMapFacts | statical_analysis.py:137 | `Counter(s)` has a key for each value of s and no other, holding its positive count |

## Left out

- TreeTagger, NLTK's `word_tokenize` and `pos_tag`, the WordNet lemmatizer and the NLTK stop-word list are external. They are function or set parameters, and the downloads are omitted.
- pandas (`DataFrame`, `crosstab`, `to_csv`, including the second confusion matrix), sklearn's `classification_report` and the JSON dumps are library code. Their output files are not modelled.
- The matplotlib charts, the statistics report's `np.mean` averages, the `:.2f` formatting and the `print` messages are presentation only and not modelled.
- File-system calls (`os.makedirs`, `os.path.exists`, `open`) are modelled as a map from path to content. The order `glob` lists the model files in is an input, not a property.
- Evaluation.Accuracy: computes `(correct / total) * 100` as an exact real, not as a floating-point value.
- WordStatistics.LexicalDiversity: computes `len(set(words)) / len(words)` of statical_analysis.py:134 as an exact real, not as a floating-point value.
- OurModelEvaluation.EvaluateModels: takes `classification_report` to raise exactly when a prediction is None, because it refuses labels that mix None with strings. What it does for a model with no sentences at all is library behaviour and not modelled.
- OpenClasses.ExtractUniqueTags: takes the lexicon file's lines as given; the error raised by `open` when `openCls.py` is run without its lexicon file is not modelled.
- Text.Lower: handles ASCII letters only. Python's Unicode case mapping is left out, because the corpora and tags are ASCII.
- WordStatistics.RemovePunctuation: the deleted characters are the 32 ASCII characters of `string.punctuation`, and no others.
- LexiconBuilder.WriteLexiconFile: the order in which a set's entries are visited is unspecified, as in Python. The contract states only that each entry is visited once.
- FormatFile.TransformFile: the message for a malformed line is modelled as the line itself. The script prints it stripped, inside a sentence of text.
- The `train.txt` concatenation of `Tagging.py` is modelled by its text (`TaggingOutput.TrainText`) and its length. Reading the output files back from disk is not modelled.
- `test_treetagger.py` and `Results/script.py` have no logic of their own beyond calls to the tagger and to plotting.
