/** The driver of Tagging.py: the five training files it tags, the shared lexicon it
    builds across them, and the two summary files it writes afterwards (`openCLs.txt`,
    the sorted tag inventory, and `lexicon.txt`, the word/tag/lemma lexicon) plus the
    concatenated `train.txt`. */
module TaggingOutput {
  import opened Text
  import opened Order
  import opened Wrappers
  import opened Tagging
  import opened WordNetPos

  const InputDir := "Data/Train/"
  const OutputDir := "Training/"

  /** One row of `files_to_process`: input name, output name, tag forced on "that". */
  datatype Job = Job(input: string, output: string, overrideTag: string)

  const FilesToProcess: seq<Job> := [
    Job("that_as_adverb.txt", "adverb_formatted.txt", "RA"),
    Job("that_conjunction_noun.txt", "conjunction_noun_formatted.txt", "CST"),
    Job("that_conjunction_verb.txt", "conjunction_verb_formatted.txt", "CJT"),
    Job("that_pronoun.txt", "pronoun_formatted.txt", "WPR"),
    Job("that_singular_determiner.txt", "determiner_formatted.txt", "DD1")
  ]

  function InputPath(j: Job): string
  {
    PathJoin(InputDir, j.input)
  }

  function OutputPath(j: Job): string
  {
    PathJoin(OutputDir, j.output)
  }

  /** Every job's input file exists. */
  predicate Readable(inputs: map<string, seq<string>>, jobs: seq<Job>)
  {
    forall i :: 0 <= i < |jobs| ==> InputPath(jobs[i]) in inputs
  }

  function JobTokens(inputs: map<string, seq<string>>, j: Job, tagger: Tagger, lemmatize: Lemmatizer): seq<Token>
    requires InputPath(j) in inputs
  {
    FileTokens(Sentences(inputs[InputPath(j)]), j.overrideTag, tagger, lemmatize)
  }

  function JobText(inputs: map<string, seq<string>>, j: Job, tagger: Tagger, lemmatize: Lemmatizer): string
    requires InputPath(j) in inputs
  {
    JoinWith(FileLines(Sentences(inputs[InputPath(j)]), j.overrideTag, tagger, lemmatize), "\n")
  }

  /** All tokens of the jobs, in processing order. */
  function AllTokens(inputs: map<string, seq<string>>, jobs: seq<Job>, tagger: Tagger, lemmatize: Lemmatizer): seq<Token>
    requires Readable(inputs, jobs)
  {
    if jobs == [] then []
    else AllTokens(inputs, jobs[..|jobs| - 1], tagger, lemmatize) + JobTokens(inputs, jobs[|jobs| - 1], tagger, lemmatize)
  }

  /** The output files after the jobs: each job writes its own path, a later write wins. */
  function Outputs(inputs: map<string, seq<string>>, jobs: seq<Job>, tagger: Tagger, lemmatize: Lemmatizer): map<string, string>
    requires Readable(inputs, jobs)
  {
    if jobs == [] then map[]
    else
      var j := jobs[|jobs| - 1];
      Outputs(inputs, jobs[..|jobs| - 1], tagger, lemmatize)[OutputPath(j) := JobText(inputs, j, tagger, lemmatize)]
  }

  lemma JobStep(inputs: map<string, seq<string>>, jobs: seq<Job>, n: nat, tagger: Tagger, lemmatize: Lemmatizer)
    requires n < |jobs| && Readable(inputs, jobs[..n + 1])
    ensures Readable(inputs, jobs[..n])
    ensures AllTokens(inputs, jobs[..n + 1], tagger, lemmatize)
         == AllTokens(inputs, jobs[..n], tagger, lemmatize) + JobTokens(inputs, jobs[n], tagger, lemmatize)
    ensures Outputs(inputs, jobs[..n + 1], tagger, lemmatize)
         == Outputs(inputs, jobs[..n], tagger, lemmatize)[OutputPath(jobs[n]) := JobText(inputs, jobs[n], tagger, lemmatize)]
  {
    assert jobs[..n + 1][..n] == jobs[..n];
    assert jobs[..n + 1][n] == jobs[n];
  }

  /** One call of `process_file` for a job whose input exists. */
  method RunJob(lex: Lexicon, inputs: map<string, seq<string>>, j: Job, tagger: Tagger, lemmatize: Lemmatizer)
    returns (text: string, tags: set<string>)
    requires lex.Valid() && InputPath(j) in inputs
    modifies lex
    ensures lex.Valid()
    ensures text == JobText(inputs, j, tagger, lemmatize)
    ensures tags == TagsOf(JobTokens(inputs, j, tagger, lemmatize))
    ensures lex.entries == AddTokens(old(lex.entries), JobTokens(inputs, j, tagger, lemmatize))
    ensures lex.order == AddWords(old(lex.order), JobTokens(inputs, j, tagger, lemmatize))
  {
    text, tags := ProcessFile(lex, inputs[InputPath(j)], j.overrideTag, tagger, lemmatize);
  }

  /** What the main loop has done after the first `n` jobs, starting from the lexicon
      `(entries0, order0)`. */
  predicate Done(inputs: map<string, seq<string>>, jobs: seq<Job>, n: nat, tagger: Tagger, lemmatize: Lemmatizer,
                 entries0: Entries, order0: seq<string>,
                 allTags: set<string>, written: map<string, string>, entries: Entries, order: seq<string>)
    requires NoDuplicates(order0)
  {
    && n <= |jobs|
    && Readable(inputs, jobs[..n])
    && allTags == TagsOf(AllTokens(inputs, jobs[..n], tagger, lemmatize))
    && written == Outputs(inputs, jobs[..n], tagger, lemmatize)
    && entries == AddTokens(entries0, AllTokens(inputs, jobs[..n], tagger, lemmatize))
    && order == AddWords(order0, AllTokens(inputs, jobs[..n], tagger, lemmatize))
  }

  lemma DoneStep(inputs: map<string, seq<string>>, jobs: seq<Job>, n: nat, tagger: Tagger, lemmatize: Lemmatizer,
                 entries0: Entries, order0: seq<string>,
                 allTags: set<string>, written: map<string, string>, entries: Entries, order: seq<string>,
                 text: string, tags: set<string>, entries1: Entries, order1: seq<string>)
    requires NoDuplicates(order0) && NoDuplicates(order)
    requires Done(inputs, jobs, n, tagger, lemmatize, entries0, order0, allTags, written, entries, order)
    requires n < |jobs| && InputPath(jobs[n]) in inputs
    requires text == JobText(inputs, jobs[n], tagger, lemmatize)
    requires tags == TagsOf(JobTokens(inputs, jobs[n], tagger, lemmatize))
    requires entries1 == AddTokens(entries, JobTokens(inputs, jobs[n], tagger, lemmatize))
    requires order1 == AddWords(order, JobTokens(inputs, jobs[n], tagger, lemmatize))
    ensures Done(inputs, jobs, n + 1, tagger, lemmatize, entries0, order0,
                 allTags + tags, written[OutputPath(jobs[n]) := text], entries1, order1)
  {
    ReadableStep(inputs, jobs, n);
    TagsStep(inputs, jobs, n, tagger, lemmatize, allTags, tags);
    EntriesStep(inputs, jobs, n, tagger, lemmatize, entries0, entries, entries1);
    OrderStep(inputs, jobs, n, tagger, lemmatize, order0, order, order1);
    OutputsStep(inputs, jobs, n, tagger, lemmatize, written, text);
  }

  lemma ReadableStep(inputs: map<string, seq<string>>, jobs: seq<Job>, n: nat)
    requires n < |jobs| && Readable(inputs, jobs[..n]) && InputPath(jobs[n]) in inputs
    ensures Readable(inputs, jobs[..n + 1])
  {
    var done := jobs[..n + 1];
    forall i | 0 <= i < |done| ensures InputPath(done[i]) in inputs {
      if i < n { assert done[i] == jobs[..n][i]; }
    }
  }

  lemma TagsStep(inputs: map<string, seq<string>>, jobs: seq<Job>, n: nat, tagger: Tagger, lemmatize: Lemmatizer,
                 allTags: set<string>, tags: set<string>)
    requires n < |jobs| && Readable(inputs, jobs[..n + 1])
    requires allTags == TagsOf(AllTokens(inputs, jobs[..n], tagger, lemmatize))
    requires InputPath(jobs[n]) in inputs && tags == TagsOf(JobTokens(inputs, jobs[n], tagger, lemmatize))
    ensures allTags + tags == TagsOf(AllTokens(inputs, jobs[..n + 1], tagger, lemmatize))
  {
    JobStep(inputs, jobs, n, tagger, lemmatize);
    TagsOfAppend(AllTokens(inputs, jobs[..n], tagger, lemmatize), JobTokens(inputs, jobs[n], tagger, lemmatize));
  }

  lemma EntriesStep(inputs: map<string, seq<string>>, jobs: seq<Job>, n: nat, tagger: Tagger, lemmatize: Lemmatizer,
                    entries0: Entries, entries: Entries, entries1: Entries)
    requires n < |jobs| && Readable(inputs, jobs[..n + 1])
    requires entries == AddTokens(entries0, AllTokens(inputs, jobs[..n], tagger, lemmatize))
    requires InputPath(jobs[n]) in inputs && entries1 == AddTokens(entries, JobTokens(inputs, jobs[n], tagger, lemmatize))
    ensures entries1 == AddTokens(entries0, AllTokens(inputs, jobs[..n + 1], tagger, lemmatize))
  {
    JobStep(inputs, jobs, n, tagger, lemmatize);
    AddTokensAppend(entries0, AllTokens(inputs, jobs[..n], tagger, lemmatize), JobTokens(inputs, jobs[n], tagger, lemmatize));
  }

  lemma OrderStep(inputs: map<string, seq<string>>, jobs: seq<Job>, n: nat, tagger: Tagger, lemmatize: Lemmatizer,
                  order0: seq<string>, order: seq<string>, order1: seq<string>)
    requires n < |jobs| && Readable(inputs, jobs[..n + 1])
    requires NoDuplicates(order0)
    requires order == AddWords(order0, AllTokens(inputs, jobs[..n], tagger, lemmatize))
    requires InputPath(jobs[n]) in inputs && order1 == AddWords(order, JobTokens(inputs, jobs[n], tagger, lemmatize))
    ensures order1 == AddWords(order0, AllTokens(inputs, jobs[..n + 1], tagger, lemmatize))
  {
    JobStep(inputs, jobs, n, tagger, lemmatize);
    AddWordsAppend(order0, AllTokens(inputs, jobs[..n], tagger, lemmatize), JobTokens(inputs, jobs[n], tagger, lemmatize));
  }

  lemma OutputsStep(inputs: map<string, seq<string>>, jobs: seq<Job>, n: nat, tagger: Tagger, lemmatize: Lemmatizer,
                    written: map<string, string>, text: string)
    requires n < |jobs| && Readable(inputs, jobs[..n + 1]) && Readable(inputs, jobs[..n])
    requires written == Outputs(inputs, jobs[..n], tagger, lemmatize)
    requires InputPath(jobs[n]) in inputs && text == JobText(inputs, jobs[n], tagger, lemmatize)
    ensures written[OutputPath(jobs[n]) := text] == Outputs(inputs, jobs[..n + 1], tagger, lemmatize)
  {
    JobStep(inputs, jobs, n, tagger, lemmatize);
  }

  /** The main loop: `process_file` on every job, collecting the tags and the lexicon.
      A missing input raises and ends the run with what was done before it. */
  method TagAllFiles(lex: Lexicon, inputs: map<string, seq<string>>, jobs: seq<Job>, tagger: Tagger, lemmatize: Lemmatizer)
    returns (allTags: set<string>, written: map<string, string>, status: RunStatus)
    requires lex.Valid()
    modifies lex
    ensures lex.Valid()
    ensures status == Completed <==> Readable(inputs, jobs)
    ensures status == Completed ==>
      Done(inputs, jobs, |jobs|, tagger, lemmatize, old(lex.entries), old(lex.order), allTags, written, lex.entries, lex.order)
    ensures status.MissingInput? ==>
      exists n :: 0 <= n < |jobs| && status.path == InputPath(jobs[n]) && status.path !in inputs
        && Done(inputs, jobs, n, tagger, lemmatize, old(lex.entries), old(lex.order), allTags, written, lex.entries, lex.order)
  {
    allTags, written := {}, map[];
    assert jobs[..0] == [];
    for n := 0 to |jobs|
      invariant lex.Valid()
      invariant Done(inputs, jobs, n, tagger, lemmatize, old(lex.entries), old(lex.order), allTags, written, lex.entries, lex.order)
    {
      var j := jobs[n];
      if InputPath(j) !in inputs {
        status := MissingInput(InputPath(j));
        return;
      }
      ghost var entries, order := lex.entries, lex.order;
      var text, tags := RunJob(lex, inputs, j, tagger, lemmatize);
      DoneStep(inputs, jobs, n, tagger, lemmatize, old(lex.entries), old(lex.order), allTags, written, entries, order,
               text, tags, lex.entries, lex.order);
      written := written[OutputPath(j) := text];
      allTags := allTags + tags;
    }
    assert jobs[..|jobs|] == jobs;
    status := Completed;
  }

  /** Each output path holds the text of the last job writing to it. */
  lemma {:induction false} OutputsLast(inputs: map<string, seq<string>>, jobs: seq<Job>, n: nat, tagger: Tagger, lemmatize: Lemmatizer)
    requires Readable(inputs, jobs) && n < |jobs|
    requires forall m :: n < m < |jobs| ==> OutputPath(jobs[m]) != OutputPath(jobs[n])
    ensures OutputPath(jobs[n]) in Outputs(inputs, jobs, tagger, lemmatize)
    ensures Outputs(inputs, jobs, tagger, lemmatize)[OutputPath(jobs[n])] == JobText(inputs, jobs[n], tagger, lemmatize)
  {
    var init, last := jobs[..|jobs| - 1], jobs[|jobs| - 1];
    assert Readable(inputs, init) by {
      forall i | 0 <= i < |init| ensures InputPath(init[i]) in inputs { assert init[i] == jobs[i]; }
    }
    var prev := Outputs(inputs, init, tagger, lemmatize);
    assert Outputs(inputs, jobs, tagger, lemmatize) == prev[OutputPath(last) := JobText(inputs, last, tagger, lemmatize)];
    if n < |jobs| - 1 {
      assert forall m :: n < m < |init| ==> init[m] == jobs[m];
      OutputsLast(inputs, init, n, tagger, lemmatize);
      assert init[n] == jobs[n];
      assert OutputPath(last) != OutputPath(jobs[n]);
    }
  }

  /** The five output names are distinct, so each output holds its own job's text. */
  lemma DistinctOutputs()
    ensures forall m, n :: 0 <= m < n < |FilesToProcess| ==> OutputPath(FilesToProcess[m]) != OutputPath(FilesToProcess[n])
  {
    forall m, n | 0 <= m < n < |FilesToProcess|
      ensures OutputPath(FilesToProcess[m]) != OutputPath(FilesToProcess[n])
    {
      var a, b := FilesToProcess[m].output, FilesToProcess[n].output;
      assert a[0] != b[0] || a[1] != b[1] || a[12] != b[12];
      assert (OutputDir + a)[|OutputDir|] == a[0];
      assert (OutputDir + b)[|OutputDir|] == b[0];
      assert (OutputDir + a)[|OutputDir| + 1] == a[1];
      assert (OutputDir + b)[|OutputDir| + 1] == b[1];
      assert (OutputDir + a)[|OutputDir| + 12] == a[12];
      assert (OutputDir + b)[|OutputDir| + 12] == b[12];
    }
  }

  /** `train.txt`: each output file's content followed by a newline. */
  function TrainText(written: map<string, string>, jobs: seq<Job>): string
    requires forall j :: j in jobs ==> OutputPath(j) in written
  {
    if jobs == [] then ""
    else TrainText(written, jobs[..|jobs| - 1]) + written[OutputPath(jobs[|jobs| - 1])] + "\n"
  }

  /** train.txt is as long as the outputs plus one newline each. */
  lemma {:induction false} TrainTextLength(written: map<string, string>, jobs: seq<Job>)
    requires forall j :: j in jobs ==> OutputPath(j) in written
    ensures |TrainText(written, jobs)| == |jobs| + SumLengths(written, jobs)
  {
    if jobs != [] {
      var init := jobs[..|jobs| - 1];
      assert forall j :: j in init ==> j in jobs;
      TrainTextLength(written, init);
    }
  }

  function SumLengths(written: map<string, string>, jobs: seq<Job>): nat
    requires forall j :: j in jobs ==> OutputPath(j) in written
  {
    if jobs == [] then 0
    else SumLengths(written, jobs[..|jobs| - 1]) + |written[OutputPath(jobs[|jobs| - 1])]|
  }

  // ----- openCLs.txt -----

  /** `" ".join(sorted(all_tags))`: the tags in ascending string order, space-separated. */
  method WriteOpenCls(allTags: set<string>) returns (sortedTags: seq<string>, text: string)
    ensures Ascending(sortedTags, StrLt)
    ensures forall t :: t in sortedTags <==> t in allTags
    ensures |sortedTags| == |allTags|
    ensures text == JoinWith(sortedTags, " ")
  {
    StrLtStrictTotal();
    sortedTags := SortSet(allTags, StrLt);
    text := JoinWith(sortedTags, " ");
  }

  /** Reading openCLs.txt back with `split()` gives the sorted tags, when no tag is
      empty or holds a space. */
  lemma OpenClsReadBack(sortedTags: seq<string>)
    requires forall i :: 0 <= i < |sortedTags| ==> sortedTags[i] != "" && NoSpace(sortedTags[i])
    ensures SplitWs(JoinWith(sortedTags, " ")) == sortedTags
  {
    SplitWsJoin(sortedTags);
  }

  // ----- lexicon.txt -----

  /** The sort key `x.lower()`, compared with `<`. */
  predicate LowerBefore(a: string, b: string)
  {
    StrLt(Lower(a), Lower(b))
  }

  lemma LowerBeforeStrictOrder()
    ensures StrictOrder(LowerBefore)
  {
    forall a ensures !LowerBefore(a, a) { StrLtIrreflexive(Lower(a)); }
    forall a, b, c | LowerBefore(a, b) && LowerBefore(b, c) ensures LowerBefore(a, c) {
      StrLtTransitive(Lower(a), Lower(b), Lower(c));
    }
  }

  /** Words whose lower-case forms are equal tie under the key, as equal keys do. */
  lemma LowerBeforeStrictWeakOrder()
    ensures StrictWeakOrder(LowerBefore)
  {
    LowerBeforeStrictOrder();
    forall a, b, c | LowerBefore(a, c) ensures LowerBefore(a, b) || LowerBefore(b, c) {
      if Lower(b) == Lower(a) {
        assert LowerBefore(b, c);
      } else if !LowerBefore(a, b) {
        StrLtTotal(Lower(a), Lower(b));
        StrLtTransitive(Lower(b), Lower(a), Lower(c));
      }
    }
  }

  /** The `tag<TAB>lemma` strings of a word's pairs. */
  function PairTexts(pairs: seq<(string, string)>): (r: seq<string>)
    ensures |r| == |pairs|
  {
    if pairs == [] then [] else [pairs[0].0 + "\t" + pairs[0].1] + PairTexts(pairs[1..])
  }

  /** One lexicon line, without its newline: the word, then the pairs, tab-separated. */
  function LexiconLine(word: string, pairs: seq<(string, string)>): string
  {
    word + "\t" + JoinWith(PairTexts(pairs), "\t")
  }

  /** The closing punctuation line. */
  const EndLine := ".\tSENT\t."

  /** The fields a lexicon line holds: the word, then tag and lemma of each pair. */
  function LexiconFields(word: string, pairs: seq<(string, string)>): seq<string>
  {
    [word] + PairFields(pairs)
  }

  function PairFields(pairs: seq<(string, string)>): (r: seq<string>)
    ensures |r| == 2 * |pairs|
  {
    if pairs == [] then [] else [pairs[0].0, pairs[0].1] + PairFields(pairs[1..])
  }

  lemma JoinWithHead(x: string, rest: seq<string>, sep: string)
    requires rest != []
    ensures JoinWith([x] + rest, sep) == x + sep + JoinWith(rest, sep)
  {
    assert ([x] + rest)[1..] == rest;
  }

  /** One pair in front: joined as one text or as two fields, the line is the same. */
  lemma JoinPair(a: string, b: string, texts: seq<string>, fields: seq<string>)
    requires texts != [] && fields != []
    requires JoinWith(texts, "\t") == JoinWith(fields, "\t")
    ensures JoinWith([a + "\t" + b] + texts, "\t") == JoinWith([a, b] + fields, "\t")
  {
    var tail := JoinWith(texts, "\t");
    JoinWithHead(a + "\t" + b, texts, "\t");
    assert [a, b] + fields == [a] + ([b] + fields);
    JoinWithHead(a, [b] + fields, "\t");
    JoinWithHead(b, fields, "\t");
    assert a + "\t" + b + "\t" + tail == a + "\t" + (b + "\t" + tail);
  }

  lemma {:induction false} PairTextsFields(pairs: seq<(string, string)>)
    requires pairs != []
    ensures JoinWith(PairTexts(pairs), "\t") == JoinWith(PairFields(pairs), "\t")
  {
    var p := pairs[0];
    var rest := pairs[1..];
    if rest == [] {
      assert PairFields(pairs) == [p.0, p.1];
    } else {
      PairTextsFields(rest);
      var texts, fields := PairTexts(rest), PairFields(rest);
      assert PairTexts(pairs) == [p.0 + "\t" + p.1] + texts;
      assert PairFields(pairs) == [p.0, p.1] + fields;
      JoinPair(p.0, p.1, texts, fields);
    }
  }

  lemma {:induction false} PairFieldsNoTab(pairs: seq<(string, string)>)
    requires forall k :: 0 <= k < |pairs| ==> '\t' !in pairs[k].0 && '\t' !in pairs[k].1
    ensures forall i :: 0 <= i < |PairFields(pairs)| ==> '\t' !in PairFields(pairs)[i]
  {
    if pairs != [] {
      PairFieldsNoTab(pairs[1..]);
      var r := PairFields(pairs[1..]);
      assert PairFields(pairs) == [pairs[0].0, pairs[0].1] + r;
      forall i | 0 <= i < |PairFields(pairs)| ensures '\t' !in PairFields(pairs)[i] {
        if i >= 2 { assert PairFields(pairs)[i] == r[i - 2]; }
      }
    }
  }

  /** Splitting a lexicon line on tabs gives back the word and each tag and lemma, when
      none of them holds a tab and the word has at least one pair. */
  lemma LexiconLineFields(word: string, pairs: seq<(string, string)>)
    requires pairs != []
    requires '\t' !in word
    requires forall k :: 0 <= k < |pairs| ==> '\t' !in pairs[k].0 && '\t' !in pairs[k].1
    ensures SplitOn(LexiconLine(word, pairs), '\t') == LexiconFields(word, pairs)
  {
    PairTextsFields(pairs);
    PairFieldsNoTab(pairs);
    var fields := PairFields(pairs);
    assert fields != [];
    assert LexiconFields(word, pairs)[1..] == fields;
    assert LexiconLine(word, pairs) == JoinWith(LexiconFields(word, pairs), "\t");
    assert forall i :: 0 <= i < |LexiconFields(word, pairs)| ==> '\t' !in LexiconFields(word, pairs)[i] by {
      forall i | 0 <= i < |LexiconFields(word, pairs)| ensures '\t' !in LexiconFields(word, pairs)[i] {
        if i > 0 { assert LexiconFields(word, pairs)[i] == fields[i - 1]; }
      }
    }
    SplitOnJoin(LexiconFields(word, pairs), '\t');
  }

  /** Sorts one word's pair set: `sorted(global_lexicon[word])`. */
  method SortedPairs(pairs: set<(string, string)>) returns (r: seq<(string, string)>)
    ensures Ascending(r, PairLt)
    ensures forall p :: p in r <==> p in pairs
    ensures |r| == |pairs|
  {
    PairLtStrictTotal();
    r := SortSet(pairs, PairLt);
  }

  /** The line written for `word`: it has entries, `pairs` is its pair set in ascending
      tuple order, and `line` lists the word and those pairs. */
  ghost predicate WordLine(entries: Entries, word: string, pairs: seq<(string, string)>, line: string)
  {
    && word in entries
    && Ascending(pairs, PairLt)
    && (forall p :: p in pairs <==> p in entries[word])
    && line == LexiconLine(word, pairs)
  }

  /** The lexicon.txt lines: one per word, words in stable order of their lower-cased
      form, each word's pairs in ascending tuple order, then the punctuation line. */
  method WriteLexicon(lex: Lexicon) returns (words: seq<string>, pairLists: seq<seq<(string, string)>>, lines: seq<string>)
    requires lex.Valid()
    ensures words == SortBy(lex.order, LowerBefore)
    ensures SortedBy(words, LowerBefore)
    ensures NoDuplicates(words)
    ensures forall w :: w in words <==> w in lex.entries
    ensures |pairLists| == |words| && |lines| == |words| + 1
    ensures forall k :: 0 <= k < |words| ==> WordLine(lex.entries, words[k], pairLists[k], lines[k])
    ensures lines[|words|] == EndLine
    ensures forall i, j :: 0 <= i < j < |words| && Lower(words[i]) == Lower(words[j]) ==>
              exists p, q :: 0 <= p < q < |lex.order| && lex.order[p] == words[i] && lex.order[q] == words[j]
  {
    LowerBeforeStrictWeakOrder();
    words := SortBy(lex.order, LowerBefore);
    SortByStable(lex.order, LowerBefore);
    forall i, j | 0 <= i < j < |words| && Lower(words[i]) == Lower(words[j])
      ensures exists p, q :: 0 <= p < q < |lex.order| && lex.order[p] == words[i] && lex.order[q] == words[j]
    {
      StrLtIrreflexive(Lower(words[i]));
      var p, q := TiePositions(lex.order, words, LowerBefore, i, j);
    }
    SortByIsSorted(lex.order, LowerBefore);
    SortByKeepsElements(lex.order, words);
    pairLists, lines := WriteWordLines(lex.entries, words);
    lines := lines + [EndLine];
  }

  /** The loop over the sorted words: each word's line, with its pairs sorted. */
  method WriteWordLines(entries: Entries, words: seq<string>) returns (pairLists: seq<seq<(string, string)>>, lines: seq<string>)
    requires forall w :: w in words ==> w in entries
    ensures |pairLists| == |words| && |lines| == |words|
    ensures forall k :: 0 <= k < |words| ==> WordLine(entries, words[k], pairLists[k], lines[k])
  {
    pairLists, lines := [], [];
    for k := 0 to |words|
      invariant |pairLists| == k && |lines| == k
      invariant forall i :: 0 <= i < k ==> WordLine(entries, words[i], pairLists[i], lines[i])
    {
      var pairs := SortedPairs(entries[words[k]]);
      pairLists := pairLists + [pairs];
      lines := lines + [LexiconLine(words[k], pairs)];
    }
  }

  /** A sort by key keeps the elements and, from a list without repeats, gives one. */
  lemma SortByKeepsElements(order: seq<string>, words: seq<string>)
    requires NoDuplicates(order)
    requires multiset(words) == multiset(order)
    ensures forall w :: w in words <==> w in order
    ensures NoDuplicates(words)
  {
    forall w ensures w in words <==> w in order {
      assert w in words <==> w in multiset(words);
      assert w in order <==> w in multiset(order);
    }
    MultisetNoDuplicates(order, words);
  }
}
