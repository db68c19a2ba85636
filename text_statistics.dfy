/** The sentence-level part both statistics scripts (statical_analysis.py and
    statical-analysis.py) share: the category labels of the five data files,
    `analyze_file`, the display labels, and the loop that fills `sentence_counts` and
    `sentence_lengths` for the files that exist. */
module TextStatistics {
  import opened Text
  import opened Order

  /** The data files that exist, by path, as their text. */
  type Texts = map<string, string>

  /** `file_labels`: data file name to category label, in the dictionary's order; each
      label is "That as a " or "That as an " followed by the category. */
  const FileLabels: seq<(string, string)> := [
    ("NNC_test_text.txt", "That as a " + "Conjunction for a Noun"),
    ("that_adv.txt", "That as an " + "Adverb"),
    ("that_conjunction.txt", "That as a " + "Conjunction for a Verb"),
    ("that_determiner.txt", "That as a " + "Singular Determiner"),
    ("that_pronoun.txt", "That as a " + "Relative Pronoun")]

  /** The characters of the class `[.!?]` the text is split on. */
  const SentenceEnds: set<char> := {'.', '!', '?'}

  // ----- analyze_file -----

  /** The sentences of a text: the pieces between sentence ends, stripped, the empty
      ones dropped. */
  function SentencesOf(text: string): seq<string>
  {
    Sentences(SplitOnAny(text, SentenceEnds))
  }

  /** What `analyze_file` returns: the number of sentences and the words per sentence. */
  datatype Analysis = Analysis(numSentences: nat, lengths: seq<nat>)

  function AnalyzeFile(text: string): Analysis
  {
    var sentences := SentencesOf(text);
    Analysis(|sentences|, seq(|sentences|, i requires 0 <= i < |sentences| => |SplitWs(sentences[i])|))
  }

  /** A sentence is non-empty, holds no sentence end and has at least one word. */
  lemma SentencesOfFacts(text: string)
    ensures forall i :: 0 <= i < |SentencesOf(text)| ==> SentencesOf(text)[i] != "" && SplitWs(SentencesOf(text)[i]) != []
    ensures forall i, j :: 0 <= i < |SentencesOf(text)| && 0 <= j < |SentencesOf(text)[i]|
                       ==> SentencesOf(text)[i][j] !in SentenceEnds
  {
    SentencesHaveWords(SplitOnAny(text, SentenceEnds));
    SentencesChars(SplitOnAny(text, SentenceEnds), c => c !in SentenceEnds);
  }

  /** The count is the length of the length list, and every sentence has at least one
      word. */
  lemma AnalyzeFileFacts(text: string)
    ensures AnalyzeFile(text).numSentences == |AnalyzeFile(text).lengths|
    ensures forall i :: 0 <= i < |AnalyzeFile(text).lengths| ==> AnalyzeFile(text).lengths[i] >= 1
  {
    SentencesOfFacts(text);
  }

  // ----- display labels -----

  /** `label.replace("That as a ", "").replace("That as an ", "")`. */
  function DisplayLabel(category: string): string
  {
    ReplaceAll(ReplaceAll(category, "That as a ", ""), "That as an ", "")
  }

  /** A label "That as a X" is shown as X, when X holds no 'T'. */
  lemma DisplayLabelA(rest: string)
    requires 'T' !in rest
    ensures DisplayLabel("That as a " + rest) == rest
  {
    ReplaceAllPrefix("That as a ", rest, "");
    assert "" + ReplaceAll(rest, "That as a ", "") == ReplaceAll(rest, "That as a ", "");
    ReplaceAllNoHead(rest, "That as a ", "");
    ReplaceAllNoHead(rest, "That as an ", "");
  }

  /** A label "That as an X" is shown as X, when X holds no 'T': the first replacement
      does not apply, since "That as an" differs from "That as a " in its tenth
      character. */
  lemma DisplayLabelAn(rest: string)
    requires 'T' !in rest
    ensures DisplayLabel("That as an " + rest) == rest
  {
    var s := "That as an " + rest;
    assert !StartsWith(s, "That as a ") by { assert s[9] == 'n'; }
    assert s == [s[0]] + s[1..];
    assert 'T' !in s[1..] by {
      assert s[1..] == "hat as an " + rest;
    }
    ReplaceAllNoHead(s[1..], "That as a ", "");
    assert ReplaceAll(s, "That as a ", "") == s;
    ReplaceAllPrefix("That as an ", rest, "");
    assert "" + ReplaceAll(rest, "That as an ", "") == ReplaceAll(rest, "That as an ", "");
    ReplaceAllNoHead(rest, "That as an ", "");
  }

  /** The five categories as the charts and reports show them. */
  const Categories: seq<string> :=
    ["Conjunction for a Noun", "Adverb", "Conjunction for a Verb", "Singular Determiner", "Relative Pronoun"]

  /** Each label is shown as its category. */
  lemma DisplayLabels()
    ensures |Categories| == |FileLabels|
    ensures forall k :: 0 <= k < |FileLabels| ==> DisplayLabel(FileLabels[k].1) == Categories[k]
  {
    forall k | 0 <= k < |FileLabels| ensures DisplayLabel(FileLabels[k].1) == Categories[k] {
      if k == 1 {
        DisplayLabelAn(Categories[k]);
      } else {
        DisplayLabelA(Categories[k]);
      }
    }
  }

  /** The categories all differ, so the dictionaries keyed by display label keep every
      category apart. */
  lemma CategoriesDistinct()
    ensures NoDuplicates(Categories)
  {
  }

  // ----- the sentence-level loop -----

  /** `sentence_counts` and `sentence_lengths`, by category label. */
  datatype SentenceTables = SentenceTables(counts: map<string, nat>, lengths: map<string, seq<nat>>)

  /** The tables after the loop over `fileLabels`: each file that exists under
      `dataFolder` is analysed and recorded under its label; a missing one is skipped. */
  function Tabulate(texts: Texts, dataFolder: string, fileLabels: seq<(string, string)>): SentenceTables
  {
    if fileLabels == [] then SentenceTables(map[], map[])
    else
      var t := Tabulate(texts, dataFolder, fileLabels[..|fileLabels| - 1]);
      var (file, category) := fileLabels[|fileLabels| - 1];
      var path := PathJoin(dataFolder, file);
      if path in texts then
        var a := AnalyzeFile(texts[path]);
        SentenceTables(t.counts[category := a.numSentences], t.lengths[category := a.lengths])
      else t
  }

  /** The loop of lines 44-50 (statical-analysis.py) and 55-61 (statical_analysis.py). */
  method AnalyzeSentences(texts: Texts, dataFolder: string, fileLabels: seq<(string, string)>)
    returns (sentenceCounts: map<string, nat>, sentenceLengths: map<string, seq<nat>>)
    ensures SentenceTables(sentenceCounts, sentenceLengths) == Tabulate(texts, dataFolder, fileLabels)
  {
    sentenceCounts, sentenceLengths := map[], map[];
    for i := 0 to |fileLabels|
      invariant SentenceTables(sentenceCounts, sentenceLengths) == Tabulate(texts, dataFolder, fileLabels[..i])
    {
      assert fileLabels[..i + 1][..i] == fileLabels[..i];
      var (file, category) := fileLabels[i];
      var path := PathJoin(dataFolder, file);
      if path in texts {
        var a := AnalyzeFile(texts[path]);
        sentenceCounts := sentenceCounts[category := a.numSentences];
        sentenceLengths := sentenceLengths[category := a.lengths];
      }
    }
    assert fileLabels[..|fileLabels|] == fileLabels;
  }

  /** The labels of the files in `fileLabels` that exist under `dataFolder`. */
  function Found(texts: Texts, dataFolder: string, fileLabels: seq<(string, string)>): set<string>
  {
    set k | 0 <= k < |fileLabels| && PathJoin(dataFolder, fileLabels[k].0) in texts :: fileLabels[k].1
  }

  lemma FoundStep(texts: Texts, dataFolder: string, fileLabels: seq<(string, string)>)
    requires fileLabels != []
    ensures var n := |fileLabels| - 1;
      Found(texts, dataFolder, fileLabels)
      == Found(texts, dataFolder, fileLabels[..n])
         + (if PathJoin(dataFolder, fileLabels[n].0) in texts then {fileLabels[n].1} else {})
  {
    var n := |fileLabels| - 1;
    var init := fileLabels[..n];
    forall c | c in Found(texts, dataFolder, fileLabels)
      ensures c in Found(texts, dataFolder, init) || (PathJoin(dataFolder, fileLabels[n].0) in texts && c == fileLabels[n].1)
    {
      var k :| 0 <= k < |fileLabels| && PathJoin(dataFolder, fileLabels[k].0) in texts && c == fileLabels[k].1;
      if k < n { assert init[k] == fileLabels[k]; }
    }
    forall c | c in Found(texts, dataFolder, init) ensures c in Found(texts, dataFolder, fileLabels) {
      var k :| 0 <= k < n && PathJoin(dataFolder, init[k].0) in texts && c == init[k].1;
      assert fileLabels[k] == init[k];
    }
  }

  /** A category is recorded, in both tables, exactly when one of its files exists. */
  lemma {:induction false} TabulateKeys(texts: Texts, dataFolder: string, fileLabels: seq<(string, string)>)
    ensures Tabulate(texts, dataFolder, fileLabels).counts.Keys == Found(texts, dataFolder, fileLabels)
    ensures Tabulate(texts, dataFolder, fileLabels).lengths.Keys == Found(texts, dataFolder, fileLabels)
  {
    if fileLabels != [] {
      TabulateKeys(texts, dataFolder, fileLabels[..|fileLabels| - 1]);
      FoundStep(texts, dataFolder, fileLabels);
    }
  }

  /** Every recorded count is the length of its length list, and every recorded length
      is at least one word. */
  lemma {:induction false} TabulateAgrees(texts: Texts, dataFolder: string, fileLabels: seq<(string, string)>)
    ensures forall category :: category in Tabulate(texts, dataFolder, fileLabels).counts
              && category in Tabulate(texts, dataFolder, fileLabels).lengths
              ==> Tabulate(texts, dataFolder, fileLabels).counts[category] == |Tabulate(texts, dataFolder, fileLabels).lengths[category]|
                  && forall i :: 0 <= i < |Tabulate(texts, dataFolder, fileLabels).lengths[category]|
                       ==> Tabulate(texts, dataFolder, fileLabels).lengths[category][i] >= 1
  {
    if fileLabels != [] {
      var n := |fileLabels| - 1;
      TabulateAgrees(texts, dataFolder, fileLabels[..n]);
      var path := PathJoin(dataFolder, fileLabels[n].0);
      if path in texts {
        AnalyzeFileFacts(texts[path]);
      }
    }
  }

  /** With distinct labels, a file that exists is recorded under its own label with its
      own analysis. */
  lemma {:induction false} TabulateRecords(texts: Texts, dataFolder: string, fileLabels: seq<(string, string)>, k: nat)
    requires k < |fileLabels|
    requires forall i, j :: 0 <= i < j < |fileLabels| ==> fileLabels[i].1 != fileLabels[j].1
    requires PathJoin(dataFolder, fileLabels[k].0) in texts
    ensures fileLabels[k].1 in Tabulate(texts, dataFolder, fileLabels).lengths
    ensures Tabulate(texts, dataFolder, fileLabels).lengths[fileLabels[k].1]
         == AnalyzeFile(texts[PathJoin(dataFolder, fileLabels[k].0)]).lengths
  {
    var n := |fileLabels| - 1;
    if k < n {
      var init := fileLabels[..n];
      assert init[k] == fileLabels[k];
      TabulateRecords(texts, dataFolder, init, k);
    }
  }
}
