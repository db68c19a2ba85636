/** statical_analysis.py: the sentence-level analysis of the test files under
    "Data/Test", then the word-level analysis and the further-analysis report. */
module StaticalAnalysis {
  import opened Text
  import opened Order
  import opened TextStatistics
  import opened WordStatistics

  const DataFolder := "Data/Test"

  /** `file_labels.values()`, in order. */
  function Labels(): (labels: seq<string>)
    ensures |labels| == |FileLabels|
    ensures forall k :: 0 <= k < |labels| ==> labels[k] == FileLabels[k].1
  {
    seq(|FileLabels|, k requires 0 <= k < |FileLabels| => FileLabels[k].1)
  }

  /** The configured labels all differ, since their display labels do. */
  lemma LabelsDistinct()
    ensures forall i, j :: 0 <= i < j < |FileLabels| ==> FileLabels[i].1 != FileLabels[j].1
  {
    DisplayLabels();
    CategoriesDistinct();
    forall i, j | 0 <= i < j < |FileLabels| ensures FileLabels[i].1 != FileLabels[j].1 {
      assert DisplayLabel(FileLabels[i].1) == Categories[i] != Categories[j] == DisplayLabel(FileLabels[j].1);
    }
  }

  /** Every configured label has a diversity and top words exactly when every data file
      exists. */
  lemma EveryLabelFound(texts: Texts, stopWords: set<string>)
    ensures var t := TabulateWords(texts, DataFolder, FileLabels, stopWords);
      |Labels()| == |FileLabels|
      && ((forall k :: 0 <= k < |Labels()| ==> Labels()[k] in t.diversity && Labels()[k] in t.topWords)
          <==> forall k :: 0 <= k < |FileLabels| ==> PathJoin(DataFolder, FileLabels[k].0) in texts)
  {
    LabelsDistinct();
    ReportCompletes(texts, DataFolder, FileLabels, stopWords);
  }

  /** The script: the sentence tables, the word tables, and the report, which is
      complete exactly when all five data files exist; otherwise it stops at the first
      category whose file is missing. */
  method Analyze(texts: Texts, stopWords: set<string>)
    returns (sentences: SentenceTables, words: WordTables, report: seq<ReportEntry>, ok: bool)
    ensures sentences == Tabulate(texts, DataFolder, FileLabels)
    ensures words == TabulateWords(texts, DataFolder, FileLabels, stopWords)
    ensures ok <==> forall k :: 0 <= k < |FileLabels| ==> PathJoin(DataFolder, FileLabels[k].0) in texts
    ensures ok ==> |report| == |FileLabels|
    ensures !ok ==> |report| < |FileLabels| && PathJoin(DataFolder, FileLabels[|report|].0) !in texts
    ensures forall k :: 0 <= k < |report| ==>
              && PathJoin(DataFolder, FileLabels[k].0) in texts
              && FileLabels[k].1 in words.diversity && FileLabels[k].1 in words.topWords
              && report[k] == ReportEntry(FileLabels[k].1, words.diversity[FileLabels[k].1], words.topWords[FileLabels[k].1])
  {
    var counts, lengths := AnalyzeSentences(texts, DataFolder, FileLabels);
    sentences := SentenceTables(counts, lengths);
    words := AnalyzeWords(texts, DataFolder, FileLabels, stopWords);
    report, ok := FurtherAnalysis(words, Labels());
    EveryLabelFound(texts, stopWords);
    LabelsDistinct();
    forall k | 0 <= k < |report| ensures PathJoin(DataFolder, FileLabels[k].0) in texts {
      LabelFound(texts, DataFolder, FileLabels, stopWords, k);
    }
    if !ok {
      LabelFound(texts, DataFolder, FileLabels, stopWords, |report|);
    }
  }
}
