/** statical-analysis.py: the sentence-level analysis alone, of the files under "Data". */
module SentenceAnalysis {
  import opened TextStatistics

  const DataFolder := "Data"

  /** The script's loop: the sentence tables of the files that exist. */
  method Analyze(texts: Texts) returns (sentences: SentenceTables)
    ensures sentences == Tabulate(texts, DataFolder, FileLabels)
  {
    var counts, lengths := AnalyzeSentences(texts, DataFolder, FileLabels);
    sentences := SentenceTables(counts, lengths);
  }
}
