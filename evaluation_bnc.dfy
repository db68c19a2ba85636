/** evaluation-bnc.py: the evaluation with the British National Corpus tagger, whose tag
    is the whole second field of the "that" line. */
module EvaluationBnc {
  import opened Text
  import opened Wrappers
  import opened Evaluation
  import opened EvaluationRun

  const DataFolder := "Data"

  /** The results files are `Results/bnc_results_<id>.txt`. */
  const Prefix := "bnc_results_"

  const Configs: seq<FileConfig> := [
    FileConfig("NNC_test_text", "CJT", PathJoin(DataFolder, "NNC_test_text.txt")),
    FileConfig("that_adv", "AV0", PathJoin(DataFolder, "that_adv.txt")),
    FileConfig("that_conjunction", "CJT", PathJoin(DataFolder, "that_conjunction.txt")),
    FileConfig("that_determiner", "DT0", PathJoin(DataFolder, "that_determiner.txt")),
    FileConfig("that_pronoun", "CJT", PathJoin(DataFolder, "that_pronoun.txt"))]

  /** `get_that_tag` over the tagger's output: the second field of the first "that" line,
      as it stands. */
  function GetThatTag(tagger: TagText): string -> Prediction
  {
    s => ThatTag(tagger(s), tag => tag)
  }

  /** The tag returned is exactly the first "that" line's second field. */
  lemma GetThatTagIsFirst(tagger: TagText, sentence: string)
    ensures GetThatTag(tagger)(sentence)
         == match FirstThat(tagger(sentence))
            case None => None
            case Some(k) => Some(SplitOn(tagger(sentence)[k], '\t')[1])
  {
    ThatTagIsFirst(tagger(sentence), tag => tag);
  }

  /** The script: the loop over the configurations, then the completed confusion matrix. */
  method EvaluateBnc(files: Files, tagger: TagText) returns (run: Run, completion: Option<Completion>)
    ensures run == Evaluate(files, Configs, GetThatTag(tagger), Prefix)
    ensures IsCompletion(run.confMatrix, completion)
  {
    run := EvaluateFiles(files, Configs, GetThatTag(tagger), Prefix);
    completion := CompleteMatrix(run.confMatrix);
  }
}
