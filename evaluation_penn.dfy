/** evaluation_penn.py: the evaluation with the English Penn Treebank tagger, whose tags
    may carry a "/" suffix that is cut off. */
module EvaluationPenn {
  import opened Text
  import opened Wrappers
  import opened Evaluation
  import opened EvaluationRun

  const DataFolder := "Data/Test"

  /** The results files are `Results/results_<id>.txt`. */
  const Prefix := "results_"

  const Configs: seq<FileConfig> := [
    FileConfig("NNC_test_text", "IN", PathJoin(DataFolder, "NNC_test_text.txt")),
    FileConfig("that_adv", "RB", PathJoin(DataFolder, "that_adv.txt")),
    FileConfig("that_conjunction", "IN", PathJoin(DataFolder, "that_conjunction.txt")),
    FileConfig("that_determiner", "DT", PathJoin(DataFolder, "that_determiner.txt")),
    FileConfig("that_pronoun", "WDT", PathJoin(DataFolder, "that_pronoun.txt"))]

  /** `get_that_tag` over the tagger's output: the main tag of the first "that", the part
      of its second field before any "/". */
  function GetThatTag(tagger: TagText): string -> Prediction
  {
    s => ThatTag(tagger(s), BeforeSlash)
  }

  /** The tag returned is the first "that" line's second field up to its first "/". */
  lemma GetThatTagIsFirst(tagger: TagText, sentence: string)
    ensures GetThatTag(tagger)(sentence)
         == match FirstThat(tagger(sentence))
            case None => None
            case Some(k) => Some(BeforeSlash(SplitOn(tagger(sentence)[k], '\t')[1]))
  {
    ThatTagIsFirst(tagger(sentence), BeforeSlash);
  }

  /** The script: the loop over the configurations, then the completed confusion matrix. */
  method EvaluatePenn(files: Files, tagger: TagText) returns (run: Run, completion: Option<Completion>)
    ensures run == Evaluate(files, Configs, GetThatTag(tagger), Prefix)
    ensures IsCompletion(run.confMatrix, completion)
  {
    run := EvaluateFiles(files, Configs, GetThatTag(tagger), Prefix);
    completion := CompleteMatrix(run.confMatrix);
  }

  /** No tag in the confusion matrix holds a "/". */
  lemma TagsHaveNoSlash(files: Files, tagger: TagText)
    ensures forall t :: t in PredTags(Evaluate(files, Configs, GetThatTag(tagger), Prefix).confMatrix) && t.Some?
                    ==> '/' !in t.value
  {
    var m := Evaluate(files, Configs, GetThatTag(tagger), Prefix).confMatrix;
    RowTagsArePredictions(files, Configs, GetThatTag(tagger), Prefix);
    forall t | t in PredTags(m) && t.Some? ensures '/' !in t.value {
      var id :| id in m && t in m[id];
      var s :| GetThatTag(tagger)(s) == t;
      ThatTagFrom(tagger(s), BeforeSlash);
    }
  }
}
