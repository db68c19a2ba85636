/** our_model_evaluation.py: the evaluation repeated for every trained TreeTagger model
    (each `.par` file of the `Training` folder), each with fresh overall lists, accuracies and confusion rows, and
    with the model's name in front of every output file name. */
module OurModelEvaluation {
  import opened Text
  import opened Wrappers
  import opened Evaluation
  import opened EvaluationRun
  import EvaluationBnc

  const DataFolder := "Data/Test"

  const Configs: seq<FileConfig> := [
    FileConfig("NNC_test_text", "CST", PathJoin(DataFolder, "NNC_test_text.txt")),
    FileConfig("that_adv", "RA", PathJoin(DataFolder, "that_adv.txt")),
    FileConfig("that_conjunction", "CJT", PathJoin(DataFolder, "that_conjunction.txt")),
    FileConfig("that_determiner", "DD1", PathJoin(DataFolder, "that_determiner.txt")),
    FileConfig("that_pronoun", "WPR", PathJoin(DataFolder, "that_pronoun.txt"))]

  /** The model's name: its file name with every ".par" removed. */
  function ModelName(modelPath: string): string
  {
    ReplaceAll(BaseName(modelPath), ".par", "")
  }

  /** The results files of a model are `Results/<model name>_results_<id>.txt`. */
  function Prefix(modelPath: string): string
  {
    ModelName(modelPath) + "_results_"
  }

  /** A model file `<dir>/<stem>.par` is named by its stem. */
  lemma ModelNameOf(dir: string, stem: string)
    requires '/' !in stem && '.' !in stem
    ensures ModelName(dir + "/" + stem + ".par") == stem
  {
    assert dir + "/" + stem + ".par" == dir + "/" + (stem + ".par");
    BaseNameOf(dir, stem + ".par");
    ReplaceAllStem(stem, ".par", ".par", "");
    ReplaceAllPrefix(".par", "", "");
    assert ".par" + "" == ".par";
    assert stem + "" == stem;
  }

  /** What one model's pass leaves: the run of the configuration loop with the model's
      tagger and file prefix, and its completed confusion matrix. */
  ghost predicate ModelEvaluated(files: Files, modelPath: string, tagger: TagText, run: Run, completion: Option<Completion>)
  {
    run == Evaluate(files, Configs, EvaluationBnc.GetThatTag(tagger), Prefix(modelPath))
    && IsCompletion(run.confMatrix, completion)
  }

  /** A pass ends the script when some sentence got no tag: sorting the predicted tags
      raises when None meets a string, and `classification_report` raises when the
      predictions mix None with the string labels, or hold only None. */
  ghost predicate Raises(run: Run)
  {
    None in PredTags(run.confMatrix)
  }

  /** The body of the per-model loop, starting from empty lists and maps; `raised` says
      whether the pass ends the script. */
  method EvaluateModel(files: Files, modelPath: string, tagger: TagText)
    returns (run: Run, completion: Option<Completion>, raised: bool)
    ensures ModelEvaluated(files, modelPath, tagger, run, completion)
    ensures raised <==> Raises(run)
    ensures completion.None? ==> raised
  {
    run := EvaluateFiles(files, Configs, EvaluationBnc.GetThatTag(tagger), Prefix(modelPath));
    completion := CompleteMatrix(run.confMatrix);
    raised := completion.None? || None in completion.value.columns;
  }

  /** The per-model loop: for each model file, in the order given, a fresh pass with that
      model's tagger. A pass in which some sentence got no tag ends the script (its sort
      or its classification report raises): no later model is evaluated. */
  method EvaluateModels(files: Files, modelPaths: seq<string>, taggerOf: string -> TagText)
    returns (runs: seq<Run>, completions: seq<Option<Completion>>)
    ensures EvaluatedUpTo(files, modelPaths, taggerOf, runs, completions)
    ensures forall k :: 0 <= k < |runs| - 1 ==> !Raises(runs[k]) && completions[k].Some?
    ensures |runs| < |modelPaths| ==> runs != [] && Raises(runs[|runs| - 1])
    ensures (forall k :: 0 <= k < |runs| ==> !Raises(runs[k])) ==> |runs| == |modelPaths|
  {
    runs, completions := [], [];
    while |runs| < |modelPaths|
      invariant EvaluatedUpTo(files, modelPaths, taggerOf, runs, completions)
      invariant forall k :: 0 <= k < |runs| ==> !Raises(runs[k]) && completions[k].Some?
      decreases |modelPaths| - |runs|
    {
      var raised;
      runs, completions, raised := EvaluateNext(files, modelPaths, taggerOf, runs, completions);
      if raised {
        return;
      }
    }
  }

  /** The passes of the first `|runs|` models, each with its run and its completion. */
  ghost predicate EvaluatedUpTo(files: Files, modelPaths: seq<string>, taggerOf: string -> TagText,
                                runs: seq<Run>, completions: seq<Option<Completion>>)
  {
    && |completions| == |runs| <= |modelPaths|
    && forall k {:trigger ModelEvaluated(files, modelPaths[k], taggerOf(modelPaths[k]), runs[k], completions[k])}
         :: 0 <= k < |runs| ==> ModelEvaluated(files, modelPaths[k], taggerOf(modelPaths[k]), runs[k], completions[k])
  }

  /** One pass of the per-model loop: the next model's evaluation. */
  method EvaluateNext(files: Files, modelPaths: seq<string>, taggerOf: string -> TagText,
                      runs: seq<Run>, completions: seq<Option<Completion>>)
    returns (runs': seq<Run>, completions': seq<Option<Completion>>, raised: bool)
    requires EvaluatedUpTo(files, modelPaths, taggerOf, runs, completions) && |runs| < |modelPaths|
    ensures EvaluatedUpTo(files, modelPaths, taggerOf, runs', completions')
    ensures |runs'| == |runs| + 1 && |completions'| == |completions| + 1
    ensures forall k :: 0 <= k < |runs| ==> runs'[k] == runs[k] && completions'[k] == completions[k]
    ensures raised <==> Raises(runs'[|runs|])
    ensures completions'[|runs|].None? ==> raised
  {
    var path := modelPaths[|runs|];
    var run, completion;
    run, completion, raised := EvaluateModel(files, path, taggerOf(path));
    runs' := runs + [run];
    completions' := completions + [completion];
    EvaluatedUpToNext(files, modelPaths, taggerOf, runs, completions, run, completion);
  }

  /** The passes so far, followed by the next model's pass, are the passes of one more model. */
  lemma EvaluatedUpToNext(files: Files, modelPaths: seq<string>, taggerOf: string -> TagText,
                          runs: seq<Run>, completions: seq<Option<Completion>>, run: Run, completion: Option<Completion>)
    requires EvaluatedUpTo(files, modelPaths, taggerOf, runs, completions) && |runs| < |modelPaths|
    requires ModelEvaluated(files, modelPaths[|runs|], taggerOf(modelPaths[|runs|]), run, completion)
    ensures EvaluatedUpTo(files, modelPaths, taggerOf, runs + [run], completions + [completion])
  {
    var runs', completions' := runs + [run], completions + [completion];
    forall k | 0 <= k < |runs|
      ensures ModelEvaluated(files, modelPaths[k], taggerOf(modelPaths[k]), runs'[k], completions'[k])
    {
      assert runs'[k] == runs[k] && completions'[k] == completions[k];
    }
    assert runs'[|runs|] == run && completions'[|runs|] == completion;
  }

  /** Every results file of a model lies directly in the output folder, its name made of
      the model's name (which holds no "/"), "_results_" and the file id. */
  lemma ModelOutputPath(modelPath: string, id: string)
    ensures '/' !in ModelName(modelPath)
    ensures OutputPath(Prefix(modelPath), id) == OutputFolder + "/" + ModelName(modelPath) + "_results_" + id + ".txt"
  {
    ReplaceAllKeepsOut(BaseName(modelPath), ".par", "", '/');
    var name := Prefix(modelPath) + id + ".txt";
    if ModelName(modelPath) != [] {
      assert name[0] == ModelName(modelPath)[0];
    }
  }
}
