/** The loop of an evaluation script over its file configurations, and the completion of
    the per-file confusion rows to one sorted column set. A configuration whose file is
    missing still gets an (empty) confusion row, but no accuracy entry and no results
    file. */
module EvaluationRun {
  import opened Text
  import opened Order
  import opened Wrappers
  import opened Evaluation

  /** The test files that exist, by path, as their lines. */
  type Files = map<string, seq<string>>

  /** What a run over the configurations leaves behind: the labels and predictions of
      every sentence in order, the accuracy entries, the confusion rows by file id, and
      the results files written, by path. */
  datatype Run = Run(
    overallTrue: seq<string>,
    overallPred: seq<Prediction>,
    accuracies: map<string, AccuracyEntry>,
    confMatrix: map<string, map<Prediction, nat>>,
    written: map<string, string>)

  const OutputFolder := "Results"

  /** `os.path.join(output_folder, f"{prefix}{file_id}.txt")`. */
  function OutputPath(prefix: string, id: string): string
  {
    PathJoin(OutputFolder, prefix + id + ".txt")
  }

  /** The scored sentences of one configuration's file; none when it is missing. */
  function FileResults(files: Files, c: FileConfig, getThatTag: string -> Prediction): seq<Scored>
  {
    if c.path in files then Score(Sentences(files[c.path]), c.expectedLabel, getThatTag) else []
  }

  /** The accuracy entry of a file's results. */
  function Entry(results: seq<Scored>, expected: string): AccuracyEntry
  {
    AccuracyEntry(Accuracy(Count(Predicted(results), Some(expected)), |results|), |results|)
  }

  /** One pass of the configuration loop. */
  function Step(r: Run, files: Files, c: FileConfig, getThatTag: string -> Prediction, prefix: string): Run
  {
    if c.path in files then
      var results := FileResults(files, c, getThatTag);
      Run(r.overallTrue + Expected(results),
          r.overallPred + Predicted(results),
          r.accuracies[c.id := Entry(results, c.expectedLabel)],
          r.confMatrix[c.id := CountMap(Predicted(results))],
          r.written[OutputPath(prefix, c.id) := Terminated(ResultLines(results))])
    else
      r.(confMatrix := r.confMatrix[c.id := map[]])
  }

  const Start := Run([], [], map[], map[], map[])

  /** The run over the configurations, in order. */
  function Evaluate(files: Files, configs: seq<FileConfig>, getThatTag: string -> Prediction, prefix: string): Run
  {
    if configs == [] then Start
    else
      var n := |configs| - 1;
      Step(Evaluate(files, configs[..n], getThatTag, prefix), files, configs[n], getThatTag, prefix)
  }

  // ----- the loop -----

  /** The per-configuration loop of an evaluation script: each existing file is scored,
      its labels and predictions are appended to the overall lists, its accuracy and
      confusion row are recorded and its results file is written; a missing file gets
      an empty confusion row only. */
  method EvaluateFiles(files: Files, configs: seq<FileConfig>, getThatTag: string -> Prediction, prefix: string)
    returns (run: Run)
    ensures run == Evaluate(files, configs, getThatTag, prefix)
  {
    var overallTrue: seq<string> := [];
    var overallPred: seq<Prediction> := [];
    var accuracies: map<string, AccuracyEntry> := map[];
    var confMatrix: map<string, map<Prediction, nat>> := map[];
    var written: map<string, string> := map[];
    for i := 0 to |configs|
      invariant Run(overallTrue, overallPred, accuracies, confMatrix, written)
             == Evaluate(files, configs[..i], getThatTag, prefix)
    {
      var c := configs[i];
      assert configs[..i + 1][..i] == configs[..i];
      if c.path in files {
        var results, correct, total, row := ScoreFile(files[c.path], c.expectedLabel, getThatTag);
        overallTrue := overallTrue + Expected(results);
        overallPred := overallPred + Predicted(results);
        confMatrix := confMatrix[c.id := row];
        accuracies := accuracies[c.id := AccuracyEntry(Accuracy(correct, total), total)];
        var text := WriteResults(results);
        written := written[OutputPath(prefix, c.id) := text];
      } else {
        confMatrix := confMatrix[c.id := map[]];
      }
    }
    assert configs[..|configs|] == configs;
    run := Run(overallTrue, overallPred, accuracies, confMatrix, written);
  }

  // ----- what a run satisfies -----

  /** The number of sentences counted over all configurations. */
  function TotalSentences(files: Files, configs: seq<FileConfig>, getThatTag: string -> Prediction): nat
  {
    if configs == [] then 0
    else
      var n := |configs| - 1;
      TotalSentences(files, configs[..n], getThatTag) + |FileResults(files, configs[n], getThatTag)|
  }

  /** Each counted sentence adds one label and one prediction to the overall lists. */
  lemma {:induction false} OverallLengths(files: Files, configs: seq<FileConfig>, getThatTag: string -> Prediction, prefix: string)
    ensures |Evaluate(files, configs, getThatTag, prefix).overallTrue| == TotalSentences(files, configs, getThatTag)
    ensures |Evaluate(files, configs, getThatTag, prefix).overallPred| == TotalSentences(files, configs, getThatTag)
  {
    if configs != [] {
      OverallLengths(files, configs[..|configs| - 1], getThatTag, prefix);
    }
  }

  /** Every configuration gets a confusion row, whether or not its file exists. */
  lemma {:induction false} RowPerConfig(files: Files, configs: seq<FileConfig>, getThatTag: string -> Prediction, prefix: string)
    ensures forall id :: id in Evaluate(files, configs, getThatTag, prefix).confMatrix
                     <==> exists k :: 0 <= k < |configs| && configs[k].id == id
  {
    if configs != [] {
      var n := |configs| - 1;
      RowPerConfig(files, configs[..n], getThatTag, prefix);
      forall id ensures id in Evaluate(files, configs, getThatTag, prefix).confMatrix
                    <==> exists k :: 0 <= k < |configs| && configs[k].id == id
      {
        if exists k :: 0 <= k < |configs| && configs[k].id == id {
          var k :| 0 <= k < |configs| && configs[k].id == id;
          if k < n { assert configs[..n][k] == configs[k]; }
        }
        if exists k :: 0 <= k < n && configs[..n][k].id == id {
          var k :| 0 <= k < n && configs[..n][k].id == id;
          assert configs[k].id == id;
        }
      }
    }
  }

  /** Only a configuration whose file exists gets an accuracy entry. */
  lemma {:induction false} AccuracyOnlyIfFound(files: Files, configs: seq<FileConfig>, getThatTag: string -> Prediction, prefix: string)
    ensures forall id :: id in Evaluate(files, configs, getThatTag, prefix).accuracies
                     <==> exists k :: 0 <= k < |configs| && configs[k].id == id && configs[k].path in files
  {
    if configs != [] {
      var n := |configs| - 1;
      AccuracyOnlyIfFound(files, configs[..n], getThatTag, prefix);
      forall id ensures id in Evaluate(files, configs, getThatTag, prefix).accuracies
                    <==> exists k :: 0 <= k < |configs| && configs[k].id == id && configs[k].path in files
      {
        if exists k :: 0 <= k < |configs| && configs[k].id == id && configs[k].path in files {
          var k :| 0 <= k < |configs| && configs[k].id == id && configs[k].path in files;
          if k < n { assert configs[..n][k] == configs[k]; }
        }
        if exists k :: 0 <= k < n && configs[..n][k].id == id && configs[..n][k].path in files {
          var k :| 0 <= k < n && configs[..n][k].id == id && configs[..n][k].path in files;
          assert configs[k] == configs[..n][k];
        }
      }
    }
  }

  /** Every tag in a confusion row is a prediction `getThatTag` made for some sentence. */
  lemma {:induction false} RowTagsArePredictions(files: Files, configs: seq<FileConfig>, getThatTag: string -> Prediction,
                                                  prefix: string)
    ensures forall id, t :: id in Evaluate(files, configs, getThatTag, prefix).confMatrix
                         && t in Evaluate(files, configs, getThatTag, prefix).confMatrix[id]
                         ==> exists s :: getThatTag(s) == t
  {
    if configs != [] {
      var n := |configs| - 1;
      var c := configs[n];
      RowTagsArePredictions(files, configs[..n], getThatTag, prefix);
      if c.path in files {
        var results := FileResults(files, c, getThatTag);
        var preds := Predicted(results);
        CountMapFacts(preds);
        forall t | t in CountMap(preds) ensures exists s :: getThatTag(s) == t {
          var i :| 0 <= i < |preds| && preds[i] == t;
          ColumnsAt(results, i);
          ScoreAt(Sentences(files[c.path]), c.expectedLabel, getThatTag, i);
        }
      }
    }
  }

  /** The paths of the results files written for the configurations whose file exists. */
  function OutputPaths(files: Files, configs: seq<FileConfig>, prefix: string): set<string>
  {
    set k | 0 <= k < |configs| && configs[k].path in files :: OutputPath(prefix, configs[k].id)
  }

  lemma WrittenStep(r: Run, files: Files, c: FileConfig, getThatTag: string -> Prediction, prefix: string)
    ensures Step(r, files, c, getThatTag, prefix).written.Keys
         == r.written.Keys + (if c.path in files then {OutputPath(prefix, c.id)} else {})
  {
  }

  lemma OutputPathsStep(files: Files, configs: seq<FileConfig>, prefix: string)
    requires configs != []
    ensures OutputPaths(files, configs, prefix)
         == OutputPaths(files, configs[..|configs| - 1], prefix)
          + (if configs[|configs| - 1].path in files then {OutputPath(prefix, configs[|configs| - 1].id)} else {})
  {
    var n := |configs| - 1;
    forall p | p in OutputPaths(files, configs, prefix)
      ensures p in OutputPaths(files, configs[..n], prefix) || (configs[n].path in files && p == OutputPath(prefix, configs[n].id))
    {
      var k :| 0 <= k < |configs| && configs[k].path in files && p == OutputPath(prefix, configs[k].id);
      if k < n { assert configs[..n][k] == configs[k]; }
    }
    forall p | p in OutputPaths(files, configs[..n], prefix) ensures p in OutputPaths(files, configs, prefix) {
      var k :| 0 <= k < n && configs[..n][k].path in files && p == OutputPath(prefix, configs[..n][k].id);
      assert configs[k] == configs[..n][k];
    }
  }

  /** A results file is written exactly for each configuration whose file exists, under
      the output folder with the prefix and the file id. */
  lemma {:induction false} WrittenPaths(files: Files, configs: seq<FileConfig>, getThatTag: string -> Prediction, prefix: string)
    ensures Evaluate(files, configs, getThatTag, prefix).written.Keys == OutputPaths(files, configs, prefix)
  {
    if configs != [] {
      var n := |configs| - 1;
      WrittenPaths(files, configs[..n], getThatTag, prefix);
      WrittenStep(Evaluate(files, configs[..n], getThatTag, prefix), files, configs[n], getThatTag, prefix);
      OutputPathsStep(files, configs, prefix);
    }
  }

  /** Every accuracy entry lies between 0 and 100. */
  lemma {:induction false} AccuracyBounds(files: Files, configs: seq<FileConfig>, getThatTag: string -> Prediction, prefix: string)
    ensures forall id :: id in Evaluate(files, configs, getThatTag, prefix).accuracies
                     ==> 0.0 <= Evaluate(files, configs, getThatTag, prefix).accuracies[id].accuracy <= 100.0
  {
    if configs != [] {
      var n := |configs| - 1;
      AccuracyBounds(files, configs[..n], getThatTag, prefix);
      var c := configs[n];
      var before := Evaluate(files, configs[..n], getThatTag, prefix);
      var after := Evaluate(files, configs, getThatTag, prefix);
      if c.path in files {
        var entry := Entry(FileResults(files, c, getThatTag), c.expectedLabel);
        CorrectAtMostTotal(FileResults(files, c, getThatTag), c.expectedLabel);
        assert 0.0 <= entry.accuracy <= 100.0;
        assert after.accuracies == before.accuracies[c.id := entry];
      } else {
        assert after.accuracies == before.accuracies;
      }
    }
  }

  /** The confusion row of the last configuration: the prediction counts of its file, or
      empty when the file is missing. */
  lemma LastRow(files: Files, configs: seq<FileConfig>, getThatTag: string -> Prediction, prefix: string)
    requires configs != []
    ensures var c := configs[|configs| - 1];
      Evaluate(files, configs, getThatTag, prefix).confMatrix[c.id]
        == if c.path in files then CountMap(Predicted(FileResults(files, c, getThatTag))) else map[]
  {
  }

  /** Every row of a run's confusion matrix has counts that sum, over its own cells, to the
      number of sentences of a file (zero for an empty row). */
  lemma {:induction false} RowsSumToTotals(files: Files, configs: seq<FileConfig>, getThatTag: string -> Prediction, prefix: string,
                                            id: string, cols: seq<Prediction>)
    requires id in Evaluate(files, configs, getThatTag, prefix).confMatrix
    requires NoDuplicates(cols)
    requires forall t :: t in Evaluate(files, configs, getThatTag, prefix).confMatrix[id] ==> t in cols
    ensures exists k :: 0 <= k < |configs| && configs[k].id == id
                     && RowSum(Evaluate(files, configs, getThatTag, prefix).confMatrix[id], cols)
                        == |FileResults(files, configs[k], getThatTag)|
  {
    var n := |configs| - 1;
    var c := configs[n];
    var row := Evaluate(files, configs, getThatTag, prefix).confMatrix[id];
    if c.id == id {
      var results := FileResults(files, c, getThatTag);
      if c.path in files {
        RowSumIsTotal(results, cols);
      } else {
        RowSumEmpty(cols);
      }
    } else {
      RowsSumToTotals(files, configs[..n], getThatTag, prefix, id, cols);
      var k :| 0 <= k < n && configs[..n][k].id == id
             && RowSum(Evaluate(files, configs[..n], getThatTag, prefix).confMatrix[id], cols)
                == |FileResults(files, configs[..n][k], getThatTag)|;
      assert configs[k] == configs[..n][k];
    }
  }

  // ----- completing the matrix -----

  /** The tags predicted in any row: `all_pred_tags` before sorting. */
  function PredTags(confMatrix: map<string, map<Prediction, nat>>): set<Prediction>
  {
    set id, t | id in confMatrix && t in confMatrix[id] :: t
  }

  /** The union of the rows' keys, gathered row by row. */
  method AllPredTags(confMatrix: map<string, map<Prediction, nat>>) returns (tags: set<Prediction>)
    ensures tags == PredTags(confMatrix)
  {
    var ids := Enumerate(confMatrix.Keys);
    tags := {};
    for i := 0 to |ids|
      invariant forall t :: t in tags <==> exists k :: 0 <= k < i && t in confMatrix[ids[k]]
    {
      tags := tags + confMatrix[ids[i]].Keys;
    }
    forall t ensures t in tags <==> t in PredTags(confMatrix) {
      if t in PredTags(confMatrix) {
        var id :| id in confMatrix && t in confMatrix[id];
        var k :| 0 <= k < |ids| && ids[k] == id;
      }
    }
  }

  /** Python's `<` between two predictions as `sorted` uses it: between two tags it is
      the string order; `None` is not ordered against anything. */
  predicate TagLt(a: Prediction, b: Prediction)
  {
    a.Some? && b.Some? && StrLt(a.value, b.value)
  }

  /** The tags as predictions. */
  function Wrap(s: seq<string>): (r: seq<Prediction>)
    ensures |r| == |s|
    ensures forall i :: 0 <= i < |r| ==> r[i] == Some(s[i])
  {
    if s == [] then [] else [Some(s[0])] + Wrap(s[1..])
  }

  /** `sorted(list(all_pred_tags))`: the tags in ascending order, or `None` when the sort
      raises because `None` has to be compared with a tag. */
  method SortTags(tags: set<Prediction>) returns (r: Option<seq<Prediction>>)
    ensures r.None? <==> None in tags && |tags| >= 2
    ensures r.Some? ==> forall x :: x in r.value <==> x in tags
    ensures r.Some? ==> Ascending(r.value, TagLt) && NoDuplicates(r.value)
  {
    if None in tags {
      if |tags| >= 2 {
        return None;
      }
      var others := tags - {None};
      assert |others| == |tags| - 1 == 0;
      assert tags == {None} by {
        assert others == {};
      }
      return Some([None]);
    }
    var names := set p | p in tags :: p.value;
    StrLtStrictTotal();
    var sorted := SortSet(names, StrLt);
    var cols := Wrap(sorted);
    forall x ensures x in cols <==> x in tags {
      if x in tags {
        assert x.value in names;
        var i :| 0 <= i < |sorted| && sorted[i] == x.value;
        assert cols[i] == x;
      }
      if x in cols {
        var i :| 0 <= i < |cols| && cols[i] == x;
        assert sorted[i] in names;
        var p :| p in tags && p.value == sorted[i];
        assert p == x;
      }
    }
    forall i, j | 0 <= i < j < |cols| ensures TagLt(cols[i], cols[j]) && cols[i] != cols[j] {
      assert StrLt(sorted[i], sorted[j]);
      StrLtIrreflexive(sorted[i]);
    }
    r := Some(cols);
  }

  /** A row completed to the columns: every column, its count or 0. */
  function Fill(row: map<Prediction, nat>, columns: seq<Prediction>): (r: map<Prediction, nat>)
    ensures forall t :: t in r <==> t in columns
  {
    map t | t in columns :: Get(row, t)
  }

  datatype Completion = Completion(columns: seq<Prediction>, rows: map<string, map<Prediction, nat>>)

  /** What completing `confMatrix` gives: nothing exactly when the tags include `None`
      and something else (the sort raises); otherwise the distinct tags in ascending
      order as columns, and for every file id its row filled to those columns. */
  ghost predicate IsCompletion(confMatrix: map<string, map<Prediction, nat>>, r: Option<Completion>)
  {
    && (r.None? <==> None in PredTags(confMatrix) && |PredTags(confMatrix)| >= 2)
    && (r.Some? ==>
        && (forall t :: t in r.value.columns <==> t in PredTags(confMatrix))
        && Ascending(r.value.columns, TagLt) && NoDuplicates(r.value.columns)
        && (forall id :: id in r.value.rows <==> id in confMatrix)
        && (forall id :: id in r.value.rows ==> r.value.rows[id] == Fill(confMatrix[id], r.value.columns)))
  }

  /** `conf_matrix_complete`: every file's row over the sorted union of the predicted tags,
      missing cells 0; nothing when sorting the tags raises. */
  method CompleteMatrix(confMatrix: map<string, map<Prediction, nat>>) returns (r: Option<Completion>)
    ensures IsCompletion(confMatrix, r)
  {
    var tags := AllPredTags(confMatrix);
    var sorted := SortTags(tags);
    if sorted.None? {
      return None;
    }
    var columns := sorted.value;
    var rows := FillRows(confMatrix, columns);
    r := Some(Completion(columns, rows));
  }

  /** `for file_id in conf_matrix`: each row filled to the columns. */
  method FillRows(confMatrix: map<string, map<Prediction, nat>>, columns: seq<Prediction>)
    returns (rows: map<string, map<Prediction, nat>>)
    ensures forall id :: id in rows <==> id in confMatrix
    ensures forall id :: id in rows ==> rows[id] == Fill(confMatrix[id], columns)
  {
    var ids := Enumerate(confMatrix.Keys);
    rows := map[];
    for i := 0 to |ids|
      invariant forall id :: id in rows <==> id in ids[..i]
      invariant forall id :: id in rows ==> id in confMatrix && rows[id] == Fill(confMatrix[id], columns)
    {
      var id := ids[i];
      assert ids[..i + 1] == ids[..i] + [id];
      rows := rows[id := map t | t in columns :: Get(confMatrix[id], t)];
    }
    assert ids[..|ids|] == ids;
  }

  /** Completion keeps every count a row had, and every row gets a cell for every tag
      any row predicted, 0 where it had none. */
  lemma CompletionKeepsCounts(confMatrix: map<string, map<Prediction, nat>>, columns: seq<Prediction>,
                              id: string, t: Prediction)
    requires forall u :: u in columns <==> u in PredTags(confMatrix)
    requires id in confMatrix
    ensures t in confMatrix[id] ==> t in Fill(confMatrix[id], columns) && Fill(confMatrix[id], columns)[t] == confMatrix[id][t]
    ensures t in PredTags(confMatrix) && t !in confMatrix[id] ==> Fill(confMatrix[id], columns)[t] == 0
  {
    if t in confMatrix[id] {
      assert t in PredTags(confMatrix);
    }
  }
}
