/** The bookkeeping the three evaluation scripts share: finding the tag the tagger gives
    the token "that", scoring each test file line by line (totals, correct predictions,
    a confusion row of prediction counts, the per-sentence results), the accuracy entry,
    the per-file results text, and the completion of the confusion rows to one sorted
    column set. The scripts differ only in their labels, their output names and how the
    tag is cut out of the tagger's line; those are parameters here. */
module Evaluation {
  import opened Text
  import opened Order
  import opened Wrappers

  /** What `get_that_tag` returns: a tag, or Python's `None` when no "that" was found. */
  type Prediction = Option<string>

  /** The tagger: a sentence to the lines it prints, `word\tTAG\tlemma` each. */
  type TagText = string -> seq<string>

  /** One `file_configs` entry: its id, the label every sentence of the file should get,
      and its path. */
  datatype FileConfig = FileConfig(id: string, expectedLabel: string, path: string)

  // ----- get_that_tag -----

  /** A tagger line whose first tab field is "that" in any case (and that has a second). */
  predicate IsThatLine(line: string)
  {
    |SplitOn(line, '\t')| >= 2 && Lower(SplitOn(line, '\t')[0]) == "that"
  }

  /** The position of the first "that" line, if any. */
  function FirstThat(lines: seq<string>): (r: Option<nat>)
    ensures r.None? <==> forall i :: 0 <= i < |lines| ==> !IsThatLine(lines[i])
    ensures r.Some? ==> r.value < |lines| && IsThatLine(lines[r.value])
    ensures r.Some? ==> forall i :: 0 <= i < r.value ==> !IsThatLine(lines[i])
  {
    if lines == [] then None
    else if IsThatLine(lines[0]) then Some(0)
    else
      match FirstThat(lines[1..])
      case None => None
      case Some(k) => Some(k + 1)
  }

  /** The scan of `get_that_tag`: the first line with at least two tab fields whose first
      field lower-cases to "that" yields `field` of its second field; no such line gives
      `None`. */
  function ThatTag(lines: seq<string>, field: string -> string): Prediction
  {
    if lines == [] then None
    else
      var parts := SplitOn(lines[0], '\t');
      if |parts| >= 2 && Lower(parts[0]) == "that" then Some(field(parts[1]))
      else ThatTag(lines[1..], field)
  }

  /** The early-return scan agrees with the first-match definition. */
  lemma {:induction false} ThatTagIsFirst(lines: seq<string>, field: string -> string)
    ensures ThatTag(lines, field)
         == match FirstThat(lines)
            case None => None
            case Some(k) => Some(field(SplitOn(lines[k], '\t')[1]))
  {
    if lines != [] && !IsThatLine(lines[0]) {
      ThatTagIsFirst(lines[1..], field);
      assert lines[1..] == lines[1..];
      match FirstThat(lines[1..])
      case None =>
      case Some(k) => assert lines[1..][k] == lines[k + 1];
    }
  }

  /** A tag found is what `field` makes of some second tab field. */
  lemma ThatTagFrom(lines: seq<string>, field: string -> string)
    ensures ThatTag(lines, field).Some? ==> exists x :: ThatTag(lines, field) == Some(field(x))
  {
    ThatTagIsFirst(lines, field);
    match FirstThat(lines)
    case None =>
    case Some(k) =>
      assert ThatTag(lines, field) == Some(field(SplitOn(lines[k], '\t')[1]));
  }

  /** The Penn extraction: the part before the first "/" (`tag.split("/")[0]`). */
  function BeforeSlash(tag: string): (r: string)
    ensures '/' !in r
    ensures StartsWith(tag, r)
    ensures '/' !in tag ==> r == tag
    ensures r != tag ==> tag[|r|] == '/'
  {
    var parts := SplitOn(tag, '/');
    JoinSplitOn(tag, '/');
    assert tag == parts[0] + (if |parts| > 1 then "/" + JoinWith(parts[1..], "/") else "");
    assert '/' !in tag ==> parts == [tag] by {
      if '/' !in tag { SplitOnNone(tag, '/'); }
    }
    parts[0]
  }

  // ----- scoring one file -----

  /** One entry of `file_results`. */
  datatype Scored = Scored(sentence: string, expected: string, predicted: Prediction)

  /** Each sentence with the expected label and the prediction for it, in file order. */
  function Score(sentences: seq<string>, expected: string, getThatTag: string -> Prediction)
    : (r: seq<Scored>)
    ensures |r| == |sentences|
  {
    if sentences == [] then []
    else
      var n := |sentences| - 1;
      Score(sentences[..n], expected, getThatTag) + [Scored(sentences[n], expected, getThatTag(sentences[n]))]
  }

  function Predicted(results: seq<Scored>): (r: seq<Prediction>)
    ensures |r| == |results|
  {
    if results == [] then [] else Predicted(results[..|results| - 1]) + [results[|results| - 1].predicted]
  }

  function Expected(results: seq<Scored>): (r: seq<string>)
    ensures |r| == |results|
  {
    if results == [] then [] else Expected(results[..|results| - 1]) + [results[|results| - 1].expected]
  }

  /** The i-th scored entry is the i-th sentence with the label and its prediction. */
  lemma {:induction false} ScoreAt(sentences: seq<string>, expected: string, getThatTag: string -> Prediction, i: nat)
    requires i < |sentences|
    ensures Score(sentences, expected, getThatTag)[i] == Scored(sentences[i], expected, getThatTag(sentences[i]))
  {
    var n := |sentences| - 1;
    if i < n {
      ScoreAt(sentences[..n], expected, getThatTag, i);
    }
  }

  /** The predictions and the labels, read off the results position by position. */
  lemma {:induction false} ColumnsAt(results: seq<Scored>, i: nat)
    requires i < |results|
    ensures Predicted(results)[i] == results[i].predicted
    ensures Expected(results)[i] == results[i].expected
  {
    var n := |results| - 1;
    if i < n {
      ColumnsAt(results[..n], i);
    }
  }

  /** Python's `row.get(t, 0)`. */
  function Get(row: map<Prediction, nat>, t: Prediction): nat
  {
    if t in row then row[t] else 0
  }

  /** The confusion update: the cell of `t` goes up by one and no other cell changes. */
  function Bump(row: map<Prediction, nat>, t: Prediction): (r: map<Prediction, nat>)
    ensures r.Keys == row.Keys + {t}
    ensures Get(r, t) == Get(row, t) + 1
  {
    row[t := Get(row, t) + 1]
  }

  /** A bump leaves every other cell as it was. */
  lemma BumpOther(row: map<Prediction, nat>, t: Prediction, u: Prediction)
    requires u != t
    ensures Get(Bump(row, t), u) == Get(row, u)
  {
  }

  lemma SentencesStep(lines: seq<string>, i: nat)
    requires i < |lines|
    ensures Sentences(lines[..i + 1])
         == Sentences(lines[..i]) + (if Strip(lines[i]) != "" then [Strip(lines[i])] else [])
  {
    assert lines[..i + 1][..i] == lines[..i];
  }

  /** The running figures of a file agree with its scored sentences: the total, the
      correct predictions and the confusion row. */
  predicate Tallied(results: seq<Scored>, expected: string, correct: nat, total: nat, row: map<Prediction, nat>)
  {
    && total == |results|
    && correct == Count(Predicted(results), Some(expected))
    && row == Tabulate(Predicted(results))
  }

  /** The figures after the first `i` lines of a test file. */
  predicate ScoredUpTo(lines: seq<string>, i: nat, expected: string, getThatTag: string -> Prediction,
                       results: seq<Scored>, correct: nat, total: nat, row: map<Prediction, nat>)
    requires i <= |lines|
  {
    && results == Score(Sentences(lines[..i]), expected, getThatTag)
    && Tallied(results, expected, correct, total, row)
  }

  /** The per-line loop over one test file: every non-blank line, stripped, is a
      sentence; it is counted, scored and added to the confusion row. */
  method ScoreFile(lines: seq<string>, expected: string, getThatTag: string -> Prediction)
    returns (results: seq<Scored>, correct: nat, total: nat, row: map<Prediction, nat>)
    ensures results == Score(Sentences(lines), expected, getThatTag)
    ensures total == |results|
    ensures correct == Count(Predicted(results), Some(expected))
    ensures row == CountMap(Predicted(results))
  {
    results, correct, total, row := [], 0, 0, map[];
    for i := 0 to |lines|
      invariant ScoredUpTo(lines, i, expected, getThatTag, results, correct, total, row)
    {
      results, correct, total, row := ScoreLine(lines, i, expected, getThatTag, results, correct, total, row);
    }
    assert lines[..|lines|] == lines;
    TabulateIsCountMap(Predicted(results));
  }

  /** One pass of the line loop: a non-blank line, stripped, is scored and counted. */
  method ScoreLine(lines: seq<string>, i: nat, expected: string, getThatTag: string -> Prediction,
                   results: seq<Scored>, correct: nat, total: nat, row: map<Prediction, nat>)
    returns (results': seq<Scored>, correct': nat, total': nat, row': map<Prediction, nat>)
    requires i < |lines|
    requires ScoredUpTo(lines, i, expected, getThatTag, results, correct, total, row)
    ensures ScoredUpTo(lines, i + 1, expected, getThatTag, results', correct', total', row')
  {
    SentencesStep(lines, i);
    results', correct', total', row' := results, correct, total, row;
    var sentence := Strip(lines[i]);
    if sentence != "" {
      var predicted := getThatTag(sentence);
      ScoreSnoc(Sentences(lines[..i]), sentence, expected, getThatTag);
      results', correct', total', row' := Tally(results, expected, correct, total, row, Scored(sentence, expected, predicted));
      assert Sentences(lines[..i + 1]) == Sentences(lines[..i]) + [sentence];
    } else {
      assert Sentences(lines[..i + 1]) == Sentences(lines[..i]);
    }
  }

  /** The counting of one scored sentence. */
  method Tally(results: seq<Scored>, expected: string, correct: nat, total: nat, row: map<Prediction, nat>, r: Scored)
    returns (results': seq<Scored>, correct': nat, total': nat, row': map<Prediction, nat>)
    requires Tallied(results, expected, correct, total, row)
    ensures results' == results + [r]
    ensures Tallied(results', expected, correct', total', row')
  {
    var preds := Predicted(results);
    ScoreStep(results, r.sentence, r.expected, r.predicted);
    CountSnoc(preds, r.predicted, Some(expected));
    assert (preds + [r.predicted])[..|preds|] == preds;
    results', total' := results + [r], total + 1;
    correct' := correct;
    if r.predicted == Some(expected) {
      correct' := correct + 1;
    }
    row' := Bump(row, r.predicted);
  }

  lemma ScoreSnoc(sentences: seq<string>, sentence: string, expected: string, getThatTag: string -> Prediction)
    ensures Score(sentences + [sentence], expected, getThatTag)
         == Score(sentences, expected, getThatTag) + [Scored(sentence, expected, getThatTag(sentence))]
  {
    assert (sentences + [sentence])[..|sentences|] == sentences;
  }

  lemma ScoreStep(results: seq<Scored>, sentence: string, expected: string, predicted: Prediction)
    ensures Predicted(results + [Scored(sentence, expected, predicted)]) == Predicted(results) + [predicted]
  {
    var r := results + [Scored(sentence, expected, predicted)];
    assert r[..|r| - 1] == results;
  }

  lemma CountSnoc<T>(s: seq<T>, x: T, y: T)
    ensures Count(s + [x], y) == Count(s, y) + (if x == y then 1 else 0)
  {
    assert (s + [x])[..|s|] == s;
  }

  /** The confusion row as the script builds it, one bump per prediction. */
  function Tabulate(preds: seq<Prediction>): map<Prediction, nat>
  {
    if preds == [] then map[] else Bump(Tabulate(preds[..|preds| - 1]), preds[|preds| - 1])
  }

  /** The row built bump by bump holds, for each prediction made, how often it was
      made, and nothing else. */
  lemma {:induction false} TabulateIsCountMap(preds: seq<Prediction>)
    ensures Tabulate(preds) == CountMap(preds)
  {
    if preds != [] {
      var init := preds[..|preds| - 1];
      TabulateIsCountMap(init);
      assert preds == init + [preds[|preds| - 1]];
      CountMapSnoc(init, preds[|preds| - 1]);
    }
  }

  // ----- what a file's counts satisfy -----

  /** The sum of a confusion row over the columns `cols`. */
  function RowSum(row: map<Prediction, nat>, cols: seq<Prediction>): nat
  {
    if cols == [] then 0 else Get(row, cols[0]) + RowSum(row, cols[1..])
  }

  lemma {:induction false} RowSumCountMap(preds: seq<Prediction>, cols: seq<Prediction>)
    ensures RowSum(CountMap(preds), cols) == SumCounts(cols, preds)
  {
    if cols != [] {
      RowSumCountMap(preds, cols[1..]);
      CountPositive(preds, cols[0]);
    }
  }

  /** An empty row sums to zero over any columns. */
  lemma {:induction false} RowSumEmpty(cols: seq<Prediction>)
    ensures RowSum(map[], cols) == 0
  {
    if cols != [] { RowSumEmpty(cols[1..]); }
  }

  /** The correct predictions are among the sentences counted. */
  lemma CorrectAtMostTotal(results: seq<Scored>, expected: string)
    ensures Count(Predicted(results), Some(expected)) <= |results|
  {
    CountBound(Predicted(results), Some(expected));
  }

  /** The counts of a confusion row, summed over any list of its cells (each once), make
      the file's number of sentences. */
  lemma RowSumIsTotal(results: seq<Scored>, cols: seq<Prediction>)
    requires NoDuplicates(cols)
    requires forall t :: t in CountMap(Predicted(results)) ==> t in cols
    ensures RowSum(CountMap(Predicted(results)), cols) == |results|
  {
    var preds := Predicted(results);
    RowSumCountMap(preds, cols);
    CountMapFacts(preds);
    SumCountsCovers(cols, preds);
  }

  /** The `accuracies` entry of a file that exists. */
  datatype AccuracyEntry = AccuracyEntry(accuracy: real, numSentences: nat)

  /** `(correct / total) * 100`, or 0 for a file without sentences; exact, where the script
      computes in floating point. */
  function Accuracy(correct: nat, total: nat): (r: real)
    ensures total == 0 ==> r == 0.0
    ensures total > 0 ==> r * total as real == 100.0 * correct as real
    ensures correct <= total ==> 0.0 <= r <= 100.0
  {
    if total > 0 then (correct as real / total as real) * 100.0 else 0.0
  }

  // ----- the per-file results text -----

  /** The column separator of a results line. */
  const Bar: string := " | "

  const Header: string := "Sentence" + Bar + "True Label" + Bar + "Predicted Tag"

  const Dashes: string := "----------"

  /** `"-" * 60`. */
  const Rule: string := Dashes + Dashes + Dashes + Dashes + Dashes + Dashes

  /** How an f-string shows a prediction: the tag, or "None". */
  function Show(p: Prediction): string
  {
    match p
    case None => "None"
    case Some(t) => t
  }

  function ResultLine(r: Scored): string
  {
    r.sentence + Bar + r.expected + Bar + Show(r.predicted)
  }

  /** The lines of a results file: header, rule, then one line per scored sentence. */
  function ResultLines(results: seq<Scored>): (r: seq<string>)
    ensures |r| == |results| + 2
    ensures r[0] == Header && r[1] == Rule
    ensures forall i :: 0 <= i < |results| ==> r[i + 2] == ResultLine(results[i])
  {
    if results == [] then [Header, Rule]
    else ResultLines(results[..|results| - 1]) + [ResultLine(results[|results| - 1])]
  }

  /** The writes to a results file, in order. */
  method WriteResults(results: seq<Scored>) returns (text: string)
    ensures text == Terminated(ResultLines(results))
  {
    text := Header + "\n";
    TerminatedSnoc([Header], Rule);
    text := text + Rule + "\n";
    for i := 0 to |results|
      invariant text == Terminated(ResultLines(results[..i]))
    {
      assert results[..i + 1][..i] == results[..i];
      TerminatedSnoc(ResultLines(results[..i]), ResultLine(results[i]));
      text := text + ResultLine(results[i]) + "\n";
    }
    assert results[..|results|] == results;
  }

  /** The header and the rule are single lines; the rule is sixty dashes. */
  lemma HeadOneLine()
    ensures '\n' !in Header && '\n' !in Rule
    ensures |Rule| == 60 && forall i :: 0 <= i < |Rule| ==> Rule[i] == '-'
  {
    assert forall i :: 0 <= i < |Dashes| ==> Dashes[i] == '-';
  }

  /** No line of a results file holds a newline when no result line does. */
  lemma ResultLinesOneLine(results: seq<Scored>)
    requires forall i :: 0 <= i < |results| ==> '\n' !in ResultLine(results[i])
    ensures forall k :: 0 <= k < |ResultLines(results)| ==> '\n' !in ResultLines(results)[k]
  {
    HeadOneLine();
    forall k | 2 <= k < |ResultLines(results)| ensures '\n' !in ResultLines(results)[k] {
      assert ResultLines(results)[k] == ResultLine(results[k - 2]);
    }
  }

  /** Read back line by line, a results file gives the header, the rule and one line per
      sentence, provided no sentence, label or tag holds a newline. */
  lemma ResultsReadBack(results: seq<Scored>)
    requires forall i :: 0 <= i < |results| ==> '\n' !in ResultLine(results[i])
    ensures SplitOn(Terminated(ResultLines(results)), '\n') == ResultLines(results) + [""]
  {
    ResultLinesOneLine(results);
    TerminatedReadBack(ResultLines(results));
  }

}
