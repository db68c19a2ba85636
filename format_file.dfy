/** format_file.py: rewrites `token tag token tag ...` training lines into one
    `token<TAB>tag` line per pair, with an empty line closing each sentence.
    A file is a sequence of lines; the output lines are what `transform_file` writes,
    each followed by a newline. */
module FormatFile {
  import opened Text
  import opened Wrappers

  /** The output path: the input's base name with every ".txt" replaced by
      "_formatted.txt", inside `outputDir`. */
  function OutputName(inputFile: string, outputDir: string): string
  {
    PathJoin(outputDir, ReplaceAll(BaseName(inputFile), ".txt", "_formatted.txt"))
  }

  /** For a training file `dir/stem.txt` whose stem has no '.', the output is
      `outputDir/stem_formatted.txt`. */
  lemma OutputNameOfTxt(dir: string, stem: string, outputDir: string)
    requires '/' !in stem && '.' !in stem
    ensures OutputName(dir + "/" + stem + ".txt", outputDir)
         == PathJoin(outputDir, stem + "_formatted.txt")
  {
    assert dir + "/" + stem + ".txt" == dir + "/" + (stem + ".txt");
    BaseNameOf(dir, stem + ".txt");
    ReplaceAllStem(stem, ".txt", ".txt", "_formatted.txt");
    ReplaceAllPrefix(".txt", "", "_formatted.txt");
    assert ".txt" + "" == ".txt";
    assert ReplaceAll("", ".txt", "_formatted.txt") == "";
  }

  /** In an output directory written with a trailing '/', as the script's is, the
      output name is that directory followed by `stem_formatted.txt`. */
  lemma OutputNameInDir(dir: string, stem: string, outputDir: string)
    requires '/' !in stem && '.' !in stem
    requires outputDir != [] && outputDir[|outputDir| - 1] == '/'
    ensures OutputName(dir + "/" + stem + ".txt", outputDir) == outputDir + stem + "_formatted.txt"
  {
    OutputNameOfTxt(dir, stem, outputDir);
    assert (stem + "_formatted.txt")[0] != '/' by {
      if stem == [] {
        assert stem + "_formatted.txt" == "_formatted.txt";
      } else {
        assert (stem + "_formatted.txt")[0] == stem[0];
      }
    }
    assert outputDir + (stem + "_formatted.txt") == outputDir + stem + "_formatted.txt";
  }

  /** The whitespace-separated fields of a line: `line.strip().split()`, which is
      `line.split()` (lemma `Text.SplitWsStrip`). */
  function Fields(line: string): (f: seq<string>)
    ensures forall i :: 0 <= i < |f| ==> f[i] != "" && NoSpace(f[i])
  {
    SplitWsFields(line);
    SplitWs(line)
  }

  /** A line is written out when it has fields and their number is even. */
  predicate Accepted(line: string)
  {
    var f := Fields(line);
    f != [] && |f| % 2 == 0
  }

  /** One `token<TAB>tag` line per consecutive pair of fields. */
  function PairLines(fields: seq<string>): (out: seq<string>)
    requires |fields| % 2 == 0
    ensures |out| == |fields| / 2
  {
    if fields == [] then [] else [fields[0] + "\t" + fields[1]] + PairLines(fields[2..])
  }

  /** The k-th pair line joins fields 2k and 2k+1 with a tab. */
  lemma {:induction false} PairLinesAt(fields: seq<string>, k: nat)
    requires |fields| % 2 == 0 && k < |fields| / 2
    ensures PairLines(fields)[k] == fields[2 * k] + "\t" + fields[2 * k + 1]
  {
    if k > 0 {
      PairLinesAt(fields[2..], k - 1);
    }
  }

  /** What one input line contributes to the output. */
  function TransformLine(line: string): seq<string>
  {
    if Accepted(line) then PairLines(Fields(line)) + [""] else []
  }

  /** The whole output for a sequence of input lines; it is empty or ends with a
      sentence-closing empty line. */
  function TransformAll(lines: seq<string>): (out: seq<string>)
    ensures out == [] || out[|out| - 1] == ""
  {
    if lines == [] then []
    else TransformAll(lines[..|lines| - 1]) + TransformLine(lines[|lines| - 1])
  }

  /** Each line rejected for an odd number of fields, in input order. */
  function Rejected(lines: seq<string>): seq<string>
  {
    if lines == [] then []
    else Rejected(lines[..|lines| - 1]) + RejectedLine(lines[|lines| - 1])
  }

  /** The fields of every accepted line, in input order. */
  function AcceptedFields(lines: seq<string>): seq<seq<string>>
  {
    if lines == [] then []
    else
      var line := lines[|lines| - 1];
      AcceptedFields(lines[..|lines| - 1]) + (if Accepted(line) then [Fields(line)] else [])
  }

  lemma {:induction false} PairLinesSnoc(fields: seq<string>, a: string, b: string)
    requires |fields| % 2 == 0
    ensures PairLines(fields + [a, b]) == PairLines(fields) + [a + "\t" + b]
  {
    var ext := fields + [a, b];
    if fields == [] {
      assert ext[2..] == [];
    } else {
      assert ext[0] == fields[0] && ext[1] == fields[1];
      assert ext[2..] == fields[2..] + [a, b];
      PairLinesSnoc(fields[2..], a, b);
    }
  }

  /** The lines reported as malformed for one input line. */
  function RejectedLine(line: string): seq<string>
  {
    if |Fields(line)| % 2 != 0 then [line] else []
  }

  lemma StepPrefix(lines: seq<string>, n: nat)
    requires n < |lines|
    ensures TransformAll(lines[..n + 1]) == TransformAll(lines[..n]) + TransformLine(lines[n])
    ensures Rejected(lines[..n + 1]) == Rejected(lines[..n]) + RejectedLine(lines[n])
  {
    assert lines[..n + 1][..n] == lines[..n];
  }

  /** The stride-2 loop of `transform_file`: one `token<TAB>tag` line per pair. */
  method WritePairs(tokensTags: seq<string>) returns (out: seq<string>)
    requires |tokensTags| % 2 == 0
    ensures out == PairLines(tokensTags)
  {
    out := [];
    var i := 0;
    while i < |tokensTags|
      invariant 0 <= i <= |tokensTags| && i % 2 == 0
      invariant out == PairLines(tokensTags[..i])
    {
      PairLinesSnoc(tokensTags[..i], tokensTags[i], tokensTags[i + 1]);
      assert tokensTags[..i + 2] == tokensTags[..i] + [tokensTags[i], tokensTags[i + 1]];
      out := out + [tokensTags[i] + "\t" + tokensTags[i + 1]];
      i := i + 2;
    }
    assert tokensTags[..i] == tokensTags;
  }

  /** The body of `transform_file`'s line loop: what one line writes and reports. */
  method TransformOne(line: string) returns (written: seq<string>, rejected: seq<string>)
    ensures written == TransformLine(line)
    ensures rejected == RejectedLine(line)
  {
    written, rejected := [], [];
    // `line.strip().split()`, written as `line.split()` (lemma `Text.SplitWsStrip`)
    var tokensTags := SplitWs(line);
    if tokensTags != [] {
      if |tokensTags| % 2 != 0 {
        rejected := [line];
      } else {
        var pairs := WritePairs(tokensTags);
        written := pairs + [""];
      }
    }
  }

  /** `transform_file`: the output lines (what is written, one per newline) and the
      malformed lines it reports. */
  method TransformFile(lines: seq<string>) returns (out: seq<string>, rejected: seq<string>)
    ensures out == TransformAll(lines)
    ensures rejected == Rejected(lines)
  {
    out, rejected := [], [];
    for n := 0 to |lines|
      invariant out == TransformAll(lines[..n])
      invariant rejected == Rejected(lines[..n])
    {
      StepPrefix(lines, n);
      var written, bad := TransformOne(lines[n]);
      out := out + written;
      rejected := rejected + bad;
    }
    assert lines[..|lines|] == lines;
  }

  /** A line without fields, or with an odd number of them, writes nothing. */
  lemma SkippedLineWritesNothing(lines: seq<string>, line: string)
    requires !Accepted(line)
    ensures TransformAll(lines + [line]) == TransformAll(lines)
  {
    assert (lines + [line])[..|lines|] == lines;
  }

  /** A line with 2k fields writes k pair lines in order, then one empty line. */
  lemma AcceptedLineWritesPairs(lines: seq<string>, line: string)
    requires Accepted(line)
    ensures var f := Fields(line);
            var out := TransformAll(lines + [line]);
            var base := |TransformAll(lines)|;
            && |out| == base + |f| / 2 + 1
            && out[..base] == TransformAll(lines)
            && (forall k :: 0 <= k < |f| / 2 ==> out[base + k] == f[2 * k] + "\t" + f[2 * k + 1])
            && out[|out| - 1] == ""
  {
    assert (lines + [line])[..|lines|] == lines;
    var f := Fields(line);
    var out := TransformAll(lines + [line]);
    var base := |TransformAll(lines)|;
    assert out == TransformAll(lines) + (PairLines(f) + [""]);
    forall k | 0 <= k < |f| / 2 ensures out[base + k] == f[2 * k] + "\t" + f[2 * k + 1] {
      PairLinesAt(f, k);
    }
  }

  // ----- reading the output back -----

  /** Reads output lines back: each non-empty line is split at tabs and its pieces
      appended to the current sentence; an empty line closes the sentence. */
  function ReadBlocks(out: seq<string>, current: seq<string>): seq<seq<string>>
  {
    if out == [] then []
    else if out[0] == "" then [current] + ReadBlocks(out[1..], [])
    else ReadBlocks(out[1..], current + SplitOn(out[0], '\t'))
  }

  lemma {:induction false} ReadBlocksAppend(a: seq<string>, b: seq<string>, current: seq<string>)
    requires a == [] ==> current == []
    requires a == [] || a[|a| - 1] == ""
    ensures ReadBlocks(a + b, current) == ReadBlocks(a, current) + ReadBlocks(b, [])
  {
    if a == [] {
      assert a + b == b;
    } else {
      assert (a + b)[0] == a[0] && (a + b)[1..] == a[1..] + b;
      if a[0] == "" {
        ReadBlocksAppend(a[1..], b, []);
      } else {
        ReadBlocksAppend(a[1..], b, current + SplitOn(a[0], '\t'));
      }
    }
  }

  lemma SplitPairLine(a: string, b: string)
    requires NoSpace(a) && NoSpace(b)
    ensures SplitOn(a + "\t" + b, '\t') == [a, b]
  {
    assert IsSpace('\t');
    assert '\t' !in a && '\t' !in b;
    SplitOnAppend(a, b, '\t');
    SplitOnNone(a, '\t');
    SplitOnNone(b, '\t');
  }

  /** Reading the pair lines of one sentence and its closing empty line gives back its
      fields. */
  lemma {:induction false} ReadSentence(fields: seq<string>, current: seq<string>)
    requires |fields| % 2 == 0
    requires forall i :: 0 <= i < |fields| ==> fields[i] != "" && NoSpace(fields[i])
    ensures ReadBlocks(PairLines(fields) + [""], current) == [current + fields]
  {
    if fields == [] {
      assert PairLines(fields) + [""] == [""];
      assert ReadBlocks([], []) == [];
      assert current + fields == current;
    } else {
      var a, b := fields[0], fields[1];
      var rest := PairLines(fields[2..]) + [""];
      assert PairLines(fields) + [""] == [a + "\t" + b] + rest;
      assert a + "\t" + b != "";
      SplitPairLine(a, b);
      ReadSentence(fields[2..], current + [a, b]);
      assert ([a + "\t" + b] + rest)[1..] == rest;
      assert current + [a, b] + fields[2..] == current + fields;
    }
  }

  /** Round trip: reading the written file back recovers exactly the field sequence of
      every accepted input line, in order. */
  lemma {:induction false} ReadBackTransform(lines: seq<string>)
    ensures ReadBlocks(TransformAll(lines), []) == AcceptedFields(lines)
  {
    if lines != [] {
      var init, line := lines[..|lines| - 1], lines[|lines| - 1];
      ReadBackTransform(init);
      ReadBlocksAppend(TransformAll(init), TransformLine(line), []);
      if Accepted(line) {
        ReadSentence(Fields(line), []);
        assert [] + Fields(line) == Fields(line);
      }
    }
  }

  // ----- process_all_files -----

  /** The files written for `files` in order; a later file with the same output name
      overwrites an earlier one. */
  function WrittenFiles(inputs: map<string, seq<string>>, files: seq<string>, outputDir: string)
    : map<string, seq<string>>
    requires forall f :: f in files ==> f in inputs
  {
    if files == [] then map[]
    else
      var f := files[|files| - 1];
      WrittenFiles(inputs, files[..|files| - 1], outputDir)[OutputName(f, outputDir) := TransformAll(inputs[f])]
  }

  /** `process_all_files`: transforms every listed file in order; opening a missing
      input raises, which ends the run with the files written so far. */
  method ProcessAllFiles(inputs: map<string, seq<string>>, files: seq<string>, outputDir: string)
    returns (written: map<string, seq<string>>, status: RunStatus)
    ensures status == Completed <==> forall f :: f in files ==> f in inputs
    ensures status == Completed ==> written == WrittenFiles(inputs, files, outputDir)
    ensures status.MissingInput? ==>
      exists n :: 0 <= n < |files| && files[n] == status.path && files[n] !in inputs
        && (forall f :: f in files[..n] ==> f in inputs)
        && written == WrittenFiles(inputs, files[..n], outputDir)
  {
    written := map[];
    for n := 0 to |files|
      invariant forall f :: f in files[..n] ==> f in inputs
      invariant written == WrittenFiles(inputs, files[..n], outputDir)
    {
      assert files[..n + 1][..n] == files[..n];
      if files[n] !in inputs {
        status := MissingInput(files[n]);
        return;
      }
      var out, _ := TransformFile(inputs[files[n]]);
      written := written[OutputName(files[n], outputDir) := out];
    }
    assert files[..|files|] == files;
    status := Completed;
  }

  /** Each output holds the transformation of the last listed input mapped to it. */
  lemma {:induction false} WrittenFilesLast(inputs: map<string, seq<string>>, files: seq<string>, outputDir: string, n: nat)
    requires forall f :: f in files ==> f in inputs
    requires n < |files|
    requires forall m :: n < m < |files| ==> OutputName(files[m], outputDir) != OutputName(files[n], outputDir)
    ensures OutputName(files[n], outputDir) in WrittenFiles(inputs, files, outputDir)
    ensures WrittenFiles(inputs, files, outputDir)[OutputName(files[n], outputDir)] == TransformAll(inputs[files[n]])
  {
    var init := files[..|files| - 1];
    if n < |files| - 1 {
      assert forall m :: n < m < |init| ==> init[m] == files[m];
      WrittenFilesLast(inputs, init, outputDir, n);
    }
  }
}
