/** lexicon.py: builds a token -> {"tag lemma"} dictionary from whitespace-separated
    `token tag` training lines (Penn tags, so the verb prefix is "VB"), then writes one
    `token tag lemma` line per dictionary entry. */
module LexiconBuilder {
  import opened Text
  import opened Order
  import opened Wrappers
  import opened WordNetPos

  const TrainingFiles: seq<string> := [
    "dataset/formatted_train_files/adverb_formatted.txt",
    "dataset/formatted_train_files/conjuction_formatted.txt",
    "dataset/formatted_train_files/determiner_formatted.txt",
    "dataset/formatted_train_files/pronoun_formatted.txt"
  ]

  const OutputFile := "dataset/lexicon.txt"

  /** The dictionary: its keys in insertion order and each key's set of entries. */
  datatype Lex = Lex(order: seq<string>, entries: map<string, set<string>>)

  const Empty := Lex([], map[])

  /** The key order lists each key once and lists exactly the keys. */
  ghost predicate Valid(lx: Lex)
  {
    && NoDuplicates(lx.order)
    && (forall w :: w in lx.entries <==> w in lx.order)
  }

  function Get(lx: Lex, w: string): set<string>
  {
    if w in lx.entries then lx.entries[w] else {}
  }

  /** What one training line contributes: nothing when `line.strip().split()` has fewer
      than two fields; otherwise the first field as the key and `"tag lemma"` as the
      entry, the tag being the second field. */
  function LineEntry(line: string, lemmatize: Lemmatizer): Option<(string, string)>
  {
    var fields := SplitWs(line);
    if |fields| < 2 then None
    else Some((fields[0], fields[1] + " " + GetLemma(LexiconVerbPrefix, lemmatize, fields[0], fields[1])))
  }

  /** Each line's contribution, in file order. */
  function ParseLines(lines: seq<string>, lemmatize: Lemmatizer): (r: seq<Option<(string, string)>>)
    ensures |r| == |lines|
  {
    if lines == [] then []
    else ParseLines(lines[..|lines| - 1], lemmatize) + [LineEntry(lines[|lines| - 1], lemmatize)]
  }

  /** `if token not in lexicon: lexicon[token] = set()` then `lexicon[token].add(entry)`. */
  function AddEntry(lx: Lex, token: string, entry: string): Lex
  {
    if token in lx.entries then Lex(lx.order, lx.entries[token := lx.entries[token] + {entry}])
    else Lex(lx.order + [token], lx.entries[token := {entry}])
  }

  function AddParsed(lx: Lex, es: seq<Option<(string, string)>>): Lex
  {
    if es == [] then lx
    else
      var prev := AddParsed(lx, es[..|es| - 1]);
      match es[|es| - 1]
      case None => prev
      case Some(p) => AddEntry(prev, p.0, p.1)
  }

  /** The dictionary after the lines of one file. */
  function AddLines(lx: Lex, lines: seq<string>, lemmatize: Lemmatizer): Lex
  {
    AddParsed(lx, ParseLines(lines, lemmatize))
  }

  predicate Readable(inputs: map<string, seq<string>>, files: seq<string>)
  {
    forall i :: 0 <= i < |files| ==> files[i] in inputs
  }

  function AddFiles(lx: Lex, inputs: map<string, seq<string>>, files: seq<string>, lemmatize: Lemmatizer): Lex
    requires Readable(inputs, files)
  {
    if files == [] then lx
    else AddLines(AddFiles(lx, inputs, files[..|files| - 1], lemmatize), inputs[files[|files| - 1]], lemmatize)
  }

  // ----- what the lines contribute -----

  /** The keys the parsed lines introduce. */
  function KeysOf(es: seq<Option<(string, string)>>): set<string>
  {
    if es == [] then {}
    else KeysOf(es[..|es| - 1]) + (match es[|es| - 1] case None => {} case Some(p) => {p.0})
  }

  /** The entries the parsed lines record under `w`. */
  function EntriesFor(es: seq<Option<(string, string)>>, w: string): set<string>
  {
    if es == [] then {}
    else
      EntriesFor(es[..|es| - 1], w)
        + (match es[|es| - 1] case Some(p) => if p.0 == w then {p.1} else {} case None => {})
  }

  /** An entry `tag lemma` splits into the tag and the lemma's words. */
  lemma EntrySplit(tag: string, base: string)
    requires tag != "" && NoSpace(tag)
    ensures SplitWs(tag + " " + base) == [tag] + SplitWs(base)
  {
    assert tag + " " + base == tag + (" " + base);
    SplitWsSpaced(tag, base);
  }

  /** A written line `key tag lemma` splits back into the key, the tag and the lemma's
      words when the key and the tag are single fields. */
  lemma WrittenLineFields(token: string, tag: string, base: string)
    requires token != "" && NoSpace(token) && tag != "" && NoSpace(tag)
    ensures SplitWs(token + " " + (tag + " " + base)) == [token, tag] + SplitWs(base)
  {
    var entry := tag + " " + base;
    EntrySplit(tag, base);
    ConcatAssoc(token, " ", entry);
    SplitWsSpaced(token, entry);
    ConsCons(token, tag, SplitWs(base));
  }

  /** A line with two or more fields yields its first field as key and an entry that
      splits into its second field followed by the lemma's words. */
  lemma LineEntryFields(line: string, lemmatize: Lemmatizer)
    ensures LineEntry(line, lemmatize).Some? <==> |SplitWs(line)| >= 2
    ensures LineEntry(line, lemmatize).Some? ==>
      var fields := SplitWs(line);
      var p := LineEntry(line, lemmatize).value;
      && p.0 == fields[0] && p.0 != "" && NoSpace(p.0)
      && SplitWs(p.1) == [fields[1]] + SplitWs(GetLemma(LexiconVerbPrefix, lemmatize, fields[0], fields[1]))
  {
    var fields := SplitWs(line);
    SplitWsFields(line);
    if |fields| >= 2 {
      EntrySplit(fields[1], GetLemma(LexiconVerbPrefix, lemmatize, fields[0], fields[1]));
    }
  }

  lemma AddEntryValid(lx: Lex, token: string, entry: string)
    requires Valid(lx)
    ensures Valid(AddEntry(lx, token, entry))
    ensures forall w :: w in AddEntry(lx, token, entry).entries <==> w in lx.entries || w == token
    ensures forall w :: Get(AddEntry(lx, token, entry), w) == Get(lx, w) + (if w == token then {entry} else {})
  {
    if token !in lx.entries {
      assert token !in lx.order;
      var o := lx.order + [token];
      forall i, j | 0 <= i < j < |o| ensures o[i] != o[j] {
        if j == |lx.order| { assert o[i] == lx.order[i]; }
      }
    }
  }

  /** Adding parsed lines keeps the dictionary well formed, adds exactly their keys, and
      adds to each key exactly the entries they record for it. */
  lemma {:induction false} AddParsedSpec(lx: Lex, es: seq<Option<(string, string)>>)
    requires Valid(lx)
    ensures Valid(AddParsed(lx, es))
    ensures forall w :: w in AddParsed(lx, es).entries <==> w in lx.entries || w in KeysOf(es)
    ensures forall w :: Get(AddParsed(lx, es), w) == Get(lx, w) + EntriesFor(es, w)
  {
    if es != [] {
      var init := es[..|es| - 1];
      AddParsedSpec(lx, init);
      match es[|es| - 1]
      case None =>
      case Some(p) => AddEntryValid(AddParsed(lx, init), p.0, p.1);
    }
  }

  /** Every key of a parsed file is a single field: non-empty, without whitespace. */
  lemma {:induction false} ParsedKeysAreFields(lines: seq<string>, lemmatize: Lemmatizer)
    ensures forall w :: w in KeysOf(ParseLines(lines, lemmatize)) ==> w != "" && NoSpace(w)
  {
    if lines != [] {
      var init := lines[..|lines| - 1];
      ParsedKeysAreFields(init, lemmatize);
      var es := ParseLines(lines, lemmatize);
      assert es[..|lines| - 1] == ParseLines(init, lemmatize);
      var last := lines[|lines| - 1];
      SplitWsFields(last);
      assert es[|es| - 1] == LineEntry(last, lemmatize);
      assert KeysOf(es) == KeysOf(ParseLines(init, lemmatize)) + (match LineEntry(last, lemmatize) case None => {} case Some(p) => {p.0});
    }
  }

  lemma ParseLinesStep(lines: seq<string>, i: nat, lemmatize: Lemmatizer)
    requires i < |lines|
    ensures ParseLines(lines[..i + 1], lemmatize) == ParseLines(lines[..i], lemmatize) + [LineEntry(lines[i], lemmatize)]
  {
    assert lines[..i + 1][..i] == lines[..i];
  }

  lemma AddParsedSnoc(lx: Lex, es: seq<Option<(string, string)>>, e: Option<(string, string)>)
    ensures AddParsed(lx, es + [e]) == (match e case None => AddParsed(lx, es) case Some(p) => AddEntry(AddParsed(lx, es), p.0, p.1))
  {
    assert (es + [e])[..|es|] == es;
  }

  /** Every key is a single field: non-empty and without whitespace. */
  ghost predicate KeysAreFields(lx: Lex)
  {
    forall w :: w in lx.entries ==> w != "" && NoSpace(w)
  }

  /** The dictionary built from any files is well formed and keyed by single fields. */
  lemma {:induction false} AddFilesSpec(inputs: map<string, seq<string>>, files: seq<string>, lemmatize: Lemmatizer)
    requires Readable(inputs, files)
    ensures Valid(AddFiles(Empty, inputs, files, lemmatize))
    ensures KeysAreFields(AddFiles(Empty, inputs, files, lemmatize))
  {
    if files != [] {
      var init := files[..|files| - 1];
      assert Readable(inputs, init) by {
        forall i | 0 <= i < |init| ensures init[i] in inputs { assert init[i] == files[i]; }
      }
      AddFilesSpec(inputs, init, lemmatize);
      var lines := inputs[files[|files| - 1]];
      AddParsedSpec(AddFiles(Empty, inputs, init, lemmatize), ParseLines(lines, lemmatize));
      ParsedKeysAreFields(lines, lemmatize);
    }
  }

  // ----- create_lexicon -----

  /** The dictionary update of one accepted line. */
  method Record(lx: Lex, token: string, entry: string) returns (r: Lex)
    ensures r == AddEntry(lx, token, entry)
  {
    r := lx;
    if token !in r.entries {
      r := Lex(r.order + [token], r.entries[token := {}]);
      assert r.entries[token] + {entry} == {entry};
    }
    r := r.(entries := r.entries[token := r.entries[token] + {entry}]);
  }

  /** The line loop over one training file. */
  method ReadFile(lx: Lex, lines: seq<string>, lemmatize: Lemmatizer) returns (r: Lex)
    ensures r == AddLines(lx, lines, lemmatize)
  {
    r := lx;
    for i := 0 to |lines|
      invariant r == AddParsed(lx, ParseLines(lines[..i], lemmatize))
    {
      ParseLinesStep(lines, i, lemmatize);
      AddParsedSnoc(lx, ParseLines(lines[..i], lemmatize), LineEntry(lines[i], lemmatize));
      var e := LineEntry(lines[i], lemmatize);
      if e.Some? {
        r := Record(r, e.value.0, e.value.1);
      }
    }
    assert lines[..|lines|] == lines;
  }

  /** `create_lexicon`: every line of every file, in order; opening a missing file raises. */
  method CreateLexicon(inputs: map<string, seq<string>>, files: seq<string>, lemmatize: Lemmatizer)
    returns (lx: Lex, status: RunStatus)
    ensures Valid(lx)
    ensures status == Completed <==> Readable(inputs, files)
    ensures status == Completed ==> lx == AddFiles(Empty, inputs, files, lemmatize)
    ensures status.MissingInput? ==>
      exists n :: 0 <= n < |files| && files[n] == status.path && files[n] !in inputs
        && Readable(inputs, files[..n]) && lx == AddFiles(Empty, inputs, files[..n], lemmatize)
  {
    lx := Empty;
    for n := 0 to |files|
      invariant Readable(inputs, files[..n])
      invariant Valid(lx)
      invariant lx == AddFiles(Empty, inputs, files[..n], lemmatize)
    {
      if files[n] !in inputs {
        status := MissingInput(files[n]);
        return;
      }
      var done := files[..n + 1];
      assert done[..n] == files[..n];
      assert Readable(inputs, done) by {
        forall i | 0 <= i < |done| ensures done[i] in inputs {
          if i < n { assert done[i] == files[..n][i]; }
        }
      }
      AddParsedSpec(lx, ParseLines(inputs[files[n]], lemmatize));
      lx := ReadFile(lx, inputs[files[n]], lemmatize);
    }
    assert files[..|files|] == files;
    status := Completed;
  }

  // ----- write_lexicon_to_file -----

  /** The lines written for one key, one per entry, in the order the entries were visited. */
  function BlockLines(token: string, visited: seq<string>): (r: seq<string>)
    ensures |r| == |visited|
  {
    if visited == [] then []
    else BlockLines(token, visited[..|visited| - 1]) + [token + " " + visited[|visited| - 1]]
  }

  /** The file's lines: the keys in insertion order, each key's block in its visit order. */
  function FileLines(order: seq<string>, visits: seq<seq<string>>): seq<string>
    requires |order| == |visits|
  {
    if order == [] then []
    else FileLines(order[..|order| - 1], visits[..|visits| - 1]) + BlockLines(order[|order| - 1], visits[|visits| - 1])
  }

  /** The number of entries of the first keys of the dictionary. */
  function EntryCount(lx: Lex, order: seq<string>): nat
  {
    if order == [] then 0 else EntryCount(lx, order[..|order| - 1]) + |Get(lx, order[|order| - 1])|
  }

  /** `visit` lists the entries of `token`, each once. */
  ghost predicate Visit(lx: Lex, token: string, visit: seq<string>)
  {
    && token in lx.entries
    && NoDuplicates(visit)
    && (forall e :: e in visit <==> e in lx.entries[token])
    && |visit| == |lx.entries[token]|
  }

  /** The first `k` keys written: their visits, and the lines of their blocks. */
  ghost predicate WrittenUpTo(lx: Lex, k: nat, visits: seq<seq<string>>, lines: seq<string>)
    requires k <= |lx.order|
  {
    && |visits| == k
    && (forall i :: 0 <= i < k ==> Visit(lx, lx.order[i], visits[i]))
    && lines == FileLines(lx.order[..k], visits)
    && |lines| == EntryCount(lx, lx.order[..k])
  }

  /** `write_lexicon_to_file`: for each key in insertion order, one `key entry` line per
      entry; the entries of a set are visited in an unspecified order. */
  method WriteLexiconFile(lx: Lex) returns (visits: seq<seq<string>>, lines: seq<string>)
    requires Valid(lx)
    ensures |visits| == |lx.order|
    ensures forall k :: 0 <= k < |visits| ==> Visit(lx, lx.order[k], visits[k])
    ensures lines == FileLines(lx.order, visits)
    ensures |lines| == EntryCount(lx, lx.order)
  {
    visits, lines := [], [];
    for k := 0 to |lx.order|
      invariant WrittenUpTo(lx, k, visits, lines)
    {
      visits, lines := WriteKey(lx, k, visits, lines);
    }
    assert lx.order[..|lx.order|] == lx.order;
  }

  /** One pass of the key loop: the key's entries, each once, as a block of lines. */
  method WriteKey(lx: Lex, k: nat, visits: seq<seq<string>>, lines: seq<string>)
    returns (visits': seq<seq<string>>, lines': seq<string>)
    requires Valid(lx) && k < |lx.order| && WrittenUpTo(lx, k, visits, lines)
    ensures WrittenUpTo(lx, k + 1, visits', lines')
  {
    var token := lx.order[k];
    var tags := Enumerate(lx.entries[token]);
    var block := WriteBlock(token, tags);
    assert lx.order[..k + 1][..k] == lx.order[..k];
    assert (visits + [tags])[..k] == visits;
    visits' := visits + [tags];
    lines' := lines + block;
  }

  method WriteBlock(token: string, visited: seq<string>) returns (block: seq<string>)
    ensures block == BlockLines(token, visited)
  {
    block := [];
    for i := 0 to |visited|
      invariant block == BlockLines(token, visited[..i])
    {
      assert visited[..i + 1][..i] == visited[..i];
      block := block + [token + " " + visited[i]];
    }
    assert visited[..|visited|] == visited;
  }
}
