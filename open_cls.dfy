/** openCls.py: collects the tag of every three-field lexicon line (`word tag lemma`)
    and writes the distinct tags in ascending order, one per line. */
module OpenClasses {
  import opened Text
  import opened Order
  import opened Wrappers
  import LexiconBuilder

  const LexiconFile := "dataset/lexicon.txt"
  const OutputFile := "dataset/OpenCLs.txt"

  /** The tag of a line whose `strip().split()` has exactly three fields: its second. */
  function LineTag(line: string): Option<string>
  {
    var parts := SplitWs(line);
    if |parts| == 3 then Some(parts[1]) else None
  }

  /** The values `f` finds in the lines. */
  function Collect(f: string -> Option<string>, lines: seq<string>): set<string>
  {
    if lines == [] then {}
    else
      Collect(f, lines[..|lines| - 1])
        + (match f(lines[|lines| - 1]) case Some(t) => {t} case None => {})
  }

  /** The set of tags of the three-field lines. */
  function UniqueTags(lines: seq<string>): set<string>
  {
    Collect(LineTag, lines)
  }

  // ----- extract_unique_tags -----

  lemma UniqueTagsStep(lines: seq<string>, i: nat)
    requires i < |lines|
    ensures UniqueTags(lines[..i + 1])
         == UniqueTags(lines[..i]) + (match LineTag(lines[i]) case Some(t) => {t} case None => {})
  {
    assert lines[..i + 1][..i] == lines[..i];
    assert lines[..i + 1][i] == lines[i];
  }

  /** `extract_unique_tags`: the set of tags, the tags in ascending order, and the text
      written. */
  method ExtractUniqueTags(lines: seq<string>) returns (uniqueTags: set<string>, sortedTags: seq<string>, text: string)
    ensures uniqueTags == UniqueTags(lines)
    ensures Ascending(sortedTags, StrLt)
    ensures forall t :: t in sortedTags <==> t in uniqueTags
    ensures |sortedTags| == |uniqueTags|
    ensures text == Terminated(sortedTags)
  {
    uniqueTags := {};
    for i := 0 to |lines|
      invariant uniqueTags == UniqueTags(lines[..i])
    {
      UniqueTagsStep(lines, i);
      var t := LineTag(lines[i]);
      if t.Some? {
        uniqueTags := uniqueTags + {t.value};
      }
    }
    assert lines[..|lines|] == lines;
    StrLtStrictTotal();
    sortedTags := SortSet(uniqueTags, StrLt);
    text := WriteTags(sortedTags);
  }

  method WriteTags(tags: seq<string>) returns (text: string)
    ensures text == Terminated(tags)
  {
    text := "";
    var i := |tags|;
    while i > 0
      invariant 0 <= i <= |tags|
      invariant text == Terminated(tags[i..])
    {
      i := i - 1;
      assert tags[i..][1..] == tags[i + 1..];
      text := tags[i] + "\n" + text;
    }
  }

  // ----- properties -----

  /** Every tag read is a single field. */
  lemma {:induction false} UniqueTagsAreFields(lines: seq<string>)
    ensures forall t :: t in UniqueTags(lines) ==> t != "" && NoSpace(t)
  {
    if lines != [] {
      UniqueTagsAreFields(lines[..|lines| - 1]);
      var parts := SplitWs(lines[|lines| - 1]);
      assert LineTag(lines[|lines| - 1]) == if |parts| == 3 then Some(parts[1]) else None;
      if |parts| == 3 {
        SplitWsFields(lines[|lines| - 1]);
        assert parts[1] != "" && NoSpace(parts[1]);
        assert UniqueTags(lines) == UniqueTags(lines[..|lines| - 1]) + {parts[1]};
      } else {
        assert UniqueTags(lines) == UniqueTags(lines[..|lines| - 1]);
      }
    }
  }

  /** The tag of an entry `tag lemma` as openCls.py sees it: the first of exactly two
      fields. */
  function EntryTag(entry: string): Option<string>
  {
    var fields := SplitWs(entry);
    if |fields| == 2 then Some(fields[0]) else None
  }

  /** A written `key entry` line yields exactly the entry's tag. */
  lemma LineTagOfWritten(token: string, entry: string)
    requires token != "" && NoSpace(token)
    ensures LineTag(token + " " + entry) == EntryTag(entry)
  {
    ConcatAssoc(token, " ", entry);
    SplitWsSpaced(token, entry);
  }

  /** An entry built by lexicon.py has a tag exactly when its lemma is a single word. */
  lemma EntryTagOf(tag: string, base: string)
    requires tag != "" && NoSpace(tag)
    ensures EntryTag(tag + " " + base) == if |SplitWs(base)| == 1 then Some(tag) else None
  {
    LexiconBuilder.EntrySplit(tag, base);
  }

  lemma {:induction false} CollectAppend(f: string -> Option<string>, a: seq<string>, b: seq<string>)
    ensures Collect(f, a + b) == Collect(f, a) + Collect(f, b)
  {
    if b == [] {
      assert a + b == a;
    } else {
      assert (a + b)[..|a + b| - 1] == a + b[..|b| - 1];
      CollectAppend(f, a, b[..|b| - 1]);
    }
  }

  lemma {:induction false} CollectMembers(f: string -> Option<string>, s: seq<string>)
    ensures forall t :: t in Collect(f, s) <==> exists i :: 0 <= i < |s| && f(s[i]) == Some(t)
  {
    if s != [] {
      var init := s[..|s| - 1];
      CollectMembers(f, init);
      forall t ensures t in Collect(f, s) <==> exists i :: 0 <= i < |s| && f(s[i]) == Some(t) {
        if t in Collect(f, init) {
          var i :| 0 <= i < |init| && f(init[i]) == Some(t);
          assert s[i] == init[i];
        }
        if exists i :: 0 <= i < |s| && f(s[i]) == Some(t) {
          var i :| 0 <= i < |s| && f(s[i]) == Some(t);
          if i < |init| { assert f(init[i]) == Some(t); }
        }
      }
    }
  }

  /** The tags read from one key's block are the tags of the entries visited. */
  lemma {:induction false} BlockTags(token: string, visited: seq<string>)
    requires token != "" && NoSpace(token)
    ensures UniqueTags(LexiconBuilder.BlockLines(token, visited)) == Collect(EntryTag, visited)
  {
    if visited != [] {
      var init, e := visited[..|visited| - 1], visited[|visited| - 1];
      BlockTags(token, init);
      CollectAppend(LineTag, LexiconBuilder.BlockLines(token, init), [token + " " + e]);
      assert [token + " " + e][..0] == [];
      LineTagOfWritten(token, e);
    }
  }

  /** The values `f` finds in each group, together. */
  function CollectAll(f: string -> Option<string>, groups: seq<seq<string>>): set<string>
  {
    if groups == [] then {} else CollectAll(f, groups[..|groups| - 1]) + Collect(f, groups[|groups| - 1])
  }

  /** The tags read from the whole file are those of all the entries visited. */
  lemma {:induction false} FileTags(order: seq<string>, visits: seq<seq<string>>)
    requires |order| == |visits|
    requires forall k :: 0 <= k < |order| ==> order[k] != "" && NoSpace(order[k])
    ensures UniqueTags(LexiconBuilder.FileLines(order, visits)) == CollectAll(EntryTag, visits)
  {
    if order != [] {
      var n := |order| - 1;
      FileTags(order[..n], visits[..n]);
      BlockTags(order[n], visits[n]);
      CollectAppend(LineTag, LexiconBuilder.FileLines(order[..n], visits[..n]), LexiconBuilder.BlockLines(order[n], visits[n]));
    }
  }

  lemma {:induction false} CollectAllMembers(f: string -> Option<string>, groups: seq<seq<string>>)
    ensures forall t :: t in CollectAll(f, groups)
                    <==> exists k, e :: 0 <= k < |groups| && e in groups[k] && f(e) == Some(t)
  {
    if groups != [] {
      var n := |groups| - 1;
      var init := groups[..n];
      CollectAllMembers(f, init);
      CollectMembers(f, groups[n]);
      forall t ensures t in CollectAll(f, groups) <==> exists k, e :: 0 <= k < |groups| && e in groups[k] && f(e) == Some(t) {
        if t in CollectAll(f, init) {
          var k, e :| 0 <= k < |init| && e in init[k] && f(e) == Some(t);
          assert groups[k] == init[k];
        }
        if t in Collect(f, groups[n]) {
          var i :| 0 <= i < |groups[n]| && f(groups[n][i]) == Some(t);
          assert groups[n][i] in groups[n];
        }
        if exists k, e :: 0 <= k < |groups| && e in groups[k] && f(e) == Some(t) {
          var k, e :| 0 <= k < |groups| && e in groups[k] && f(e) == Some(t);
          if k < n {
            assert init[k] == groups[k];
          } else {
            var i :| 0 <= i < |groups[n]| && groups[n][i] == e;
          }
        }
      }
    }
  }

  /** Visiting every key's entries finds what the dictionary holds. */
  lemma VisitsCover(f: string -> Option<string>, lx: LexiconBuilder.Lex, visits: seq<seq<string>>)
    requires LexiconBuilder.Valid(lx)
    requires |visits| == |lx.order|
    requires forall k :: 0 <= k < |visits| ==> lx.order[k] in lx.entries && (forall e :: e in visits[k] <==> e in lx.entries[lx.order[k]])
    ensures forall t :: (exists k, e :: 0 <= k < |visits| && e in visits[k] && f(e) == Some(t))
                    <==> exists w, e :: w in lx.entries && e in lx.entries[w] && f(e) == Some(t)
  {
    forall t ensures (exists k, e :: 0 <= k < |visits| && e in visits[k] && f(e) == Some(t))
                 <==> exists w, e :: w in lx.entries && e in lx.entries[w] && f(e) == Some(t)
    {
      if exists w, e :: w in lx.entries && e in lx.entries[w] && f(e) == Some(t) {
        var w, e :| w in lx.entries && e in lx.entries[w] && f(e) == Some(t);
        assert w in lx.order;
        var k :| 0 <= k < |lx.order| && lx.order[k] == w;
        assert e in visits[k];
      }
      if exists k, e :: 0 <= k < |visits| && e in visits[k] && f(e) == Some(t) {
        var k, e :| 0 <= k < |visits| && e in visits[k] && f(e) == Some(t);
        assert e in lx.entries[lx.order[k]];
      }
    }
  }

  /** Run on the file lexicon.py writes, openCls.py collects exactly the tags of those
      dictionary entries whose lemma is a single word, whatever order the entries of
      each set were visited in. */
  lemma LexiconFileTags(lx: LexiconBuilder.Lex, visits: seq<seq<string>>)
    requires LexiconBuilder.Valid(lx) && LexiconBuilder.KeysAreFields(lx)
    requires |visits| == |lx.order|
    requires forall k :: 0 <= k < |visits| ==> lx.order[k] in lx.entries && (forall e :: e in visits[k] <==> e in lx.entries[lx.order[k]])
    ensures forall t :: t in UniqueTags(LexiconBuilder.FileLines(lx.order, visits))
                    <==> exists w, e :: w in lx.entries && e in lx.entries[w] && EntryTag(e) == Some(t)
  {
    assert forall k :: 0 <= k < |lx.order| ==> lx.order[k] != "" && NoSpace(lx.order[k]) by {
      forall k | 0 <= k < |lx.order| ensures lx.order[k] != "" && NoSpace(lx.order[k]) {
        assert lx.order[k] in lx.entries;
      }
    }
    FileTags(lx.order, visits);
    CollectAllMembers(EntryTag, visits);
    VisitsCover(EntryTag, lx, visits);
  }
}
