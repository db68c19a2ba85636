/** Tagging.py: tags each sentence of the "that" training files, rewrites the Penn tags
    into CLAWS-like tags (with a per-file override for "that"), lemmatizes each token and
    collects a lexicon `word -> {(tag, lemma)}` shared by all files.
    The tokenizer with the Penn tagger, and the WordNet lemmatizer, are parameters. */
module Tagging {
  import opened Text
  import opened Order
  import opened Wrappers
  import opened WordNetPos

  // ----- map_tag -----

  /** `map_tag`'s table: the CLAWS-like tag of each of the 36 listed Penn tags. */
  function PennToClaws(pennTag: string): Option<string>
  {
    match pennTag
    case "CC" => Some("CC")     case "CD" => Some("CD")     case "DT" => Some("AT0")
    case "EX" => Some("EX")     case "FW" => Some("FW")     case "IN" => Some("II")
    case "JJ" => Some("AJ0")    case "JJR" => Some("AJC")   case "JJS" => Some("AJS")
    case "LS" => Some("LS")     case "MD" => Some("MD")     case "NN" => Some("NN1")
    case "NNS" => Some("NN2")   case "NNP" => Some("NP")    case "NNPS" => Some("NPS")
    case "PDT" => Some("DD0")   case "POS" => Some("POS")   case "PRP" => Some("PP")
    case "PRP$" => Some("PP$")  case "RB" => Some("RG0")    case "RBR" => Some("RGC")
    case "RBS" => Some("RGS")   case "RP" => Some("RP")     case "SYM" => Some("SYM")
    case "TO" => Some("TO")     case "UH" => Some("UH")     case "VB" => Some("VVB")
    case "VBD" => Some("VVD")   case "VBG" => Some("VVG")   case "VBN" => Some("VVN")
    case "VBP" => Some("VVP")   case "VBZ" => Some("VVZ")   case "WDT" => Some("WDT")
    case "WP" => Some("WP")     case "WP$" => Some("WPS")   case "WRB" => Some("WRB")
    case _ => None
  }

  /** `map_tag`: the table's tag for a listed Penn tag, any other tag unchanged. */
  function MapTag(pennTag: string): (tag: string)
    ensures PennToClaws(pennTag).Some? ==> tag == PennToClaws(pennTag).value
    ensures PennToClaws(pennTag).None? ==> tag == pennTag
  {
    match PennToClaws(pennTag)
    case Some(t) => t
    case None => pennTag
  }

  /** Mapping twice is mapping once: a table value is either not a listed Penn tag or
      one that the table maps to itself. */
  lemma MapTagIdempotent(pennTag: string)
    ensures MapTag(MapTag(pennTag)) == MapTag(pennTag)
  {
  }

  /** The table is one-to-one: two listed Penn tags never share a CLAWS-like tag. */
  lemma TableInjective(a: string, b: string)
    requires PennToClaws(a).Some? && PennToClaws(a) == PennToClaws(b)
    ensures a == b
  {
  }

  /** The override tags of the five training files (adverb, noun conjunction, verb
      conjunction, pronoun, singular determiner). */
  const OverrideTags: set<string> := {"RA", "CST", "CJT", "WPR", "DD1"}

  /** `get_lemma` treats the tag as a verb exactly when it starts with "VV", and as a
      noun otherwise. */
  predicate VerbOrNoun(tag: string)
  {
    ChoosePos(TaggingVerbPrefix, tag) == (if StartsWith(tag, "VV") then Verb else Noun)
  }

  /** Every table tag is lemmatized as a verb or a noun: the mapped adjective and adverb
      tags (AJ0, RG0, ...) miss the JJ and RB tests, which expect Penn tags. */
  lemma TableTagsVerbOrNoun(pennTag: string)
    requires PennToClaws(pennTag).Some?
    ensures VerbOrNoun(PennToClaws(pennTag).value)
  {
    var tag := PennToClaws(pennTag).value;
    assert 2 <= |tag| && tag[0] != 'J' && !(tag[0] == 'R' && tag[1] == 'B') && !(tag[0] == 'I' && tag[1] == 'N');
    NotAdjOrAdv(tag);
  }

  /** A tag of two or more letters outside the JJ, RB and IN families. */
  lemma NotAdjOrAdv(tag: string)
    requires 2 <= |tag| && tag[0] != 'J' && !(tag[0] == 'R' && tag[1] == 'B') && !(tag[0] == 'I' && tag[1] == 'N')
    ensures VerbOrNoun(tag)
  {
    assert !StartsWith(tag, "JJ") && !StartsWith(tag, "RB") && !StartsWith(tag, "IN");
  }

  /** So is every override tag. */
  lemma OverrideTagsVerbOrNoun(tag: string)
    requires tag in OverrideTags
    ensures VerbOrNoun(tag)
  {
  }

  /** The tag written for a token: the file's override for "that" in any letter case,
      otherwise the mapped tagger tag. */
  function ChooseTag(word: string, pennTag: string, overrideTag: string): (tag: string)
    ensures Lower(word) == "that" ==> tag == overrideTag
    ensures Lower(word) != "that" ==> tag == MapTag(pennTag)
  {
    if Lower(word) == "that" then overrideTag else MapTag(pennTag)
  }

  // ----- tokens -----

  /** `word_tokenize` followed by `nltk.pos_tag`: a sentence's (word, Penn tag) pairs. */
  type Tagger = string -> seq<(string, string)>

  datatype Token = Token(word: string, tag: string, baseForm: string)

  function TagToken(pair: (string, string), overrideTag: string, lemmatize: Lemmatizer): Token
  {
    var tag := ChooseTag(pair.0, pair.1, overrideTag);
    Token(pair.0, tag, GetLemma(TaggingVerbPrefix, lemmatize, pair.0, tag))
  }

  /** Tags and lemmatizes tagger pairs in order. */
  function TagTokens(pairs: seq<(string, string)>, overrideTag: string, lemmatize: Lemmatizer): (toks: seq<Token>)
    ensures |toks| == |pairs|
  {
    if pairs == [] then []
    else TagTokens(pairs[..|pairs| - 1], overrideTag, lemmatize) + [TagToken(pairs[|pairs| - 1], overrideTag, lemmatize)]
  }

  /** Token i of a sentence keeps the tagger's word i, carries the file's override tag
      when that word is "that" in any letter case and the mapped tagger tag otherwise,
      and is lemmatized under the tag it carries. */
  lemma {:induction false} TagTokensAt(pairs: seq<(string, string)>, overrideTag: string, lemmatize: Lemmatizer, i: nat)
    requires i < |pairs|
    ensures var t := TagTokens(pairs, overrideTag, lemmatize)[i];
      && t.word == pairs[i].0
      && (Lower(pairs[i].0) == "that" ==> t.tag == overrideTag)
      && (Lower(pairs[i].0) != "that" ==> t.tag == MapTag(pairs[i].1))
      && t.baseForm == GetLemma(TaggingVerbPrefix, lemmatize, t.word, t.tag)
  {
    var n := |pairs| - 1;
    if i < n {
      TagTokensAt(pairs[..n], overrideTag, lemmatize, i);
      assert pairs[..n][i] == pairs[i];
    }
  }

  /** The tokens of one sentence, in tagger order. */
  function SentenceTokens(sentence: string, overrideTag: string, tagger: Tagger, lemmatize: Lemmatizer): seq<Token>
  {
    TagTokens(tagger(sentence), overrideTag, lemmatize)
  }

  /** The tokens of a file, sentence after sentence. */
  function FileTokens(sentences: seq<string>, overrideTag: string, tagger: Tagger, lemmatize: Lemmatizer)
    : seq<Token>
  {
    if sentences == [] then []
    else
      FileTokens(sentences[..|sentences| - 1], overrideTag, tagger, lemmatize)
        + SentenceTokens(sentences[|sentences| - 1], overrideTag, tagger, lemmatize)
  }

  function TokenLine(t: Token): string
  {
    t.word + "\t" + t.tag
  }

  function TokenLines(toks: seq<Token>): (r: seq<string>)
    ensures |r| == |toks|
    ensures forall i :: 0 <= i < |r| ==> r[i] == TokenLine(toks[i])
  {
    seq(|toks|, i requires 0 <= i < |toks| => TokenLine(toks[i]))
  }

  /** `processed_lines`: one `word<TAB>tag` entry per token, an empty entry after each
      sentence. */
  function FileLines(sentences: seq<string>, overrideTag: string, tagger: Tagger, lemmatize: Lemmatizer)
    : seq<string>
  {
    if sentences == [] then []
    else
      FileLines(sentences[..|sentences| - 1], overrideTag, tagger, lemmatize)
        + TokenLines(SentenceTokens(sentences[|sentences| - 1], overrideTag, tagger, lemmatize)) + [""]
  }

  function TagsOf(toks: seq<Token>): set<string>
  {
    set i | 0 <= i < |toks| :: toks[i].tag
  }

  function WordsOf(toks: seq<Token>): set<string>
  {
    set i | 0 <= i < |toks| :: toks[i].word
  }

  /** The (tag, lemma) pairs that `toks` records for `w`. */
  function PairsFor(toks: seq<Token>, w: string): set<(string, string)>
  {
    set i | 0 <= i < |toks| && toks[i].word == w :: (toks[i].tag, toks[i].baseForm)
  }

  // ----- the lexicon -----

  type Entries = map<string, set<(string, string)>>

  function PairsOf(e: Entries, w: string): set<(string, string)>
  {
    if w in e then e[w] else {}
  }

  /** `lexicon[word].add((tag, lemma))`, or `lexicon[word] = {(tag, lemma)}` for a new word. */
  function AddToken(e: Entries, t: Token): Entries
  {
    e[t.word := PairsOf(e, t.word) + {(t.tag, t.baseForm)}]
  }

  function AddTokens(e: Entries, toks: seq<Token>): Entries
  {
    if toks == [] then e else AddToken(AddTokens(e, toks[..|toks| - 1]), toks[|toks| - 1])
  }

  /** The dictionary's key order after adding `toks`: a new word goes at the end. */
  function AddWords(order: seq<string>, toks: seq<Token>): (r: seq<string>)
    requires NoDuplicates(order)
    ensures NoDuplicates(r)
    ensures forall w :: w in r <==> w in order || w in WordsOf(toks)
  {
    if toks == [] then order
    else
      var prev := AddWords(order, toks[..|toks| - 1]);
      var w := toks[|toks| - 1].word;
      assert forall v :: v in WordsOf(toks) <==> v in WordsOf(toks[..|toks| - 1]) || v == w by {
        forall v | v in WordsOf(toks[..|toks| - 1]) ensures v in WordsOf(toks) {
          var i :| 0 <= i < |toks| - 1 && toks[..|toks| - 1][i].word == v;
          assert toks[i].word == v;
        }
        assert toks[|toks| - 1].word == w;
      }
      if w in prev then prev else prev + [w]
  }

  /** The lexicon after adding `toks`: a word is a key exactly when it was one or occurs
      in `toks`, and its pairs are the old ones plus those `toks` records for it. */
  lemma {:induction false} AddTokensExact(e: Entries, toks: seq<Token>)
    ensures forall w :: w in AddTokens(e, toks) <==> w in e || w in WordsOf(toks)
    ensures forall w :: PairsOf(AddTokens(e, toks), w) == PairsOf(e, w) + PairsFor(toks, w)
  {
    if toks != [] {
      var init, t := toks[..|toks| - 1], toks[|toks| - 1];
      AddTokensExact(e, init);
      WordsOfSnoc(toks);
      forall w ensures PairsFor(toks, w) == PairsFor(init, w) + (if w == t.word then {(t.tag, t.baseForm)} else {}) {
        PairsForSnoc(toks, w);
      }
    }
  }

  lemma WordsOfSnoc(toks: seq<Token>)
    requires toks != []
    ensures forall w :: w in WordsOf(toks) <==> w in WordsOf(toks[..|toks| - 1]) || w == toks[|toks| - 1].word
  {
    var init, t := toks[..|toks| - 1], toks[|toks| - 1];
    forall w ensures w in WordsOf(toks) <==> w in WordsOf(init) || w == t.word {
      if w in WordsOf(init) {
        var i :| 0 <= i < |init| && init[i].word == w;
        assert toks[i].word == w;
      }
      if w in WordsOf(toks) && w != t.word {
        var i :| 0 <= i < |toks| && toks[i].word == w;
        assert init[i].word == w;
      }
    }
  }

  lemma PairsForSnoc(toks: seq<Token>, w: string)
    requires toks != []
    ensures var t := toks[|toks| - 1];
      PairsFor(toks, w) == PairsFor(toks[..|toks| - 1], w) + (if w == t.word then {(t.tag, t.baseForm)} else {})
  {
    var init, t := toks[..|toks| - 1], toks[|toks| - 1];
    forall p | p in PairsFor(init, w) ensures p in PairsFor(toks, w) {
      var i :| 0 <= i < |init| && init[i].word == w && p == (init[i].tag, init[i].baseForm);
      assert toks[i] == init[i];
    }
    forall p | p in PairsFor(toks, w) ensures p in PairsFor(init, w) || (w == t.word && p == (t.tag, t.baseForm)) {
      var i :| 0 <= i < |toks| && toks[i].word == w && p == (toks[i].tag, toks[i].baseForm);
      if i < |init| { assert init[i] == toks[i]; }
    }
    if w == t.word {
      assert (t.tag, t.baseForm) == (toks[|toks| - 1].tag, toks[|toks| - 1].baseForm);
    }
  }

  /** `process_file` only grows the lexicon: every old pair stays. */
  lemma ProcessKeepsPairs(e: Entries, toks: seq<Token>, w: string)
    requires w in e
    ensures w in AddTokens(e, toks) && e[w] <= AddTokens(e, toks)[w]
  {
    AddTokensExact(e, toks);
    assert PairsOf(e, w) == e[w];
  }

  /** Afterwards every processed token's (tag, lemma) pair is recorded under its word. */
  lemma ProcessRecordsTokens(e: Entries, toks: seq<Token>, i: nat)
    requires i < |toks|
    ensures toks[i].word in AddTokens(e, toks)
    ensures (toks[i].tag, toks[i].baseForm) in AddTokens(e, toks)[toks[i].word]
  {
    AddTokensExact(e, toks);
    assert toks[i].word in WordsOf(toks);
    assert (toks[i].tag, toks[i].baseForm) in PairsFor(toks, toks[i].word);
  }

  lemma {:induction false} AddTokensAppend(e: Entries, a: seq<Token>, b: seq<Token>)
    ensures AddTokens(e, a + b) == AddTokens(AddTokens(e, a), b)
  {
    if b == [] {
      assert a + b == a;
    } else {
      assert (a + b)[..|a + b| - 1] == a + b[..|b| - 1];
      AddTokensAppend(e, a, b[..|b| - 1]);
    }
  }

  lemma {:induction false} AddWordsAppend(order: seq<string>, a: seq<Token>, b: seq<Token>)
    requires NoDuplicates(order)
    ensures AddWords(order, a + b) == AddWords(AddWords(order, a), b)
  {
    if b == [] {
      assert a + b == a;
    } else {
      assert (a + b)[..|a + b| - 1] == a + b[..|b| - 1];
      AddWordsAppend(order, a, b[..|b| - 1]);
    }
  }

  lemma TagsOfAppend(a: seq<Token>, b: seq<Token>)
    ensures TagsOf(a + b) == TagsOf(a) + TagsOf(b)
  {
    forall t | t in TagsOf(a) ensures t in TagsOf(a + b) {
      var i :| 0 <= i < |a| && a[i].tag == t;
      assert (a + b)[i].tag == t;
    }
    forall t | t in TagsOf(a + b) ensures t in TagsOf(a) + TagsOf(b) {
      var i :| 0 <= i < |a + b| && (a + b)[i].tag == t;
      if i >= |a| { assert b[i - |a|].tag == t; }
    }
    forall t | t in TagsOf(b) ensures t in TagsOf(a + b) {
      var i :| 0 <= i < |b| && b[i].tag == t;
      assert (a + b)[|a| + i].tag == t;
    }
  }

  /** The dictionary shared by all files, with its keys in insertion order. */
  class Lexicon {
    var order: seq<string>
    var entries: Entries

    ghost predicate Valid()
      reads this
    {
      NoDuplicates(order) && forall w :: w in entries <==> w in order
    }

    constructor ()
      ensures Valid() && order == [] && entries == map[]
    {
      order, entries := [], map[];
    }

    /** Adds one token's (tag, lemma) pair under its word. */
    method Add(t: Token)
      requires Valid()
      modifies this
      ensures Valid()
      ensures entries == AddToken(old(entries), t)
      ensures order == AddWords(old(order), [t])
    {
      assert [t][..0] == [];
      assert [t][0].word == t.word;
      assert t.word in WordsOf([t]);
      if t.word in entries {
        entries := entries[t.word := entries[t.word] + {(t.tag, t.baseForm)}];
      } else {
        assert PairsOf(entries, t.word) + {(t.tag, t.baseForm)} == {(t.tag, t.baseForm)};
        entries := entries[t.word := {(t.tag, t.baseForm)}];
        order := order + [t.word];
      }
    }
  }

  // ----- process_file -----

  /** The inner loop of `process_file` over one sentence's tagged words. */
  method ProcessSentence(lex: Lexicon, sentence: string, overrideTag: string, tagger: Tagger, lemmatize: Lemmatizer)
    returns (lines: seq<string>, tags: set<string>)
    requires lex.Valid()
    modifies lex
    ensures lex.Valid()
    ensures var toks := SentenceTokens(sentence, overrideTag, tagger, lemmatize);
            && lines == TokenLines(toks)
            && tags == TagsOf(toks)
            && lex.entries == AddTokens(old(lex.entries), toks)
            && lex.order == AddWords(old(lex.order), toks)
  {
    var tagged := tagger(sentence);
    lines, tags := [], {};
    for i := 0 to |tagged|
      invariant lex.Valid()
      invariant lines == TokenLines(TagTokens(tagged[..i], overrideTag, lemmatize))
      invariant tags == TagsOf(TagTokens(tagged[..i], overrideTag, lemmatize))
      invariant lex.entries == AddTokens(old(lex.entries), TagTokens(tagged[..i], overrideTag, lemmatize))
      invariant lex.order == AddWords(old(lex.order), TagTokens(tagged[..i], overrideTag, lemmatize))
    {
      var (word, tag) := tagged[i];
      var customTag := if Lower(word) == "that" then overrideTag else MapTag(tag);
      var baseForm := GetLemma(TaggingVerbPrefix, lemmatize, word, customTag);
      ghost var before := TagTokens(tagged[..i], overrideTag, lemmatize);
      var t := Token(word, customTag, baseForm);
      TokenStep(tagged, i, overrideTag, lemmatize);
      assert TagTokens(tagged[..i + 1], overrideTag, lemmatize) == before + [t];
      TokenLinesSnoc(before, t);
      TagsOfAppend(before, [t]);
      AddWordsAppend(old(lex.order), before, [t]);
      lines := lines + [word + "\t" + customTag];
      tags := tags + {customTag};
      assert TagsOf([t]) == {customTag};
      lex.Add(t);
      assert [t][..0] == [];
    }
    assert tagged[..|tagged|] == tagged;
  }

  lemma TokenStep(pairs: seq<(string, string)>, i: nat, overrideTag: string, lemmatize: Lemmatizer)
    requires i < |pairs|
    ensures TagTokens(pairs[..i + 1], overrideTag, lemmatize)
         == TagTokens(pairs[..i], overrideTag, lemmatize) + [TagToken(pairs[i], overrideTag, lemmatize)]
  {
    assert pairs[..i + 1][..i] == pairs[..i];
  }

  lemma TokenLinesSnoc(toks: seq<Token>, t: Token)
    ensures TokenLines(toks + [t]) == TokenLines(toks) + [TokenLine(t)]
  {
  }

  lemma FileStep(sentences: seq<string>, n: nat, overrideTag: string, tagger: Tagger, lemmatize: Lemmatizer)
    requires n < |sentences|
    ensures FileTokens(sentences[..n + 1], overrideTag, tagger, lemmatize)
         == FileTokens(sentences[..n], overrideTag, tagger, lemmatize)
            + SentenceTokens(sentences[n], overrideTag, tagger, lemmatize)
    ensures FileLines(sentences[..n + 1], overrideTag, tagger, lemmatize)
         == FileLines(sentences[..n], overrideTag, tagger, lemmatize)
            + TokenLines(SentenceTokens(sentences[n], overrideTag, tagger, lemmatize)) + [""]
  {
    assert sentences[..n + 1][..n] == sentences[..n];
  }

  /** `process_file`: the text written to the output file and the set of tags used; the
      shared lexicon gains the file's tokens. */
  method ProcessFile(lex: Lexicon, lines: seq<string>, overrideTag: string, tagger: Tagger, lemmatize: Lemmatizer)
    returns (text: string, fileTags: set<string>)
    requires lex.Valid()
    modifies lex
    ensures lex.Valid()
    ensures var sentences := Sentences(lines);
            var toks := FileTokens(sentences, overrideTag, tagger, lemmatize);
            && text == JoinWith(FileLines(sentences, overrideTag, tagger, lemmatize), "\n")
            && fileTags == TagsOf(toks)
            && lex.entries == AddTokens(old(lex.entries), toks)
            && lex.order == AddWords(old(lex.order), toks)
  {
    var sentences := Sentences(lines);
    var processed: seq<string> := [];
    fileTags := {};
    for n := 0 to |sentences|
      invariant lex.Valid()
      invariant processed == FileLines(sentences[..n], overrideTag, tagger, lemmatize)
      invariant fileTags == TagsOf(FileTokens(sentences[..n], overrideTag, tagger, lemmatize))
      invariant lex.entries == AddTokens(old(lex.entries), FileTokens(sentences[..n], overrideTag, tagger, lemmatize))
      invariant lex.order == AddWords(old(lex.order), FileTokens(sentences[..n], overrideTag, tagger, lemmatize))
    {
      var before := FileTokens(sentences[..n], overrideTag, tagger, lemmatize);
      var toks := SentenceTokens(sentences[n], overrideTag, tagger, lemmatize);
      FileStep(sentences, n, overrideTag, tagger, lemmatize);
      AddTokensAppend(old(lex.entries), before, toks);
      AddWordsAppend(old(lex.order), before, toks);
      TagsOfAppend(before, toks);
      var sentenceLines, tags := ProcessSentence(lex, sentences[n], overrideTag, tagger, lemmatize);
      processed := processed + sentenceLines + [""];
      fileTags := fileTags + tags;
    }
    assert sentences[..|sentences|] == sentences;
    text := JoinWith(processed, "\n");
  }

  // ----- what the output file says -----

  /** The tag field of a written line: the piece after the first tab, if any. */
  function TagField(line: string): string
  {
    var pieces := SplitOn(line, '\t');
    if |pieces| >= 2 then pieces[1] else ""
  }

  /** The tags that the non-empty lines of an output file carry. */
  function LineTags(lines: seq<string>): set<string>
  {
    if lines == [] then {}
    else
      var l := lines[|lines| - 1];
      LineTags(lines[..|lines| - 1]) + (if l != "" then {TagField(l)} else {})
  }

  predicate NoTabs(toks: seq<Token>)
  {
    forall i :: 0 <= i < |toks| ==> '\t' !in toks[i].word && '\t' !in toks[i].tag
  }

  lemma NoTabsAppend(a: seq<Token>, b: seq<Token>)
    requires NoTabs(a + b)
    ensures NoTabs(a) && NoTabs(b)
  {
    forall i | 0 <= i < |b| ensures '\t' !in b[i].word && '\t' !in b[i].tag {
      assert (a + b)[|a| + i] == b[i];
    }
    forall i | 0 <= i < |a| ensures '\t' !in a[i].word && '\t' !in a[i].tag {
      assert (a + b)[i] == a[i];
    }
  }

  lemma {:induction false} LineTagsAppend(a: seq<string>, b: seq<string>)
    ensures LineTags(a + b) == LineTags(a) + LineTags(b)
  {
    if b == [] {
      assert a + b == a;
    } else {
      assert (a + b)[..|a + b| - 1] == a + b[..|b| - 1];
      LineTagsAppend(a, b[..|b| - 1]);
    }
  }

  lemma TokenLineTag(t: Token)
    requires '\t' !in t.word && '\t' !in t.tag
    ensures TokenLine(t) != "" && TagField(TokenLine(t)) == t.tag
  {
    SplitOnAppend(t.word, t.tag, '\t');
    SplitOnNone(t.word, '\t');
    SplitOnNone(t.tag, '\t');
  }

  lemma {:induction false} TokenLinesTags(toks: seq<Token>)
    requires NoTabs(toks)
    ensures LineTags(TokenLines(toks)) == TagsOf(toks)
  {
    if toks != [] {
      var init, t := toks[..|toks| - 1], toks[|toks| - 1];
      assert toks == init + [t];
      TokenLinesTags(init);
      TokenLinesSnoc(init, t);
      LineTagsAppend(TokenLines(init), [TokenLine(t)]);
      TokenLineTag(t);
      assert [TokenLine(t)][..0] == [];
      TagsOfAppend(init, [t]);
      assert TagsOf([t]) == {t.tag};
    }
  }

  /** The set `process_file` returns is exactly the set of tags its output lines carry,
      provided no word or tag holds a tab. */
  lemma {:induction false} ReturnedTagsAreWritten(sentences: seq<string>, overrideTag: string, tagger: Tagger, lemmatize: Lemmatizer)
    requires NoTabs(FileTokens(sentences, overrideTag, tagger, lemmatize))
    ensures LineTags(FileLines(sentences, overrideTag, tagger, lemmatize))
         == TagsOf(FileTokens(sentences, overrideTag, tagger, lemmatize))
  {
    if sentences != [] {
      var init := sentences[..|sentences| - 1];
      var before := FileTokens(init, overrideTag, tagger, lemmatize);
      var toks := SentenceTokens(sentences[|sentences| - 1], overrideTag, tagger, lemmatize);
      NoTabsAppend(before, toks);
      ReturnedTagsAreWritten(init, overrideTag, tagger, lemmatize);
      var prev := FileLines(init, overrideTag, tagger, lemmatize);
      LineTagsAppend(prev + TokenLines(toks), [""]);
      LineTagsAppend(prev, TokenLines(toks));
      assert [""][..0] == [];
      TokenLinesTags(toks);
      TagsOfAppend(before, toks);
    }
  }

  /** One line per token plus one empty line per sentence. */
  lemma {:induction false} FileLinesCount(sentences: seq<string>, overrideTag: string, tagger: Tagger, lemmatize: Lemmatizer)
    ensures |FileLines(sentences, overrideTag, tagger, lemmatize)|
         == |FileTokens(sentences, overrideTag, tagger, lemmatize)| + |sentences|
  {
    if sentences != [] {
      FileLinesCount(sentences[..|sentences| - 1], overrideTag, tagger, lemmatize);
    }
  }

  /** In a whole file, every token whose word is "that" in any letter case carries the
      file's override tag, and every other token carries the mapped tag of a tagger
      pair for the same word in one of the sentences. */
  lemma {:induction false} FileThatTags(sentences: seq<string>, overrideTag: string, tagger: Tagger, lemmatize: Lemmatizer)
    ensures forall t :: t in FileTokens(sentences, overrideTag, tagger, lemmatize) && Lower(t.word) == "that"
                    ==> t.tag == overrideTag
    ensures forall t :: t in FileTokens(sentences, overrideTag, tagger, lemmatize) && Lower(t.word) != "that"
                    ==> exists s, p :: s in sentences && p in tagger(s) && p.0 == t.word && t.tag == MapTag(p.1)
  {
    if sentences != [] {
      var n := |sentences| - 1;
      var init, last := sentences[..n], sentences[n];
      FileThatTags(init, overrideTag, tagger, lemmatize);
      var toks := SentenceTokens(last, overrideTag, tagger, lemmatize);
      forall t | t in FileTokens(sentences, overrideTag, tagger, lemmatize)
        ensures Lower(t.word) == "that" ==> t.tag == overrideTag
        ensures Lower(t.word) != "that" ==> exists s, p :: s in sentences && p in tagger(s) && p.0 == t.word && t.tag == MapTag(p.1)
      {
        if t in FileTokens(init, overrideTag, tagger, lemmatize) {
          if Lower(t.word) != "that" {
            var s, p :| s in init && p in tagger(s) && p.0 == t.word && t.tag == MapTag(p.1);
            assert s in sentences;
          }
        } else {
          assert t in toks;
          var i :| 0 <= i < |toks| && toks[i] == t;
          TagTokensAt(tagger(last), overrideTag, lemmatize, i);
          assert tagger(last)[i] in tagger(last);
        }
      }
    }
  }

  /** A blank input line adds no sentence. */
  lemma BlankLineAddsNothing(lines: seq<string>, line: string)
    requires AllSpace(line)
    ensures Sentences(lines + [line]) == Sentences(lines)
  {
    assert (lines + [line])[..|lines|] == lines;
  }
}
