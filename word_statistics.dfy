/** The word-level analysis of statical_analysis.py: punctuation removed, the text
    lower-cased and split into words, stop words dropped; then the lexical diversity
    (distinct words over words), the ten most common words and the word counts of every
    category, and the further-analysis report over all configured categories. */
module WordStatistics {
  import opened Text
  import opened Order
  import opened TextStatistics

  /** Python's `string.punctuation`: the ASCII punctuation characters, as inclusive
      ranges. */
  const PunctuationRanges: seq<(char, char)> := [('!', '/'), (':', '@'), ('[', '`'), ('{', '~')]

  predicate IsPunctuation(c: char)
  {
    InRanges(c, PunctuationRanges)
  }

  /** `text.translate(str.maketrans("", "", string.punctuation))`: the text with every
      punctuation character deleted. */
  function RemovePunctuation(s: string): (r: string)
    ensures |r| <= |s|
    ensures forall j :: 0 <= j < |r| ==> !IsPunctuation(r[j])
  {
    if s == [] then []
    else
      var rest := RemovePunctuation(s[1..]);
      if IsPunctuation(s[0]) then rest
      else
        assert forall j :: 1 <= j < |rest| + 1 ==> ([s[0]] + rest)[j] == rest[j - 1];
        [s[0]] + rest
  }

  /** `[w for w in words if w not in stop_words]`. */
  function DropStopWords(words: seq<string>, stopWords: set<string>): (r: seq<string>)
  {
    if words == [] then []
    else
      var init := DropStopWords(words[..|words| - 1], stopWords);
      var w := words[|words| - 1];
      if w in stopWords then init else init + [w]
  }

  /** The words of a file that the word-level analysis counts. */
  function CleanWords(text: string, stopWords: set<string>): seq<string>
  {
    DropStopWords(SplitWs(Lower(RemovePunctuation(text))), stopWords)
  }

  /** A character that is not punctuation stays so when lower-cased. */
  predicate Clean(c: char)
  {
    !IsPunctuation(c) && !IsUpper(c)
  }

  /** Every word kept is non-empty, holds no whitespace, no punctuation and no upper-case
      ASCII letter, and is not a stop word. */
  lemma CleanWordsFacts(text: string, stopWords: set<string>)
    ensures forall i :: 0 <= i < |CleanWords(text, stopWords)| ==>
              var w := CleanWords(text, stopWords)[i];
              w != "" && NoSpace(w) && w !in stopWords && forall j :: 0 <= j < |w| ==> Clean(w[j])
  {
    var removed := RemovePunctuation(text);
    var lowered := Lower(removed);
    forall j | 0 <= j < |lowered| ensures Clean(lowered[j]) {
      LowerClean(removed[j]);
    }
    SplitWsChars(lowered, Clean);
    SplitWsFields(lowered);
    DropStopWordsKeeps(SplitWs(lowered), stopWords);
  }

  /** Lower-casing a character that is not punctuation gives one that is neither
      punctuation nor upper case. */
  lemma LowerClean(c: char)
    requires !IsPunctuation(c)
    ensures Clean(LowerChar(c))
  {
    if IsUpper(c) {
      var d := LowerChar(c);
      assert 'a' <= d <= 'z';
      assert !InRanges(d, PunctuationRanges[3..]);
      assert !InRanges(d, PunctuationRanges[2..]);
      assert !InRanges(d, PunctuationRanges[1..]);
    }
  }

  /** Dropping stop words keeps only words of the input that are not stop words. */
  lemma {:induction false} DropStopWordsKeeps(words: seq<string>, stopWords: set<string>)
    ensures forall i :: 0 <= i < |DropStopWords(words, stopWords)| ==>
              DropStopWords(words, stopWords)[i] !in stopWords && DropStopWords(words, stopWords)[i] in words
  {
    if words != [] {
      var init := words[..|words| - 1];
      DropStopWordsKeeps(init, stopWords);
      assert forall w :: w in init ==> w in words;
    }
  }

  /** A punctuation character is deleted and any other character stays. */
  lemma RemovePunctuationOne(c: char)
    ensures RemovePunctuation([c]) == if IsPunctuation(c) then "" else [c]
  {
    assert [c][1..] == [];
  }

  /** Deleting punctuation handles the text on either side of a cut separately; with
      `RemovePunctuationOne`, the result is the text with exactly its punctuation
      characters taken out, the others kept in order. */
  lemma {:induction false} RemovePunctuationAppend(a: string, b: string)
    ensures RemovePunctuation(a + b) == RemovePunctuation(a) + RemovePunctuation(b)
  {
    if a == [] {
      assert a + b == b;
    } else {
      var ab := a + b;
      assert ab[0] == a[0] && ab[1..] == a[1..] + b;
      RemovePunctuationAppend(a[1..], b);
      var rest := RemovePunctuation(a[1..]);
      if IsPunctuation(a[0]) {
        assert RemovePunctuation(ab) == RemovePunctuation(a[1..] + b);
      } else {
        assert RemovePunctuation(ab) == [a[0]] + RemovePunctuation(a[1..] + b);
        assert RemovePunctuation(a) == [a[0]] + rest;
      }
    }
  }

  /** Dropping stop words keeps every other word with its number of occurrences. */
  lemma {:induction false} DropStopWordsCount(words: seq<string>, stopWords: set<string>, w: string)
    ensures Count(DropStopWords(words, stopWords), w) == if w in stopWords then 0 else Count(words, w)
  {
    if words != [] {
      var init := words[..|words| - 1];
      var last := words[|words| - 1];
      DropStopWordsCount(init, stopWords, w);
      var kept := DropStopWords(init, stopWords);
      if last !in stopWords {
        assert (kept + [last])[..|kept + [last]| - 1] == kept;
      }
    }
  }

  /** Deleting punctuation twice is deleting it once. */
  lemma {:induction false} RemovePunctuationIdempotent(s: string)
    ensures RemovePunctuation(RemovePunctuation(s)) == RemovePunctuation(s)
  {
    if s != [] {
      RemovePunctuationIdempotent(s[1..]);
      var rest := RemovePunctuation(s[1..]);
      if !IsPunctuation(s[0]) {
        assert ([s[0]] + rest)[1..] == rest;
      }
    }
  }

  // ----- lexical diversity -----

  /** `set(words)`. */
  function WordSet(words: seq<string>): set<string>
  {
    set w | w in words
  }

  /** `unique_words / total_words if total_words > 0 else 0`, as an exact ratio. */
  function LexicalDiversity(words: seq<string>): real
  {
    if |words| > 0 then |WordSet(words)| as real / |words| as real else 0.0
  }

  /** There are at most as many distinct words as words, as many exactly when none
      repeats, and at least one when there is a word. */
  lemma {:induction false} WordSetSize(words: seq<string>)
    ensures |WordSet(words)| <= |words|
    ensures |WordSet(words)| == |words| <==> NoDuplicates(words)
    ensures words != [] ==> |WordSet(words)| >= 1
  {
    if words != [] {
      var init, w := words[..|words| - 1], words[|words| - 1];
      assert words == init + [w];
      WordSetSize(init);
      assert WordSet(words) == WordSet(init) + {w};
      NoDuplicatesSnoc(init, w);
    }
  }

  /** The diversity lies in [0, 1]; it is 0 exactly when no word is left, and 1 exactly
      when no word repeats. */
  lemma LexicalDiversityBounds(words: seq<string>)
    ensures 0.0 <= LexicalDiversity(words) <= 1.0
    ensures LexicalDiversity(words) == 0.0 <==> words == []
    ensures words != [] ==> (LexicalDiversity(words) == 1.0 <==> NoDuplicates(words))
  {
    if words != [] {
      WordSetSize(words);
      var u, t := |WordSet(words)| as real, |words| as real;
      assert LexicalDiversity(words) * t == u;
    }
  }

  // ----- Counter.most_common -----

  /** The `(word, count)` items of `Counter(words)`, in order of first occurrence. */
  function Items(words: seq<string>): seq<(string, nat)>
  {
    var ws := Distinct(words);
    seq(|ws|, i requires 0 <= i < |ws| => (ws[i], Count(words, ws[i])))
  }

  /** The sort key of `most_common`: a higher count comes first. */
  predicate MoreCommon(p: (string, nat), q: (string, nat))
  {
    p.1 > q.1
  }

  /** `Counter(words).most_common(n)`: the items stably sorted by falling count, the
      first `n` of them. */
  function MostCommon(words: seq<string>, n: nat): seq<(string, nat)>
  {
    var sorted := SortBy(Items(words), MoreCommon);
    if |sorted| <= n then sorted else sorted[..n]
  }

  lemma MoreCommonOrder()
    ensures StrictOrder(MoreCommon) && StrictWeakOrder(MoreCommon)
  {
  }

  /** Each item is a word with its count, every word has its item, and no word has two. */
  lemma ItemsFacts(words: seq<string>)
    ensures forall p :: p in Items(words) ==> p.0 in words && p.1 == Count(words, p.0) && p.1 >= 1
    ensures forall w :: w in words ==> (w, Count(words, w)) in Items(words)
    ensures NoDuplicates(Items(words))
    ensures |Items(words)| == |Distinct(words)|
  {
    var ws := Distinct(words);
    var items := Items(words);
    forall p | p in items ensures p.0 in words && p.1 == Count(words, p.0) && p.1 >= 1 {
      var i :| 0 <= i < |items| && items[i] == p;
      CountPositive(words, ws[i]);
    }
    forall w | w in words ensures (w, Count(words, w)) in items {
      var i :| 0 <= i < |ws| && ws[i] == w;
      assert items[i] == (w, Count(words, w));
    }
    forall i, j | 0 <= i < j < |items| ensures items[i] != items[j] {
      assert items[i].0 == ws[i] && items[j].0 == ws[j];
    }
  }

  /** The sorted items: a reordering of the items, by falling count, each word once. */
  lemma SortedItems(words: seq<string>)
    ensures var sorted := SortBy(Items(words), MoreCommon);
      && |sorted| == |Distinct(words)|
      && SortedBy(sorted, MoreCommon)
      && NoDuplicates(sorted)
      && (forall p :: p in sorted <==> p in Items(words))
  {
    var items := Items(words);
    var sorted := SortBy(items, MoreCommon);
    ItemsFacts(words);
    MoreCommonOrder();
    SortByIsSorted(items, MoreCommon);
    MultisetNoDuplicates(items, sorted);
    assert |sorted| == |multiset(sorted)| == |multiset(items)| == |items|;
    forall p ensures p in sorted <==> p in items {
      assert p in sorted <==> p in multiset(sorted);
      assert p in items <==> p in multiset(items);
    }
  }

  /** `most_common(n)` gives `n` entries, or every distinct word when there are fewer,
      by falling count; words with the same count come in the order in which they first
      occur in the text. */
  lemma MostCommonOrdered(words: seq<string>, n: nat)
    ensures |MostCommon(words, n)| == (if |Distinct(words)| <= n then |Distinct(words)| else n)
    ensures forall i, j :: 0 <= i < j < |MostCommon(words, n)| ==> MostCommon(words, n)[i].1 >= MostCommon(words, n)[j].1
    ensures forall i :: 0 <= i < |MostCommon(words, n)| ==> MostCommon(words, n)[i].0 in words
    ensures forall i, j :: 0 <= i < j < |MostCommon(words, n)| && MostCommon(words, n)[i].1 == MostCommon(words, n)[j].1 ==>
              FirstIndex(words, MostCommon(words, n)[i].0) < FirstIndex(words, MostCommon(words, n)[j].0)
  {
    var items := Items(words);
    var sorted := SortBy(items, MoreCommon);
    SortedItems(words);
    var r := MostCommon(words, n);
    forall i, j | 0 <= i < j < |r| ensures r[i].1 >= r[j].1 {
      assert r[i] == sorted[i] && r[j] == sorted[j];
      assert !MoreCommon(sorted[j], sorted[i]);
    }
    SortedItemWords(words);
    SortedItemsTies(words);
    assert forall i :: 0 <= i < |r| ==> r[i] == sorted[i];
  }

  /** Every sorted item is a word of the text. */
  lemma SortedItemWords(words: seq<string>)
    ensures var sorted := SortBy(Items(words), MoreCommon);
      forall i :: 0 <= i < |sorted| ==> sorted[i].0 in words
  {
    SortedItems(words);
    ItemsFacts(words);
  }

  /** Sorted items with the same count keep the order of their words' first occurrences. */
  lemma SortedItemsTies(words: seq<string>)
    ensures var sorted := SortBy(Items(words), MoreCommon);
      forall i, j :: 0 <= i < j < |sorted| && sorted[i].1 == sorted[j].1 ==>
        sorted[i].0 in words && sorted[j].0 in words &&
        FirstIndex(words, sorted[i].0) < FirstIndex(words, sorted[j].0)
  {
    var items := Items(words);
    var sorted := SortBy(items, MoreCommon);
    SortedItemWords(words);
    MoreCommonOrder();
    SortByStable(items, MoreCommon);
    DistinctFirstOccurrence(words);
    ItemWords(words);
    forall i, j | 0 <= i < j < |sorted| && sorted[i].1 == sorted[j].1
      ensures FirstIndex(words, sorted[i].0) < FirstIndex(words, sorted[j].0)
    {
      assert !MoreCommon(sorted[i], sorted[j]);
      var p, q := TiePositions(items, sorted, MoreCommon, i, j);
    }
  }

  lemma ItemWords(words: seq<string>)
    ensures |Items(words)| == |Distinct(words)|
    ensures forall p :: 0 <= p < |Items(words)| ==> Items(words)[p].0 == Distinct(words)[p]
  {
  }

  /** Each entry of `most_common(n)` is a distinct word of the text with its count. */
  lemma MostCommonEntries(words: seq<string>, n: nat)
    ensures forall i :: 0 <= i < |MostCommon(words, n)| ==>
              var p := MostCommon(words, n)[i];
              p.0 in words && p.1 == Count(words, p.0) && p.1 >= 1
    ensures forall i, j :: 0 <= i < j < |MostCommon(words, n)| ==> MostCommon(words, n)[i].0 != MostCommon(words, n)[j].0
  {
    var sorted := SortBy(Items(words), MoreCommon);
    SortedItems(words);
    ItemsFacts(words);
    var r := MostCommon(words, n);
    assert forall i :: 0 <= i < |r| ==> r[i] == sorted[i] && r[i] in Items(words);
    forall i, j | 0 <= i < j < |r| ensures r[i].0 != r[j].0 {
      assert r[i] != r[j];
    }
  }

  /** Where a word's item sits among the sorted items. */
  lemma ItemPosition(words: seq<string>, w: string) returns (m: nat)
    requires w in words
    ensures m < |SortBy(Items(words), MoreCommon)|
    ensures SortBy(Items(words), MoreCommon)[m] == (w, Count(words, w))
  {
    ItemsFacts(words);
    SortedItems(words);
    var sorted := SortBy(Items(words), MoreCommon);
    assert (w, Count(words, w)) in sorted;
    m :| 0 <= m < |sorted| && sorted[m] == (w, Count(words, w));
  }

  /** A word left out of `most_common(n)` is no more common than the last entry, which
      means the list is full. */
  lemma MostCommonIsMost(words: seq<string>, n: nat, w: string)
    requires w in words
    requires forall i :: 0 <= i < |MostCommon(words, n)| ==> MostCommon(words, n)[i].0 != w
    ensures |MostCommon(words, n)| == n
    ensures n > 0 ==> Count(words, w) <= MostCommon(words, n)[n - 1].1
  {
    var sorted := SortBy(Items(words), MoreCommon);
    var r := MostCommon(words, n);
    var m := ItemPosition(words, w);
    assert forall i :: 0 <= i < |r| ==> r[i] == sorted[i];
    assert m >= |r|;
    if n > 0 {
      MoreCommonOrder();
      SortByIsSorted(Items(words), MoreCommon);
      assert r[n - 1] == sorted[n - 1];
      assert !MoreCommon(sorted[m], sorted[n - 1]);
    }
  }

  /** The counts of `Counter(words)` add up to the number of words. */
  lemma CountsSumToTotal(words: seq<string>)
    ensures SumCounts(Distinct(words), words) == |words|
  {
    SumCountsCovers(Distinct(words), words);
  }

  // ----- the word-level loop -----

  /** `most_common(10)`. */
  const TopCount := 10

  /** `lexical_diversity`, `top_words` and `word_counts`, by category label. */
  datatype WordTables = WordTables(
    diversity: map<string, real>,
    topWords: map<string, seq<(string, nat)>>,
    wordCounts: map<string, map<string, nat>>)

  /** The tables after the loop over `fileLabels`: the words of each file that exists
      under `dataFolder` are measured and recorded under its label. */
  function TabulateWords(texts: Texts, dataFolder: string, fileLabels: seq<(string, string)>, stopWords: set<string>): WordTables
  {
    if fileLabels == [] then WordTables(map[], map[], map[])
    else
      var t := TabulateWords(texts, dataFolder, fileLabels[..|fileLabels| - 1], stopWords);
      var (file, category) := fileLabels[|fileLabels| - 1];
      var path := PathJoin(dataFolder, file);
      if path in texts then
        var words := CleanWords(texts[path], stopWords);
        WordTables(t.diversity[category := LexicalDiversity(words)],
                   t.topWords[category := MostCommon(words, TopCount)],
                   t.wordCounts[category := CountMap(words)])
      else t
  }

  /** The loop of statical_analysis.py over the files for the word-level metrics. */
  method AnalyzeWords(texts: Texts, dataFolder: string, fileLabels: seq<(string, string)>, stopWords: set<string>)
    returns (tables: WordTables)
    ensures tables == TabulateWords(texts, dataFolder, fileLabels, stopWords)
  {
    var lexicalDiversity: map<string, real> := map[];
    var topWords: map<string, seq<(string, nat)>> := map[];
    var wordCounts: map<string, map<string, nat>> := map[];
    for i := 0 to |fileLabels|
      invariant WordTables(lexicalDiversity, topWords, wordCounts) == TabulateWords(texts, dataFolder, fileLabels[..i], stopWords)
    {
      assert fileLabels[..i + 1][..i] == fileLabels[..i];
      var (file, category) := fileLabels[i];
      var path := PathJoin(dataFolder, file);
      if path in texts {
        var words := CleanWords(texts[path], stopWords);
        lexicalDiversity := lexicalDiversity[category := LexicalDiversity(words)];
        topWords := topWords[category := MostCommon(words, TopCount)];
        wordCounts := wordCounts[category := CountMap(words)];
      }
    }
    assert fileLabels[..|fileLabels|] == fileLabels;
    tables := WordTables(lexicalDiversity, topWords, wordCounts);
  }

  /** A category is recorded, in all three tables, exactly when one of its files exists. */
  lemma {:induction false} TabulateWordsKeys(texts: Texts, dataFolder: string, fileLabels: seq<(string, string)>, stopWords: set<string>)
    ensures var t := TabulateWords(texts, dataFolder, fileLabels, stopWords);
      && t.diversity.Keys == Found(texts, dataFolder, fileLabels)
      && t.topWords.Keys == Found(texts, dataFolder, fileLabels)
      && t.wordCounts.Keys == Found(texts, dataFolder, fileLabels)
  {
    if fileLabels != [] {
      TabulateWordsKeys(texts, dataFolder, fileLabels[..|fileLabels| - 1], stopWords);
      FoundStep(texts, dataFolder, fileLabels);
    }
  }

  /** Every recorded diversity lies in [0, 1] and every top-words list has at most ten
      entries. */
  lemma {:induction false} TabulateWordsBounds(texts: Texts, dataFolder: string, fileLabels: seq<(string, string)>, stopWords: set<string>)
    ensures forall category :: category in TabulateWords(texts, dataFolder, fileLabels, stopWords).diversity
              ==> 0.0 <= TabulateWords(texts, dataFolder, fileLabels, stopWords).diversity[category] <= 1.0
    ensures forall category :: category in TabulateWords(texts, dataFolder, fileLabels, stopWords).topWords
              ==> |TabulateWords(texts, dataFolder, fileLabels, stopWords).topWords[category]| <= TopCount
  {
    if fileLabels != [] {
      var n := |fileLabels| - 1;
      TabulateWordsBounds(texts, dataFolder, fileLabels[..n], stopWords);
      var path := PathJoin(dataFolder, fileLabels[n].0);
      if path in texts {
        var words := CleanWords(texts[path], stopWords);
        LexicalDiversityBounds(words);
        MostCommonOrdered(words, TopCount);
      }
    }
  }

  // ----- the further-analysis report -----

  /** One category's part of the report: its diversity and its top words. */
  datatype ReportEntry = ReportEntry(category: string, diversity: real, topWords: seq<(string, nat)>)

  /** The report loop over every configured label: each label's diversity and top words
      are looked up, and the first label without them stops the script with a
      `KeyError` (`ok` false) after the entries before it have been written. */
  method FurtherAnalysis(tables: WordTables, labels: seq<string>) returns (entries: seq<ReportEntry>, ok: bool)
    ensures ok <==> forall k :: 0 <= k < |labels| ==> labels[k] in tables.diversity && labels[k] in tables.topWords
    ensures ok ==> |entries| == |labels|
    ensures !ok ==> (|entries| < |labels|
                     && (labels[|entries|] !in tables.diversity || labels[|entries|] !in tables.topWords))
    ensures forall k :: 0 <= k < |entries| ==>
              labels[k] in tables.diversity && labels[k] in tables.topWords
              && entries[k] == ReportEntry(labels[k], tables.diversity[labels[k]], tables.topWords[labels[k]])
  {
    entries := [];
    ok := true;
    var i := 0;
    while i < |labels| && ok
      invariant 0 <= i <= |labels| && |entries| == i
      invariant forall k :: 0 <= k < i ==>
                  labels[k] in tables.diversity && labels[k] in tables.topWords
                  && entries[k] == ReportEntry(labels[k], tables.diversity[labels[k]], tables.topWords[labels[k]])
      invariant !ok ==> i < |labels| && (labels[i] !in tables.diversity || labels[i] !in tables.topWords)
      decreases |labels| - i, ok
    {
      var category := labels[i];
      if category in tables.diversity && category in tables.topWords {
        entries := entries + [ReportEntry(category, tables.diversity[category], tables.topWords[category])];
        i := i + 1;
      } else {
        ok := false;
      }
    }
  }

  /** With distinct labels, a configured label has a diversity, and top words, exactly
      when its own file exists. */
  lemma LabelFound(texts: Texts, dataFolder: string, fileLabels: seq<(string, string)>, stopWords: set<string>, k: nat)
    requires forall i, j :: 0 <= i < j < |fileLabels| ==> fileLabels[i].1 != fileLabels[j].1
    requires k < |fileLabels|
    ensures var t := TabulateWords(texts, dataFolder, fileLabels, stopWords);
      && (fileLabels[k].1 in t.diversity <==> PathJoin(dataFolder, fileLabels[k].0) in texts)
      && (fileLabels[k].1 in t.topWords <==> PathJoin(dataFolder, fileLabels[k].0) in texts)
  {
    TabulateWordsKeys(texts, dataFolder, fileLabels, stopWords);
    if fileLabels[k].1 in Found(texts, dataFolder, fileLabels) {
      var j :| 0 <= j < |fileLabels| && PathJoin(dataFolder, fileLabels[j].0) in texts && fileLabels[k].1 == fileLabels[j].1;
      assert j == k;
    }
  }

  /** With distinct labels, the report over every configured label completes exactly
      when every data file exists. */
  lemma ReportCompletes(texts: Texts, dataFolder: string, fileLabels: seq<(string, string)>, stopWords: set<string>)
    requires forall i, j :: 0 <= i < j < |fileLabels| ==> fileLabels[i].1 != fileLabels[j].1
    ensures var t := TabulateWords(texts, dataFolder, fileLabels, stopWords);
      (forall k :: 0 <= k < |fileLabels| ==> fileLabels[k].1 in t.diversity && fileLabels[k].1 in t.topWords)
      <==> forall k :: 0 <= k < |fileLabels| ==> PathJoin(dataFolder, fileLabels[k].0) in texts
  {
    var t := TabulateWords(texts, dataFolder, fileLabels, stopWords);
    TabulateWordsKeys(texts, dataFolder, fileLabels, stopWords);
    if forall k :: 0 <= k < |fileLabels| ==> fileLabels[k].1 in t.diversity {
      forall k | 0 <= k < |fileLabels| ensures PathJoin(dataFolder, fileLabels[k].0) in texts {
        assert fileLabels[k].1 in Found(texts, dataFolder, fileLabels);
        var j :| 0 <= j < |fileLabels| && PathJoin(dataFolder, fileLabels[j].0) in texts && fileLabels[k].1 == fileLabels[j].1;
        assert j == k;
      }
    }
  }
}
