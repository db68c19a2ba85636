/** The Python string operations the scripts rely on, over `string` (a `seq<char>`):
    `str.isspace`, `strip`, `split()`, `split(sep)`, `sep.join`, `lower`, `replace`,
    `startswith`, `os.path.basename` and `os.path.join`. */
module Text {

  /** Python's `str.isspace()` for one character, which `strip()` and `split()` with no
      argument use: tab to carriage return, the four information separators, space,
      NEXT LINE, NO-BREAK SPACE, OGHAM SPACE MARK, U+2000 to U+200A, the line and
      paragraph separators, NARROW NO-BREAK SPACE, MEDIUM MATHEMATICAL SPACE and
      IDEOGRAPHIC SPACE. */
  predicate IsSpace(c: char)
  {
    InRanges(c, SpaceRanges)
  }

  /** The whitespace code points as inclusive ranges. */
  const SpaceRanges: seq<(char, char)> := [
    ('\t', '\r'), ('\U{1C}', ' '), ('\U{85}', '\U{85}'), ('\U{A0}', '\U{A0}'),
    ('\U{1680}', '\U{1680}'), ('\U{2000}', '\U{200A}'), ('\U{2028}', '\U{2029}'),
    ('\U{202F}', '\U{202F}'), ('\U{205F}', '\U{205F}'), ('\U{3000}', '\U{3000}')]

  /** `c` lies in one of the inclusive ranges. */
  predicate InRanges(c: char, ranges: seq<(char, char)>)
  {
    ranges != [] && (ranges[0].0 <= c <= ranges[0].1 || InRanges(c, ranges[1..]))
  }

  predicate AllSpace(s: string)
  {
    forall i :: 0 <= i < |s| ==> IsSpace(s[i])
  }

  predicate NoSpace(s: string)
  {
    forall i :: 0 <= i < |s| ==> !IsSpace(s[i])
  }

  /** Regrouping a concatenation; stated once so that proofs about split strings need
      not rediscover it. */
  lemma ConcatAssoc<T>(a: seq<T>, b: seq<T>, c: seq<T>)
    ensures a + b + c == a + (b + c)
  {
  }

  lemma ConsCons<T>(a: T, b: T, x: seq<T>)
    ensures [a] + ([b] + x) == [a, b] + x
  {
  }

  /** Length of the leading run of whitespace. */
  function LeadLen(s: string): (n: nat)
    ensures n <= |s|
  {
    if s != [] && IsSpace(s[0]) then 1 + LeadLen(s[1..]) else 0
  }

  /** Length of the trailing run of whitespace. */
  function TrailLen(s: string): (n: nat)
    ensures n <= |s|
  {
    if s != [] && IsSpace(s[|s| - 1]) then 1 + TrailLen(s[..|s| - 1]) else 0
  }

  /** Length of the leading run of non-whitespace characters. */
  function WordLen(s: string): (n: nat)
    ensures n <= |s|
  {
    if s == [] || IsSpace(s[0]) then 0 else 1 + WordLen(s[1..])
  }

  /** Python's `s.lstrip()`. */
  function TrimStart(s: string): string
  {
    s[LeadLen(s)..]
  }

  /** Python's `s.rstrip()`. */
  function TrimEnd(s: string): string
  {
    s[..|s| - TrailLen(s)]
  }

  /** Python's `s.strip()`: the slice left after dropping leading and trailing whitespace. */
  function Strip(s: string): (r: string)
    ensures r == "" <==> AllSpace(s)
    ensures r != "" ==> !IsSpace(r[0]) && !IsSpace(r[|r| - 1])
  {
    var t := TrimStart(s);
    LeadLenFacts(s);
    TrailLenFacts(t);
    assert AllSpace(s) ==> t == [] by {
      if |t| > 0 { assert !IsSpace(s[LeadLen(s)]); }
    }
    assert t == [] ==> AllSpace(s) by {
      if t == [] { assert s[..LeadLen(s)] == s; }
    }
    var r := TrimEnd(t);
    assert r != "" ==> r[0] == t[0] && r[|r| - 1] == t[|t| - TrailLen(t) - 1];
    r
  }

  /** `s.strip()` is the slice of `s` between a leading and a trailing run of whitespace;
      with the ensures of `Strip`, which say that neither end of a non-empty result is
      whitespace, this fixes the result. */
  lemma StripIsSlice(s: string)
    ensures exists a, b :: 0 <= a <= b <= |s| && Strip(s) == s[a..b] && AllSpace(s[..a]) && AllSpace(s[b..])
  {
    var a := LeadLen(s);
    var t := TrimStart(s);
    var b := |s| - TrailLen(t);
    LeadLenFacts(s);
    TrailLenFacts(t);
    assert s[b..] == t[|t| - TrailLen(t)..];
    assert Strip(s) == s[a..b];
  }

  /** Python's `s.split()` with no argument: the maximal runs of non-whitespace, in order. */
  function SplitWs(s: string): (r: seq<string>)
    decreases |s|
  {
    var t := TrimStart(s);
    if t == [] then []
    else
      var n := WordLen(t);
      [t[..n]] + SplitWs(t[n..])
  }

  /** Python's `sep.join(parts)`. */
  function JoinWith(parts: seq<string>, sep: string): string
  {
    if parts == [] then ""
    else if |parts| == 1 then parts[0]
    else parts[0] + sep + JoinWith(parts[1..], sep)
  }

  /** Splits on every character of `seps`, keeping empty pieces: Python's `s.split(c)`
      for `seps == {c}`, and `re.split("[...]", s)` for a character class. */
  function SplitOnAny(s: string, seps: set<char>): (r: seq<string>)
    ensures |r| >= 1
    ensures forall i :: 0 <= i < |r| ==> forall j :: 0 <= j < |r[i]| ==> r[i][j] !in seps
    decreases |s|
  {
    if s == [] then [""]
    else
      var rest := SplitOnAny(s[1..], seps);
      if s[0] in seps then [""] + rest
      else
        var head := [s[0]] + rest[0];
        assert forall j :: 0 < j < |head| ==> head[j] == rest[0][j - 1];
        [head] + rest[1..]
  }

  /** The characters of `s` that are separators, in order. */
  function Separators(s: string, seps: set<char>): seq<char>
  {
    if s == [] then [] else (if s[0] in seps then [s[0]] else []) + Separators(s[1..], seps)
  }

  /** The pieces with the separators put back between them: `parts[0] + cs[0] + parts[1]
      + ... + parts[|cs|]`. */
  function Interleave(parts: seq<string>, cs: seq<char>): string
    requires |parts| == |cs| + 1
  {
    if cs == [] then parts[0] else parts[0] + [cs[0]] + Interleave(parts[1..], cs[1..])
  }

  /** Splitting loses nothing: there is one piece more than there are separators in `s`,
      and putting the separators back between the pieces, in order, gives `s` again. */
  lemma {:induction false} SplitOnAnyJoin(s: string, seps: set<char>)
    ensures |SplitOnAny(s, seps)| == |Separators(s, seps)| + 1
    ensures Interleave(SplitOnAny(s, seps), Separators(s, seps)) == s
    decreases |s|
  {
    if s != [] {
      var rest := SplitOnAny(s[1..], seps);
      var cs := Separators(s[1..], seps);
      SplitOnAnyJoin(s[1..], seps);
      if s[0] in seps {
        assert SplitOnAny(s, seps) == [""] + rest;
        assert Separators(s, seps) == [s[0]] + cs;
        assert ([""] + rest)[1..] == rest;
        assert s == "" + [s[0]] + s[1..];
      } else {
        var r := SplitOnAny(s, seps);
        assert r == [[s[0]] + rest[0]] + rest[1..];
        assert Separators(s, seps) == cs;
        InterleaveCons(s[0], rest, cs);
        assert r == [[s[0]] + rest[0]] + rest[1..];
        assert s == [s[0]] + s[1..];
      }
    }
  }

  /** A character put in front of the first piece comes first in the interleaving. */
  lemma InterleaveCons(c: char, parts: seq<string>, cs: seq<char>)
    requires |parts| == |cs| + 1
    ensures Interleave([[c] + parts[0]] + parts[1..], cs) == [c] + Interleave(parts, cs)
  {
    var q := [[c] + parts[0]] + parts[1..];
    assert q[0] == [c] + parts[0];
    if cs != [] {
      assert q[1..] == parts[1..];
      var rest := Interleave(parts[1..], cs[1..]);
      assert Interleave(q, cs) == ([c] + parts[0]) + [cs[0]] + rest;
      assert Interleave(parts, cs) == parts[0] + [cs[0]] + rest;
    }
  }

  /** Python's `s.split(c)` for a one-character separator. */
  function SplitOn(s: string, c: char): (r: seq<string>)
    ensures |r| >= 1
    ensures forall i :: 0 <= i < |r| ==> c !in r[i]
  {
    var r := SplitOnAny(s, {c});
    assert forall i :: 0 <= i < |r| ==> c !in r[i] by {
      forall i | 0 <= i < |r| ensures c !in r[i] {
        assert forall j :: 0 <= j < |r[i]| ==> r[i][j] != c;
      }
    }
    r
  }

  /** Python's `s.startswith(p)`. */
  predicate StartsWith(s: string, p: string)
    ensures StartsWith(s, p) <==> |p| <= |s| && s[..|p|] == p
  {
    p == [] || (s != [] && s[0] == p[0] && StartsWith(s[1..], p[1..]))
  }

  /** Python's `p in s`. */
  predicate Contains(s: string, p: string)
  {
    StartsWith(s, p) || (s != [] && Contains(s[1..], p))
  }

  /** Python's `s.replace(pat, rep)` for a non-empty pattern: a left-to-right scan that
      replaces non-overlapping occurrences. */
  function ReplaceAll(s: string, pat: string, rep: string): (r: string)
    requires pat != ""
    ensures !Contains(s, pat) ==> r == s
    decreases |s|
  {
    if s == [] then s
    else if StartsWith(s, pat) then rep + ReplaceAll(s[|pat|..], pat, rep)
    else [s[0]] + ReplaceAll(s[1..], pat, rep)
  }

  function LowerChar(c: char): (d: char)
  {
    if 'A' <= c <= 'Z' then (c as int + 32) as char else c
  }

  predicate IsUpper(c: char)
  {
    'A' <= c <= 'Z'
  }

  /** Python's `s.lower()` on ASCII letters; every other character is kept. */
  function Lower(s: string): (r: string)
    ensures |r| == |s|
    ensures forall i :: 0 <= i < |s| ==> r[i] == LowerChar(s[i])
    ensures forall i :: 0 <= i < |r| ==> !IsUpper(r[i])
  {
    seq(|s|, i requires 0 <= i < |s| => LowerChar(s[i]))
  }

  /** `os.path.basename`: the part after the last '/'. */
  function BaseName(path: string): (r: string)
    ensures '/' !in r
  {
    var parts := SplitOn(path, '/');
    parts[|parts| - 1]
  }

  /** `os.path.join(dir, name)` for two components. */
  function PathJoin(dir: string, name: string): string
  {
    if name != [] && name[0] == '/' then name
    else if dir == [] || dir[|dir| - 1] == '/' then dir + name
    else dir + "/" + name
  }

  // ----- lemmas -----

  lemma StartsWithConcat(p: string, rest: string)
    ensures StartsWith(p + rest, p)
  {
    assert (p + rest)[..|p|] == p;
  }

  /** A string whose characters all differ from the pattern's first one is left as it is. */
  lemma {:induction false} ReplaceAllNoHead(s: string, pat: string, rep: string)
    requires pat != "" && pat[0] !in s
    ensures ReplaceAll(s, pat, rep) == s
  {
    if s != [] {
      assert !StartsWith(s, pat);
      ReplaceAllNoHead(s[1..], pat, rep);
    }
  }

  /** A leading occurrence is replaced and the scan resumes after it. */
  lemma ReplaceAllPrefix(pat: string, rest: string, rep: string)
    requires pat != ""
    ensures ReplaceAll(pat + rest, pat, rep) == rep + ReplaceAll(rest, pat, rep)
  {
    StartsWithConcat(pat, rest);
    assert (pat + rest)[|pat|..] == rest;
  }

  /** A stem without the pattern's first character is copied unchanged. */
  lemma {:induction false} ReplaceAllStem(stem: string, rest: string, pat: string, rep: string)
    requires pat != "" && pat[0] !in stem
    ensures ReplaceAll(stem + rest, pat, rep) == stem + ReplaceAll(rest, pat, rep)
  {
    if stem != [] {
      var s := stem + rest;
      assert s[0] == stem[0];
      assert !StartsWith(s, pat);
      assert s[1..] == stem[1..] + rest;
      ReplaceAllStem(stem[1..], rest, pat, rep);
      assert ReplaceAll(s, pat, rep) == [s[0]] + ReplaceAll(s[1..], pat, rep);
      assert [stem[0]] + (stem[1..] + ReplaceAll(rest, pat, rep)) == stem + ReplaceAll(rest, pat, rep);
    } else {
      assert stem + rest == rest;
    }
  }

  /** Replacing never brings in a character that neither the string nor the replacement
      holds. */
  lemma {:induction false} ReplaceAllKeepsOut(s: string, pat: string, rep: string, c: char)
    requires pat != "" && c !in s && c !in rep
    ensures c !in ReplaceAll(s, pat, rep)
  {
    if s != [] {
      if StartsWith(s, pat) {
        assert forall i :: |pat| <= i < |s| ==> s[i] == s[|pat|..][i - |pat|];
        ReplaceAllKeepsOut(s[|pat|..], pat, rep, c);
      } else {
        assert forall i :: 1 <= i < |s| ==> s[i] == s[1..][i - 1];
        ReplaceAllKeepsOut(s[1..], pat, rep, c);
      }
    }
  }

  lemma LowerIdempotent(s: string)
    ensures Lower(Lower(s)) == Lower(s)
  {
  }

  lemma {:induction false} JoinWithCons(a: string, b: string, t: seq<string>, sep: string)
    ensures JoinWith([a + b] + t, sep) == a + JoinWith([b] + t, sep)
  {
    if t != [] {
      assert ([a + b] + t)[1..] == t;
      assert ([b] + t)[1..] == t;
    }
  }

  /** Joining the pieces of `s.split(c)` with `c` gives `s` back. */
  lemma {:induction false} JoinSplitOn(s: string, c: char)
    ensures JoinWith(SplitOn(s, c), [c]) == s
  {
    if s != [] {
      var rest := SplitOnAny(s[1..], {c});
      JoinSplitOn(s[1..], c);
      assert JoinWith(rest, [c]) == s[1..];
      if s[0] == c {
        assert SplitOn(s, c) == [""] + rest;
        assert ([""] + rest)[1..] == rest;
      } else {
        assert SplitOn(s, c) == [[s[0]] + rest[0]] + rest[1..];
        assert rest == [rest[0]] + rest[1..];
        JoinWithCons([s[0]], rest[0], rest[1..], [c]);
      }
    }
  }

  /** Splitting a join on a separator that no part contains gives the parts back. */
  lemma {:induction false} SplitOnJoin(parts: seq<string>, c: char)
    requires |parts| >= 1
    requires forall i :: 0 <= i < |parts| ==> c !in parts[i]
    ensures SplitOn(JoinWith(parts, [c]), c) == parts
  {
    if |parts| == 1 {
      SplitOnPlain(parts[0], c, []);
      assert SplitOn([], c) == [""];
      assert parts[0] + [] == parts[0];
    } else {
      SplitOnJoin(parts[1..], c);
      var tail := JoinWith(parts[1..], [c]);
      assert JoinWith(parts, [c]) == parts[0] + ([c] + tail);
      SplitOnSeparator(tail, c);
      SplitOnPlain(parts[0], c, [c] + tail);
      assert [""] + parts[1..] == [""] + SplitOn(tail, c);
      assert parts[0] + "" == parts[0];
      assert parts == [parts[0]] + parts[1..];
    }
  }

  lemma SplitOnSeparator(tail: string, c: char)
    ensures SplitOn([c] + tail, c) == [""] + SplitOn(tail, c)
  {
    assert ([c] + tail)[1..] == tail;
  }

  /** A prefix without the separator is glued onto the first piece. */
  lemma {:induction false} SplitOnPlain(w: string, c: char, rest: string)
    requires c !in w
    ensures var r := SplitOn(rest, c);
            SplitOn(w + rest, c) == [w + r[0]] + r[1..]
  {
    if w != [] {
      SplitOnPlain(w[1..], c, rest);
      assert (w + rest)[1..] == w[1..] + rest;
      assert [w[0]] + (w[1..] + SplitOn(rest, c)[0]) == w + SplitOn(rest, c)[0];
    } else {
      var r := SplitOn(rest, c);
      assert w + rest == rest && w + r[0] == r[0];
      assert r == [r[0]] + r[1..];
    }
  }

  /** A string without the separator is its own single piece. */
  lemma SplitOnNone(w: string, c: char)
    requires c !in w
    ensures SplitOn(w, c) == [w]
  {
    SplitOnJoin([w], c);
  }

  /** Splitting at one separator splits the two sides independently. */
  lemma {:induction false} SplitOnAppend(a: string, b: string, c: char)
    ensures SplitOn(a + [c] + b, c) == SplitOn(a, c) + SplitOn(b, c)
  {
    if a == [] {
      assert a + [c] + b == [c] + b;
      SplitOnSeparator(b, c);
      assert SplitOn(a, c) == [""];
    } else {
      var s := a + [c] + b;
      assert s[0] == a[0] && s[1..] == a[1..] + [c] + b;
      SplitOnAppend(a[1..], b, c);
      var l, r := SplitOn(a[1..], c), SplitOn(b, c);
      if a[0] == c {
        assert SplitOn(s, c) == [""] + (l + r);
        assert SplitOn(a, c) == [""] + l;
      } else {
        assert SplitOn(s, c) == [[a[0]] + (l + r)[0]] + (l + r)[1..];
        assert SplitOn(a, c) == [[a[0]] + l[0]] + l[1..];
        assert (l + r)[0] == l[0] && (l + r)[1..] == l[1..] + r;
      }
    }
  }

  /** `os.path.basename` of `dir/name` is `name`. */
  lemma BaseNameOf(dir: string, name: string)
    requires '/' !in name
    ensures BaseName(dir + "/" + name) == name
  {
    SplitOnAppend(dir, name, '/');
    SplitOnNone(name, '/');
  }

  lemma {:induction false} LeadLenFacts(s: string)
    ensures AllSpace(s[..LeadLen(s)])
    ensures LeadLen(s) < |s| ==> !IsSpace(s[LeadLen(s)])
  {
    if s != [] && IsSpace(s[0]) {
      LeadLenFacts(s[1..]);
      assert s[..LeadLen(s)] == [s[0]] + s[1..][..LeadLen(s[1..])];
    }
  }

  lemma {:induction false} TrailLenFacts(s: string)
    ensures AllSpace(s[|s| - TrailLen(s)..])
    ensures TrailLen(s) < |s| ==> !IsSpace(s[|s| - TrailLen(s) - 1])
  {
    if s != [] && IsSpace(s[|s| - 1]) {
      var init := s[..|s| - 1];
      TrailLenFacts(init);
      assert s[|s| - TrailLen(s)..] == init[|init| - TrailLen(init)..] + [s[|s| - 1]];
    }
  }

  lemma {:induction false} WordLenFacts(s: string)
    ensures NoSpace(s[..WordLen(s)])
    ensures WordLen(s) < |s| ==> IsSpace(s[WordLen(s)])
  {
    if s != [] && !IsSpace(s[0]) {
      WordLenFacts(s[1..]);
      assert s[..WordLen(s)] == [s[0]] + s[1..][..WordLen(s[1..])];
    }
  }

  /** Every field of `s.split()` is non-empty and holds no whitespace. */
  lemma {:induction false} SplitWsFields(s: string)
    ensures forall i :: 0 <= i < |SplitWs(s)| ==> SplitWs(s)[i] != "" && NoSpace(SplitWs(s)[i])
    decreases |s|
  {
    var t := TrimStart(s);
    if t != [] {
      var n := WordLen(t);
      LeadLenFacts(s);
      WordLenFacts(t);
      assert n > 0;
      SplitWsFields(t[n..]);
      assert SplitWs(s) == [t[..n]] + SplitWs(t[n..]);
    }
  }

  /** `s.split()` is empty exactly when `s` is all whitespace (so `s.strip()` is empty). */
  lemma SplitWsEmpty(s: string)
    ensures SplitWs(s) == [] <==> AllSpace(s)
  {
    LeadLenFacts(s);
    if LeadLen(s) == |s| {
      assert s[..LeadLen(s)] == s;
    } else {
      assert !IsSpace(s[LeadLen(s)]);
    }
  }

  /** Whitespace at the front of a string that has a word in it does not change where the
      words start. */
  lemma {:induction false} LeadLenAppend(t: string, w: string)
    requires LeadLen(t) < |t|
    ensures LeadLen(t + w) == LeadLen(t)
  {
    assert (t + w)[0] == t[0];
    if IsSpace(t[0]) {
      assert (t + w)[1..] == t[1..] + w;
      LeadLenAppend(t[1..], w);
    }
  }

  /** Trailing whitespace does not change `s.split()`. */
  lemma {:induction false} SplitWsAppendSpace(t: string, w: string)
    requires AllSpace(w)
    ensures SplitWs(t + w) == SplitWs(t)
    decreases |t|
  {
    if t == [] {
      assert t + w == w;
      SplitWsEmpty(w);
    } else if IsSpace(t[0]) {
      SplitWsAppendSpace(t[1..], w);
      SplitWsAppendLeading(t, w);
    } else {
      SplitWsAppendSpace(t[WordLen(t)..], w);
      SplitWsAppendWord(t, w);
    }
  }

  /** The step of `SplitWsAppendSpace` for a string that starts with whitespace. */
  lemma SplitWsAppendLeading(t: string, w: string)
    requires t != [] && IsSpace(t[0])
    requires SplitWs(t[1..] + w) == SplitWs(t[1..])
    ensures SplitWs(t + w) == SplitWs(t)
  {
    assert (t + w)[1..] == t[1..] + w;
    SplitWsLeadingSpace(t + w);
    SplitWsLeadingSpace(t);
  }

  /** The step of `SplitWsAppendSpace` for a string that starts with a word. */
  lemma SplitWsAppendWord(t: string, w: string)
    requires AllSpace(w)
    requires t != [] && !IsSpace(t[0])
    requires SplitWs(t[WordLen(t)..] + w) == SplitWs(t[WordLen(t)..])
    ensures SplitWs(t + w) == SplitWs(t)
  {
    var n := WordLen(t);
    WordThenSpace(t, w);
    SplitAfterWord(t, w);
    SplitWsCons(t[..n], t[n..] + w);
    SplitWsCons(t[..n], t[n..]);
  }

  /** A string that starts with a word is that word followed by nothing or by whitespace,
      also with whitespace appended. */
  lemma WordThenSpace(t: string, w: string)
    requires AllSpace(w)
    requires t != [] && !IsSpace(t[0])
    ensures var n := WordLen(t);
            && t[..n] != [] && NoSpace(t[..n])
            && (t[n..] == [] || IsSpace(t[n..][0]))
            && (t[n..] + w == [] || IsSpace((t[n..] + w)[0]))
  {
    var n := WordLen(t);
    WordLenFacts(t);
    if t[n..] == [] { assert t[n..] + w == w; } else { assert (t[n..] + w)[0] == t[n]; }
  }

  lemma SplitAfterWord(t: string, w: string)
    ensures var n := WordLen(t);
            t == t[..n] + t[n..] && t + w == t[..n] + (t[n..] + w)
  {
    var n := WordLen(t);
    assert t == t[..n] + t[n..];
    ConcatAssoc(t[..n], t[n..], w);
  }

  /** `s.strip().split() == s.split()`. */
  lemma SplitWsStrip(s: string)
    ensures SplitWs(Strip(s)) == SplitWs(s)
  {
    var t := TrimStart(s);
    var r := TrimEnd(t);
    TrailLenFacts(t);
    assert t == r + t[|r|..];
    SplitWsAppendSpace(r, t[|r|..]);
    LeadLenFacts(s);
    assert LeadLen(t) == 0 by {
      if t != [] { assert t[0] == s[LeadLen(s)]; }
    }
    assert TrimStart(t) == t;
  }

  lemma SplitWsLeadingSpace(s: string)
    requires s != [] && IsSpace(s[0])
    ensures SplitWs(s) == SplitWs(s[1..])
  {
    assert TrimStart(s) == TrimStart(s[1..]);
  }

  lemma SplitWsCons(w: string, rest: string)
    requires w != "" && NoSpace(w)
    requires rest == [] || IsSpace(rest[0])
    ensures SplitWs(w + rest) == [w] + SplitWs(rest)
  {
    var s := w + rest;
    assert LeadLen(s) == 0 by { assert s[0] == w[0]; }
    assert TrimStart(s) == s;
    WordLenOf(w, rest);
    assert s[..|w|] == w;
    assert s[|w|..] == rest;
  }

  lemma {:induction false} WordLenOf(w: string, rest: string)
    requires w != "" && NoSpace(w)
    requires rest == [] || IsSpace(rest[0])
    ensures WordLen(w + rest) == |w|
  {
    assert (w + rest)[0] == w[0];
    if |w| > 1 {
      assert (w + rest)[1..] == w[1..] + rest;
      WordLenOf(w[1..], rest);
    } else {
      assert (w + rest)[1..] == rest;
    }
  }

  lemma SplitWsSpaced(w: string, tail: string)
    requires w != "" && NoSpace(w)
    ensures SplitWs(w + (" " + tail)) == [w] + SplitWs(tail)
  {
    SplitWsCons(w, " " + tail);
    assert (" " + tail)[1..] == tail;
    SplitWsLeadingSpace(" " + tail);
  }

  lemma JoinWithSpaced(words: seq<string>)
    requires |words| > 1
    ensures JoinWith(words, " ") == words[0] + (" " + JoinWith(words[1..], " "))
  {
  }

  /** `" ".join(words).split()` gives the words back when none is empty or holds whitespace. */
  lemma {:induction false} SplitWsJoin(words: seq<string>)
    requires forall i :: 0 <= i < |words| ==> words[i] != "" && NoSpace(words[i])
    ensures SplitWs(JoinWith(words, " ")) == words
  {
    if |words| == 1 {
      SplitWsCons(words[0], "");
      assert words[0] + "" == words[0];
    } else if |words| > 1 {
      var w, rest := words[0], words[1..];
      assert words == [w] + rest;
      var tail := JoinWith(rest, " ");
      JoinWithSpaced(words);
      SplitWsSpaced(w, tail);
      SplitWsJoin(rest);
      assert SplitWs(tail) == rest;
      assert SplitWs(JoinWith(words, " ")) == [w] + rest;
      assert words == [words[0]] + words[1..];
    }
  }

  // ----- lines -----

  /** Each line stripped, the ones left empty dropped: what the scripts keep of a text
      file as its sentences. */
  function Sentences(lines: seq<string>): (r: seq<string>)
    ensures |r| <= |lines|
    ensures forall i :: 0 <= i < |r| ==> r[i] != ""
  {
    if lines == [] then []
    else
      var s := Strip(lines[|lines| - 1]);
      Sentences(lines[..|lines| - 1]) + (if s != "" then [s] else [])
  }

  /** The positions of the lines that do not strip to nothing, in ascending order. */
  function NonBlankIndices(lines: seq<string>): seq<nat>
  {
    if lines == [] then []
    else
      var n := |lines| - 1;
      NonBlankIndices(lines[..n]) + (if Strip(lines[n]) != "" then [n] else [])
  }

  /** The sentences are the non-blank lines, stripped, in line order: entry `k` is the
      `k`-th line that does not strip to nothing, and every such line gives an entry. */
  lemma SentencesAreStrippedLines(lines: seq<string>)
    ensures var idx := NonBlankIndices(lines);
      && |idx| == |Sentences(lines)|
      && (forall k :: 0 <= k < |idx| ==> idx[k] < |lines| && Sentences(lines)[k] == Strip(lines[idx[k]]))
      && (forall k, l :: 0 <= k < l < |idx| ==> idx[k] < idx[l])
      && (forall i :: 0 <= i < |lines| ==> (i in idx <==> Strip(lines[i]) != ""))
  {
    SentencesAtIndices(lines);
    NonBlankIndicesAscending(lines);
    NonBlankIndicesCover(lines);
  }

  lemma {:induction false} SentencesAtIndices(lines: seq<string>)
    ensures var idx := NonBlankIndices(lines);
      && |idx| == |Sentences(lines)|
      && (forall k :: 0 <= k < |idx| ==> idx[k] < |lines| && Sentences(lines)[k] == Strip(lines[idx[k]]))
  {
    if lines != [] {
      var n := |lines| - 1;
      var init := lines[..n];
      SentencesAtIndices(init);
      var idx0, r0 := NonBlankIndices(init), Sentences(init);
      var idx, r := NonBlankIndices(lines), Sentences(lines);
      var last := Strip(lines[n]);
      if last != "" {
        assert idx == idx0 + [n] && r == r0 + [last];
        forall k | 0 <= k < |idx| ensures idx[k] < |lines| && r[k] == Strip(lines[idx[k]]) {
          if k < |idx0| {
            assert idx[k] == idx0[k] && r[k] == r0[k];
            assert init[idx0[k]] == lines[idx0[k]];
          }
        }
      } else {
        assert idx == idx0 && r == r0;
        forall k | 0 <= k < |idx| ensures idx[k] < |lines| && r[k] == Strip(lines[idx[k]]) {
          assert init[idx0[k]] == lines[idx0[k]];
        }
      }
    }
  }

  lemma {:induction false} NonBlankIndicesAscending(lines: seq<string>)
    ensures forall k :: 0 <= k < |NonBlankIndices(lines)| ==> NonBlankIndices(lines)[k] < |lines|
    ensures forall k, l :: 0 <= k < l < |NonBlankIndices(lines)| ==> NonBlankIndices(lines)[k] < NonBlankIndices(lines)[l]
  {
    if lines != [] {
      NonBlankIndicesAscending(lines[..|lines| - 1]);
    }
  }

  lemma {:induction false} NonBlankIndicesCover(lines: seq<string>)
    ensures forall i :: 0 <= i < |lines| ==> (i in NonBlankIndices(lines) <==> Strip(lines[i]) != "")
  {
    if lines != [] {
      var n := |lines| - 1;
      var init := lines[..n];
      NonBlankIndicesCover(init);
      NonBlankIndicesAscending(init);
      var idx0, idx := NonBlankIndices(init), NonBlankIndices(lines);
      assert n !in idx0;
      assert forall i :: i in idx <==> i in idx0 || (i == n && Strip(lines[n]) != "");
      forall i | 0 <= i < n ensures i in idx <==> Strip(lines[i]) != "" {
        assert init[i] == lines[i];
      }
    }
  }

  /** A string is a sentence exactly when it is non-empty and some line strips to it. */
  lemma SentenceMembers(lines: seq<string>, x: string)
    ensures x in Sentences(lines) <==> x != "" && exists i :: 0 <= i < |lines| && Strip(lines[i]) == x
  {
    SentencesAreStrippedLines(lines);
    var idx := NonBlankIndices(lines);
    if x != "" && exists i :: 0 <= i < |lines| && Strip(lines[i]) == x {
      var i :| 0 <= i < |lines| && Strip(lines[i]) == x;
      var k :| 0 <= k < |idx| && idx[k] == i;
      assert Sentences(lines)[k] == x;
    }
  }

  /** `s.strip()` is a slice of `s`, so it keeps any property every character of `s` has. */
  lemma StripChars(s: string, ok: char -> bool)
    requires forall j :: 0 <= j < |s| ==> ok(s[j])
    ensures forall j :: 0 <= j < |Strip(s)| ==> ok(Strip(s)[j])
  {
    var t := TrimStart(s);
    assert forall j :: 0 <= j < |t| ==> t[j] == s[LeadLen(s) + j];
    assert forall j :: 0 <= j < |TrimEnd(t)| ==> TrimEnd(t)[j] == t[j];
  }

  /** Every character of a field of `s.split()` comes from `s`. */
  lemma {:induction false} SplitWsChars(s: string, ok: char -> bool)
    requires forall j :: 0 <= j < |s| ==> ok(s[j])
    ensures forall i, j :: 0 <= i < |SplitWs(s)| && 0 <= j < |SplitWs(s)[i]| ==> ok(SplitWs(s)[i][j])
    decreases |s|
  {
    var t := TrimStart(s);
    if t != [] {
      var n := WordLen(t);
      LeadLenFacts(s);
      WordLenFacts(t);
      assert n > 0;
      assert forall j :: 0 <= j < |t| ==> t[j] == s[LeadLen(s) + j];
      assert forall j :: 0 <= j < |t[n..]| ==> t[n..][j] == t[n + j];
      SplitWsChars(t[n..], ok);
      assert SplitWs(s) == [t[..n]] + SplitWs(t[n..]);
    }
  }

  /** Every sentence kept has at least one word. */
  lemma {:induction false} SentencesHaveWords(lines: seq<string>)
    ensures forall i :: 0 <= i < |Sentences(lines)| ==> SplitWs(Sentences(lines)[i]) != []
  {
    if lines != [] {
      var init := lines[..|lines| - 1];
      var s := Strip(lines[|lines| - 1]);
      SentencesHaveWords(init);
      if s != "" {
        assert !IsSpace(s[0]);
        SplitWsEmpty(s);
        var r := Sentences(lines);
        assert r == Sentences(init) + [s];
        forall i | 0 <= i < |r| ensures SplitWs(r[i]) != [] {
          if i < |r| - 1 { assert r[i] == Sentences(init)[i]; }
        }
      }
    }
  }

  /** Every character of a sentence kept comes from the lines. */
  lemma {:induction false} SentencesChars(lines: seq<string>, ok: char -> bool)
    requires forall i, j :: 0 <= i < |lines| && 0 <= j < |lines[i]| ==> ok(lines[i][j])
    ensures forall i, j :: 0 <= i < |Sentences(lines)| && 0 <= j < |Sentences(lines)[i]| ==> ok(Sentences(lines)[i][j])
  {
    if lines != [] {
      var n := |lines| - 1;
      var s := Strip(lines[n]);
      assert forall i :: 0 <= i < n ==> lines[..n][i] == lines[i];
      SentencesChars(lines[..n], ok);
      StripChars(lines[n], ok);
      if s != "" {
        assert Sentences(lines) == Sentences(lines[..n]) + [s];
      }
    }
  }

  /** Lines written one after another, each followed by a newline. */
  function Terminated(lines: seq<string>): string
  {
    if lines == [] then "" else lines[0] + "\n" + Terminated(lines[1..])
  }

  /** Splitting newline-terminated text on newlines gives the lines back, then the empty
      remainder after the final newline. */
  lemma {:induction false} TerminatedReadBack(lines: seq<string>)
    requires forall i :: 0 <= i < |lines| ==> '\n' !in lines[i]
    ensures SplitOn(Terminated(lines), '\n') == lines + [""]
  {
    if lines == [] {
      assert SplitOn("", '\n') == [""];
    } else {
      var rest := lines[1..];
      TerminatedReadBack(rest);
      SplitOnAppend(lines[0], Terminated(rest), '\n');
      SplitOnNone(lines[0], '\n');
      assert [lines[0]] + (rest + [""]) == lines + [""];
    }
  }

  /** Writing one more line appends it and its newline. */
  lemma {:induction false} TerminatedSnoc(lines: seq<string>, line: string)
    ensures Terminated(lines + [line]) == Terminated(lines) + line + "\n"
  {
    if lines == [] {
      assert [line][1..] == [];
    } else {
      assert (lines + [line])[1..] == lines[1..] + [line];
      TerminatedSnoc(lines[1..], line);
    }
  }
}
