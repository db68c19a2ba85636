/** Python's ordering of strings and tuples, `sorted` (of a set, and stable with a key),
    and the occurrence counts behind `collections.Counter` and the confusion rows. */
module Order {

  /** Python's `a < b` on `str`: lexicographic on code points, a proper prefix first. */
  predicate StrLt(a: string, b: string)
  {
    if a == [] then b != []
    else if b == [] then false
    else a[0] < b[0] || (a[0] == b[0] && StrLt(a[1..], b[1..]))
  }

  /** Python's `<` on a `(str, str)` tuple. */
  predicate PairLt(p: (string, string), q: (string, string))
  {
    StrLt(p.0, q.0) || (p.0 == q.0 && StrLt(p.1, q.1))
  }

  ghost predicate StrictTotalOrder<T(!new)>(lt: (T, T) -> bool)
  {
    && (forall a :: !lt(a, a))
    && (forall a, b, c :: lt(a, b) && lt(b, c) ==> lt(a, c))
    && (forall a, b :: a != b ==> lt(a, b) || lt(b, a))
  }

  /** Irreflexive and transitive: what a sort key's `<` gives (ties allowed). */
  ghost predicate StrictOrder<T(!new)>(before: (T, T) -> bool)
  {
    && (forall a :: !before(a, a))
    && (forall a, b, c :: before(a, b) && before(b, c) ==> before(a, c))
  }

  /** A strict order whose ties behave as equal keys: whenever `a` comes before `c`, any
      `b` comes after `a` or before `c` (what comparing keys with `<` gives). */
  ghost predicate StrictWeakOrder<T(!new)>(before: (T, T) -> bool)
  {
    && StrictOrder(before)
    && (forall a, b, c :: before(a, c) ==> before(a, b) || before(b, c))
  }

  predicate Ascending<T>(s: seq<T>, lt: (T, T) -> bool)
  {
    forall i, j :: 0 <= i < j < |s| ==> lt(s[i], s[j])
  }

  /** No element is followed by one that should come before it. */
  predicate SortedBy<T>(s: seq<T>, before: (T, T) -> bool)
  {
    forall i, j :: 0 <= i < j < |s| ==> !before(s[j], s[i])
  }

  predicate NoDuplicates<T(==)>(s: seq<T>)
  {
    forall i, j :: 0 <= i < j < |s| ==> s[i] != s[j]
  }

  // ----- the string order -----

  lemma {:induction false} StrLtIrreflexive(a: string)
    ensures !StrLt(a, a)
  {
    if a != [] { StrLtIrreflexive(a[1..]); }
  }

  lemma {:induction false} StrLtTransitive(a: string, b: string, c: string)
    requires StrLt(a, b) && StrLt(b, c)
    ensures StrLt(a, c)
  {
    if a != [] && b != [] && c != [] && a[0] == b[0] == c[0] {
      StrLtTransitive(a[1..], b[1..], c[1..]);
    }
  }

  lemma {:induction false} StrLtTotal(a: string, b: string)
    requires a != b
    ensures StrLt(a, b) || StrLt(b, a)
  {
    if a != [] && b != [] && a[0] == b[0] {
      assert a == [a[0]] + a[1..] && b == [b[0]] + b[1..];
      StrLtTotal(a[1..], b[1..]);
    }
  }

  lemma StrLtStrictTotal()
    ensures StrictTotalOrder(StrLt)
  {
    forall a ensures !StrLt(a, a) { StrLtIrreflexive(a); }
    forall a, b, c | StrLt(a, b) && StrLt(b, c) ensures StrLt(a, c) { StrLtTransitive(a, b, c); }
    forall a, b | a != b ensures StrLt(a, b) || StrLt(b, a) { StrLtTotal(a, b); }
  }

  lemma PairLtStrictTotal()
    ensures StrictTotalOrder(PairLt)
  {
    StrLtStrictTotal();
    forall p, q, r | PairLt(p, q) && PairLt(q, r) ensures PairLt(p, r) {
      if StrLt(p.0, q.0) && StrLt(q.0, r.0) { StrLtTransitive(p.0, q.0, r.0); }
    }
  }

  // ----- sorted(set) -----

  lemma {:induction false} MinimumExists<T(!new)>(s: set<T>, lt: (T, T) -> bool)
    requires StrictTotalOrder(lt) && s != {}
    ensures exists m :: m in s && forall x :: x in s && x != m ==> lt(m, x)
    decreases |s|
  {
    var y :| y in s;
    if s == {y} {
      assert forall x :: x in s && x != y ==> lt(y, x);
      assert y in s;
    } else {
      var rest := s - {y};
      MinimumExists(rest, lt);
      var m :| m in rest && forall x :: x in rest && x != m ==> lt(m, x);
      if lt(y, m) {
        forall x | x in s && x != y ensures lt(y, x) {
          if x != m { assert lt(m, x); }
        }
        assert y in s;
      } else {
        assert lt(m, y);
        forall x | x in s && x != m ensures lt(m, x) {
          if x != y { assert x in rest; }
        }
        assert m in s;
      }
    }
  }

  /** Python's `sorted(s)` for a set: its elements, each once, in ascending order. */
  method SortSet<T(!new)>(s: set<T>, lt: (T, T) -> bool) returns (r: seq<T>)
    requires StrictTotalOrder(lt)
    ensures Ascending(r, lt)
    ensures forall x :: x in r <==> x in s
    ensures |r| == |s|
  {
    r := [];
    var rest := s;
    while rest != {}
      invariant rest <= s
      invariant forall x :: x in r <==> x in s && x !in rest
      invariant |r| + |rest| == |s|
      invariant Ascending(r, lt)
      invariant forall i, x :: 0 <= i < |r| && x in rest ==> lt(r[i], x)
      decreases rest
    {
      MinimumExists(rest, lt);
      var m :| m in rest && forall x :: x in rest && x != m ==> lt(m, x);
      r := r + [m];
      rest := rest - {m};
    }
  }

  /** Iterating over a set: its elements, each once, in an order the caller cannot rely on. */
  method Enumerate<T(==)>(s: set<T>) returns (r: seq<T>)
    ensures NoDuplicates(r)
    ensures forall x :: x in r <==> x in s
    ensures |r| == |s|
  {
    r := [];
    var rest := s;
    while rest != {}
      invariant rest <= s
      invariant forall x :: x in r <==> x in s && x !in rest
      invariant |r| + |rest| == |s|
      invariant NoDuplicates(r)
      decreases rest
    {
      var x :| x in rest;
      r := r + [x];
      rest := rest - {x};
    }
  }

  /** A strictly ascending sequence has no duplicates. */
  lemma AscendingNoDuplicates<T(!new)>(s: seq<T>, lt: (T, T) -> bool)
    requires StrictTotalOrder(lt) && Ascending(s, lt)
    ensures NoDuplicates(s)
  {
    forall i, j | 0 <= i < j < |s| ensures s[i] != s[j] {
      assert lt(s[i], s[j]);
    }
  }

  // ----- sorted(s, key=...) -----

  function Insert<T>(x: T, s: seq<T>, before: (T, T) -> bool): (r: seq<T>)
    ensures multiset(r) == multiset(s) + multiset{x}
  {
    if s == [] then [x]
    else if before(x, s[0]) then [x] + s
    else
      assert s == [s[0]] + s[1..];
      [s[0]] + Insert(x, s[1..], before)
  }

  /** Python's stable `sorted(s, key=k)`, with `before(a, b)` meaning `k(a) < k(b)`:
      an insertion sort that places each element after the ones already placed with an
      equal key. */
  function SortBy<T>(s: seq<T>, before: (T, T) -> bool): (r: seq<T>)
    ensures multiset(r) == multiset(s)
  {
    if s == [] then []
    else
      assert s == s[..|s| - 1] + [s[|s| - 1]];
      Insert(s[|s| - 1], SortBy(s[..|s| - 1], before), before)
  }

  lemma {:induction false} InsertSorted<T(!new)>(x: T, s: seq<T>, before: (T, T) -> bool)
    requires StrictOrder(before) && SortedBy(s, before)
    ensures SortedBy(Insert(x, s, before), before)
  {
    if s != [] && !before(x, s[0]) {
      InsertSorted(x, s[1..], before);
      var t := Insert(x, s[1..], before);
      assert multiset(t) == multiset(s[1..]) + multiset{x};
      forall j | 0 <= j < |t| ensures !before(t[j], s[0]) {
        assert t[j] in multiset(t);
        if t[j] != x {
          assert t[j] in multiset(s[1..]);
          var k :| 0 <= k < |s[1..]| && s[1..][k] == t[j];
          assert s[k + 1] == t[j];
        }
      }
    }
  }

  lemma {:induction false} SortByIsSorted<T(!new)>(s: seq<T>, before: (T, T) -> bool)
    requires StrictOrder(before)
    ensures SortedBy(SortBy(s, before), before)
  {
    if s != [] {
      SortByIsSorted(s[..|s| - 1], before);
      InsertSorted(s[|s| - 1], SortBy(s[..|s| - 1], before), before);
    }
  }

  /** Where `Insert` puts `x`: after the elements it does not come before, and in front
      of the first one it does. */
  lemma {:induction false} InsertAt<T>(x: T, t: seq<T>, before: (T, T) -> bool) returns (k: nat)
    ensures var r := Insert(x, t, before);
      && k <= |t| && |r| == |t| + 1 && r[k] == x
      && (forall m :: 0 <= m < k ==> r[m] == t[m] && !before(x, t[m]))
      && (forall m :: k < m < |r| ==> r[m] == t[m - 1])
    ensures k < |t| ==> before(x, t[k])
  {
    if t == [] || before(x, t[0]) {
      k := 0;
    } else {
      var u := t[1..];
      var k' := InsertAt(x, u, before);
      k := k' + 1;
      var r, r' := Insert(x, t, before), Insert(x, u, before);
      assert r == [t[0]] + r';
      forall m | 0 <= m < k ensures r[m] == t[m] && !before(x, t[m]) {
        if m > 0 { assert r[m] == r'[m - 1] && t[m] == u[m - 1]; }
      }
      forall m | k < m < |r| ensures r[m] == t[m - 1] {
        assert r[m] == r'[m - 1] && t[m - 1] == u[m - 2];
      }
      if k < |t| { assert t[k] == u[k']; }
    }
  }

  /** Any two elements of `r` that `before` does not order come in `r` in an order in
      which they occur in `s`. */
  ghost predicate TiesInInputOrder<T>(s: seq<T>, r: seq<T>, before: (T, T) -> bool)
  {
    forall i, j :: 0 <= i < j < |r| && !before(r[i], r[j]) ==>
      exists p, q :: 0 <= p < q < |s| && s[p] == r[i] && s[q] == r[j]
  }

  /** `sorted` with a key is stable: two elements whose keys tie come out in the order
      they went in. */
  lemma {:induction false} SortByStable<T(!new)>(s: seq<T>, before: (T, T) -> bool)
    requires StrictWeakOrder(before)
    ensures TiesInInputOrder(s, SortBy(s, before), before)
  {
    if s != [] {
      var init, x := s[..|s| - 1], s[|s| - 1];
      var t := SortBy(init, before);
      SortByStable(init, before);
      SortByIsSorted(init, before);
      var k := InsertAt(x, t, before);
      var r := SortBy(s, before);
      assert r == Insert(x, t, before);
      forall i, j | 0 <= i < j < |r|
        ensures !before(r[i], r[j]) ==> exists p, q :: 0 <= p < q < |s| && s[p] == r[i] && s[q] == r[j]
      {
        if i == k {
          TieAfterInsert(x, t, before, k, j - 1);
        } else if j == k {
          StableWithLast(s, t, i);
        } else if j < k {
          StableInPrefix(s, t, before, i, j);
        } else if i < k {
          StableInPrefix(s, t, before, i, j - 1);
        } else {
          StableInPrefix(s, t, before, i - 1, j - 1);
        }
      }
    }
  }

  /** An element of a sorted list at or after the insertion point of `x` comes strictly
      after `x`. */
  lemma TieAfterInsert<T(!new)>(x: T, t: seq<T>, before: (T, T) -> bool, k: nat, m: nat)
    requires StrictWeakOrder(before) && SortedBy(t, before)
    requires k <= m < |t| && before(x, t[k])
    ensures before(x, t[m])
  {
    if m > k {
      assert !before(t[m], t[k]);
    }
  }

  /** Where two elements that `before` does not order come from. */
  lemma TiePositions<T>(s: seq<T>, r: seq<T>, before: (T, T) -> bool, i: nat, j: nat) returns (p: nat, q: nat)
    requires TiesInInputOrder(s, r, before)
    requires i < j < |r| && !before(r[i], r[j])
    ensures p < q < |s| && s[p] == r[i] && s[q] == r[j]
  {
    p, q :| 0 <= p < q < |s| && s[p] == r[i] && s[q] == r[j];
  }

  /** Two elements of the sorted prefix keep the order the prefix gave them. */
  lemma StableInPrefix<T>(s: seq<T>, t: seq<T>, before: (T, T) -> bool, i: nat, j: nat)
    requires s != [] && i < j < |t|
    requires TiesInInputOrder(s[..|s| - 1], t, before)
    ensures !before(t[i], t[j]) ==> exists p, q :: 0 <= p < q < |s| && s[p] == t[i] && s[q] == t[j]
  {
    var init := s[..|s| - 1];
    if !before(t[i], t[j]) {
      var p, q :| 0 <= p < q < |init| && init[p] == t[i] && init[q] == t[j];
      assert s[p] == init[p] && s[q] == init[q];
    }
  }

  /** An element of the sorted prefix occurs in `s` before its last element. */
  lemma StableWithLast<T>(s: seq<T>, t: seq<T>, i: nat)
    requires s != [] && multiset(t) == multiset(s[..|s| - 1]) && i < |t|
    ensures exists p, q :: 0 <= p < q < |s| && s[p] == t[i] && s[q] == s[|s| - 1]
  {
    var init := s[..|s| - 1];
    assert t[i] in multiset(init);
    var p :| 0 <= p < |init| && init[p] == t[i];
    assert s[p] == t[i];
  }

  // ----- counting -----

  /** Number of occurrences of `x` in `s` (Python's `s.count(x)`). */
  function Count<T(==)>(s: seq<T>, x: T): nat
  {
    if s == [] then 0
    else Count(s[..|s| - 1], x) + (if s[|s| - 1] == x then 1 else 0)
  }

  lemma {:induction false} CountPositive<T>(s: seq<T>, x: T)
    ensures Count(s, x) > 0 <==> x in s
  {
    if s != [] {
      CountPositive(s[..|s| - 1], x);
      assert s == s[..|s| - 1] + [s[|s| - 1]];
    }
  }

  lemma {:induction false} CountBound<T>(s: seq<T>, x: T)
    ensures Count(s, x) <= |s|
  {
    if s != [] { CountBound(s[..|s| - 1], x); }
  }

  /** The `{value: count}` table of a sequence, as `Counter(s)` or a confusion row. */
  function CountMap<T(==)>(s: seq<T>): map<T, nat>
  {
    map x | x in s :: Count(s, x)
  }

  /** The table has a key for each value of the sequence and no other, and holds its
      (positive) number of occurrences. */
  lemma CountMapFacts<T>(s: seq<T>)
    ensures forall x :: x in CountMap(s) <==> x in s
    ensures forall x :: x in CountMap(s) ==> CountMap(s)[x] == Count(s, x) && CountMap(s)[x] > 0
  {
    forall x | x in s ensures Count(s, x) > 0 { CountPositive(s, x); }
  }

  /** Appending one element bumps that element's cell by one and no other cell. */
  lemma CountMapSnoc<T>(s: seq<T>, x: T)
    ensures CountMap(s + [x]) == CountMap(s)[x := (if x in CountMap(s) then CountMap(s)[x] else 0) + 1]
  {
    var t := s + [x];
    assert t[..|t| - 1] == s;
    var m := CountMap(s)[x := (if x in CountMap(s) then CountMap(s)[x] else 0) + 1];
    CountMapFacts(s);
    CountMapFacts(t);
    forall y | y in m ensures y in CountMap(t) && CountMap(t)[y] == m[y] {
      if y == x && x !in CountMap(s) {
        CountPositive(s, x);
      }
    }
  }

  /** Sum of the counts of the elements of `cols` in `s`. */
  function SumCounts<T(==)>(cols: seq<T>, s: seq<T>): nat
  {
    if cols == [] then 0 else Count(s, cols[0]) + SumCounts(cols[1..], s)
  }

  function Occurrences<T(==)>(cols: seq<T>, x: T): nat
  {
    if cols == [] then 0 else (if cols[0] == x then 1 else 0) + Occurrences(cols[1..], x)
  }

  lemma {:induction false} SumCountsSnoc<T>(cols: seq<T>, s: seq<T>, x: T)
    ensures SumCounts(cols, s + [x]) == SumCounts(cols, s) + Occurrences(cols, x)
  {
    assert (s + [x])[..|s + [x]| - 1] == s;
    if cols != [] { SumCountsSnoc(cols[1..], s, x); }
  }

  lemma {:induction false} OccurrencesOfDistinct<T>(cols: seq<T>, x: T)
    requires NoDuplicates(cols) && x in cols
    ensures Occurrences(cols, x) == 1
  {
    if cols[0] == x {
      OccurrencesAbsent(cols[1..], x);
    } else {
      OccurrencesOfDistinct(cols[1..], x);
    }
  }

  lemma {:induction false} OccurrencesAbsent<T>(cols: seq<T>, x: T)
    requires x !in cols
    ensures Occurrences(cols, x) == 0
  {
    if cols != [] { OccurrencesAbsent(cols[1..], x); }
  }

  /** Summing the counts over columns that list every element of `s` exactly once gives `|s|`. */
  lemma {:induction false} SumCountsCovers<T>(cols: seq<T>, s: seq<T>)
    requires NoDuplicates(cols)
    requires forall x :: x in s ==> x in cols
    ensures SumCounts(cols, s) == |s|
  {
    if s == [] {
      SumCountsEmpty(cols, s);
    } else {
      var init, x := s[..|s| - 1], s[|s| - 1];
      assert s == init + [x];
      SumCountsCovers(cols, init);
      SumCountsSnoc(cols, init, x);
      OccurrencesOfDistinct(cols, x);
    }
  }

  lemma {:induction false} SumCountsEmpty<T>(cols: seq<T>, s: seq<T>)
    requires s == []
    ensures SumCounts(cols, s) == 0
  {
    if cols != [] { SumCountsEmpty(cols[1..], s); }
  }

  /** The distinct elements of `s` in order of first occurrence (the key order of
      `Counter(s)`). */
  function Distinct<T(==,!new)>(s: seq<T>): (r: seq<T>)
    ensures NoDuplicates(r)
    ensures forall x :: x in r <==> x in s
    ensures |r| <= |s|
  {
    if s == [] then []
    else
      var init := Distinct(s[..|s| - 1]);
      assert forall x :: x in s <==> x in s[..|s| - 1] || x == s[|s| - 1] by {
        assert s == s[..|s| - 1] + [s[|s| - 1]];
      }
      if s[|s| - 1] in init then init else init + [s[|s| - 1]]
  }

  /** The position of the first occurrence of `x` in `s` (Python's `s.index(x)`). */
  function FirstIndex<T(==)>(s: seq<T>, x: T): (k: nat)
    requires x in s
    ensures k < |s| && s[k] == x && x !in s[..k]
  {
    if s[0] == x then 0
    else
      var k := 1 + FirstIndex(s[1..], x);
      assert s[..k] == [s[0]] + s[1..][..k - 1];
      k
  }

  /** A position holding `x` with no `x` before it is the first occurrence. */
  lemma FirstIndexUnique<T>(s: seq<T>, x: T, m: nat)
    requires m < |s| && s[m] == x && x !in s[..m]
    ensures FirstIndex(s, x) == m
  {
  }

  /** `Distinct(s)` lists the elements in order of first occurrence. */
  lemma {:induction false} DistinctFirstOccurrence<T(!new)>(s: seq<T>)
    ensures forall p, q :: 0 <= p < q < |Distinct(s)| ==> FirstIndex(s, Distinct(s)[p]) < FirstIndex(s, Distinct(s)[q])
  {
    if s != [] {
      var n := |s| - 1;
      var init, y := s[..n], s[n];
      DistinctFirstOccurrence(init);
      var d0, d := Distinct(init), Distinct(s);
      assert s == init + [y];
      assert d == if y in d0 then d0 else d0 + [y];
      forall x | x in init ensures FirstIndex(s, x) == FirstIndex(init, x) {
        var m := FirstIndex(init, x);
        assert s[..m] == init[..m];
        FirstIndexUnique(s, x, m);
      }
      forall p, q | 0 <= p < q < |d| ensures FirstIndex(s, d[p]) < FirstIndex(s, d[q]) {
        assert d[p] == d0[p] && d0[p] in init;
        if q < |d0| {
          assert d[q] == d0[q] && d0[q] in init;
        } else {
          assert d[q] == y && y !in init;
          assert s[..n] == init;
          FirstIndexUnique(s, y, n);
        }
      }
    }
  }

  /** Appending keeps a list free of repeats exactly when the new element is new. */
  lemma NoDuplicatesSnoc<T>(s: seq<T>, y: T)
    ensures NoDuplicates(s + [y]) <==> NoDuplicates(s) && y !in s
  {
    var r := s + [y];
    if NoDuplicates(r) {
      forall i, j | 0 <= i < j < |s| ensures s[i] != s[j] { assert s[i] == r[i] && s[j] == r[j]; }
      forall i | 0 <= i < |s| ensures s[i] != y { assert s[i] == r[i] && y == r[|s|]; }
    }
    if NoDuplicates(s) && y !in s {
      forall i, j | 0 <= i < j < |r| ensures r[i] != r[j] {
        assert r[i] == s[i];
        if j < |s| { assert r[j] == s[j]; }
      }
    }
  }

  /** A list has no repeats exactly when every element occurs once in its multiset. */
  lemma {:induction false} NoDuplicatesMultiset<T>(s: seq<T>)
    ensures NoDuplicates(s) <==> forall x :: x in s ==> multiset(s)[x] == 1
  {
    if s != [] {
      var t, y := s[..|s| - 1], s[|s| - 1];
      assert s == t + [y];
      NoDuplicatesMultiset(t);
      if NoDuplicates(s) {
        assert NoDuplicates(t) by {
          forall i, j | 0 <= i < j < |t| ensures t[i] != t[j] { assert t[i] == s[i] && t[j] == s[j]; }
        }
        assert y !in t by {
          forall i | 0 <= i < |t| ensures t[i] != y { assert s[i] == t[i]; }
        }
        forall x | x in s ensures multiset(s)[x] == 1 {
          if x != y { assert x in t; }
        }
      } else {
        var i, j :| 0 <= i < j < |s| && s[i] == s[j];
        if j < |t| {
          assert t[i] == t[j];
          assert !NoDuplicates(t);
          var x :| x in t && multiset(t)[x] != 1;
          assert x in multiset(t);
          assert multiset(s)[x] >= multiset(t)[x];
          assert x in s;
        } else {
          assert t[i] == y;
          assert y in t;
          assert multiset(s)[y] == multiset(t)[y] + 1;
          assert y in s;
        }
      }
    }
  }

  /** A reordering of a list without repeats has none either. */
  lemma MultisetNoDuplicates<T>(a: seq<T>, b: seq<T>)
    requires NoDuplicates(a) && multiset(b) == multiset(a)
    ensures NoDuplicates(b)
  {
    NoDuplicatesMultiset(a);
    NoDuplicatesMultiset(b);
    forall x | x in b ensures multiset(b)[x] == 1 {
      assert x in multiset(b);
      assert x in multiset(a);
    }
  }
}
