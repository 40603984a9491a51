/** Small sequence vocabulary shared by every model in this project. */
module Prelude {

  datatype Option<+T> = None | Some(value: T)

  function Min(a: int, b: int): int {
    if a <= b then a else b
  }

  function Max(a: int, b: int): int {
    if a <= b then b else a
  }

  function One(b: bool): nat { if b then 1 else 0 }

  // A well-formed member name: 1 to 128 letters, digits, dots, underscores and dashes.

  predicate NameChar(c: char) {
    'a' <= c <= 'z' || 'A' <= c <= 'Z' || '0' <= c <= '9' || c == '.' || c == '_' || c == '-'
  }

  predicate NameOk(s: string) { 1 <= |s| <= 128 && forall i :: 0 <= i < |s| ==> NameChar(s[i]) }

  /** `[...new Set(xs)]`: first occurrences, in order. */
  function Dedup(xs: seq<string>): (r: seq<string>)
    ensures forall x :: x in r <==> x in xs
    ensures forall i, j :: 0 <= i < j < |r| ==> r[i] != r[j]
  {
    if xs == [] then []
    else
      var before := Dedup(xs[..|xs| - 1]);
      var x := xs[|xs| - 1];
      assert xs == xs[..|xs| - 1] + [x];
      if x in before then before else before + [x]
  }

  /** The rows of `s` that satisfy `p`, in table order: a SQL `WHERE`. */
  function Filter<T(!new)>(s: seq<T>, p: T -> bool): (r: seq<T>)
    ensures |r| <= |s|
    ensures forall x :: x in r <==> x in s && p(x)
  {
    if s == [] then []
    else if p(s[0]) then [s[0]] + Filter(s[1..], p)
    else Filter(s[1..], p)
  }

  lemma {:induction false} FilterAppend<T(!new)>(a: seq<T>, b: seq<T>, p: T -> bool)
    ensures Filter(a + b, p) == Filter(a, p) + Filter(b, p)
  {
    if a == [] {
      assert a + b == b;
    } else {
      assert (a + b)[0] == a[0] && (a + b)[1..] == a[1..] + b;
      FilterAppend(a[1..], b, p);
    }
  }

  lemma {:induction false} FilterExt<T(!new)>(s: seq<T>, p: T -> bool, q: T -> bool)
    requires forall x :: x in s ==> p(x) == q(x)
    ensures Filter(s, p) == Filter(s, q)
  {
    if s == [] {
    } else {
      assert s[0] in s;
      FilterExt(s[1..], p, q);
    }
  }

  /** Filtering twice is filtering once by the conjunction. */
  lemma {:induction false} FilterFilter<T(!new)>(s: seq<T>, p: T -> bool, q: T -> bool, both: T -> bool)
    requires forall x :: both(x) == (p(x) && q(x))
    ensures Filter(Filter(s, p), q) == Filter(s, both)
  {
    if s == [] {
    } else {
      FilterFilter(s[1..], p, q, both);
      if p(s[0]) {
        var rest := Filter(s[1..], p);
        assert ([s[0]] + rest)[1..] == rest;
      }
    }
  }

  lemma {:induction false} FilterAll<T(!new)>(s: seq<T>, p: T -> bool)
    requires forall x :: x in s ==> p(x)
    ensures Filter(s, p) == s
  {
    if s == [] {
    } else {
      assert s[0] in s;
      FilterAll(s[1..], p);
      assert s == [s[0]] + s[1..];
    }
  }

  /** A filter that loses no row changes nothing. */
  lemma {:induction false} FilterWhole<T(!new)>(s: seq<T>, p: T -> bool)
    ensures |Filter(s, p)| == |s| ==> Filter(s, p) == s
  {
    if s == [] {
    } else {
      FilterWhole(s[1..], p);
      assert s == [s[0]] + s[1..];
    }
  }

  lemma {:induction false} FilterCounts<T(!new)>(s: seq<T>, p: T -> bool, x: T)
    ensures multiset(Filter(s, p))[x] == if p(x) then multiset(s)[x] else 0
  {
    if s == [] {
    } else {
      var rest := Filter(s[1..], p);
      assert Filter(s, p) == if p(s[0]) then [s[0]] + rest else rest;
      FilterCounts(s[1..], p, x);
      hide Filter;
      assert s == [s[0]] + s[1..];
      assert multiset([s[0]] + rest) == multiset{s[0]} + multiset(rest);
    }
  }

  function RemoveAt<T>(s: seq<T>, i: nat): (r: seq<T>)
    requires i < |s|
    ensures |r| == |s| - 1
  {
    s[..i] + s[i + 1..]
  }

  lemma {:induction false} RemoveAtCons<T>(s: seq<T>, i: nat)
    requires i + 1 < |s|
    ensures RemoveAt(s, i + 1) == [s[0]] + RemoveAt(s[1..], i)
  {
  }

  /** Index of the leftmost row with the least key. */
  function ArgMin<T>(s: seq<T>, key: T -> int): (i: nat)
    requires s != []
    ensures i < |s|
  {
    if |s| == 1 then 0
    else
      var k := ArgMin(s[1..], key);
      if key(s[0]) <= key(s[k + 1]) then 0 else k + 1
  }

  lemma {:induction false} ArgMinIsLeftmostLeast<T>(s: seq<T>, key: T -> int, j: nat)
    requires j < |s|
    ensures key(s[ArgMin(s, key)]) <= key(s[j])
    ensures j < ArgMin(s, key) ==> key(s[ArgMin(s, key)]) < key(s[j])
  {
    if j > 0 {
      ArgMinIsLeftmostLeast(s[1..], key, j - 1);
    } else if |s| > 1 {
      ArgMinIsLeftmostLeast(s[1..], key, 0);
    }
  }

  /** `ORDER BY key LIMIT k`, equal keys in table (rowid) order. */
  function TakeOldest<T>(s: seq<T>, key: T -> int, k: nat): (r: seq<T>)
    ensures |r| == if k <= |s| then k else |s|
    decreases k
  {
    if k == 0 || s == [] then []
    else
      var i := ArgMin(s, key);
      [s[i]] + TakeOldest(RemoveAt(s, i), key, k - 1)
  }

  /** What a `DELETE` of the rows `TakeOldest` selects leaves behind. */
  function DropOldest<T>(s: seq<T>, key: T -> int, k: nat): (r: seq<T>)
    ensures |r| == if k <= |s| then |s| - k else 0
    decreases k
  {
    if k == 0 || s == [] then s
    else DropOldest(RemoveAt(s, ArgMin(s, key)), key, k - 1)
  }

  /** One step of either selection, for proofs that keep both hidden. */
  lemma {:induction false} OldestStep<T>(s: seq<T>, key: T -> int, k: nat)
    ensures k == 0 || s == [] ==> TakeOldest(s, key, k) == [] && DropOldest(s, key, k) == s
    ensures k != 0 && s != [] ==>
      && TakeOldest(s, key, k) == [s[ArgMin(s, key)]] + TakeOldest(RemoveAt(s, ArgMin(s, key)), key, k - 1)
      && DropOldest(s, key, k) == DropOldest(RemoveAt(s, ArgMin(s, key)), key, k - 1)
  {
  }

  lemma {:induction false} RemoveAtMultiset<T>(s: seq<T>, i: nat)
    requires i < |s|
    ensures multiset(s) == multiset{s[i]} + multiset(RemoveAt(s, i))
  {
    assert s == s[..i] + [s[i]] + s[i + 1..];
  }

  /** Eviction splits the table: every row is either taken or kept, with its multiplicity. */
  lemma {:induction false} OldestSplits<T>(s: seq<T>, key: T -> int, k: nat)
    ensures multiset(s) == multiset(TakeOldest(s, key, k)) + multiset(DropOldest(s, key, k))
    decreases k
  {
    OldestStep(s, key, k);
    hide *;
    if k != 0 && s != [] {
      OldestSplits(RemoveAt(s, ArgMin(s, key)), key, k - 1);
      RemoveAtMultiset(s, ArgMin(s, key));
    }
  }

  /** No row an eviction keeps is older than one it takes. */
  lemma {:induction false} TakenAreOldest<T>(s: seq<T>, key: T -> int, k: nat, a: T, b: T)
    requires a in TakeOldest(s, key, k) && b in DropOldest(s, key, k)
    ensures key(a) <= key(b)
    decreases k
  {
    OldestStep(s, key, k);
    var i := ArgMin(s, key);
    var rest := RemoveAt(s, i);
    hide *;
    if a in TakeOldest(rest, key, k - 1) {
      TakenAreOldest(rest, key, k - 1, a, b);
    } else {
      OldestSplits(s, key, k);
      assert b in multiset(s);
      var j :| 0 <= j < |s| && s[j] == b;
      ArgMinIsLeftmostLeast(s, key, j);
    }
  }

  /** `MAX(key)` over a non-empty selection. */
  function MaxKey<T(!new)>(s: seq<T>, key: T -> int): (m: int)
    requires s != []
    ensures forall x :: x in s ==> key(x) <= m
    ensures exists x :: x in s && key(x) == m
  {
    if |s| == 1 then
      assert s[0] in s;
      key(s[0])
    else
      var m := MaxKey(s[1..], key);
      assert forall x :: x in s <==> x == s[0] || x in s[1..];
      Max(key(s[0]), m)
  }

  // ------------------------------------------------------------------ sorting

  function InsertSorted<T>(s: seq<T>, x: T, before: (T, T) -> bool): seq<T> {
    if s == [] then [x]
    else if before(x, s[0]) then [x] + s
    else [s[0]] + InsertSorted(s[1..], x, before)
  }

  /** A stable sort: equal elements keep their order, as in `Array.prototype.sort`. */
  function StableSort<T>(s: seq<T>, before: (T, T) -> bool): seq<T> {
    if s == [] then [] else InsertSorted(StableSort(s[..|s| - 1], before), s[|s| - 1], before)
  }

  ghost predicate Sorted<T>(s: seq<T>, before: (T, T) -> bool) {
    forall i, j :: 0 <= i < j < |s| ==> !before(s[j], s[i])
  }

  lemma {:induction false} InsertLast<T>(s: seq<T>, x: T, before: (T, T) -> bool)
    requires forall i :: 0 <= i < |s| ==> !before(x, s[i])
    ensures InsertSorted(s, x, before) == s + [x]
  {
    if s == [] {
    } else {
      InsertLast(s[1..], x, before);
    }
  }

  /** Sorting what is already in order changes nothing. */
  lemma {:induction false} SortSorted<T>(s: seq<T>, before: (T, T) -> bool)
    requires Sorted(s, before)
    ensures StableSort(s, before) == s
  {
    if s == [] {
    } else {
      var n := |s| - 1;
      SortSorted(s[..n], before);
      InsertLast(s[..n], s[n], before);
      assert s == s[..n] + [s[n]];
    }
  }

  lemma {:induction false} InsertUnfolds<T>(s: seq<T>, x: T, before: (T, T) -> bool)
    ensures s == [] || before(x, s[0]) ==> InsertSorted(s, x, before) == [x] + s
    ensures s != [] && !before(x, s[0]) ==> InsertSorted(s, x, before) == [s[0]] + InsertSorted(s[1..], x, before)
  {
  }

  lemma {:induction false} InsertPermutes<T>(s: seq<T>, x: T, before: (T, T) -> bool)
    ensures multiset(InsertSorted(s, x, before)) == multiset(s) + multiset{x}
  {
    InsertUnfolds(s, x, before);
    hide *;
    if s == [] {
    } else {
      InsertPermutes(s[1..], x, before);
      assert s == [s[0]] + s[1..];
    }
  }

  lemma {:induction false} SortPermutes<T>(s: seq<T>, before: (T, T) -> bool)
    ensures multiset(StableSort(s, before)) == multiset(s)
  {
    if s == [] {
    } else {
      var n := |s| - 1;
      SortPermutes(s[..n], before);
      InsertPermutes(StableSort(s[..n], before), s[n], before);
      assert s == s[..n] + [s[n]];
    }
  }

  ghost predicate Ordering<T(!new)>(before: (T, T) -> bool) {
    && (forall a, b :: before(a, b) ==> !before(b, a))
    && (forall a, b, c :: !before(b, a) && !before(c, b) ==> !before(c, a))
  }

  lemma {:induction false} InsertKeepsSorted<T(!new)>(s: seq<T>, x: T, before: (T, T) -> bool)
    requires Ordering(before) && Sorted(s, before)
    ensures Sorted(InsertSorted(s, x, before), before)
  {
    var r := InsertSorted(s, x, before);
    if s == [] {
    } else {
      if before(x, s[0]) {
        forall j | 0 <= j < |s| ensures !before(s[j], x) {
          assert j > 0 ==> !before(s[j], s[0]);
        }
      } else {
        assert Sorted(s[1..], before);
        InsertKeepsSorted(s[1..], x, before);
        var t := InsertSorted(s[1..], x, before);
        InsertPermutes(s[1..], x, before);
        forall j | 0 <= j < |t| ensures !before(t[j], s[0]) {
          assert t[j] in multiset(t);
          if t[j] != x {
            var k :| 0 <= k < |s[1..]| && s[1..][k] == t[j];
            assert !before(s[k + 1], s[0]);
          }
        }
      }
    }
  }

  lemma {:induction false} SortSorts<T(!new)>(s: seq<T>, before: (T, T) -> bool)
    requires Ordering(before)
    ensures Sorted(StableSort(s, before), before)
  {
    if s == [] {
    } else {
      SortSorts(s[..|s| - 1], before);
      InsertKeepsSorted(StableSort(s[..|s| - 1], before), s[|s| - 1], before);
    }
  }

  lemma {:induction false} InsertStable<T(!new)>(s: seq<T>, x: T, before: (T, T) -> bool, like: T -> bool)
    requires Ordering(before) && Sorted(s, before)
    requires forall a, b :: like(a) && like(b) ==> !before(a, b)
    ensures Filter(InsertSorted(s, x, before), like) == Filter(s, like) + if like(x) then [x] else []
  {
    InsertUnfolds(s, x, before);
    if s == [] {
      assert [x][1..] == [];
    } else if before(x, s[0]) {
      assert ([x] + s)[1..] == s;
      if like(x) {
        forall y | y in s ensures !like(y) {
          var j :| 0 <= j < |s| && s[j] == y;
          assert j > 0 ==> !before(s[j], s[0]);
          assert before(x, y);
        }
        FilterNone(s, like);
      }
    } else {
      assert Sorted(s[1..], before);
      InsertStable(s[1..], x, before, like);
      assert ([s[0]] + InsertSorted(s[1..], x, before))[1..] == InsertSorted(s[1..], x, before);
    }
  }

  lemma {:induction false} FilterNone<T(!new)>(s: seq<T>, p: T -> bool)
    requires forall x :: x in s ==> !p(x)
    ensures Filter(s, p) == []
  {
    if s == [] {
    } else {
      assert s[0] in s;
      FilterNone(s[1..], p);
    }
  }

  /** Elements of which none comes before another keep their order. */
  lemma {:induction false} SortStable<T(!new)>(s: seq<T>, before: (T, T) -> bool, like: T -> bool)
    requires Ordering(before) && forall a, b :: like(a) && like(b) ==> !before(a, b)
    ensures Filter(StableSort(s, before), like) == Filter(s, like)
  {
    if s == [] {
    } else {
      var n := |s| - 1;
      var sorted := StableSort(s[..n], before);
      assert StableSort(s, before) == InsertSorted(sorted, s[n], before);
      assert Filter([s[n]], like) == if like(s[n]) then [s[n]] else [] by {
        assert [s[n]][1..] == [];
      }
      hide *;
      SortStable(s[..n], before, like);
      SortSorts(s[..n], before);
      InsertStable(sorted, s[n], before, like);
      assert s == s[..n] + [s[n]];
      FilterAppend(s[..n], [s[n]], like);
    }
  }

  lemma {:induction false} SameFirst<T(!new)>(a: seq<T>, b: seq<T>, before: (T, T) -> bool)
    requires a != [] && multiset(a) == multiset(b) && Sorted(b, before)
    requires forall i, j :: 0 <= i < j < |a| ==> before(a[i], a[j])
    ensures b != [] && a[0] == b[0]
  {
    assert a[0] in multiset(b);
    assert b[0] in multiset(a);
    var k :| 0 <= k < |a| && a[k] == b[0];
    var m :| 0 <= m < |b| && b[m] == a[0];
    assert m > 0 ==> !before(b[m], b[0]);
  }

  lemma {:induction false} SameRest<T>(a: seq<T>, b: seq<T>)
    requires a != [] && b != [] && a[0] == b[0] && multiset(a) == multiset(b)
    ensures multiset(a[1..]) == multiset(b[1..])
  {
    assert a == [a[0]] + a[1..] && b == [b[0]] + b[1..];
    assert multiset(a[1..]) == multiset(a) - multiset{a[0]};
    assert multiset(b[1..]) == multiset(b) - multiset{b[0]};
  }

  /** Two arrangements of the same elements, one strictly in order and the other in order, are the same. */
  lemma {:induction false} SortedUnique<T(!new)>(a: seq<T>, b: seq<T>, before: (T, T) -> bool)
    requires multiset(a) == multiset(b) && Sorted(b, before)
    requires forall i, j :: 0 <= i < j < |a| ==> before(a[i], a[j])
    ensures a == b
  {
    if a == [] {
      assert |multiset(b)| == 0;
    } else {
      SameFirst(a, b, before);
      SameRest(a, b);
      SortedUnique(a[1..], b[1..], before);
      assert a == [a[0]] + a[1..] && b == [b[0]] + b[1..];
    }
  }

  // ----------------------------------------------------- pages, walked last-first

  function Take<T>(s: seq<T>, n: nat): (r: seq<T>)
    ensures |r| == if n <= |s| then n else |s|
  {
    if n <= |s| then s[..n] else s
  }

  /** What a `Take` leaves out stood at or past its end. */
  lemma {:induction false} TakeMisses<T>(s: seq<T>, n: nat, x: T) returns (k: nat)
    requires x in s && x !in Take(s, n)
    ensures n <= k < |s| && s[k] == x
  {
    var t := Take(s, n);
    assert forall i :: 0 <= i < |t| ==> t[i] == s[i] && t[i] in t;
    k :| 0 <= k < |s| && s[k] == x;
  }

  lemma {:induction false} TakePrefix<T>(a: seq<T>, b: seq<T>, n: nat)
    ensures |a| == n ==> Take(a + b, n) == a
    ensures |a| <= n && b == [] ==> Take(a + b, n) == a
  {
  }

  lemma {:induction false} Reassociate<T>(a: seq<T>, x: T, b: seq<T>)
    ensures a + ([x] + b) == a + [x] + b
  {
  }

  lemma {:induction false} ReassociateAll<T>(a: seq<T>, b: seq<T>, y: T, c: seq<T>)
    ensures a + ([y] + b) == a + [y] + b && a + ([y] + c) == a + [y] + c && a + ([] + c) == a + c
  {
  }

  function Reversed<T>(s: seq<T>): (r: seq<T>)
    ensures |r| == |s|
    ensures forall i :: 0 <= i < |s| ==> r[i] == s[|s| - 1 - i]
  {
    if s == [] then [] else [s[|s| - 1]] + Reversed(s[..|s| - 1])
  }

  lemma {:induction false} ReversedIn<T>(s: seq<T>, x: T)
    ensures x in Reversed(s) <==> x in s
  {
    if i :| 0 <= i < |s| && s[i] == x {
      assert Reversed(s)[|s| - 1 - i] == x;
    }
    if i :| 0 <= i < |Reversed(s)| && Reversed(s)[i] == x {
      assert s[|s| - 1 - i] == x;
    }
  }

  /** The elements satisfying `p`, last one first. */
  function LastFirst<T(!new)>(s: seq<T>, p: T -> bool): seq<T> {
    Filter(Reversed(s), p)
  }

  lemma {:induction false} NothingLastFirst<T(!new)>(p: T -> bool)
    ensures LastFirst([], p) == []
  {
  }

  lemma {:induction false} LastFirstStep<T(!new)>(s: seq<T>, p: T -> bool, i: nat)
    requires i < |s|
    ensures p(s[i]) ==> LastFirst(s[..i + 1], p) == [s[i]] + LastFirst(s[..i], p)
    ensures !p(s[i]) ==> LastFirst(s[..i + 1], p) == LastFirst(s[..i], p)
  {
    var front := s[..i + 1];
    assert front[..i] == s[..i];
    assert Reversed(front)[0] == s[i] && Reversed(front)[1..] == Reversed(s[..i]);
  }

  /**
   * The newest-first walk that stops when a page is full.  The length is looked at
   * only after a push, so even a limit of 0 returns the first match.
   */
  method WalkBack<T(!new)>(s: seq<T>, p: T -> bool, limit: int) returns (matches: seq<T>)
    ensures matches == Take(LastFirst(s, p), if limit < 1 then 1 else limit)
  {
    hide *;
    ghost var n := if limit < 1 then 1 else limit;
    matches := [];
    NothingLastFirst(p);
    var i := |s|;
    assert s[..i] == s;
    while i > 0
      invariant 0 <= i <= |s| && |matches| < n
      invariant matches + LastFirst(s[..i], p) == LastFirst(s, p)
      decreases i
    {
      i := i - 1;
      LastFirstStep(s, p, i);
      if !p(s[i]) { continue; }
      Reassociate(matches, s[i], LastFirst(s[..i], p));
      matches := matches + [s[i]];
      if |matches| >= limit { break; }
    }
    TakePrefix(matches, LastFirst(s[..i], p), n);
    assert i == 0 ==> s[..i] == [];
  }

  /** `out` was collected walking back through `s`, and stood at `at`. */
  ghost predicate Stood<T(!new)>(s: seq<T>, out: seq<T>, at: seq<nat>) {
    && |at| == |out|
    && (forall i :: 0 <= i < |at| ==> at[i] < |s| && s[at[i]] == out[i])
    && (forall i, j :: 0 <= i < j < |at| ==> at[i] > at[j])
  }

  /** Nothing that satisfies `p` was passed over, and nothing else collected. */
  ghost predicate Covers<T(!new)>(s: seq<T>, p: T -> bool, at: seq<nat>) {
    forall k :: 0 <= k < |s| ==> (k in at <==> p(s[k]))
  }

  lemma {:induction false} PassOver<T(!new)>(s: seq<T>, p: T -> bool, out: seq<T>, at: seq<nat>, x: T)
    requires Stood(s, out, at) && Covers(s, p, at) && !p(x)
    ensures Stood(s + [x], out, at) && Covers(s + [x], p, at)
  {
    assert forall i :: 0 <= i < |at| ==> at[i] < |s|;
  }

  lemma {:induction false} Collect<T(!new)>(s: seq<T>, out: seq<T>, at: seq<nat>, x: T)
    requires Stood(s, out, at)
    ensures Stood(s + [x], [x] + out, [|s|] + at)
  {
  }

  lemma {:induction false} CollectCovers<T(!new)>(s: seq<T>, p: T -> bool, at: seq<nat>, x: T)
    requires Covers(s, p, at) && p(x)
    ensures Covers(s + [x], p, [|s|] + at)
  {
    assert forall k :: k in [|s|] + at <==> k == |s| || k in at;
  }

  lemma {:induction false} WalkPlaces<T(!new)>(s: seq<T>, p: T -> bool) returns (at: seq<nat>)
    ensures Stood(s, LastFirst(s, p), at) && Covers(s, p, at)
  {
    if s == [] {
      at := [];
    } else {
      var n := |s| - 1;
      at := WalkPlaces(s[..n], p);
      assert s[..n + 1] == s == s[..n] + [s[n]];
      LastFirstStep(s, p, n);
      hide LastFirst, Stood, Covers;
      if p(s[n]) {
        Collect(s[..n], LastFirst(s[..n], p), at, s[n]);
        CollectCovers(s[..n], p, at, s[n]);
        at := [n] + at;
      } else {
        PassOver(s[..n], p, LastFirst(s[..n], p), at, s[n]);
      }
    }
  }
}
