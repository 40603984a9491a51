/**
 * Refill paging: a page query that skips undecodable rows must keep reading
 * until it has enough good rows or the table is exhausted, because callers read
 * a short page as "no more rows".
 *
 * One proof serves newest-first (activity) and oldest-first (gen-ai) order.
 */
module Paging {
  import opened Prelude

  datatype Cursor = Cursor(ts: int, id: int)
  datatype Direction = NewestFirst | OldestFirst

  /** `b` comes strictly after `a` in the page order. */
  predicate Past(dir: Direction, a: Cursor, b: Cursor) {
    match dir
    case NewestFirst => b.ts < a.ts || (b.ts == a.ts && b.id < a.id)
    case OldestFirst => b.ts > a.ts || (b.ts == a.ts && b.id > a.id)
  }

  /** A table as one `list` call sees it: rows, their (ts, id), the filter, and how rows decode. */
  datatype Source<!T, !U> = Source(
    dir: Direction,
    rows: seq<T>,
    at: T -> Cursor,
    wanted: T -> bool,
    decode: T -> Option<U>)

  function Comes<T, U>(src: Source<T, U>): (T, T) -> bool {
    (a: T, b: T) => Past(src.dir, src.at(a), src.at(b))
  }

  /** `WHERE ... AND (ts, id) strictly past the cursor`. */
  function Beyond<T, U>(src: Source<T, U>, c: Cursor): T -> bool {
    (r: T) => src.wanted(r) && Past(src.dir, c, src.at(r))
  }

  /** Every matching row past the cursor, in page order. */
  function AllPast<T(!new), U>(src: Source<T, U>, c: Cursor): seq<T> {
    StableSort(Filter(src.rows, Beyond(src, c)), Comes(src))
  }

  /** One raw `SELECT ... ORDER BY ... LIMIT want`. */
  function Select<T(!new), U>(src: Source<T, U>, c: Cursor, want: nat): seq<T> {
    Take(AllPast(src, c), want)
  }

  function Decoded<T, U>(rows: seq<T>, decode: T -> Option<U>): (r: seq<U>)
    ensures |r| <= |rows|
  {
    if rows == [] then []
    else (if decode(rows[0]).Some? then [decode(rows[0]).value] else []) + Decoded(rows[1..], decode)
  }

  /** What a page should be: the first `limit` decodable rows past the cursor. */
  function Page<T(!new), U>(src: Source<T, U>, c: Cursor, limit: nat): seq<U> {
    Take(Decoded(AllPast(src, c), src.decode), limit)
  }

  // ------------------------------------------------------------------ page order

  ghost predicate Strict<T, U>(src: Source<T, U>, s: seq<T>) {
    forall i, j :: 0 <= i < j < |s| ==> Past(src.dir, src.at(s[i]), src.at(s[j]))
  }

  /** `id` is a primary key. */
  ghost predicate UniqueRows<T, U>(src: Source<T, U>, s: seq<T>) {
    forall i, j :: 0 <= i < j < |s| ==> src.at(s[i]) != src.at(s[j])
  }

  lemma {:induction false} InsertStrict<T(!new), U>(src: Source<T, U>, s: seq<T>, x: T)
    requires Strict(src, s) && forall y :: y in s ==> src.at(y) != src.at(x)
    ensures Strict(src, InsertSorted(s, x, Comes(src)))
    ensures forall y :: y in InsertSorted(s, x, Comes(src)) <==> y == x || y in s
  {
    if s == [] {
    } else {
      if Comes(src)(x, s[0]) {
      } else {
        assert Strict(src, s[1..]);
        assert forall y :: y in s <==> y == s[0] || y in s[1..];
        InsertStrict(src, s[1..], x);
        var t := InsertSorted(s[1..], x, Comes(src));
        forall j | 0 <= j < |t| ensures Past(src.dir, src.at(s[0]), src.at(t[j])) {
          assert t[j] in t;
          if t[j] != x {
            var k :| 0 <= k < |s[1..]| && s[1..][k] == t[j];
            assert s[k + 1] == t[j];
          } else {
            assert s[0] in s;
          }
        }
      }
    }
  }

  lemma {:induction false} SortStrict<T(!new), U>(src: Source<T, U>, s: seq<T>)
    requires UniqueRows(src, s)
    ensures Strict(src, StableSort(s, Comes(src)))
    ensures forall y :: y in StableSort(s, Comes(src)) <==> y in s
  {
    if s == [] {
    } else {
      var n := |s| - 1;
      SortStrict(src, s[..n]);
      var t := StableSort(s[..n], Comes(src));
      forall y | y in t ensures src.at(y) != src.at(s[n]) {
        var k :| 0 <= k < |s[..n]| && s[..n][k] == y;
        assert s[k] == y;
      }
      InsertStrict(src, t, s[n]);
      assert forall y :: y in s <==> y in s[..n] || y == s[n];
    }
  }

  lemma {:induction false} FilterUnique<T(!new), U>(src: Source<T, U>, s: seq<T>, p: T -> bool)
    requires UniqueRows(src, s)
    ensures UniqueRows(src, Filter(s, p))
  {
    if s == [] {
    } else {
      assert UniqueRows(src, s[1..]);
      FilterUnique(src, s[1..], p);
      var rest := Filter(s[1..], p);
      forall j | 0 <= j < |rest| ensures src.at(rest[j]) != src.at(s[0]) {
        assert rest[j] in rest;
        var k :| 0 <= k < |s[1..]| && s[1..][k] == rest[j];
        assert s[k + 1] == rest[j];
      }
    }
  }

  /** Two strictly ordered sequences of the same rows are the same sequence. */
  lemma {:induction false} StrictUnique<T(!new), U>(src: Source<T, U>, a: seq<T>, b: seq<T>)
    requires Strict(src, a) && Strict(src, b) && forall y :: y in a <==> y in b
    ensures a == b
  {
    if a == [] {
      assert forall i :: 0 <= i < |b| ==> b[i] in a;
    } else {
      assert a[0] in b;
      var i :| 0 <= i < |b| && b[i] == a[0];
      assert b[0] in a;
      var j :| 0 <= j < |a| && a[j] == b[0];
      assert a[0] == b[0];
      forall y ensures y in a[1..] <==> y in b[1..] {
        StrictTail(src, a, y);
        StrictTail(src, b, y);
      }
      StrictUnique(src, a[1..], b[1..]);
      assert a == [a[0]] + a[1..] && b == [b[0]] + b[1..];
    }
  }

  lemma {:induction false} StrictTail<T(!new), U>(src: Source<T, U>, s: seq<T>, y: T)
    requires s != [] && Strict(src, s)
    ensures y in s[1..] <==> y in s && y != s[0]
  {
    if y in s[1..] {
      var k :| 0 <= k < |s[1..]| && s[1..][k] == y;
      assert s[k + 1] == y;
    }
    if y in s && y != s[0] {
      var k :| 0 <= k < |s| && s[k] == y;
      assert s[1..][k - 1] == y;
    }
  }

  lemma {:induction false} AllPastIs<T(!new), U>(src: Source<T, U>, c: Cursor)
    requires UniqueRows(src, src.rows)
    ensures Strict(src, AllPast(src, c))
    ensures forall y :: y in AllPast(src, c) <==> y in src.rows && src.wanted(y) && Past(src.dir, c, src.at(y))
  {
    FilterUnique(src, src.rows, Beyond(src, c));
    SortStrict(src, Filter(src.rows, Beyond(src, c)));
  }

  /** Advancing the cursor to the k-th row leaves exactly the rows after it. */
  lemma {:induction false} AdvanceCursor<T(!new), U>(src: Source<T, U>, c: Cursor, k: nat)
    requires UniqueRows(src, src.rows) && 0 < k <= |AllPast(src, c)|
    ensures AllPast(src, src.at(AllPast(src, c)[k - 1])) == AllPast(src, c)[k..]
  {
    hide AllPast;
    var s := AllPast(src, c);
    var c' := src.at(s[k - 1]);
    AllPastIs(src, c);
    AllPastIs(src, c');
    assert Strict(src, s[k..]);
    assert s[k - 1] in s;
    forall y ensures y in AllPast(src, c') <==> y in s[k..] {
      if y in s[k..] {
        var j :| 0 <= j < |s[k..]| && s[k..][j] == y;
        assert s[k + j] == y;
      }
      if y in AllPast(src, c') {
        assert Past(src.dir, c, c') && Past(src.dir, c', src.at(y));
        assert y in s;
        var j :| 0 <= j < |s| && s[j] == y;
        assert j >= k;
        assert s[k..][j - k] == y;
      }
    }
    StrictUnique(src, AllPast(src, c'), s[k..]);
  }

  lemma {:induction false} DecodedAppend<T, U>(a: seq<T>, b: seq<T>, decode: T -> Option<U>)
    ensures Decoded(a + b, decode) == Decoded(a, decode) + Decoded(b, decode)
  {
    if a == [] {
      assert a + b == b;
    } else {
      assert (a + b)[0] == a[0] && (a + b)[1..] == a[1..] + b;
      var head := if decode(a[0]).Some? then [decode(a[0]).value] else [];
      assert Decoded(a, decode) == head + Decoded(a[1..], decode);
      assert Decoded(a + b, decode) == head + Decoded(a[1..] + b, decode);
      hide Decoded;
      DecodedAppend(a[1..], b, decode);
    }
  }

  // ---------------------------------------------------------------- the loop

  /**
   * The refill loop.  The cursor advances over raw rows, undecodable ones
   * included, until the page is full or a raw page comes back short.
   */
  method Refill<T(!new), U>(src: Source<T, U>, start: Cursor, limit: nat) returns (out: seq<U>)
    requires UniqueRows(src, src.rows)
    ensures out == Page(src, start, limit)
  {
    hide AllPast, Decoded;
    out := [];
    var cursor := start;
    ghost var all := AllPast(src, start);
    ghost var read := 0;
    assert all[..0] == [] && all[0..] == all;
    assert Decoded([], src.decode) == [] by { DecodedNone(src.decode); }
    while |out| < limit
      invariant 0 <= read <= |all| && |out| <= limit
      invariant out == Decoded(all[..read], src.decode)
      invariant AllPast(src, cursor) == all[read..]
      invariant read > 0 ==> cursor == src.at(all[read - 1])
      decreases |all| - read
    {
      var want := limit - |out|;
      var rows := Select(src, cursor, want);
      if |rows| == 0 { break; }
      out := out + Decoded(rows, src.decode);
      var last := rows[|rows| - 1];
      cursor := src.at(last);
      ghost var next := read + |rows|;
      assert rows == all[read..next] && last == all[next - 1];
      assert all[..next] == all[..read] + rows;
      DecodedAppend(all[..read], rows, src.decode);
      AdvanceCursor(src, start, next);
      read := next;
      if |rows| < want { break; }
    }
    assert all == all[..read] + all[read..];
    DecodedAppend(all[..read], all[read..], src.decode);
    if |out| < limit {
      assert all[read..] == [];
      DecodedNone(src.decode);
    }
  }

  lemma {:induction false} DecodedNone<T, U>(decode: T -> Option<U>)
    ensures Decoded([], decode) == []
  {
  }

  // ------------------------------------------------------------- main results

  /** A short page means nothing decodable remains. */
  lemma {:induction false} ShortPageIsExhaustion<T(!new), U>(src: Source<T, U>, c: Cursor, limit: nat)
    requires |Page(src, c, limit)| < limit
    ensures Page(src, c, limit) == Decoded(AllPast(src, c), src.decode)
  {
  }

  /** A decoded row keeps its place: what a pager hands back as the next cursor. */
  ghost predicate Faithful<T(!new), U>(src: Source<T, U>, place: U -> Cursor) {
    forall r: T :: src.decode(r).Some? ==> place(src.decode(r).value) == src.at(r)
  }

  /** Page after page, each from the last row returned, until a page comes back short. */
  ghost function Pages<T(!new), U>(src: Source<T, U>, place: U -> Cursor, c: Cursor, limit: nat): seq<U>
    requires UniqueRows(src, src.rows) && Faithful(src, place) && limit > 0
    decreases |Decoded(AllPast(src, c), src.decode)|
  {
    var page := Page(src, c, limit);
    if |page| < limit then page
    else
      NextPage(src, place, c, limit);
      page + Pages(src, place, place(page[limit - 1]), limit)
  }

  /** Index of the raw row that decodes to the k-th decoded row. */
  lemma {:induction false} RawOf<T, U>(rows: seq<T>, decode: T -> Option<U>, k: nat) returns (j: nat)
    requires k < |Decoded(rows, decode)|
    ensures j < |rows| && decode(rows[j]) == Some(Decoded(rows, decode)[k])
    ensures Decoded(rows[j + 1..], decode) == Decoded(rows, decode)[k + 1..]
  {
    if decode(rows[0]).Some? {
      if k == 0 {
        j := 0;
      } else {
        var i := RawOf(rows[1..], decode, k - 1);
        j := i + 1;
        assert rows[1..][i + 1..] == rows[j + 1..];
      }
    } else {
      var i := RawOf(rows[1..], decode, k);
      j := i + 1;
      assert rows[1..][i + 1..] == rows[j + 1..];
    }
  }

  lemma {:induction false} NextPage<T(!new), U>(src: Source<T, U>, place: U -> Cursor, c: Cursor, limit: nat)
    requires UniqueRows(src, src.rows) && Faithful(src, place) && 0 < limit <= |Page(src, c, limit)|
    ensures Decoded(AllPast(src, place(Page(src, c, limit)[limit - 1])), src.decode)
         == Decoded(AllPast(src, c), src.decode)[limit..]
  {
    hide AllPast, Decoded;
    var all := AllPast(src, c);
    var j := RawOf(all, src.decode, limit - 1);
    AdvanceCursor(src, c, j + 1);
  }

  /** Paging enumerates every decodable matching row past the cursor exactly once, in order. */
  lemma {:induction false} PagesEnumerate<T(!new), U>(src: Source<T, U>, place: U -> Cursor, c: Cursor, limit: nat)
    requires UniqueRows(src, src.rows) && Faithful(src, place) && limit > 0
    ensures Pages(src, place, c, limit) == Decoded(AllPast(src, c), src.decode)
    decreases |Decoded(AllPast(src, c), src.decode)|
  {
    hide AllPast, Decoded;
    var page := Page(src, c, limit);
    if |page| == limit {
      var d := Decoded(AllPast(src, c), src.decode);
      NextPage(src, place, c, limit);
      PagesEnumerate(src, place, place(page[limit - 1]), limit);
      assert d == d[..limit] + d[limit..];
    }
  }

  // ------------------------------------------------------------- what a page holds

  /** A row the listing should return sooner or later. */
  predicate Due<T(==)>(src: Source<T, T>, c: Cursor, r: T) {
    r in src.rows && src.wanted(r) && Past(src.dir, c, src.at(r)) && src.decode(r).Some?
  }

  lemma {:induction false} DecodedFilters<T(!new)>(rows: seq<T>, decode: T -> Option<T>)
    requires forall r :: decode(r).Some? ==> decode(r).value == r
    ensures Decoded(rows, decode) == Filter(rows, (r: T) => decode(r).Some?)
  {
    if rows == [] {
    } else {
      DecodedFilters(rows[1..], decode);
    }
  }

  lemma {:induction false} FilterStrict<T(!new), U>(src: Source<T, U>, s: seq<T>, p: T -> bool)
    requires Strict(src, s)
    ensures Strict(src, Filter(s, p))
  {
    if s == [] {
    } else {
      assert Strict(src, s[1..]);
      FilterStrict(src, s[1..], p);
      var rest := Filter(s[1..], p);
      forall j | 0 <= j < |rest| ensures Past(src.dir, src.at(s[0]), src.at(rest[j])) {
        assert rest[j] in rest;
        var k :| 0 <= k < |s[1..]| && s[1..][k] == rest[j];
        assert s[k + 1] == rest[j];
      }
    }
  }

  /**
   * A page holds due rows only, in page order and never more than its limit; one it leaves
   * out comes after every row of a full page.
   */
  lemma {:induction false} PageIs<T(!new)>(src: Source<T, T>, c: Cursor, limit: nat)
    requires UniqueRows(src, src.rows) && forall r :: src.decode(r).Some? ==> src.decode(r).value == r
    ensures var page := Page(src, c, limit);
      && |page| <= limit && Strict(src, page)
      && (forall r :: r in page ==> Due(src, c, r))
      && (forall q, r :: Due(src, c, r) && r !in page && q in page ==> Past(src.dir, src.at(q), src.at(r)))
      && (forall r :: Due(src, c, r) && r !in page ==> |page| == limit)
  {
    var all, good := AllPast(src, c), Filter(AllPast(src, c), (r: T) => src.decode(r).Some?);
    AllPastIs(src, c);
    DecodedFilters(all, src.decode);
    FilterStrict(src, all, (r: T) => src.decode(r).Some?);
    assert forall r :: r in good <==> Due(src, c, r);
    var page := Page(src, c, limit);
    assert page == Take(good, limit);
    hide AllPast, Decoded, Filter, Past, Page;
    forall r | r in good && r !in page
      ensures |page| == limit && forall q :: q in page ==> Past(src.dir, src.at(q), src.at(r)) {
      var k := TakeMisses(good, limit, r);
    }
  }

  // ------------------------------------------------------------------- limits

  /** `clampListLimit`; `None` is undefined or not finite. */
  function ClampListLimit(raw: Option<real>, max: nat, defaultLimit: Option<nat>): (r: int) {
    var fallback := Min(max, Max(1, if defaultLimit.Some? then defaultLimit.value else max / 2));
    if raw.None? then fallback
    else if raw.value <= 0.0 then fallback
    else Min(raw.value.Floor, max)
  }

  /** A usable limit is rounded down and capped; any other means the default, or half the cap where there is none. */
  lemma {:induction false} LimitIs(raw: Option<real>, max: nat, defaultLimit: Option<nat>)
    requires max >= 1
    ensures var r := ClampListLimit(raw, max, defaultLimit);
      && (raw.Some? && raw.value >= max as real ==> r == max)
      && (raw.Some? && 0.0 < raw.value < max as real ==> r as real <= raw.value < r as real + 1.0)
      && ((raw.None? || raw.value <= 0.0) && defaultLimit.Some? && 1 <= defaultLimit.value <= max ==>
            r == defaultLimit.value)
      && ((raw.None? || raw.value <= 0.0) && defaultLimit.None? && max >= 2 ==> max - 1 <= 2 * r <= max)
  {
  }

  /**
   * A bad limit never becomes an empty page, except a fraction in (0, 1), which
   * floors to a limit of 0.
   */
  lemma {:induction false} ClampIsUsable(raw: Option<real>, max: nat, defaultLimit: Option<nat>)
    requires max >= 1
    ensures var r := ClampListLimit(raw, max, defaultLimit);
      && 0 <= r <= max
      && (r >= 1 <==> !(raw.Some? && 0.0 < raw.value < 1.0))
      && (raw.Some? && 1.0 <= raw.value <= max as real ==> r as real <= raw.value < r as real + 1.0)
  {
  }
}
