/** The SQLite activity store, updated in place, and how its listing relates to the in-memory one. */
module SqliteActivityStores {
  import opened Prelude
  import opened Paging
  import opened ActivityStores
  import opened InMemoryActivityStores

  const MAX_SAFE_INTEGER := 9007199254740991
  const MAX_LIMIT := 1000
  const DEFAULT_LIMIT := 200

  predicate Selected(f: ActivityFilter, r: Row) { r.member == f.member && InWindow(f, r) }

  function DecodeWith(decodes: Row -> bool): Row -> Option<Row> {
    (r: Row) => if decodes(r) then Some(r) else None
  }

  /** The table as one `list` call sees it; `decodes` says which stored rows parse. */
  function Listing(table: seq<Row>, f: ActivityFilter, decodes: Row -> bool): Source<Row, Row> {
    Source(NewestFirst, table, (r: Row) => Place(r), (r: Row) => Selected(f, r), DecodeWith(decodes))
  }

  /** The cursor given, or else a sentinel that every row should precede. */
  function OpenCursor(f: ActivityFilter): Cursor {
    if f.before.Some? then f.before.value else Cursor(MAX_SAFE_INTEGER, MAX_SAFE_INTEGER)
  }

  /** `id` is an autoincrement key: ascending in table order, and never reused. */
  ghost predicate Keyed(s: SqlState) {
    && (forall i, j :: 0 <= i < j < |s.table| ==> s.table[i].id < s.table[j].id)
    && (forall i :: 0 <= i < |s.table| ==> s.table[i].id < s.nextId)
  }

  class SqliteActivityStore {
    var table: seq<Row>
    var nextId: int

    function State(): SqlState
      reads this
    {
      SqlState(table, nextId)
    }

    constructor ()
      ensures State() == SQL_EMPTY && Keyed(State())
    {
      table, nextId := [], 1;
    }

    /** Returns only the rows that landed. */
    method Append(member: string, events: seq<Event>, now: int) returns (inserted: seq<Row>)
      requires Keyed(State())
      modifies this
      ensures State() == SqlAppend(old(State()), member, events, now) && Keyed(State())
      ensures table == old(table) + inserted
    {
      hide Conflicts;
      inserted := [];
      assert table + [] == table && events[0..] == events;
      for i := 0 to |events|
        invariant SqlAppend(State(), member, events[i..], now) == SqlAppend(old(State()), member, events, now)
        invariant table == old(table) + inserted && Keyed(State())
      {
        var e := events[i];
        assert events[i..][1..] == events[i + 1..];
        if !Conflicts(table, member, e) {
          var row := Row(nextId, member, e, now);
          assert old(table) + (inserted + [row]) == old(table) + inserted + [row];
          table, nextId := table + [row], nextId + 1;
          inserted := inserted + [row];
        }
      }
    }

    /** `DELETE ... WHERE ts < cutoff`. */
    method Prune(cutoff: int) returns (deleted: nat)
      requires Keyed(State())
      modifies this
      ensures State() == SqlPrune(old(State()), cutoff) && Keyed(State())
      ensures deleted == |old(table)| - |table|
    {
      FilterKeyed(State(), (r: Row) => Kept(cutoff, r));
      var kept := KeptRows(table, cutoff);
      deleted := |table| - |kept|;
      table := kept;
    }

    /** Newest first; a short page means no decodable row remains. */
    method List(f: ActivityFilter, decodes: Row -> bool) returns (out: seq<Row>)
      requires Keyed(State())
      ensures out == Page(Listing(table, f, decodes), OpenCursor(f),
                          ClampListLimit(f.limit, MAX_LIMIT, Some(DEFAULT_LIMIT)))
    {
      var limit := ClampListLimit(f.limit, MAX_LIMIT, Some(DEFAULT_LIMIT));
      ClampIsUsable(f.limit, MAX_LIMIT, Some(DEFAULT_LIMIT));
      KeyedUnique(State(), f, decodes);
      out := Refill(Listing(table, f, decodes), OpenCursor(f), limit);
    }
  }

  lemma {:induction false} FilterKeyed(s: SqlState, p: Row -> bool)
    requires Keyed(s)
    ensures Keyed(s.(table := Filter(s.table, p)))
    decreases |s.table|
  {
    if s.table == [] {
    } else {
      var tail := s.(table := s.table[1..]);
      FilterKeyed(tail, p);
      var rest := Filter(s.table[1..], p);
      forall j | 0 <= j < |rest| ensures s.table[0].id < rest[j].id {
        assert rest[j] in rest;
        var k :| 0 <= k < |s.table[1..]| && s.table[1..][k] == rest[j];
        assert s.table[k + 1] == rest[j];
      }
    }
  }

  lemma {:induction false} KeyedUnique(s: SqlState, f: ActivityFilter, decodes: Row -> bool)
    requires Keyed(s)
    ensures UniqueRows(Listing(s.table, f, decodes), s.table)
  {
  }

  // ------------------------------------------------------------- the open cursor

  /** The sentinel reads every matching row, except rows at or past the largest safe integer. */
  lemma {:induction false} OpenCursorReads(table: seq<Row>, f: ActivityFilter, decodes: Row -> bool, r: Row)
    requires UniqueRows(Listing(table, f, decodes), table) && f.before.None? && r in table && Selected(f, r)
    ensures r in AllPast(Listing(table, f, decodes), OpenCursor(f))
        <==> r.event.ts < MAX_SAFE_INTEGER || (r.event.ts == MAX_SAFE_INTEGER && r.id < MAX_SAFE_INTEGER)
  {
    AllPastIs(Listing(table, f, decodes), OpenCursor(f));
  }

  // -------------------------------------------------------- the two listings agree

  /** Rows appended in (ts, id) order. */
  ghost predicate Chronological(bucket: seq<Row>) {
    forall i, j :: 0 <= i < j < |bucket| ==> Past(OldestFirst, Place(bucket[i]), Place(bucket[j]))
  }

  /**
   * Walking the in-memory bucket backwards gives the page the SQLite listing gives,
   * at every length, when the rows were appended in (ts, id) order, all decode, and
   * none lies past the open cursor.
   */
  lemma {:induction false} ListsAgree(table: seq<Row>, f: ActivityFilter, n: nat)
    requires UniqueRows(Listing(table, f, (r: Row) => true), table)
    requires Chronological(OfMember(table, f.member))
    requires forall r :: r in table ==> Past(NewestFirst, Cursor(MAX_SAFE_INTEGER, MAX_SAFE_INTEGER), Place(r))
    ensures Take(Backwards(f, OfMember(table, f.member)), n)
         == Page(Listing(table, f, (r: Row) => true), OpenCursor(f), n)
  {
    var bucket, src := OfMember(table, f.member), Listing(table, f, (r: Row) => true);
    var all := AllPast(src, OpenCursor(f));
    AllPastIs(src, OpenCursor(f));
    DecodedIsSame(all, src.decode);
    assert Strict(src, Reversed(bucket));
    FilterStrict(src, Reversed(bucket), (r: Row) => Matches(f, r));
    var mine := Backwards(f, bucket);
    forall r ensures r in mine <==> r in all {
      ReversedIn(bucket, r);
    }
    StrictUnique(src, mine, all);
  }

  lemma {:induction false} DecodedIsSame(rows: seq<Row>, decode: Row -> Option<Row>)
    requires forall r :: decode(r) == Some(r)
    ensures Decoded(rows, decode) == rows
  {
    if rows == [] {
    } else {
      DecodedIsSame(rows[1..], decode);
    }
  }

  // -------------------------------------------------------------- what a page holds

  /** A row of the table the listing should return sooner or later: without a cursor, one before the sentinel. */
  predicate Wanted(table: seq<Row>, f: ActivityFilter, decodes: Row -> bool, r: Row) {
    && r in table && decodes(r) && r.member == f.member && Asks(f, r)
    && (f.before.None? ==> r.event.ts < MAX_SAFE_INTEGER || (r.event.ts == MAX_SAFE_INTEGER && r.id < MAX_SAFE_INTEGER))
  }

  lemma {:induction false} WantedIsDue(table: seq<Row>, f: ActivityFilter, decodes: Row -> bool, r: Row)
    ensures Due(Listing(table, f, decodes), OpenCursor(f), r) == Wanted(table, f, decodes, r)
  {
  }

  /**
   * A page is the latest wanted rows, latest first: of its member, within its times, of its
   * kinds, before its cursor and decodable, and none is passed over.
   */
  lemma {:induction false} ListIs(s: SqlState, f: ActivityFilter, decodes: Row -> bool, n: nat)
    requires Keyed(s)
    ensures var page := Page(Listing(s.table, f, decodes), OpenCursor(f), n);
      && |page| <= n
      && (forall r :: r in page ==> Wanted(s.table, f, decodes, r))
      && (forall i, j :: 0 <= i < j < |page| ==> Later(page[i], page[j]))
      && (forall r :: Wanted(s.table, f, decodes, r) && r !in page ==>
            |page| == n && forall q :: q in page ==> Later(q, r))
  {
    var src, c := Listing(s.table, f, decodes), OpenCursor(f);
    KeyedUnique(s, f, decodes);
    PageIs(src, c, n);
    forall r ensures Due(src, c, r) == Wanted(s.table, f, decodes, r) {
      WantedIsDue(s.table, f, decodes, r);
    }
    forall a: Row, b: Row ensures Past(src.dir, src.at(a), src.at(b)) == Later(a, b) {
    }
    hide Page, Due, Wanted, Past, Later, Keyed;
  }
}
