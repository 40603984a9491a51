/** The gen-ai inference store: append, and an oldest-first listing that refills past bad rows. */
module GenAiStores {
  import opened Prelude
  import opened Paging

  /** A stored row; `columns` stands for the JSON columns, which may fail to decode. */
  datatype Inference = Inference(id: int, member: string, ts: int, model: Option<string>, columns: string)

  datatype Query = Query(
    member: Option<string>,
    model: Option<string>,
    from: Option<int>,
    to: Option<int>,
    after: Option<Cursor>,
    limit: Option<real>)

  const MIN_SAFE_INTEGER := -9007199254740991
  const MAX_LIMIT := 5000
  const DEFAULT_LIMIT := 500

  predicate Selected(q: Query, r: Inference) {
    && (q.member.Some? ==> r.member == q.member.value)
    && (q.model.Some? ==> r.model == q.model)
    && (q.from.Some? ==> r.ts >= q.from.value)
    && (q.to.Some? ==> r.ts <= q.to.value)
  }

  function Listing(table: seq<Inference>, q: Query, decodes: Inference -> bool): Source<Inference, Inference> {
    Source(OldestFirst, table, (r: Inference) => Cursor(r.ts, r.id), (r: Inference) => Selected(q, r),
           (r: Inference) => if decodes(r) then Some(r) else None)
  }

  /** The cursor given, or else a sentinel that every row should follow. */
  function OpenCursor(q: Query): Cursor {
    if q.after.Some? then q.after.value else Cursor(MIN_SAFE_INTEGER, MIN_SAFE_INTEGER)
  }

  ghost predicate Keyed(table: seq<Inference>, nextId: int) {
    && (forall i, j :: 0 <= i < j < |table| ==> table[i].id < table[j].id)
    && (forall i :: 0 <= i < |table| ==> table[i].id < nextId)
  }

  class GenAiStore {
    var table: seq<Inference>
    var nextId: int

    constructor ()
      ensures table == [] && Keyed(table, nextId)
    {
      table, nextId := [], 1;
    }

    /** An unserializable record is skipped; a missing or non-finite time becomes the clock's. */
    method Append(member: string, ts: Option<int>, model: Option<string>, columns: Option<string>, now: int)
      requires Keyed(table, nextId)
      modifies this
      ensures Keyed(table, nextId)
      ensures columns.None? ==> table == old(table)
      ensures columns.Some? ==>
        table == old(table) + [Inference(old(nextId), member, if ts.Some? then ts.value else now, model, columns.value)]
    {
      if columns.None? { return; }
      table := table + [Inference(nextId, member, if ts.Some? then ts.value else now, model, columns.value)];
      nextId := nextId + 1;
    }

    method List(q: Query, decodes: Inference -> bool) returns (out: seq<Inference>)
      requires Keyed(table, nextId)
      ensures out == Page(Listing(table, q, decodes), OpenCursor(q),
                          ClampListLimit(q.limit, MAX_LIMIT, Some(DEFAULT_LIMIT)))
    {
      var limit := ClampListLimit(q.limit, MAX_LIMIT, Some(DEFAULT_LIMIT));
      ClampIsUsable(q.limit, MAX_LIMIT, Some(DEFAULT_LIMIT));
      assert UniqueRows(Listing(table, q, decodes), table);
      out := Refill(Listing(table, q, decodes), OpenCursor(q), limit);
    }
  }

  /** The sentinel reads every matching row, except rows at or before the least safe integer. */
  lemma {:induction false} OpenCursorReads(table: seq<Inference>, nextId: int, q: Query,
      decodes: Inference -> bool, r: Inference)
    requires Keyed(table, nextId) && q.after.None? && r in table && Selected(q, r)
    ensures r in AllPast(Listing(table, q, decodes), OpenCursor(q))
        <==> r.ts > MIN_SAFE_INTEGER || (r.ts == MIN_SAFE_INTEGER && r.id > MIN_SAFE_INTEGER)
  {
    assert UniqueRows(Listing(table, q, decodes), table);
    AllPastIs(Listing(table, q, decodes), OpenCursor(q));
  }

  /** Following the cursor of the last row returned enumerates every decodable matching row exactly once. */
  lemma {:induction false} PagingEnumerates(table: seq<Inference>, nextId: int, q: Query,
      decodes: Inference -> bool, limit: nat)
    requires Keyed(table, nextId) && limit > 0
    ensures var src, place := Listing(table, q, decodes), (r: Inference) => Cursor(r.ts, r.id);
      && UniqueRows(src, src.rows) && Faithful(src, place)
      && Pages(src, place, OpenCursor(q), limit) == Decoded(AllPast(src, OpenCursor(q)), src.decode)
  {
    var src, place := Listing(table, q, decodes), (r: Inference) => Cursor(r.ts, r.id);
    assert UniqueRows(src, src.rows) && Faithful(src, place);
    PagesEnumerate(src, place, OpenCursor(q), limit);
  }

  predicate Earlier(a: Inference, b: Inference) { a.ts < b.ts || (a.ts == b.ts && a.id < b.id) }

  /** A row of the table the listing should return sooner or later: without a cursor, one after the sentinel. */
  predicate Wanted(table: seq<Inference>, q: Query, decodes: Inference -> bool, r: Inference) {
    && r in table && decodes(r)
    && (q.member.None? || r.member == q.member.value) && (q.model.None? || r.model == q.model)
    && (q.from.None? || q.from.value <= r.ts) && (q.to.None? || r.ts <= q.to.value)
    && (q.after.Some? ==> q.after.value.ts < r.ts || (q.after.value.ts == r.ts && q.after.value.id < r.id))
    && (q.after.None? ==> r.ts > MIN_SAFE_INTEGER || (r.ts == MIN_SAFE_INTEGER && r.id > MIN_SAFE_INTEGER))
  }

  lemma {:induction false} WantedIsDue(table: seq<Inference>, q: Query, decodes: Inference -> bool, r: Inference)
    ensures Due(Listing(table, q, decodes), OpenCursor(q), r) == Wanted(table, q, decodes, r)
  {
  }

  /**
   * A page is the earliest wanted rows, earliest first: of its member and model, within its
   * times, after its cursor and decodable, and none is passed over.
   */
  lemma {:induction false} ListIs(table: seq<Inference>, nextId: int, q: Query, decodes: Inference -> bool, n: nat)
    requires Keyed(table, nextId)
    ensures var page := Page(Listing(table, q, decodes), OpenCursor(q), n);
      && |page| <= n
      && (forall r :: r in page ==> Wanted(table, q, decodes, r))
      && (forall i, j :: 0 <= i < j < |page| ==> Earlier(page[i], page[j]))
      && (forall r :: Wanted(table, q, decodes, r) && r !in page ==>
            |page| == n && forall x :: x in page ==> Earlier(x, r))
  {
    var src, c := Listing(table, q, decodes), OpenCursor(q);
    assert UniqueRows(src, src.rows);
    PageIs(src, c, n);
    forall r ensures Due(src, c, r) == Wanted(table, q, decodes, r) {
      WantedIsDue(table, q, decodes, r);
    }
    forall a: Inference, b: Inference ensures Past(src.dir, src.at(a), src.at(b)) == Earlier(a, b) {
    }
    hide Page, Due, Wanted, Past, Earlier, Keyed;
  }
}
