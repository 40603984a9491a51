/**
 * The two activity stores, in memory and on SQLite, as twins: driven by the same
 * appends and prunes they admit the same events, keep the same rows per member
 * (up to ids and creation times) and report the same prune counts.
 */
module ActivityStores {
  import opened Prelude
  import opened OrderedMap

  datatype Event = Event(ts: int, kind: string, sourceId: Option<string>, payload: string)
  datatype Row = Row(id: int, member: string, event: Event, createdAt: int)

  type Buckets = seq<Entry<string, seq<Row>>>
  type Index = seq<Entry<string, set<string>>>

  datatype MemState = MemState(rows: Buckets, ids: Index, nextId: int)
  datatype SqlState = SqlState(table: seq<Row>, nextId: int)

  const MEM_EMPTY := MemState([], [], 1)
  const SQL_EMPTY := SqlState([], 1)

  // ------------------------------------------------------------ idempotence rule

  function IdOf(e: Event): set<string> { if e.sourceId.Some? then {e.sourceId.value} else {} }

  predicate Fresh(known: set<string>, e: Event) { e.sourceId.Some? ==> e.sourceId.value !in known }

  /** The events of a batch that land: each source id once, and never one already known. */
  function Admit(known: set<string>, events: seq<Event>): (r: seq<Event>)
    ensures |r| <= |events|
    decreases |events|
  {
    if events == [] then []
    else if Fresh(known, events[0]) then [events[0]] + Admit(known + IdOf(events[0]), events[1..])
    else Admit(known, events[1..])
  }

  function SourceIds(events: seq<Event>): set<string> {
    if events == [] then {} else IdOf(events[0]) + SourceIds(events[1..])
  }

  function MakeRows(member: string, events: seq<Event>, id: int, now: int): (r: seq<Row>)
    ensures |r| == |events|
  {
    if events == [] then [] else [Row(id, member, events[0], now)] + MakeRows(member, events[1..], id + 1, now)
  }

  function EventsIn(rows: seq<Row>): (r: seq<Event>)
    ensures |r| == |rows|
  {
    if rows == [] then [] else [rows[0].event] + EventsIn(rows[1..])
  }

  // ------------------------------------------------------------- the in-memory twin

  function Bucket(s: MemState, member: string): seq<Row> {
    if Get(s.rows, member).Some? then Get(s.rows, member).value else []
  }

  function KnownIds(ids: Index, member: string): set<string> {
    if Get(ids, member).Some? then Get(ids, member).value else {}
  }

  function MemAdmitted(s: MemState, member: string, events: seq<Event>): seq<Event> {
    Admit(KnownIds(s.ids, member), events)
  }

  function MemAppend(s: MemState, member: string, events: seq<Event>, now: int): MemState {
    if events == [] then s
    else
      var admitted := MemAdmitted(s, member, events);
      var ids := Put(s.ids, member, KnownIds(s.ids, member) + SourceIds(admitted));
      if admitted == [] then s.(ids := ids)
      else MemState(Put(s.rows, member, Bucket(s, member) + MakeRows(member, admitted, s.nextId, now)),
                    ids, s.nextId + |admitted|)
  }

  predicate Kept(cutoff: int, r: Row) { r.event.ts >= cutoff }

  function KeptRows(rows: seq<Row>, cutoff: int): seq<Row> { Filter(rows, (r: Row) => Kept(cutoff, r)) }
  function PrunedRows(rows: seq<Row>, cutoff: int): seq<Row> { Filter(rows, (r: Row) => !Kept(cutoff, r)) }

  /** The bucket map after a prune: emptied members disappear. */
  function PruneBuckets(bs: Buckets, cutoff: int): Buckets {
    if bs == [] then []
    else
      var kept := KeptRows(bs[0].value, cutoff);
      (if kept == [] then [] else [Entry(bs[0].key, kept)]) + PruneBuckets(bs[1..], cutoff)
  }

  /** Each pruned row releases its source id; an emptied member releases its set. */
  function PruneIndex(ids: Index, bs: Buckets, cutoff: int): Index
    decreases |bs|
  {
    if bs == [] then ids
    else
      var member := bs[0].key;
      var released := SourceIds(EventsIn(PrunedRows(bs[0].value, cutoff)));
      var ids' :=
        if KeptRows(bs[0].value, cutoff) == [] then Delete(ids, member)
        else if Get(ids, member).Some? then Put(ids, member, Get(ids, member).value - released)
        else ids;
      PruneIndex(ids', bs[1..], cutoff)
  }

  function TotalRows(bs: Buckets): nat {
    if bs == [] then 0 else |bs[0].value| + TotalRows(bs[1..])
  }

  function MemPrune(s: MemState, cutoff: int): MemState {
    s.(rows := PruneBuckets(s.rows, cutoff), ids := PruneIndex(s.ids, s.rows, cutoff))
  }

  // ---------------------------------------------------------------- the SQLite twin

  /** The partial unique index on (member_name, source_id). */
  predicate Conflicts(table: seq<Row>, member: string, e: Event) {
    e.sourceId.Some? && exists r :: r in table && r.member == member && r.event.sourceId == e.sourceId
  }

  function SqlInsert(s: SqlState, member: string, e: Event, now: int): SqlState {
    if Conflicts(s.table, member, e) then s
    else SqlState(s.table + [Row(s.nextId, member, e, now)], s.nextId + 1)
  }

  function SqlAppend(s: SqlState, member: string, events: seq<Event>, now: int): SqlState
    decreases |events|
  {
    if events == [] then s else SqlAppend(SqlInsert(s, member, events[0], now), member, events[1..], now)
  }

  function SqlPrune(s: SqlState, cutoff: int): SqlState { s.(table := KeptRows(s.table, cutoff)) }

  function OfMember(table: seq<Row>, member: string): seq<Row> {
    Filter(table, (r: Row) => r.member == member)
  }

  // ------------------------------------------------------------------ the relation

  /** No source id twice. */
  ghost predicate NoDup(events: seq<Event>) {
    events == [] || ((forall e :: e in events[1..] && e.sourceId.Some? ==> e.sourceId != events[0].sourceId)
                     && NoDup(events[1..]))
  }

  /** The dedup set is exactly the source ids of the stored rows. */
  ghost predicate IndexExact(s: MemState) {
    forall m :: KnownIds(s.ids, m) == SourceIds(EventsIn(Bucket(s, m))) && NoDup(EventsIn(Bucket(s, m)))
  }

  ghost predicate MemInv(s: MemState) {
    && UniqueKeys(s.rows) && UniqueKeys(s.ids)
    && IndexExact(s)
  }

  ghost predicate Twins(mem: MemState, sql: SqlState) {
    && MemInv(mem)
    && forall m :: EventsIn(Bucket(mem, m)) == EventsIn(OfMember(sql.table, m))
  }

  lemma {:induction false} EventsAppend(a: seq<Row>, b: seq<Row>)
    ensures EventsIn(a + b) == EventsIn(a) + EventsIn(b)
  {
    if a == [] {
      assert a + b == b;
    } else {
      assert (a + b)[0] == a[0] && (a + b)[1..] == a[1..] + b;
      EventsAppend(a[1..], b);
    }
  }

  lemma {:induction false} IdsAppend(a: seq<Event>, b: seq<Event>)
    ensures SourceIds(a + b) == SourceIds(a) + SourceIds(b)
  {
    if a == [] {
      assert a + b == b;
    } else {
      assert (a + b)[0] == a[0] && (a + b)[1..] == a[1..] + b;
      IdsAppend(a[1..], b);
    }
  }

  lemma {:induction false} IdIn(events: seq<Event>, id: string)
    ensures id in SourceIds(events) <==> exists e :: e in events && e.sourceId == Some(id)
  {
    if events == [] {
    } else {
      IdIn(events[1..], id);
      assert events[0] in events;
      assert forall e :: e in events <==> e == events[0] || e in events[1..];
    }
  }

  lemma {:induction false} MadeRows(member: string, events: seq<Event>, id: int, now: int)
    ensures EventsIn(MakeRows(member, events, id, now)) == events
    ensures forall r :: r in MakeRows(member, events, id, now) ==> r.member == member
  {
    if events == [] {
    } else {
      var rest := MakeRows(member, events[1..], id + 1, now);
      MadeRows(member, events[1..], id + 1, now);
      assert MakeRows(member, events, id, now) == [Row(id, member, events[0], now)] + rest;
      hide MakeRows;
      ConsEvents(Row(id, member, events[0], now), rest);
    }
  }

  lemma {:induction false} NoDupSnoc(a: seq<Event>, e: Event)
    requires NoDup(a) && Fresh(SourceIds(a), e)
    ensures NoDup(a + [e])
  {
    if a == [] {
      assert a + [e] == [e] && [e][1..] == [];
    } else {
      assert (a + [e])[0] == a[0] && (a + [e])[1..] == a[1..] + [e];
      NoDupSnoc(a[1..], e);
    }
  }

  /** Admission keeps the stored ids distinct and adds exactly its own. */
  lemma {:induction false} AdmitNoDup(a: seq<Event>, events: seq<Event>)
    requires NoDup(a)
    ensures NoDup(a + Admit(SourceIds(a), events))
    decreases |events|
  {
    if events == [] {
      assert a + [] == a;
    } else if Fresh(SourceIds(a), events[0]) {
      NoDupSnoc(a, events[0]);
      IdsAppend(a, [events[0]]);
      assert [events[0]][1..] == [] && SourceIds([events[0]]) == IdOf(events[0]);
      AdmitNoDup(a + [events[0]], events[1..]);
      var rest := Admit(SourceIds(a + [events[0]]), events[1..]);
      assert a + [events[0]] + rest == a + ([events[0]] + rest);
    } else {
      AdmitNoDup(a, events[1..]);
    }
  }

  // ------------------------------------------------------------------------ append

  lemma {:induction false} MemAppendBucket(s: MemState, member: string, events: seq<Event>, now: int, m: string)
    requires MemInv(s)
    ensures var s' := MemAppend(s, member, events, now);
      && UniqueKeys(s'.rows) && UniqueKeys(s'.ids)
      && EventsIn(Bucket(s', m))
         == EventsIn(Bucket(s, m)) + (if m == member then MemAdmitted(s, member, events) else [])
      && KnownIds(s'.ids, m)
         == KnownIds(s.ids, m) + (if m == member then SourceIds(MemAdmitted(s, member, events)) else {})
  {
    hide Put, Get, EventsIn, SourceIds, UniqueKeys, MakeRows;
    var admitted := MemAdmitted(s, member, events);
    var ids := KnownIds(s.ids, member) + SourceIds(admitted);
    var bucket := Bucket(s, member) + MakeRows(member, admitted, s.nextId, now);
    GetPut(s.ids, member, ids, m);
    PutKeys(s.ids, member, ids);
    GetPut(s.rows, member, bucket, m);
    PutKeys(s.rows, member, bucket);
    MadeRows(member, admitted, s.nextId, now);
    EventsAppend(Bucket(s, member), MakeRows(member, admitted, s.nextId, now));
    assert EventsIn(Bucket(s, m)) + [] == EventsIn(Bucket(s, m));
    assert Admit(KnownIds(s.ids, member), []) == [];
    NoIds();
    hide Admit;
  }

  lemma {:induction false} NoIds()
    ensures SourceIds([]) == {}
  {
  }

  lemma {:induction false} MemAppendInv(s: MemState, member: string, events: seq<Event>, now: int)
    requires MemInv(s)
    ensures MemInv(MemAppend(s, member, events, now))
  {
    hide MemAppend, Bucket, KnownIds;
    var s' := MemAppend(s, member, events, now);
    MemAppendBucket(s, member, events, now, member);
    forall m ensures KnownIds(s'.ids, m) == SourceIds(EventsIn(Bucket(s', m))) && NoDup(EventsIn(Bucket(s', m))) {
      MemAppendBucket(s, member, events, now, m);
      if m == member {
        IdsAppend(EventsIn(Bucket(s, m)), MemAdmitted(s, member, events));
        AdmitNoDup(EventsIn(Bucket(s, m)), events);
      } else {
        assert EventsIn(Bucket(s, m)) + [] == EventsIn(Bucket(s, m));
      }
    }
  }

  lemma {:induction false} OfMemberSnoc(table: seq<Row>, r: Row, m: string)
    ensures EventsIn(OfMember(table + [r], m)) == EventsIn(OfMember(table, m)) + if r.member == m then [r.event] else []
  {
    FilterAppend(table, [r], (x: Row) => x.member == m);
    var one := Filter([r], (x: Row) => x.member == m);
    assert [r][1..] == [];
    EventsAppend(OfMember(table, m), one);
  }

  lemma {:induction false} EventOfRow(rows: seq<Row>, r: Row)
    requires r in rows
    ensures r.event in EventsIn(rows)
  {
    if r != rows[0] {
      EventOfRow(rows[1..], r);
    }
  }

  lemma {:induction false} RowOfEvent(rows: seq<Row>, e: Event) returns (r: Row)
    requires e in EventsIn(rows)
    ensures r in rows && r.event == e
  {
    if e == rows[0].event {
      r := rows[0];
    } else {
      r := RowOfEvent(rows[1..], e);
    }
  }

  /** The index conflict is the in-memory membership test. */
  lemma {:induction false} ConflictIsKnown(table: seq<Row>, member: string, e: Event)
    ensures Conflicts(table, member, e) <==> !Fresh(SourceIds(EventsIn(OfMember(table, member))), e)
  {
    var rows := OfMember(table, member);
    if e.sourceId.Some? {
      IdIn(EventsIn(rows), e.sourceId.value);
      if r :| r in table && r.member == member && r.event.sourceId == e.sourceId {
        assert r in rows;
        EventOfRow(rows, r);
      }
      if x :| x in EventsIn(rows) && x.sourceId == e.sourceId {
        var r := RowOfEvent(rows, x);
      }
    }
  }

  lemma {:induction false} OneId(e: Event)
    ensures SourceIds([e]) == IdOf(e)
  {
    assert [e][1..] == [];
  }

  /** One insert under the unique index admits a fresh event and refuses a known one. */
  lemma {:induction false} SqlInsertRows(s: SqlState, member: string, e: Event, now: int, m: string)
    ensures EventsIn(OfMember(SqlInsert(s, member, e, now).table, m))
         == EventsIn(OfMember(s.table, m))
          + if m == member && Fresh(SourceIds(EventsIn(OfMember(s.table, member))), e) then [e] else []
    ensures SourceIds(EventsIn(OfMember(SqlInsert(s, member, e, now).table, member)))
         == SourceIds(EventsIn(OfMember(s.table, member)))
          + if Fresh(SourceIds(EventsIn(OfMember(s.table, member))), e) then IdOf(e) else {}
  {
    var stored := EventsIn(OfMember(s.table, member));
    var r := Row(s.nextId, member, e, now);
    assert SqlInsert(s, member, e, now).table == s.table + if Conflicts(s.table, member, e) then [] else [r];
    assert s.table + [] == s.table;
    hide *;
    ConflictIsKnown(s.table, member, e);
    if Fresh(SourceIds(stored), e) {
      OfMemberSnoc(s.table, r, m);
      OfMemberSnoc(s.table, r, member);
      IdsAppend(stored, [e]);
      OneId(e);
    }
  }

  lemma {:induction false} SqlAppendUnfolds(s: SqlState, member: string, events: seq<Event>, now: int)
    ensures events == [] ==> SqlAppend(s, member, events, now) == s
    ensures events != [] ==>
      SqlAppend(s, member, events, now) == SqlAppend(SqlInsert(s, member, events[0], now), member, events[1..], now)
  {
    hide SqlInsert;
  }

  lemma {:induction false} AdmitUnfolds(known: set<string>, events: seq<Event>)
    ensures events == [] ==> Admit(known, events) == []
    ensures events != [] ==>
      Admit(known, events) == if Fresh(known, events[0]) then [events[0]] + Admit(known + IdOf(events[0]), events[1..])
                              else Admit(known, events[1..])
  {
  }

  /** Inserting row by row under the unique index admits what `Admit` admits. */
  lemma {:induction false} SqlAppendRows(s: SqlState, member: string, events: seq<Event>, now: int, m: string)
    ensures EventsIn(OfMember(SqlAppend(s, member, events, now).table, m))
         == EventsIn(OfMember(s.table, m))
          + (if m == member then Admit(SourceIds(EventsIn(OfMember(s.table, member))), events) else [])
    decreases |events|
  {
    hide *;
    var known := SourceIds(EventsIn(OfMember(s.table, member)));
    assert EventsIn(OfMember(s.table, m)) + [] == EventsIn(OfMember(s.table, m));
    SqlAppendUnfolds(s, member, events, now);
    AdmitUnfolds(known, events);
    if events == [] {
    } else {
      SqlInsertRows(s, member, events[0], now, m);
      SqlAppendRows(SqlInsert(s, member, events[0], now), member, events[1..], now, m);
      assert known + {} == known;
    }
  }

  /** Both stores admit the same events of every batch, and stay twins. */
  lemma {:induction false} AppendTwins(mem: MemState, sql: SqlState, member: string, events: seq<Event>, now: int,
      now': int)
    requires Twins(mem, sql)
    ensures Twins(MemAppend(mem, member, events, now), SqlAppend(sql, member, events, now'))
    ensures MemAdmitted(mem, member, events) == Admit(SourceIds(EventsIn(OfMember(sql.table, member))), events)
  {
    hide MemAppend, SqlAppend, OfMember, Bucket;
    MemAppendInv(mem, member, events, now);
    forall m ensures EventsIn(Bucket(MemAppend(mem, member, events, now), m))
                  == EventsIn(OfMember(SqlAppend(sql, member, events, now').table, m)) {
      MemAppendBucket(mem, member, events, now, m);
      SqlAppendRows(sql, member, events, now', m);
    }
  }

  lemma {:induction false} AdmittedOrKnown(known: set<string>, events: seq<Event>)
    ensures forall e :: e in events && e.sourceId.Some? ==>
      e.sourceId.value in known + SourceIds(Admit(known, events))
    decreases |events|
  {
    if events == [] {
    } else {
      var known' := if Fresh(known, events[0]) then known + IdOf(events[0]) else known;
      AdmittedOrKnown(known', events[1..]);
      assert forall e :: e in events <==> e == events[0] || e in events[1..];
      var rest := Admit(known', events[1..]);
      assert ([events[0]] + rest)[1..] == rest;
    }
  }

  // ------------------------------------------------------------------------- prune

  function KeptEvents(events: seq<Event>, cutoff: int): seq<Event> {
    if events == [] then []
    else (if events[0].ts >= cutoff then [events[0]] else []) + KeptEvents(events[1..], cutoff)
  }

  lemma {:induction false} KeptRowsEvents(rows: seq<Row>, cutoff: int)
    ensures EventsIn(KeptRows(rows, cutoff)) == KeptEvents(EventsIn(rows), cutoff)
  {
    if rows == [] {
    } else {
      KeptRowsEvents(rows[1..], cutoff);
      var rest := KeptRows(rows[1..], cutoff);
      assert ([rows[0]] + rest)[1..] == rest && EventsIn(rows)[1..] == EventsIn(rows[1..]);
    }
  }

  lemma {:induction false} ConsEvents(r: Row, rows: seq<Row>)
    ensures EventsIn([r] + rows) == [r.event] + EventsIn(rows)
    ensures SourceIds(EventsIn([r] + rows)) == IdOf(r.event) + SourceIds(EventsIn(rows))
  {
    assert ([r] + rows)[1..] == rows && ([r.event] + EventsIn(rows))[1..] == EventsIn(rows);
  }

  lemma {:induction false} SplitIds(rows: seq<Row>, cutoff: int)
    ensures SourceIds(EventsIn(KeptRows(rows, cutoff))) <= SourceIds(EventsIn(rows))
    ensures SourceIds(EventsIn(PrunedRows(rows, cutoff))) <= SourceIds(EventsIn(rows))
    ensures forall e :: e in EventsIn(KeptRows(rows, cutoff)) ==> e in EventsIn(rows)
  {
    if rows == [] {
    } else {
      SplitIds(rows[1..], cutoff);
      assert rows == [rows[0]] + rows[1..];
      ConsEvents(rows[0], rows[1..]);
      ConsEvents(rows[0], KeptRows(rows[1..], cutoff));
      ConsEvents(rows[0], PrunedRows(rows[1..], cutoff));
    }
  }

  lemma {:induction false} OwnIdOnce(rows: seq<Row>)
    requires rows != [] && NoDup(EventsIn(rows))
    ensures IdOf(rows[0].event) !! SourceIds(EventsIn(rows[1..]))
    ensures NoDup(EventsIn(rows[1..]))
    ensures forall e :: e in EventsIn(rows[1..]) && e.sourceId.Some? ==> e.sourceId != rows[0].event.sourceId
  {
    assert EventsIn(rows)[1..] == EventsIn(rows[1..]);
    if rows[0].event.sourceId.Some? {
      IdIn(EventsIn(rows[1..]), rows[0].event.sourceId.value);
    }
  }

  lemma {:induction false} KeptNoDup(rows: seq<Row>, cutoff: int)
    requires NoDup(EventsIn(rows))
    ensures NoDup(EventsIn(KeptRows(rows, cutoff)))
  {
    if rows == [] {
    } else {
      OwnIdOnce(rows);
      KeptNoDup(rows[1..], cutoff);
      SplitIds(rows[1..], cutoff);
      var kept := KeptRows(rows[1..], cutoff);
      ConsEvents(rows[0], kept);
      assert ([rows[0].event] + EventsIn(kept))[1..] == EventsIn(kept);
    }
  }

  /** Releasing the pruned rows' ids leaves exactly the kept rows' ids, because no id is stored twice. */
  lemma {:induction false} ReleasedIds(rows: seq<Row>, cutoff: int)
    requires NoDup(EventsIn(rows))
    ensures SourceIds(EventsIn(rows)) - SourceIds(EventsIn(PrunedRows(rows, cutoff)))
         == SourceIds(EventsIn(KeptRows(rows, cutoff)))
  {
    if rows == [] {
    } else {
      var r, tail := rows[0], rows[1..];
      OwnIdOnce(rows);
      ReleasedIds(tail, cutoff);
      SplitIds(tail, cutoff);
      assert rows == [r] + tail;
      ConsEvents(r, tail);
      ConsEvents(r, KeptRows(tail, cutoff));
      ConsEvents(r, PrunedRows(tail, cutoff));
    }
  }

  lemma {:induction false} PruneBucketsGet(bs: Buckets, cutoff: int, m: string)
    requires UniqueKeys(bs)
    ensures UniqueKeys(PruneBuckets(bs, cutoff))
    ensures forall e :: e in PruneBuckets(bs, cutoff) ==> exists x :: x in bs && x.key == e.key
    ensures Get(PruneBuckets(bs, cutoff), m)
         == if Get(bs, m).Some? && KeptRows(Get(bs, m).value, cutoff) != []
            then Some(KeptRows(Get(bs, m).value, cutoff)) else None
  {
    hide KeptRows;
    if bs == [] {
    } else {
      PruneBucketsGet(bs[1..], cutoff, m);
      var kept, rest := KeptRows(bs[0].value, cutoff), PruneBuckets(bs[1..], cutoff);
      assert bs[0] in bs && forall x :: x in bs[1..] ==> x in bs;
      assert ([Entry(bs[0].key, kept)] + rest)[1..] == rest && [] + rest == rest;
      if bs[0].key == m {
        GetIn(bs[1..], m);
      }
    }
  }

  lemma {:induction false} PruneIndexGet(ids: Index, bs: Buckets, cutoff: int, m: string)
    requires UniqueKeys(bs) && UniqueKeys(ids)
    ensures UniqueKeys(PruneIndex(ids, bs, cutoff))
    ensures KnownIds(PruneIndex(ids, bs, cutoff), m)
         == if Get(bs, m).None? then KnownIds(ids, m)
            else if KeptRows(Get(bs, m).value, cutoff) == [] then {}
            else KnownIds(ids, m) - SourceIds(EventsIn(PrunedRows(Get(bs, m).value, cutoff)))
    decreases |bs|
  {
    hide EventsIn, SourceIds, KeptRows, PrunedRows;
    if bs == [] {
    } else {
      var member := bs[0].key;
      var released := SourceIds(EventsIn(PrunedRows(bs[0].value, cutoff)));
      DeleteKeys(ids, member);
      GetDelete(ids, member, m);
      if Get(ids, member).Some? {
        PutKeys(ids, member, Get(ids, member).value - released);
        GetPut(ids, member, Get(ids, member).value - released, m);
      }
      GetIn(bs[1..], member);
      var ids' :=
        if KeptRows(bs[0].value, cutoff) == [] then Delete(ids, member)
        else if Get(ids, member).Some? then Put(ids, member, Get(ids, member).value - released)
        else ids;
      PruneIndexGet(ids', bs[1..], cutoff, m);
    }
  }

  lemma {:induction false} MemPruneBucket(s: MemState, cutoff: int, m: string)
    requires MemInv(s)
    ensures Bucket(MemPrune(s, cutoff), m) == KeptRows(Bucket(s, m), cutoff)
    ensures UniqueKeys(MemPrune(s, cutoff).rows) && UniqueKeys(MemPrune(s, cutoff).ids)
    ensures KnownIds(MemPrune(s, cutoff).ids, m) == SourceIds(EventsIn(KeptRows(Bucket(s, m), cutoff)))
    ensures NoDup(EventsIn(KeptRows(Bucket(s, m), cutoff)))
  {
    PruneBucketsGet(s.rows, cutoff, m);
    PruneIndexGet(s.ids, s.rows, cutoff, m);
    assert KnownIds(s.ids, m) == SourceIds(EventsIn(Bucket(s, m)));
    ReleasedIds(Bucket(s, m), cutoff);
    KeptNoDup(Bucket(s, m), cutoff);
    assert KeptRows([], cutoff) == [] && EventsIn([]) == [] && SourceIds([]) == {};
  }

  lemma {:induction false} PruneTwins(mem: MemState, sql: SqlState, cutoff: int)
    requires Twins(mem, sql)
    ensures Twins(MemPrune(mem, cutoff), SqlPrune(sql, cutoff))
  {
    hide MemPrune, NoDup, KeptEvents;
    forall m ensures EventsIn(Bucket(MemPrune(mem, cutoff), m)) == EventsIn(OfMember(SqlPrune(sql, cutoff).table, m)) {
      MemPruneBucket(mem, cutoff, m);
      KeptOfMember(sql.table, cutoff, m);
      KeptRowsEvents(Bucket(mem, m), cutoff);
      KeptRowsEvents(OfMember(sql.table, m), cutoff);
    }
    forall m ensures KnownIds(MemPrune(mem, cutoff).ids, m) == SourceIds(EventsIn(Bucket(MemPrune(mem, cutoff), m)))
                  && NoDup(EventsIn(Bucket(MemPrune(mem, cutoff), m))) {
      MemPruneBucket(mem, cutoff, m);
    }
    MemPruneBucket(mem, cutoff, "");
  }

  lemma {:induction false} KeptOfMember(table: seq<Row>, cutoff: int, m: string)
    ensures OfMember(KeptRows(table, cutoff), m) == KeptRows(OfMember(table, m), cutoff)
  {
    var both := (r: Row) => Kept(cutoff, r) && r.member == m;
    FilterFilter(table, (r: Row) => Kept(cutoff, r), (r: Row) => r.member == m, both);
    FilterFilter(table, (r: Row) => r.member == m, (r: Row) => Kept(cutoff, r), both);
  }

  // -------------------------------------------------------------------------- sizes

  lemma {:induction false} SplitMember(table: seq<Row>, k: string)
    ensures |table| == |OfMember(table, k)| + |Filter(table, (r: Row) => r.member != k)|
  {
    if table == [] {
    } else {
      SplitMember(table[1..], k);
    }
  }

  /** Per-member agreement makes the row totals agree. */
  lemma {:induction false} TotalsAgree(bs: Buckets, table: seq<Row>)
    requires UniqueKeys(bs)
    requires forall m :: |OfMember(table, m)| == if Get(bs, m).Some? then |Get(bs, m).value| else 0
    ensures TotalRows(bs) == |table|
  {
    if bs == [] {
      assert forall m :: OfMember(table, m) == [];
      assert forall r :: r in table ==> r in OfMember(table, r.member);
      if |table| > 0 {
        SomeRow(table);
      }
    } else {
      var k := bs[0].key;
      var rest := Filter(table, (r: Row) => r.member != k);
      SplitMember(table, k);
      GetIn(bs[1..], k);
      forall m ensures |OfMember(rest, m)| == if Get(bs[1..], m).Some? then |Get(bs[1..], m).value| else 0 {
        var both := (r: Row) => r.member != k && r.member == m;
        FilterFilter(table, (r: Row) => r.member != k, (r: Row) => r.member == m, both);
        if m == k {
          FilterNone(table, both);
        } else {
          FilterExt(table, both, (r: Row) => r.member == m);
          assert |OfMember(table, m)| == if Get(bs, m).Some? then |Get(bs, m).value| else 0;
        }
      }
      TotalsAgree(bs[1..], rest);
    }
  }

  lemma {:induction false} SomeRow(table: seq<Row>)
    requires |table| > 0
    ensures exists r :: r in table
  {
    assert table[0] in table;
  }

  lemma {:induction false} TwinsSameSize(mem: MemState, sql: SqlState)
    requires Twins(mem, sql)
    ensures TotalRows(mem.rows) == |sql.table|
  {
    forall m ensures |OfMember(sql.table, m)| == if Get(mem.rows, m).Some? then |Get(mem.rows, m).value| else 0 {
      assert |EventsIn(Bucket(mem, m))| == |EventsIn(OfMember(sql.table, m))|;
    }
    TotalsAgree(mem.rows, sql.table);
  }

  // --------------------------------------------------------------------------- runs

  datatype Op = AppendOp(member: string, events: seq<Event>, now: int) | PruneOp(cutoff: int)

  /** What a caller sees: the events that landed, or how many rows went. */
  datatype Reply = Landed(events: seq<Event>) | Deleted(n: int)

  function MemStep(s: MemState, op: Op): (MemState, Reply) {
    match op
    case AppendOp(member, events, now) =>
      (MemAppend(s, member, events, now), Landed(MemAdmitted(s, member, events)))
    case PruneOp(cutoff) =>
      var s' := MemPrune(s, cutoff);
      (s', Deleted(TotalRows(s.rows) - TotalRows(s'.rows)))
  }

  function SqlStep(s: SqlState, op: Op): (SqlState, Reply) {
    match op
    case AppendOp(member, events, now) =>
      var s' := SqlAppend(s, member, events, now);
      SqlAppendGrows(s, member, events, now);
      (s', Landed(EventsIn(s'.table[|s.table|..])))
    case PruneOp(cutoff) =>
      (SqlPrune(s, cutoff), Deleted(|s.table| - |SqlPrune(s, cutoff).table|))
  }

  lemma {:induction false} SqlAppendGrows(s: SqlState, member: string, events: seq<Event>, now: int)
    ensures s.table <= SqlAppend(s, member, events, now).table
    ensures EventsIn(SqlAppend(s, member, events, now).table[|s.table|..])
         == Admit(SourceIds(EventsIn(OfMember(s.table, member))), events)
    decreases |events|
  {
    hide OfMember, SourceIds, Conflicts;
    if events == [] {
      assert s.table[|s.table|..] == [];
    } else {
      var e := events[0];
      var r := Row(s.nextId, member, e, now);
      var stored := EventsIn(OfMember(s.table, member));
      ConflictIsKnown(s.table, member, e);
      SqlAppendGrows(SqlInsert(s, member, e, now), member, events[1..], now);
      if Fresh(SourceIds(stored), e) {
        OfMemberSnoc(s.table, r, member);
        IdsAppend(stored, [e]);
        OneId(e);
        var t := SqlAppend(s, member, events, now).table;
        assert t[|s.table|] == r;
        assert t[|s.table|..] == [r] + t[|s.table| + 1..];
        assert t[|s.table|..][1..] == t[|s.table| + 1..];
      }
    }
  }

  function MemRun(s: MemState, ops: seq<Op>): (MemState, seq<Reply>)
    decreases |ops|
  {
    if ops == [] then (s, [])
    else
      var (s1, r) := MemStep(s, ops[0]);
      var (s2, rs) := MemRun(s1, ops[1..]);
      (s2, [r] + rs)
  }

  function SqlRun(s: SqlState, ops: seq<Op>): (SqlState, seq<Reply>)
    decreases |ops|
  {
    if ops == [] then (s, [])
    else
      var (s1, r) := SqlStep(s, ops[0]);
      var (s2, rs) := SqlRun(s1, ops[1..]);
      (s2, [r] + rs)
  }

  /** The same step gives the same reply and keeps the twins. */
  lemma {:induction false} StepTwins(mem: MemState, sql: SqlState, op: Op)
    requires Twins(mem, sql)
    ensures Twins(MemStep(mem, op).0, SqlStep(sql, op).0)
    ensures MemStep(mem, op).1 == SqlStep(sql, op).1
  {
    hide Twins, MemAppend, SqlAppend, MemPrune, SqlPrune;
    match op
    case AppendOp(member, events, now) =>
      AppendTwins(mem, sql, member, events, now, now);
      SqlAppendGrows(sql, member, events, now);
    case PruneOp(cutoff) =>
      PruneTwins(mem, sql, cutoff);
      TwinsSameSize(mem, sql);
      TwinsSameSize(MemPrune(mem, cutoff), SqlPrune(sql, cutoff));
  }

  /** From any twin states, every run of appends and prunes gets the same replies. */
  lemma {:induction false} RunTwins(mem: MemState, sql: SqlState, ops: seq<Op>)
    requires Twins(mem, sql)
    ensures Twins(MemRun(mem, ops).0, SqlRun(sql, ops).0)
    ensures MemRun(mem, ops).1 == SqlRun(sql, ops).1
    decreases |ops|
  {
    hide Twins, MemStep, SqlStep;
    if ops == [] {
    } else {
      StepTwins(mem, sql, ops[0]);
      RunTwins(MemStep(mem, ops[0]).0, SqlStep(sql, ops[0]).0, ops[1..]);
    }
  }

  // ------------------------------------------------------------------------ replay

  /** A batch replayed adds nothing exactly when each of its events has a known source id. */
  lemma {:induction false} ReplayAddsNothingIff(known: set<string>, events: seq<Event>)
    ensures Admit(known, events) == []
        <==> forall e :: e in events ==> e.sourceId.Some? && e.sourceId.value in known
    decreases |events|
  {
    if events == [] {
    } else {
      ReplayAddsNothingIff(known, events[1..]);
      assert events[0] in events && forall e :: e in events <==> e == events[0] || e in events[1..];
      hide Admit;
      AdmitOne(known, events);
    }
  }

  lemma {:induction false} AdmitOne(known: set<string>, events: seq<Event>)
    requires events != []
    ensures Fresh(known, events[0]) ==> Admit(known, events) != []
    ensures !Fresh(known, events[0]) ==> Admit(known, events) == Admit(known, events[1..])
  {
  }

  lemma {:induction false} KeptEventIn(events: seq<Event>, cutoff: int, e: Event)
    requires e in events && e.ts >= cutoff
    ensures e in KeptEvents(events, cutoff)
  {
    if e == events[0] {
    } else {
      KeptEventIn(events[1..], cutoff, e);
    }
  }

  /** No prune of the run reaches the event. */
  predicate Survives(e: Event, ops: seq<Op>) {
    forall i :: 0 <= i < |ops| && ops[i].PruneOp? ==> e.ts >= ops[i].cutoff
  }

  lemma {:induction false} StepKeepsEvent(s: MemState, op: Op, member: string, e: Event)
    requires MemInv(s) && e in EventsIn(Bucket(s, member)) && (op.PruneOp? ==> e.ts >= op.cutoff)
    ensures MemInv(MemStep(s, op).0) && e in EventsIn(Bucket(MemStep(s, op).0, member))
  {
    hide MemInv, Bucket, EventsIn, MemAppend, MemPrune, KeptRows, KeptEvents;
    match op
    case AppendOp(m, events, now) =>
      MemAppendInv(s, m, events, now);
      MemAppendBucket(s, m, events, now, member);
    case PruneOp(cutoff) =>
      MemPruneInv(s, cutoff);
      MemPruneBucket(s, cutoff, member);
      KeptRowsEvents(Bucket(s, member), cutoff);
      KeptEventIn(EventsIn(Bucket(s, member)), cutoff, e);
  }

  lemma {:induction false} MemPruneInv(s: MemState, cutoff: int)
    requires MemInv(s)
    ensures MemInv(MemPrune(s, cutoff))
  {
    hide MemPrune, NoDup, KeptRows;
    forall m ensures KnownIds(MemPrune(s, cutoff).ids, m) == SourceIds(EventsIn(Bucket(MemPrune(s, cutoff), m)))
                  && NoDup(EventsIn(Bucket(MemPrune(s, cutoff), m))) {
      MemPruneBucket(s, cutoff, m);
    }
    MemPruneBucket(s, cutoff, "");
  }

  lemma {:induction false} RunKeepsEvent(s: MemState, ops: seq<Op>, member: string, e: Event)
    requires MemInv(s) && e in EventsIn(Bucket(s, member)) && Survives(e, ops)
    ensures MemInv(MemRun(s, ops).0) && e in EventsIn(Bucket(MemRun(s, ops).0, member))
    decreases |ops|
  {
    hide MemInv, Bucket, EventsIn, MemStep;
    if ops == [] {
    } else {
      StepKeepsEvent(s, ops[0], member, e);
      assert forall i :: 0 <= i < |ops[1..]| ==> ops[1..][i] == ops[i + 1];
      RunKeepsEvent(MemStep(s, ops[0]).0, ops[1..], member, e);
    }
  }

  lemma {:induction false} RunKeepsInv(s: MemState, ops: seq<Op>)
    requires MemInv(s)
    ensures MemInv(MemRun(s, ops).0)
    decreases |ops|
  {
    hide MemInv, MemAppend, MemPrune;
    if ops == [] {
    } else {
      match ops[0] {
        case AppendOp(m, events, now) => MemAppendInv(s, m, events, now);
        case PruneOp(cutoff) => MemPruneInv(s, cutoff);
      }
      RunKeepsInv(MemStep(s, ops[0]).0, ops[1..]);
    }
  }

  /** The rows that hold the batch's source ids right after it was appended. */
  ghost predicate Unreleased(s: MemState, member: string, events: seq<Event>, ops: seq<Op>) {
    forall e :: e in EventsIn(Bucket(s, member)) && e.sourceId.Some? && e.sourceId.value in SourceIds(events)
      ==> Survives(e, ops)
  }

  /**
   * Replaying a batch whose events all carry source ids adds nothing, after any run of
   * appends and prunes, until a prune releases a row that holds one of its ids.
   */
  lemma {:induction false} AppendIdempotent(s: MemState, member: string, events: seq<Event>, now: int, ops: seq<Op>)
    requires MemInv(s) && forall e :: e in events ==> e.sourceId.Some?
    requires Unreleased(MemAppend(s, member, events, now), member, events, ops)
    ensures MemAdmitted(MemRun(MemAppend(s, member, events, now), ops).0, member, events) == []
  {
    var s1 := MemAppend(s, member, events, now);
    var s2 := MemRun(s1, ops).0;
    MemAppendInv(s, member, events, now);
    RunKeepsInv(s1, ops);
    forall e | e in events ensures e.sourceId.value in KnownIds(s2.ids, member) {
      IdHeld(s, member, events, now, e);
      var held :| held in EventsIn(Bucket(s1, member)) && held.sourceId == e.sourceId;
      IdIn(events, e.sourceId.value);
      RunKeepsEvent(s1, ops, member, held);
      IdIn(EventsIn(Bucket(s2, member)), e.sourceId.value);
      KnownAreStored(s2, member);
    }
    hide *;
    ReplayAddsNothingIff(KnownIds(s2.ids, member), events);
    AdmittedIs(s2, member, events);
  }

  lemma {:induction false} AdmittedIs(s: MemState, member: string, events: seq<Event>)
    ensures MemAdmitted(s, member, events) == Admit(KnownIds(s.ids, member), events)
  {
  }

  lemma {:induction false} KnownAreStored(s: MemState, member: string)
    requires MemInv(s)
    ensures KnownIds(s.ids, member) == SourceIds(EventsIn(Bucket(s, member)))
  {
  }

  lemma {:induction false} IdHeld(s: MemState, member: string, events: seq<Event>, now: int, e: Event)
    requires MemInv(s) && e in events && e.sourceId.Some?
    ensures exists held :: held in EventsIn(Bucket(MemAppend(s, member, events, now), member))
                        && held.sourceId == e.sourceId
  {
    var s1 := MemAppend(s, member, events, now);
    MemAppendInv(s, member, events, now);
    KnownAreStored(s1, member);
    hide MemInv, Admit, SourceIds, EventsIn, Bucket, MemAppend;
    MemAppendBucket(s, member, events, now, member);
    AdmittedOrKnown(KnownIds(s.ids, member), events);
    IdIn(EventsIn(Bucket(s1, member)), e.sourceId.value);
  }

  /** The same of the SQLite store: its reply to the replay is that nothing landed. */
  lemma {:induction false} SqlAppendIdempotent(
    mem: MemState, sql: SqlState, member: string, events: seq<Event>, now: int, ops: seq<Op>, later: int)
    requires Twins(mem, sql) && forall e :: e in events ==> e.sourceId.Some?
    requires Unreleased(MemAppend(mem, member, events, now), member, events, ops)
    ensures SqlStep(SqlRun(SqlAppend(sql, member, events, now), ops).0, AppendOp(member, events, later)).1 == Landed([])
  {
    var s1, t1 := MemAppend(mem, member, events, now), SqlAppend(sql, member, events, now);
    TwinsInv(mem, sql);
    AppendIdempotent(mem, member, events, now, ops);
    AppendTwins(mem, sql, member, events, now, now);
    hide *;
    RunTwins(s1, t1, ops);
    StepTwins(MemRun(s1, ops).0, SqlRun(t1, ops).0, AppendOp(member, events, later));
    AppendReply(MemRun(s1, ops).0, member, events, later);
  }

  lemma {:induction false} TwinsInv(mem: MemState, sql: SqlState)
    requires Twins(mem, sql)
    ensures MemInv(mem)
  {
  }

  lemma {:induction false} AppendReply(s: MemState, member: string, events: seq<Event>, now: int)
    ensures MemStep(s, AppendOp(member, events, now)).1 == Landed(MemAdmitted(s, member, events))
  {
  }

  /** Two empty stores are twins ... */
  lemma {:induction false} FreshTwins()
    ensures Twins(MEM_EMPTY, SQL_EMPTY)
  {
    forall m ensures EventsIn(Bucket(MEM_EMPTY, m)) == EventsIn(OfMember(SQL_EMPTY.table, m))
                  && KnownIds(MEM_EMPTY.ids, m) == SourceIds(EventsIn(Bucket(MEM_EMPTY, m)))
                  && NoDup(EventsIn(Bucket(MEM_EMPTY, m))) {
    }
  }

  /** ... so over any run both give the same replies and hold the same events for every member. */
  lemma {:induction false} RunsAgree(ops: seq<Op>, member: string)
    ensures MemRun(MEM_EMPTY, ops).1 == SqlRun(SQL_EMPTY, ops).1
    ensures EventsIn(Bucket(MemRun(MEM_EMPTY, ops).0, member))
         == EventsIn(OfMember(SqlRun(SQL_EMPTY, ops).0.table, member))
  {
    FreshTwins();
    RunTwins(MEM_EMPTY, SQL_EMPTY, ops);
    hide MemRun, SqlRun, Bucket, OfMember, EventsIn;
  }
}
