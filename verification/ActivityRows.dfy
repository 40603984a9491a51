/**
 * What appends and prunes do to the activity rows, said of the rows themselves: which
 * events of a batch land, under which ids, and which rows a prune leaves.  Ids are
 * never used twice.
 */
module ActivityRows {
  import opened Prelude
  import opened OrderedMap
  import opened ActivityStores

  // ------------------------------------------------------------------- admission

  /** An event of a batch lands unless its source id is known, or came earlier in the batch. */
  predicate Lands(known: set<string>, events: seq<Event>, k: nat)
    requires k < |events|
  {
    events[k].sourceId.Some? ==>
      events[k].sourceId.value !in known && forall j :: 0 <= j < k ==> events[j].sourceId != events[k].sourceId
  }

  /** `at` counts upward. */
  ghost predicate Upward(at: seq<nat>) { forall i, j :: 0 <= i < j < |at| ==> at[i] < at[j] }

  ghost predicate Picked(events: seq<Event>, at: seq<nat>, out: seq<Event>) {
    |at| == |out| && forall i :: 0 <= i < |at| ==> at[i] < |events| && events[at[i]] == out[i]
  }

  function Shifted(at: seq<nat>): (r: seq<nat>)
    ensures |r| == |at| && forall i :: 0 <= i < |at| ==> r[i] == at[i] + 1
  {
    if at == [] then [] else [at[0] + 1] + Shifted(at[1..])
  }

  lemma {:induction false} ShiftedIn(at: seq<nat>, k: nat)
    ensures k in Shifted(at) <==> k > 0 && k - 1 in at
  {
    if i :| 0 <= i < |at| && at[i] == k - 1 {
      assert Shifted(at)[i] == k;
    }
    if i :| 0 <= i < |Shifted(at)| && Shifted(at)[i] == k {
      assert at[i] == k - 1;
    }
  }

  lemma {:induction false} LandsLater(known: set<string>, events: seq<Event>, k: nat)
    requires 0 < k < |events|
    ensures Lands(known, events, k)
        <==> Lands(if Fresh(known, events[0]) then known + IdOf(events[0]) else known, events[1..], k - 1)
  {
    var rest := events[1..];
    assert rest[k - 1] == events[k] && forall j :: 0 < j < k ==> events[j] == rest[j - 1];
    assert forall j :: 0 <= j < k - 1 ==> rest[j] == events[j + 1];
  }

  lemma {:induction false} PickRest(events: seq<Event>, at: seq<nat>, out: seq<Event>)
    requires events != [] && Picked(events[1..], at, out) && Upward(at)
    ensures Picked(events, Shifted(at), out) && Upward(Shifted(at))
  {
  }

  lemma {:induction false} PickFirst(events: seq<Event>, at: seq<nat>, out: seq<Event>)
    requires events != [] && Picked(events, at, out) && Upward(at) && 0 !in at
    ensures Picked(events, [0] + at, [events[0]] + out) && Upward([0] + at)
  {
    assert forall i :: 0 <= i < |at| ==> at[i] in at;
  }

  /** The events of a batch that land, in the order of the batch: `at` says which. */
  lemma {:induction false} AdmittedAre(known: set<string>, events: seq<Event>) returns (at: seq<nat>)
    ensures Picked(events, at, Admit(known, events)) && Upward(at)
    ensures forall k :: 0 <= k < |events| ==> (k in at <==> Lands(known, events, k))
    decreases |events|
  {
    AdmitUnfolds(known, events);
    if events == [] {
      at := [];
    } else {
      var lands := Fresh(known, events[0]);
      var rest := AdmittedAre(if lands then known + IdOf(events[0]) else known, events[1..]);
      var out := Admit(if lands then known + IdOf(events[0]) else known, events[1..]);
      PickRest(events, rest, out);
      ShiftedIn(rest, 0);
      PickFirst(events, Shifted(rest), out);
      at := if lands then [0] + Shifted(rest) else Shifted(rest);
      assert Lands(known, events, 0) == lands;
      hide Admit, Picked, Upward, Lands, Fresh;
      forall k | 0 <= k < |events| ensures k in at <==> Lands(known, events, k) {
        ShiftedIn(rest, k);
        if k > 0 {
          LandsLater(known, events, k);
        }
      }
    }
  }

  // ------------------------------------------------------------------------ append

  /** Rows for `events` in order: numbered upward from `id`, created now. */
  lemma {:induction false} MadeRowsAre(member: string, events: seq<Event>, id: int, now: int, i: nat)
    requires i < |events|
    ensures MakeRows(member, events, id, now)[i] == Row(id + i, member, events[i], now)
  {
    if i > 0 {
      MadeRowsAre(member, events[1..], id + 1, now, i - 1);
    }
  }

  /** An append puts the rows of the events that land at the end of its member's, and takes one id for each. */
  lemma {:induction false} MemAppendIs(s: MemState, member: string, events: seq<Event>, now: int, m: string)
    ensures var s', landed := MemAppend(s, member, events, now), MemAdmitted(s, member, events);
      && Bucket(s', m)
         == Bucket(s, m) + (if m == member then MakeRows(member, landed, s.nextId, now) else [])
      && s'.nextId == s.nextId + |landed|
  {
    var admitted := MemAdmitted(s, member, events);
    GetPut(s.rows, member, Bucket(s, member) + MakeRows(member, admitted, s.nextId, now), m);
    assert Bucket(s, m) + [] == Bucket(s, m);
    hide Get, Put, Admit;
    AdmitUnfolds(KnownIds(s.ids, member), []);
  }

  lemma {:induction false} MakeUnfolds(member: string, e: Event, rest: seq<Event>, id: int, now: int)
    ensures MakeRows(member, [e] + rest, id, now) == [Row(id, member, e, now)] + MakeRows(member, rest, id + 1, now)
    ensures MakeRows(member, [], id, now) == []
  {
    assert ([e] + rest)[1..] == rest;
  }

  lemma {:induction false} InsertIs(s: SqlState, member: string, e: Event, now: int)
    ensures SqlInsert(s, member, e, now)
         == if Conflicts(s.table, member, e) then s
            else SqlState(s.table + [Row(s.nextId, member, e, now)], s.nextId + 1)
  {
    hide Conflicts;
  }

  lemma {:induction false} NothingMade(s: SqlState, member: string, now: int)
    ensures SqlState(s.table + MakeRows(member, [], s.nextId, now), s.nextId) == s
  {
    assert s.table + [] == s.table;
  }

  /** The SQLite table gains the rows of the events that land, likewise numbered. */
  lemma {:induction false} SqlAppendIs(s: SqlState, member: string, events: seq<Event>, now: int)
    ensures var s', landed := SqlAppend(s, member, events, now),
                              Admit(SourceIds(EventsIn(OfMember(s.table, member))), events);
      s' == SqlState(s.table + MakeRows(member, landed, s.nextId, now), s.nextId + |landed|)
    decreases |events|
  {
    hide *;
    var known := SourceIds(EventsIn(OfMember(s.table, member)));
    SqlAppendUnfolds(s, member, events, now);
    AdmitUnfolds(known, events);
    if events == [] {
      NothingMade(s, member, now);
    } else {
      var row, s1 := Row(s.nextId, member, events[0], now), SqlInsert(s, member, events[0], now);
      var rest := Admit(SourceIds(EventsIn(OfMember(s1.table, member))), events[1..]);
      var made := MakeRows(member, rest, s.nextId + 1, now);
      InsertIs(s, member, events[0], now);
      SqlAppendIs(s1, member, events[1..], now);
      ConflictIsKnown(s.table, member, events[0]);
      SqlInsertRows(s, member, events[0], now, member);
      MakeUnfolds(member, events[0], rest, s.nextId, now);
      assert known + {} == known;
      assert s.table + [row] + made == s.table + ([row] + made);
    }
  }

  // ------------------------------------------------------------------------- prune

  lemma {:induction false} KeptCounts(rows: seq<Row>, cutoff: int, r: Row)
    ensures multiset(KeptRows(rows, cutoff))[r] == if r.event.ts >= cutoff then multiset(rows)[r] else 0
  {
    FilterCounts(rows, (x: Row) => Kept(cutoff, x), r);
  }

  /** A prune takes from every member's rows those older than the cutoff, and hands no id back. */
  lemma {:induction false} PruneIs(mem: MemState, sql: SqlState, cutoff: int, m: string, r: Row)
    requires MemInv(mem)
    ensures multiset(Bucket(MemPrune(mem, cutoff), m))[r]
         == if r.event.ts >= cutoff then multiset(Bucket(mem, m))[r] else 0
    ensures multiset(SqlPrune(sql, cutoff).table)[r] == if r.event.ts >= cutoff then multiset(sql.table)[r] else 0
    ensures MemPrune(mem, cutoff).nextId == mem.nextId && SqlPrune(sql, cutoff).nextId == sql.nextId
  {
    MemPruneBucket(mem, cutoff, m);
    KeptCounts(Bucket(mem, m), cutoff, r);
    KeptCounts(sql.table, cutoff, r);
    hide KeptRows, MemInv, PruneBuckets, PruneIndex, Bucket;
  }

  // --------------------------------------------------------------------------- ids

  ghost predicate IdsRise(rows: seq<Row>) { forall i, j :: 0 <= i < j < |rows| ==> rows[i].id < rows[j].id }

  ghost predicate Below(s: MemState) { forall m, r :: r in Bucket(s, m) ==> r.id < s.nextId }

  ghost predicate Apart(s: MemState) {
    forall m, n, a, b :: m != n && a in Bucket(s, m) && b in Bucket(s, n) ==> a.id != b.id
  }

  /** Ids rise along every member's rows, no two members share one, and the next is past them all. */
  ghost predicate IdsOk(s: MemState) { (forall m :: IdsRise(Bucket(s, m))) && Below(s) && Apart(s) }

  lemma {:induction false} MadeIdsRise(member: string, events: seq<Event>, id: int, now: int)
    ensures var made := MakeRows(member, events, id, now);
      IdsRise(made) && forall r :: r in made ==> id <= r.id < id + |events|
  {
    var made := MakeRows(member, events, id, now);
    hide MakeRows;
    forall i | 0 <= i < |made| ensures made[i].id == id + i {
      MadeRowsAre(member, events, id, now, i);
    }
  }

  lemma {:induction false} AppendIds(s: MemState, member: string, events: seq<Event>, now: int)
    requires IdsOk(s)
    ensures IdsOk(MemAppend(s, member, events, now))
  {
    var s', landed := MemAppend(s, member, events, now), MemAdmitted(s, member, events);
    var made := MakeRows(member, landed, s.nextId, now);
    hide MemAppend, MakeRows, Bucket, MemAdmitted, Apart, IdsRise;
    MadeIdsRise(member, landed, s.nextId, now);
    MemAppendIs(s, member, events, now, member);
    forall m ensures Bucket(s', m) == Bucket(s, m) + if m == member then made else [] {
      MemAppendIs(s, member, events, now, m);
    }
    forall m ensures IdsRise(Bucket(s', m)) && forall r :: r in Bucket(s', m) ==> r.id < s'.nextId {
      assert Bucket(s, m) + [] == Bucket(s, m);
      IdsExtend(Bucket(s, m), made, s.nextId, s'.nextId);
    }
    ApartStay(s, s', member, made);
  }

  lemma {:induction false} ApartStay(s: MemState, s': MemState, member: string, made: seq<Row>)
    requires Below(s) && Apart(s) && forall r :: r in made ==> r.id >= s.nextId
    requires forall m :: Bucket(s', m) == Bucket(s, m) + if m == member then made else []
    ensures Apart(s')
  {
    hide Bucket;
    forall m, n, a, b | m != n && a in Bucket(s', m) && b in Bucket(s', n) ensures a.id != b.id {
      assert a in Bucket(s, m) || (m == member && a in made);
      assert b in Bucket(s, n) || (n == member && b in made);
    }
  }

  lemma {:induction false} IdsExtend(rows: seq<Row>, made: seq<Row>, id: int, next: int)
    requires IdsRise(rows) && IdsRise(made) && id <= next
    requires forall r :: r in rows ==> r.id < id
    requires forall r :: r in made ==> id <= r.id < next
    ensures IdsRise(rows + made) && forall r :: r in rows + made ==> r.id < next
  {
    assert forall i :: 0 <= i < |rows| ==> rows[i] in rows;
    assert forall i :: 0 <= i < |made| ==> made[i] in made;
  }

  lemma {:induction false} KeptIdsRise(rows: seq<Row>, cutoff: int)
    requires IdsRise(rows)
    ensures IdsRise(KeptRows(rows, cutoff)) && forall r :: r in KeptRows(rows, cutoff) ==> r in rows
  {
    if rows == [] {
    } else {
      assert IdsRise(rows[1..]);
      KeptIdsRise(rows[1..], cutoff);
      var rest := KeptRows(rows[1..], cutoff);
      forall j | 0 <= j < |rest| ensures rows[0].id < rest[j].id {
        assert rest[j] in rest;
        var k :| 0 <= k < |rows[1..]| && rows[1..][k] == rest[j];
        assert rows[k + 1] == rest[j];
      }
    }
  }

  lemma {:induction false} PruneIds(s: MemState, cutoff: int)
    requires MemInv(s) && IdsOk(s)
    ensures IdsOk(MemPrune(s, cutoff))
  {
    var s' := MemPrune(s, cutoff);
    hide MemInv, MemPrune, KeptRows, Bucket;
    forall m ensures IdsRise(Bucket(s', m)) && forall r :: r in Bucket(s', m) ==> r in Bucket(s, m) {
      MemPruneBucket(s, cutoff, m);
      KeptIdsRise(Bucket(s, m), cutoff);
    }
    SameNextId(s, cutoff);
  }

  lemma {:induction false} SameNextId(s: MemState, cutoff: int)
    ensures MemPrune(s, cutoff).nextId == s.nextId
  {
    hide PruneBuckets, PruneIndex;
  }

  /** Over any run no row's id was ever another's, pruned rows included: new ids are past all earlier ones. */
  lemma {:induction false} IdsNeverReused(s: MemState, ops: seq<Op>)
    requires MemInv(s) && IdsOk(s)
    ensures var s' := MemRun(s, ops).0; IdsOk(s') && s'.nextId >= s.nextId
    decreases |ops|
  {
    hide MemInv, IdsOk, MemAppend, MemPrune;
    if ops == [] {
    } else {
      match ops[0]
      case AppendOp(member, events, now) =>
        MemAppendInv(s, member, events, now);
        AppendIds(s, member, events, now);
        MemAppendIs(s, member, events, now, member);
        IdsNeverReused(MemAppend(s, member, events, now), ops[1..]);
      case PruneOp(cutoff) =>
        MemPruneInv(s, cutoff);
        PruneIds(s, cutoff);
        SameNextId(s, cutoff);
        IdsNeverReused(MemPrune(s, cutoff), ops[1..]);
    }
  }
}
