/** The in-memory activity store, updated in place, against its specification. */
module InMemoryActivityStores {
  import opened Prelude
  import opened OrderedMap
  import opened Paging
  import opened ActivityStores

  datatype ActivityFilter = ActivityFilter(
    member: string,
    from: Option<int>,
    to: Option<int>,
    before: Option<Cursor>,
    kinds: set<string>,
    limit: Option<real>)

  predicate InWindow(f: ActivityFilter, r: Row) {
    && (f.from.Some? ==> r.event.ts >= f.from.value)
    && (f.to.Some? ==> r.event.ts <= f.to.value)
    && (f.kinds != {} ==> r.event.kind in f.kinds)
  }

  predicate Matches(f: ActivityFilter, r: Row) {
    InWindow(f, r) && (f.before.Some? ==> Past(NewestFirst, f.before.value, Place(r)))
  }

  function Place(r: Row): Cursor { Cursor(r.event.ts, r.id) }

  /** Matching rows of a bucket, last appended first. */
  function Backwards(f: ActivityFilter, bucket: seq<Row>): seq<Row> {
    LastFirst(bucket, (r: Row) => Matches(f, r))
  }

  class InMemoryActivityStore {
    var rowsByMember: Buckets
    var sourceIdsByMember: Index
    var nextId: int
    const maxLimit: nat

    function State(): MemState
      reads this
    {
      MemState(rowsByMember, sourceIdsByMember, nextId)
    }

    constructor (maxLimit: nat := 1000)
      ensures State() == MEM_EMPTY && this.maxLimit == maxLimit
    {
      rowsByMember, sourceIdsByMember, nextId := [], [], 1;
      this.maxLimit := maxLimit;
    }

    /** Returns the rows that landed; a suppressed duplicate takes no id. */
    method Append(member: string, events: seq<Event>, now: int) returns (rows: seq<Row>)
      modifies this
      ensures State() == MemAppend(old(State()), member, events, now)
      ensures rows == MakeRows(member, MemAdmitted(old(State()), member, events), old(nextId), now)
    {
      hide Get, Put, Admit, SourceIds, MakeRows;
      if |events| == 0 {
        NothingToMint(member, KnownIds(State().ids, member), nextId, now);
        return [];
      }
      ghost var before := State();
      var found := Get(sourceIdsByMember, member);
      var known := if found.Some? then found.value else {};
      if found.None? {
        sourceIdsByMember := Put(sourceIdsByMember, member, known);
      }
      PutPut(before.ids, member, known, known);
      PutSame(before.ids, member);
      assert sourceIdsByMember == Put(before.ids, member, known);
      var admitted, batch := ScanBatch(known, events);
      if |admitted| == 0 {
        NothingToMint(member, known, nextId, now);
        NoIds();
        assert known + SourceIds(admitted) == known;
        return [];
      }
      rows := [];
      assert admitted[0..] == admitted;
      for j := 0 to |admitted|
        invariant rowsByMember == before.rows && sourceIdsByMember == Put(before.ids, member, known)
        invariant nextId == before.nextId + j
        invariant rows + MakeRows(member, admitted[j..], nextId, now)
               == MakeRows(member, admitted, before.nextId, now)
      {
        MintOne(member, admitted, j, nextId, now);
        rows := rows + [Row(nextId, member, admitted[j], now)];
        nextId := nextId + 1;
      }
      NothingToMint(member, known, nextId, now);
      assert admitted[|admitted|..] == [];
      var bucket := Get(rowsByMember, member);
      rowsByMember := Put(rowsByMember, member, (if bucket.Some? then bucket.value else []) + rows);
      PutPut(before.ids, member, known, known + batch);
      sourceIdsByMember := Put(sourceIdsByMember, member, known + batch);
      assert KnownIds(before.ids, member) == known && admitted == MemAdmitted(before, member, events);
      assert rows == MakeRows(member, admitted, before.nextId, now);
      assert rowsByMember == Put(before.rows, member, Bucket(before, member) + rows);
      assert sourceIdsByMember == Put(before.ids, member, known + SourceIds(admitted));
      assert nextId == before.nextId + |admitted|;
    }

    /** The dedup scan, before any id is minted: a batch naming a source twice keeps the first. */
    static method ScanBatch(known: set<string>, events: seq<Event>) returns (admitted: seq<Event>, batch: set<string>)
      ensures admitted == Admit(known, events) && batch == SourceIds(admitted)
    {
      hide *;
      admitted, batch := [], {};
      ScanNone(known);
      assert known + {} == known && events[0..] == events;
      for i := 0 to |events|
        invariant admitted + Admit(known + batch, events[i..]) == Admit(known, events)
        invariant batch == SourceIds(admitted)
      {
        var e := events[i];
        ScanOne(known, batch, events, i);
        if e.sourceId.Some? {
          if e.sourceId.value in known || e.sourceId.value in batch { continue; }
          batch := batch + {e.sourceId.value};
        }
        IdsAppend(admitted, [e]);
        OneId(e);
        Reassociate(admitted, e, Admit(known + batch, events[i + 1..]));
        admitted := admitted + [e];
      }
      ScanNone(known + batch);
      assert events[|events|..] == [];
    }

    /** Newest appended first, stopping once the limit is reached. */
    method List(f: ActivityFilter) returns (matches: seq<Row>)
      ensures matches == Take(Backwards(f, Bucket(State(), f.member)), PageSize(f.limit, maxLimit))
    {
      var found := Get(rowsByMember, f.member);
      var bucket := if found.Some? then found.value else [];
      var limit := ClampListLimit(f.limit, maxLimit, None);
      if |bucket| == 0 {
        NothingLastFirst((r: Row) => Matches(f, r));
        return [];
      }
      matches := WalkBack(bucket, (r: Row) => Matches(f, r), limit);
    }

    /** Drops rows older than the cutoff and releases their source ids. */
    method Prune(cutoff: int) returns (deleted: nat)
      requires UniqueKeys(rowsByMember)
      modifies this
      ensures State() == MemPrune(old(State()), cutoff)
      ensures deleted == TotalRows(old(rowsByMember)) - TotalRows(rowsByMember)
    {
      hide KeptRows, PrunedRows, SourceIds, EventsIn, PruneBuckets, PruneIndex, TotalRows, UniqueKeys, Get, Put, Delete;
      deleted := 0;
      var bs := rowsByMember;
      ghost var done: Buckets := [];
      for i := 0 to |bs|
        invariant rowsByMember == done + bs[i..] && nextId == old(nextId)
        invariant done + PruneBuckets(bs[i..], cutoff) == PruneBuckets(bs, cutoff)
        invariant PruneIndex(sourceIdsByMember, bs[i..], cutoff) == PruneIndex(old(sourceIdsByMember), bs, cutoff)
        invariant deleted + TotalRows(bs[i..]) - TotalRows(PruneBuckets(bs[i..], cutoff))
               == TotalRows(bs) - TotalRows(PruneBuckets(bs, cutoff))
        invariant forall e :: e in done ==> exists j :: 0 <= j < i && bs[j].key == e.key
      {
        var member, bucket := bs[i].key, bs[i].value;
        var known := Get(sourceIdsByMember, member);
        var kept, known', gone := PruneBucket(bucket, known, cutoff);
        deleted := deleted + gone;
        PruneOne(sourceIdsByMember, bs, i, cutoff);
        KeysApart(bs, i);
        assert forall e :: e in done ==> e.key != member;
        ReplaceAt(done, member, bucket, kept, bs[i + 1..]);
        ReassociateAll(done, bs[i + 1..], Entry(member, kept), PruneBuckets(bs[i + 1..], cutoff));
        if |kept| == 0 {
          rowsByMember := Delete(rowsByMember, member);
          sourceIdsByMember := Delete(sourceIdsByMember, member);
        } else {
          if |kept| != |bucket| {
            rowsByMember := Put(rowsByMember, member, kept);
          } else {
            KeptAll(bucket, cutoff);
          }
          // The set is shared by reference with the index; written back once.
          if known'.Some? {
            sourceIdsByMember := Put(sourceIdsByMember, member, known'.value);
          }
          done := done + [Entry(member, kept)];
        }
      }
      PruneNone(sourceIdsByMember, cutoff);
      assert bs[|bs|..] == [];
    }

    static method PruneBucket(bucket: seq<Row>, known: Option<set<string>>, cutoff: int)
      returns (kept: seq<Row>, known': Option<set<string>>, deleted: nat)
      ensures kept == KeptRows(bucket, cutoff) && deleted == |bucket| - |kept|
      ensures known' == Released(known, bucket, cutoff)
    {
      hide *;
      kept, known', deleted := [], known, 0;
      assert bucket[0..] == bucket;
      for j := 0 to |bucket|
        invariant kept + KeptRows(bucket[j..], cutoff) == KeptRows(bucket, cutoff)
        invariant deleted == j - |kept|
        invariant Released(known', bucket[j..], cutoff) == Released(known, bucket, cutoff)
      {
        var row := bucket[j];
        PruneRow(known', bucket, j, cutoff);
        if row.event.ts < cutoff {
          deleted := deleted + 1;
          if row.event.sourceId.Some? && known'.Some? {
            known' := Some(known'.value - {row.event.sourceId.value});
          }
        } else {
          Reassociate(kept, row, KeptRows(bucket[j + 1..], cutoff));
          kept := kept + [row];
        }
      }
      PruneNoRow(known', cutoff);
      assert bucket[|bucket|..] == [];
    }
  }

  /** How many rows a call may return: a limit of 0 still lets the first match through. */
  function PageSize(limit: Option<real>, maxLimit: nat): (n: nat) {
    Max(1, ClampListLimit(limit, maxLimit, None))
  }

  /** A usable limit is rounded down and capped, a fraction means one row, and any other half the cap. */
  lemma {:induction false} PageSizeIs(limit: Option<real>, maxLimit: nat)
    requires maxLimit >= 2
    ensures var n := PageSize(limit, maxLimit);
      && (limit.None? || limit.value <= 0.0 ==> maxLimit - 1 <= 2 * n <= maxLimit)
      && (limit.Some? && 0.0 < limit.value < 1.0 ==> n == 1)
      && (limit.Some? && 1.0 <= limit.value < maxLimit as real ==> n as real <= limit.value < n as real + 1.0)
      && (limit.Some? && limit.value >= maxLimit as real ==> n == maxLimit)
  {
    LimitIs(limit, maxLimit, None);
  }

  lemma {:induction false} ScanNone(known: set<string>)
    ensures Admit(known, []) == [] && SourceIds([]) == {}
  {
  }

  lemma {:induction false} ScanOne(known: set<string>, batch: set<string>, events: seq<Event>, i: nat)
    requires i < |events|
    ensures var e, rest := events[i], events[i + 1..];
      && (e.sourceId.None? ==>
            IdOf(e) == {} && Admit(known + batch, events[i..]) == [e] + Admit(known + batch, rest))
      && (e.sourceId.Some? && e.sourceId.value !in known && e.sourceId.value !in batch ==>
            IdOf(e) == {e.sourceId.value}
            && Admit(known + batch, events[i..]) == [e] + Admit(known + (batch + {e.sourceId.value}), rest))
      && (e.sourceId.Some? && (e.sourceId.value in known || e.sourceId.value in batch) ==>
            Admit(known + batch, events[i..]) == Admit(known + batch, rest))
  {
    var e := events[i];
    assert events[i..][1..] == events[i + 1..];
    assert known + batch + {} == known + batch;
    if e.sourceId.Some? {
      assert known + (batch + {e.sourceId.value}) == known + batch + {e.sourceId.value};
    }
  }

  lemma {:induction false} NothingToMint(member: string, known: set<string>, id: int, now: int)
    ensures MakeRows(member, [], id, now) == [] && Admit(known, []) == []
  {
  }

  lemma {:induction false} MintOne(member: string, events: seq<Event>, j: nat, id: int, now: int)
    requires j < |events|
    ensures MakeRows(member, events[j..], id, now)
         == [Row(id, member, events[j], now)] + MakeRows(member, events[j + 1..], id + 1, now)
  {
    assert events[j..][1..] == events[j + 1..];
  }

  /** A member's known ids once its pruned rows have given theirs back. */
  function Released(known: Option<set<string>>, bucket: seq<Row>, cutoff: int): Option<set<string>> {
    if known.None? then None else Some(known.value - SourceIds(EventsIn(PrunedRows(bucket, cutoff))))
  }

  lemma {:induction false} PruneNoRow(known: Option<set<string>>, cutoff: int)
    ensures KeptRows([], cutoff) == [] && Released(known, [], cutoff) == known
  {
    NoIds();
    assert EventsIn(PrunedRows([], cutoff)) == [];
    assert known.Some? ==> known.value - {} == known.value;
  }

  lemma {:induction false} PruneRow(known: Option<set<string>>, bucket: seq<Row>, j: nat, cutoff: int)
    requires j < |bucket|
    ensures var row, rest := bucket[j], bucket[j + 1..];
      && KeptRows(bucket[j..], cutoff) == (if row.event.ts < cutoff then [] else [row]) + KeptRows(rest, cutoff)
      && (row.event.ts < cutoff && row.event.sourceId.Some? && known.Some? ==>
            Released(known, bucket[j..], cutoff) == Released(Some(known.value - {row.event.sourceId.value}), rest,
                cutoff))
      && (!(row.event.ts < cutoff && row.event.sourceId.Some? && known.Some?) ==>
            Released(known, bucket[j..], cutoff) == Released(known, rest, cutoff))
  {
    var row, rest := bucket[j], bucket[j + 1..];
    assert bucket[j..][1..] == rest;
    ConsEvents(row, PrunedRows(rest, cutoff));
    assert KeptRows(bucket[j..], cutoff) == (if row.event.ts < cutoff then [] else [row]) + KeptRows(rest, cutoff);
    assert PrunedRows(bucket[j..], cutoff) == (if row.event.ts < cutoff then [row] else []) + PrunedRows(rest, cutoff);
    assert [] + PrunedRows(rest, cutoff) == PrunedRows(rest, cutoff);
    var later := SourceIds(EventsIn(PrunedRows(rest, cutoff)));
    hide KeptRows, PrunedRows, SourceIds, EventsIn;
    if known.Some? {
      assert known.value - (IdOf(row.event) + later) == known.value - IdOf(row.event) - later;
      assert known.value - {} == known.value;
    }
  }

  lemma {:induction false} PruneNone(ids: Index, cutoff: int)
    ensures PruneBuckets([], cutoff) == [] && PruneIndex(ids, [], cutoff) == ids && TotalRows([]) == 0
  {
  }

  /** One turn of the prune loop. */
  lemma {:induction false} PruneOne(ids: Index, bs: Buckets, i: nat, cutoff: int)
    requires i < |bs|
    ensures bs[i..] == [bs[i]] + bs[i + 1..]
    ensures var member, kept := bs[i].key, KeptRows(bs[i].value, cutoff);
      var released := SourceIds(EventsIn(PrunedRows(bs[i].value, cutoff)));
      && TotalRows(bs[i..]) == |bs[i].value| + TotalRows(bs[i + 1..])
      && PruneBuckets(bs[i..], cutoff)
         == (if kept == [] then [] else [Entry(member, kept)]) + PruneBuckets(bs[i + 1..], cutoff)
      && TotalRows(PruneBuckets(bs[i..], cutoff)) == |kept| + TotalRows(PruneBuckets(bs[i + 1..], cutoff))
      && PruneIndex(ids, bs[i..], cutoff)
         == PruneIndex(if kept == [] then Delete(ids, member)
                       else if Get(ids, member).Some? then Put(ids, member, Get(ids, member).value - released)
                       else ids, bs[i + 1..], cutoff)
  {
    assert bs[i..][1..] == bs[i + 1..];
    var kept, rest := KeptRows(bs[i].value, cutoff), PruneBuckets(bs[i + 1..], cutoff);
    assert ([Entry(bs[i].key, kept)] + rest)[1..] == rest && [] + rest == rest;
    hide KeptRows, PrunedRows, SourceIds, EventsIn, Get, Put, Delete;
  }

  lemma {:induction false} KeptAll(rows: seq<Row>, cutoff: int)
    requires |KeptRows(rows, cutoff)| == |rows|
    ensures KeptRows(rows, cutoff) == rows
  {
    FilterWhole(rows, (r: Row) => Kept(cutoff, r));
  }

  // -------------------------------------------------------------- what a list holds

  /** `a` was later than `b`: by time, and by id where the times are equal. */
  predicate Later(a: Row, b: Row) { a.event.ts > b.event.ts || (a.event.ts == b.event.ts && a.id > b.id) }

  /** A filter asks for a row: of its member, within its times, of its kinds if it names any, and before its cursor. */
  predicate Asks(f: ActivityFilter, r: Row) {
    && (f.from.None? || f.from.value <= r.event.ts) && (f.to.None? || r.event.ts <= f.to.value)
    && (f.kinds == {} || r.event.kind in f.kinds)
    && (f.before.Some? ==>
          r.event.ts < f.before.value.ts || (r.event.ts == f.before.value.ts && r.id < f.before.value.id))
  }

  lemma {:induction false} AsksIs(f: ActivityFilter, r: Row)
    ensures Matches(f, r) == Asks(f, r)
  {
  }

  /**
   * A list returns the rows its filter asks for, last appended first, each once, up to its
   * size: `at` says where they stood, and any row passed over stood before all of them.
   */
  lemma {:induction false} ListIs(f: ActivityFilter, bucket: seq<Row>, n: nat) returns (at: seq<nat>)
    ensures var out := Take(Backwards(f, bucket), n);
      && |out| == |at| <= n
      && (forall i :: 0 <= i < |at| ==> at[i] < |bucket| && out[i] == bucket[at[i]] && Asks(f, out[i]))
      && (forall i, j :: 0 <= i < j < |at| ==> at[i] > at[j])
      && (forall k :: 0 <= k < |bucket| && Asks(f, bucket[k]) && k !in at ==>
            |at| == n && forall i :: 0 <= i < |at| ==> at[i] > k)
  {
    var all := WalkPlaces(bucket, (r: Row) => Matches(f, r));
    at := Take(all, n);
    forall r ensures Matches(f, r) == Asks(f, r) {
      AsksIs(f, r);
    }
    hide Matches, Asks, LastFirst;
    forall k | 0 <= k < |bucket| && Asks(f, bucket[k]) && k !in at
      ensures |at| == n && forall i :: 0 <= i < |at| ==> at[i] > k {
      var j := TakeMisses(all, n, k);
    }
  }
}
