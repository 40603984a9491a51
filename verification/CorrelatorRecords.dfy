/**
 * What each kind of record does, said field by field of the state it meets.  In every
 * reachable state a record without a request id meets no other: its synthetic key is new.
 */
module CorrelatorRecords {
  import opened Prelude
  import opened OrderedMap
  import opened CorrelatorModel
  import opened CorrelatorLinear

  // --------------------------------------------------------------- synthetic keys

  /** A synthetic key was numbered before the counter reached `n`. */
  predicate Numbered(k: PendingKey, n: nat) {
    match k
    case RequestId(_) => true
    case AcctKey(_, i) => i < n
    case RespKey(_, i) => i < n
  }

  ghost predicate KeysOk(s: State) {
    UniqueKeys(s.pending) && forall e :: e in s.pending ==> Numbered(e.key, s.synthSeq)
  }

  lemma {:induction false} SettleKeys(c: Config, s: State, key: PendingKey, p: Pending)
    requires KeysOk(s) && Numbered(key, s.synthSeq)
    ensures KeysOk(Settle(c, s, key, p).s)
  {
    var put := Put(s.pending, key, p);
    PutKeys(s.pending, key, p);
    assert forall e :: e in put ==> Numbered(e.key, s.synthSeq);
    DeleteKeys(put, key);
    hide Put, Delete, UniqueKeys;
  }

  lemma {:induction false} StepKeys(c: Config, s: State, r: Rec)
    requires KeysOk(s)
    ensures KeysOk(Step(c, s, r).s)
  {
    hide UniqueKeys, Settle, Accounted, AfterClaim, Claimed, Delete, Get, TrimFifo;
    var s1 := s.(newestTs := Max(r.ts, s.newestTs));
    match r
    case RequestBody(_, _, _, _, _) =>
    case Accounting(_, _, _, _, _, _) =>
      SettleKeys(c, Bridged(s1, r), AccountKey(s1, r), Accounted(s1, r));
    case ResponseBody(_, _, _, _) =>
      var s2 := if r.requestId.Some? then s1 else s1.(synthSeq := s.synthSeq + 1);
      SettleKeys(c, s2, RespondKey(s1, r), PendingAt(s2, RespondKey(s1, r)).(response := Some(r.response),
          endedAt := r.ts));
    case ApiError(_, _, _, _) =>
      if r.requestId.Some? {
        DeleteKeys(s.pending, RequestId(r.requestId.value));
      }
  }

  lemma {:induction false} StepsKeys(c: Config, s: State, recs: seq<Rec>)
    requires KeysOk(s)
    ensures KeysOk(Steps(c, s, recs).s)
  {
    hide Step, KeysOk;
    if recs == [] {
    } else {
      var n := |recs| - 1;
      StepsKeys(c, s, recs[..n]);
      StepKeys(c, Steps(c, s, recs[..n]).s, recs[n]);
    }
  }

  lemma {:induction false} EvictKeys(c: Config, s: State, nowMs: int)
    requires KeysOk(s)
    ensures KeysOk(EvictStale(c, s, nowMs))
  {
    hide UniqueKeys, Get;
    GetFilter(s.pending, (e: Entry<PendingKey, Pending>) => IsFresh(e, nowMs - c.ttlMs), RequestId(""));
  }

  lemma {:induction false} ReachableKeys(c: Config, ops: seq<Op>)
    ensures KeysOk(RunOps(c, EMPTY, ops).s)
  {
    if ops == [] {
    } else {
      var n := |ops| - 1;
      var s := RunOps(c, EMPTY, ops[..n]).s;
      ReachableKeys(c, ops[..n]);
      hide KeysOk, Steps, EvictStale, StableSort;
      match ops[n]
      case IngestOp(recs) =>
        StepsKeys(c, s, StableSort(recs, Before));
        EvictKeys(c, Steps(c, s, StableSort(recs, Before)).s, Steps(c, s, StableSort(recs, Before)).s.newestTs);
      case SweepOp(nowMs) => EvictKeys(c, s, nowMs);
    }
  }

  // ------------------------------------------------------------------- one record

  /** A body joins the end of the queue; past the cap the oldest go, each counted. */
  lemma {:induction false} BodyWaits(c: Config, s: State, r: Rec)
    requires r.RequestBody? && |s.fifo| <= c.maxPending
    ensures var t, waiting := Step(c, s, r), s.fifo + [Unclaimed(r.body, r.exchangeId, r.ts, r.model)];
      && t.out == []
      && t.s == s.(newestTs := t.s.newestTs, fifo := t.s.fifo, dropped := t.s.dropped)
      && (|s.fifo| < c.maxPending ==> t.s.fifo == waiting && t.s.dropped == s.dropped)
      && (|s.fifo| == c.maxPending ==> t.s.fifo == waiting[1..] && t.s.dropped == s.dropped + 1)
  {
  }

  /** A claim takes the oldest body of the record's model, or the oldest of all if none is. */
  lemma {:induction false} ClaimIs(fifo: seq<Unclaimed>, model: Option<string>) returns (i: nat)
    requires fifo != []
    ensures i < |fifo| && Claimed(fifo, model) == Some(fifo[i]) && AfterClaim(fifo, model) == fifo[..i] + fifo[i + 1..]
    ensures model.Some? && (exists j :: 0 <= j < |fifo| && fifo[j].model == model) ==>
      fifo[i].model == model && forall j :: 0 <= j < i ==> fifo[j].model != model
    ensures model.None? || (forall j :: 0 <= j < |fifo| ==> fifo[j].model != model) ==> i == 0
  {
    i := ClaimIndex(fifo, model);
    if model.Some? {
      FirstOfModel(fifo, model.value);
    }
  }

  lemma {:induction false} FirstOfModel(fifo: seq<Unclaimed>, model: string)
    ensures forall j :: 0 <= j < FindModel(fifo, model) ==> fifo[j].model != Some(model)
    ensures FindModel(fifo, model) < |fifo| ==> fifo[FindModel(fifo, model)].model == Some(model)
  {
    if fifo != [] && fifo[0].model != Some(model) {
      FirstOfModel(fifo[1..], model);
    }
  }

  /** `after` holds what `before` held, but for `key`, where it holds `p` if it holds anything. */
  ghost predicate Sets(before: seq<Entry<PendingKey, Pending>>, after: seq<Entry<PendingKey, Pending>>,
      key: PendingKey, p: Option<Pending>) {
    Get(after, key) == p && forall k :: k != key ==> Get(after, k) == Get(before, k)
  }

  lemma {:induction false} SettleSets(c: Config, s: State, key: PendingKey, p: Pending)
    requires UniqueKeys(s.pending)
    ensures var t, complete := Settle(c, s, key, p), p.request.Some? && p.response.Some?;
      && t.s == s.(pending := t.s.pending)
      && Sets(s.pending, t.s.pending, key, if complete then None else Some(p))
      && t.out == if complete then Built(c, p) else []
  {
    var put := Put(s.pending, key, p);
    PutKeys(s.pending, key, p);
    forall k ensures Get(put, k) == if k == key then Some(p) else Get(s.pending, k) {
      GetPut(s.pending, key, p, k);
    }
    forall k ensures Get(Delete(put, key), k) == if k == key then None else Get(put, k) {
      GetDelete(put, key, k);
    }
    hide Get, Put, Delete, UniqueKeys;
  }

  predicate Builds(c: Config, p: Pending) {
    && p.request.Some? && p.response.Some? && p.request.value.text.Some? && p.response.value.text.Some?
    && c.buildable(p.request.value.text.value, p.response.value.text.value)
  }

  /** `p` is settled under `key`: emitted and gone once it has both sides, and waiting there otherwise. */
  ghost predicate Settled(c: Config, before: State, t: Turn, key: PendingKey, p: Pending) {
    && Sets(before.pending, t.s.pending, key, if p.request.Some? && p.response.Some? then None else Some(p))
    && (!Builds(c, p) ==> t.out == [])
    && (Builds(c, p) ==>
          && |t.out| == 1
          && t.out[0].request == p.request.value && t.out[0].response == p.response.value
          && t.out[0].querySource == p.querySource && t.out[0].agentName == p.agentName
          && t.out[0].ts == if p.startedAt != 0 then p.startedAt else if p.endedAt != 0 then p.endedAt else c.clock)
  }

  /** What was waiting under `key`, or a blank exchange. */
  function Waits(s: State, key: PendingKey): Pending {
    if Get(s.pending, key).Some? then Get(s.pending, key).value else Pending(None, None, 0, 0, None, None)
  }

  lemma {:induction false} NothingClaimed(fifo: seq<Unclaimed>, model: Option<string>)
    ensures fifo == [] ==> Claimed(fifo, model) == None && AfterClaim(fifo, model) == []
  {
  }

  /**
   * An accounting record adds the body it claims, if any waits, to the exchange of its
   * request id; the first source and agent named there stay.  Without an id it begins an
   * exchange of its own, which nothing reached before or will reach again.
   */
  lemma {:induction false} AccountingJoins(c: Config, s: State, r: Rec) returns (i: nat, key: PendingKey, p: Pending)
    requires r.Accounting? && KeysOk(s)
    ensures r.requestId.Some? ==> key == RequestId(r.requestId.value) && Step(c, s, r).s.synthSeq == s.synthSeq
    ensures r.requestId.None? ==>
      !key.RequestId? && Get(s.pending, key) == None && !Numbered(key, s.synthSeq)
      && Numbered(key, Step(c, s, r).s.synthSeq)
    ensures Settled(c, s, Step(c, s, r), key, p)
    ensures p.response == Waits(s, key).response && p.endedAt == r.ts
    ensures p.querySource == (if Waits(s, key).querySource.Some? then Waits(s, key).querySource else r.querySource)
    ensures p.agentName == (if Waits(s, key).agentName.Some? then Waits(s, key).agentName else r.agentName)
    ensures s.fifo == [] ==>
      && p.request == Waits(s, key).request && p.startedAt == Waits(s, key).startedAt
      && Step(c, s, r).s.fifo == [] && Step(c, s, r).s.assignments == s.assignments
    ensures s.fifo != [] ==>
      && i < |s.fifo| && Claimed(s.fifo, r.model) == Some(s.fifo[i])
      && p.request == Some(s.fifo[i].body) && p.startedAt == s.fifo[i].startedAt
      && Step(c, s, r).s.fifo == s.fifo[..i] + s.fifo[i + 1..]
      && Step(c, s, r).s.assignments
         == s.assignments
          + if r.requestId.Some? && s.fifo[i].exchangeId.Some?
            then [Assigned(s.fifo[i].exchangeId.value, r.requestId.value, r.querySource, r.agentName)] else []
  {
    hide Get, UniqueKeys, Settle, AfterClaim, Claimed;
    i := 0;
    var s1 := s.(newestTs := Max(r.ts, s.newestTs));
    if s.fifo != [] {
      i := ClaimIs(s.fifo, r.model);
    }
    NothingClaimed(s.fifo, r.model);
    key := AccountKey(s1, r);
    p := Accounted(s1, r);
    GetIn(s.pending, key);
    SettleSets(c, Bridged(s1, r), key, p);
    assert Step(c, s, r) == Settle(c, Bridged(s1, r), key, p);
    hide Step;
  }

  /** A response joins the exchange of its request id, or, without an id, one that nothing else reaches. */
  lemma {:induction false} ResponseJoins(c: Config, s: State, r: Rec) returns (key: PendingKey, p: Pending)
    requires r.ResponseBody? && KeysOk(s)
    ensures r.requestId.Some? ==> key == RequestId(r.requestId.value) && Step(c, s, r).s.synthSeq == s.synthSeq
    ensures r.requestId.None? ==>
      !key.RequestId? && Get(s.pending, key) == None && !Numbered(key, s.synthSeq)
      && Numbered(key, Step(c, s, r).s.synthSeq)
    ensures Settled(c, s, Step(c, s, r), key, p)
    ensures p == Waits(s, key).(response := Some(r.response), endedAt := r.ts)
    ensures Step(c, s, r).s.fifo == s.fifo && Step(c, s, r).s.assignments == s.assignments
  {
    var s1 := s.(newestTs := Max(r.ts, s.newestTs));
    var s2 := if r.requestId.Some? then s1 else s1.(synthSeq := s.synthSeq + 1);
    key := RespondKey(s1, r);
    p := PendingAt(s2, key).(response := Some(r.response), endedAt := r.ts);
    GetIn(s.pending, key);
    SettleSets(c, s2, key, p);
    assert Step(c, s, r) == Settle(c, s2, key, p);
    hide Get, UniqueKeys, Settle;
  }

  /** An error record takes one waiting body, as a claim would, and whatever waits under its own request id. */
  lemma {:induction false} ErrorDrops(c: Config, s: State, r: Rec) returns (i: nat)
    requires r.ApiError? && KeysOk(s)
    ensures var t := Step(c, s, r);
      t.out == [] && t.s == s.(newestTs := Max(r.ts, s.newestTs), fifo := t.s.fifo, pending := t.s.pending)
    ensures s.fifo == [] ==> Step(c, s, r).s.fifo == []
    ensures s.fifo != [] ==>
      && i < |s.fifo| && Claimed(s.fifo, r.model) == Some(s.fifo[i])
      && Step(c, s, r).s.fifo == s.fifo[..i] + s.fifo[i + 1..]
    ensures r.requestId.None? || r.requestId.value == "" ==> Step(c, s, r).s.pending == s.pending
    ensures r.requestId.Some? && r.requestId.value != "" ==>
      Sets(s.pending, Step(c, s, r).s.pending, RequestId(r.requestId.value), None)
  {
    hide Get, UniqueKeys, Delete, Claimed, AfterClaim;
    i := 0;
    if s.fifo != [] {
      i := ClaimIs(s.fifo, r.model);
    }
    NothingClaimed(s.fifo, r.model);
    if r.requestId.Some? {
      var key := RequestId(r.requestId.value);
      forall k ensures Get(Delete(s.pending, key), k) == if k == key then None else Get(s.pending, k) {
        GetDelete(s.pending, key, k);
      }
    }
  }
}
