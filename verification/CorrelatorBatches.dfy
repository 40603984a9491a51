/**
 * Batch boundaries do not matter: an ordered stream whose timestamps all lie
 * within the TTL of the newest emits the same inferences and ends in the same
 * state however it is cut into batches.
 */
module CorrelatorBatches {
  import opened Prelude
  import opened OrderedMap
  import opened CorrelatorModel

  /** Nothing held is stale at any instant up to `newest`. */
  ghost predicate Fresh(c: Config, s: State, newest: int) {
    && |s.fifo| <= c.maxPending
    && s.newestTs <= newest
    && (forall u :: u in s.fifo ==> u.startedAt >= newest - c.ttlMs)
    && (forall e :: e in s.pending ==> IsFresh(e, newest - c.ttlMs))
  }

  ghost predicate Timely(c: Config, recs: seq<Rec>, newest: int) {
    forall r :: r in recs ==> newest - c.ttlMs <= r.ts <= newest
  }

  lemma {:induction false} SettleFresh(c: Config, s: State, key: PendingKey, p: Pending, cutoff: int)
    requires Max(p.startedAt, p.endedAt) >= cutoff
    requires forall e :: e in s.pending ==> IsFresh(e, cutoff)
    ensures forall e :: e in Settle(c, s, key, p).s.pending ==> IsFresh(e, cutoff)
  {
    PutIn(s.pending, key, p);
    DeleteIn(Put(s.pending, key, p), key);
  }

  lemma {:induction false} ClaimIn(fifo: seq<Unclaimed>, model: Option<string>)
    ensures forall u :: u in AfterClaim(fifo, model) ==> u in fifo
  {
  }

  lemma {:induction false} StepFresh(c: Config, s: State, r: Rec, newest: int)
    requires Fresh(c, s, newest) && newest - c.ttlMs <= r.ts <= newest
    ensures Fresh(c, Step(c, s, r).s, newest)
  {
    hide Settle, AfterClaim, Claimed;
    var cutoff := newest - c.ttlMs;
    var s1 := s.(newestTs := Max(r.ts, s.newestTs));
    match r
    case RequestBody(_, _, _, _, _) =>
    case Accounting(_, _, _, _, _, _) =>
      SettleFresh(c, Bridged(s1, r), AccountKey(s1, r), Accounted(s1, r), cutoff);
      SettleFifo(c, Bridged(s1, r), AccountKey(s1, r), Accounted(s1, r));
      ClaimIn(s.fifo, r.model);
      ClaimShrinks(s.fifo, r.model);
    case ResponseBody(_, _, _, _) =>
      var key := if r.requestId.Some? then RequestId(r.requestId.value) else RespKey(r.ts, s.synthSeq);
      var s2 := if r.requestId.Some? then s1 else s1.(synthSeq := s.synthSeq + 1);
      var p := PendingAt(s1, key).(response := Some(r.response), endedAt := r.ts);
      SettleFresh(c, s2, key, p, cutoff);
      SettleFifo(c, s2, key, p);
    case ApiError(_, _, _, _) =>
      ClaimIn(s.fifo, r.model);
      ClaimShrinks(s.fifo, r.model);
      if r.requestId.Some? {
        DeleteIn(s.pending, RequestId(r.requestId.value));
      }
  }

  lemma {:induction false} ClaimShrinks(fifo: seq<Unclaimed>, model: Option<string>)
    ensures |AfterClaim(fifo, model)| <= |fifo|
  {
  }

  lemma {:induction false} SettleFifo(c: Config, s: State, key: PendingKey, p: Pending)
    ensures Settle(c, s, key, p).s.fifo == s.fifo && Settle(c, s, key, p).s.newestTs == s.newestTs
  {
  }

  lemma {:induction false} StepsFresh(c: Config, s: State, recs: seq<Rec>, newest: int)
    requires Fresh(c, s, newest) && Timely(c, recs, newest)
    ensures Fresh(c, Steps(c, s, recs).s, newest)
  {
    hide Step, Fresh;
    if recs == [] {
    } else {
      var n := |recs| - 1;
      StepsFresh(c, s, recs[..n], newest);
      assert recs[n] in recs;
      StepFresh(c, Steps(c, s, recs[..n]).s, recs[n], newest);
    }
  }

  /** Evicting when nothing is stale does nothing at all. */
  lemma {:induction false} EvictFresh(c: Config, s: State, newest: int, nowMs: int)
    requires Fresh(c, s, newest) && nowMs <= newest
    ensures EvictStale(c, s, nowMs) == s
  {
    var cutoff := nowMs - c.ttlMs;
    FilterAll(s.pending, (e: Entry<PendingKey, Pending>) => IsFresh(e, cutoff));
    assert s.fifo != [] ==> s.fifo[0] in s.fifo;
  }

  /** An ordered, timely batch: sorting and evicting are both invisible. */
  lemma {:induction false} IngestTimely(c: Config, s: State, recs: seq<Rec>, newest: int)
    requires Fresh(c, s, newest) && Timely(c, recs, newest) && Sorted(recs, Before)
    ensures Ingest(c, s, recs).s == Steps(c, s, recs).s
    ensures multiset(Ingest(c, s, recs).out) == multiset(Steps(c, s, recs).out)
    ensures Fresh(c, Ingest(c, s, recs).s, newest)
  {
    SortSorted(recs, Before);
    StepsFresh(c, s, recs, newest);
    var t := Steps(c, s, recs);
    EvictFresh(c, t.s, newest, t.s.newestTs);
    SortPermutes(t.out, Earlier);
  }

  lemma {:induction false} IngestAllTimely(c: Config, s: State, batches: seq<seq<Rec>>, newest: int)
    requires Fresh(c, s, newest) && Timely(c, Flatten(batches), newest) && Sorted(Flatten(batches), Before)
    ensures IngestAll(c, s, batches).s == Steps(c, s, Flatten(batches)).s
    ensures multiset(IngestAll(c, s, batches).out) == multiset(Steps(c, s, Flatten(batches)).out)
    ensures Fresh(c, IngestAll(c, s, batches).s, newest)
  {
    hide Ingest, Steps, Fresh;
    if batches == [] {
      StepsNone(c, s);
    } else {
      var n := |batches| - 1;
      var init, last := Flatten(batches[..n]), batches[n];
      var all := Flatten(batches);
      assert all == init + last;
      assert Sorted(init, Before) by { assert forall i :: 0 <= i < |init| ==> init[i] == all[i]; }
      assert Sorted(last, Before) by { assert forall i :: 0 <= i < |last| ==> last[i] == all[|init| + i]; }
      IngestAllTimely(c, s, batches[..n], newest);
      var s1 := IngestAll(c, s, batches[..n]).s;
      IngestTimely(c, s1, last, newest);
      StepsAppend(c, s, init, last);
    }
  }

  lemma {:induction false} StepsNone(c: Config, s: State)
    ensures Steps(c, s, []) == Turn(s, [])
  {
  }

  /** The newest timestamp a run over `recs` from `s` ever sees. */
  function Newest(s: State, recs: seq<Rec>): (t: int)
    ensures t >= s.newestTs && forall r :: r in recs ==> r.ts <= t
  {
    if recs == [] then s.newestTs
    else
      var t := Newest(s, recs[..|recs| - 1]);
      assert forall r :: r in recs ==> r in recs[..|recs| - 1] || r == recs[|recs| - 1];
      Max(t, recs[|recs| - 1].ts)
  }

  /**
   * Batch-split invariance, from any state: if everything held and everything
   * in the ordered stream lies within `ttlMs` of the newest timestamp, any two
   * ways of cutting the stream emit the same inferences and end in the same
   * FIFO, pending map and counters.
   */
  lemma {:induction false} BatchSplitInvariant(c: Config, s: State, cut1: seq<seq<Rec>>, cut2: seq<seq<Rec>>)
    requires Flatten(cut1) == Flatten(cut2) && Sorted(Flatten(cut1), Before)
    requires var newest := Newest(s, Flatten(cut1));
      Fresh(c, s, newest) && forall r :: r in Flatten(cut1) ==> r.ts >= newest - c.ttlMs
    ensures IngestAll(c, s, cut1).s == IngestAll(c, s, cut2).s
    ensures multiset(IngestAll(c, s, cut1).out) == multiset(IngestAll(c, s, cut2).out)
  {
    hide Ingest, Steps, Fresh, Newest;
    var newest := Newest(s, Flatten(cut1));
    IngestAllTimely(c, s, cut1, newest);
    IngestAllTimely(c, s, cut2, newest);
  }

  // ------------------------------------------------------------- when nothing drops

  /** The records in the order ingest takes them: batch by batch, each batch sorted. */
  function Processed(batches: seq<seq<Rec>>): seq<Rec> {
    if batches == [] then [] else Processed(batches[..|batches| - 1]) + StableSort(batches[|batches| - 1], Before)
  }

  /** An ordered stream is processed in its own order, however it is cut into ordered batches. */
  lemma {:induction false} OrderedAsSent(batches: seq<seq<Rec>>)
    requires forall i :: 0 <= i < |batches| ==> Sorted(batches[i], Before)
    ensures Processed(batches) == Flatten(batches)
  {
    hide Before, StableSort, Sorted;
    if batches == [] {
    } else {
      OrderedAsSent(batches[..|batches| - 1]);
      SortSorted(batches[|batches| - 1], Before);
    }
  }

  lemma {:induction false} BeforeOrders()
    ensures Ordering(Before)
  {
  }

  /**
   * A batch is taken in the order of its event sequence numbers, records without one last;
   * where they agree, in time order; and where time agrees too, as it arrived.
   */
  lemma {:induction false} BatchOrder(recs: seq<Rec>, seqNo: SeqNo, ts: int)
    ensures var p := StableSort(recs, Before);
      && multiset(p) == multiset(recs)
      && (forall i, j :: 0 <= i < j < |p| ==>
            && (p[i].seqNo.Infinite? ==> p[j].seqNo.Infinite?)
            && (p[i].seqNo.Fin? && p[j].seqNo.Fin? ==> p[i].seqNo.n <= p[j].seqNo.n)
            && (p[i].seqNo == p[j].seqNo ==> p[i].ts <= p[j].ts))
      && Filter(p, (r: Rec) => r.seqNo == seqNo && r.ts == ts)
         == Filter(recs, (r: Rec) => r.seqNo == seqNo && r.ts == ts)
  {
    BeforeOrders();
    hide StableSort, Filter, Ordering;
    SortPermutes(recs, Before);
    SortSorts(recs, Before);
    SortStable(recs, Before, (r: Rec) => r.seqNo == seqNo && r.ts == ts);
  }

  /** Records numbered strictly upward. */
  ghost predicate Rising(recs: seq<Rec>) {
    forall i, j :: 0 <= i < j < |recs| ==>
      recs[i].seqNo.Fin? && recs[j].seqNo.Fin? && recs[i].seqNo.n < recs[j].seqNo.n
  }

  /** Numbered records are processed as they were sent, however each batch was shuffled on the way. */
  lemma {:induction false} ShuffledAsSent(sent: seq<seq<Rec>>, batches: seq<seq<Rec>>)
    requires |sent| == |batches|
    requires forall i :: 0 <= i < |sent| ==> Rising(sent[i]) && multiset(sent[i]) == multiset(batches[i])
    ensures Processed(batches) == Flatten(sent)
  {
    if sent == [] {
    } else {
      var n := |sent| - 1;
      ShuffledAsSent(sent[..n], batches[..n]);
      var p := StableSort(batches[n], Before);
      BeforeOrders();
      SortPermutes(batches[n], Before);
      SortSorts(batches[n], Before);
      assert Rising(sent[n]);
      hide StableSort, Ordering;
      SortedUnique(sent[n], p, Before);
    }
  }

  lemma {:induction false} StepReports(c: Config, s: State, r: Rec)
    ensures Step(c, s, r).s.dropped >= s.dropped
  {
  }

  lemma {:induction false} StepsReport(c: Config, s: State, recs: seq<Rec>)
    ensures Steps(c, s, recs).s.dropped >= s.dropped
  {
    hide Step;
    if recs == [] {
    } else {
      StepsReport(c, s, recs[..|recs| - 1]);
      StepReports(c, Steps(c, s, recs[..|recs| - 1]).s, recs[|recs| - 1]);
    }
  }

  /** An eviction shortens the two tables and counts by how much; one it does not shorten it leaves as it is. */
  lemma {:induction false} EvictParts(c: Config, s: State, nowMs: int)
    ensures var t := EvictStale(c, s, nowMs);
      && t == s.(fifo := t.fifo, pending := t.pending, dropped := t.dropped)
      && t.fifo == TrimFifo(DrainStale(s.fifo, nowMs - c.ttlMs), c.maxPending)
      && |t.fifo| <= |s.fifo| && |t.pending| <= |s.pending|
      && t.dropped == s.dropped + (|s.fifo| - |t.fifo|) + (|s.pending| - |t.pending|)
      && (|t.pending| == |s.pending| ==> t.pending == s.pending)
  {
    DrainStaleShrinks(s.fifo, nowMs - c.ttlMs);
    FilterWhole(s.pending, (e: Entry<PendingKey, Pending>) => IsFresh(e, nowMs - c.ttlMs));
    hide DrainStale, Filter, IsFresh;
  }

  lemma {:induction false} TrimWhole(fifo: seq<Unclaimed>, maxPending: nat)
    ensures |TrimFifo(fifo, maxPending)| <= |fifo|
    ensures |TrimFifo(fifo, maxPending)| == |fifo| ==> TrimFifo(fifo, maxPending) == fifo
  {
  }

  /** An eviction that reports nothing changes nothing. */
  lemma {:induction false} QuietEviction(c: Config, s: State, nowMs: int)
    requires EvictStale(c, s, nowMs).dropped == s.dropped
    ensures EvictStale(c, s, nowMs) == s
  {
    EvictParts(c, s, nowMs);
    TrimWhole(DrainStale(s.fifo, nowMs - c.ttlMs), c.maxPending);
    DrainStaleShrinks(s.fifo, nowMs - c.ttlMs);
    hide *;
  }

  lemma {:induction false} IngestKeeps(c: Config, s: State, recs: seq<Rec>)
    ensures Ingest(c, s, recs).s.dropped >= Steps(c, s, StableSort(recs, Before)).s.dropped
    ensures multiset(Ingest(c, s, recs).out) == multiset(Steps(c, s, StableSort(recs, Before)).out)
    ensures Ingest(c, s, recs).s.dropped == Steps(c, s, StableSort(recs, Before)).s.dropped ==>
      Ingest(c, s, recs).s == Steps(c, s, StableSort(recs, Before)).s
  {
    hide EvictStale, Steps, StableSort;
    var t := Steps(c, s, StableSort(recs, Before));
    EvictReports(c, t.s, t.s.newestTs);
    SortPermutes(t.out, Earlier);
    if EvictStale(c, t.s, t.s.newestTs).dropped == t.s.dropped {
      QuietEviction(c, t.s, t.s.newestTs);
    }
  }

  /** While no drop is reported, batching is invisible: the run is the record loop over the whole stream. */
  lemma {:induction false} IngestAllKeeps(c: Config, s: State, batches: seq<seq<Rec>>)
    ensures IngestAll(c, s, batches).s.dropped >= s.dropped
    ensures IngestAll(c, s, batches).s.dropped == s.dropped ==>
      && IngestAll(c, s, batches).s == Steps(c, s, Processed(batches)).s
      && multiset(IngestAll(c, s, batches).out) == multiset(Steps(c, s, Processed(batches)).out)
  {
    hide Ingest, Steps, StableSort;
    if batches == [] {
      StepsNone(c, s);
    } else {
      var n := |batches| - 1;
      var s1, last := IngestAll(c, s, batches[..n]).s, StableSort(batches[n], Before);
      IngestAllKeeps(c, s, batches[..n]);
      IngestKeeps(c, s1, batches[n]);
      StepsReport(c, s1, last);
      StepsAppend(c, s, Processed(batches[..n]), last);
    }
  }

  /**
   * Any two cuts of a stream that are processed in the same order and report no drop
   * emit the same inferences and end in the same state, from any state and over any
   * length of time.
   */
  lemma {:induction false} QuietCutsAgree(c: Config, s: State, cut1: seq<seq<Rec>>, cut2: seq<seq<Rec>>)
    requires Processed(cut1) == Processed(cut2)
    requires IngestAll(c, s, cut1).s.dropped == s.dropped && IngestAll(c, s, cut2).s.dropped == s.dropped
    ensures IngestAll(c, s, cut1).s == IngestAll(c, s, cut2).s
    ensures multiset(IngestAll(c, s, cut1).out) == multiset(IngestAll(c, s, cut2).out)
  {
    hide Ingest, Steps, IngestAll, Processed;
    IngestAllKeeps(c, s, cut1);
    IngestAllKeeps(c, s, cut2);
  }

  // Beyond the TTL, boundaries do matter: a body, a much later body of another
  // model, then the claim of the first.

  const NO_BODY := Body(None, None, None)
  function EarlyBody(): Rec { RequestBody(1, Fin(0), Some("m"), NO_BODY, None) }
  function LateBody(c: Config): Rec { RequestBody(c.ttlMs + 2, Fin(1), Some("n"), NO_BODY, None) }
  function EarlyClaim(c: Config): Rec { Accounting(c.ttlMs + 2, Fin(2), Some("m"), Some("id"), None, None) }
  function TwoBodies(c: Config): seq<Rec> { [EarlyBody(), LateBody(c)] }

  function BothWaiting(c: Config): State {
    EMPTY.(fifo := [Unclaimed(NO_BODY, None, 1, Some("m")), Unclaimed(NO_BODY, None, c.ttlMs + 2, Some("n"))],
           newestTs := c.ttlMs + 2)
  }

  lemma {:induction false} TwoBodiesWait(c: Config)
    requires c.ttlMs >= 0 && c.maxPending >= 2
    ensures Steps(c, EMPTY, TwoBodies(c)).s == BothWaiting(c)
    ensures Steps(c, EMPTY, TwoBodies(c) + [EarlyClaim(c)]).s == Step(c, BothWaiting(c), EarlyClaim(c)).s
    ensures Sorted(TwoBodies(c) + [EarlyClaim(c)], Before) && Sorted(TwoBodies(c), Before)
  {
    var s1 := EMPTY.(fifo := [Unclaimed(NO_BODY, None, 1, Some("m"))], newestTs := 1);
    StepsSnoc(c, EMPTY, [], EarlyBody());
    assert [] + [EarlyBody()] == [EarlyBody()];
    assert Step(c, EMPTY, EarlyBody()).s == s1;
    StepsSnoc(c, EMPTY, [EarlyBody()], LateBody(c));
    assert [EarlyBody()] + [LateBody(c)] == TwoBodies(c);
    assert Step(c, s1, LateBody(c)).s == BothWaiting(c);
    StepsSnoc(c, EMPTY, TwoBodies(c), EarlyClaim(c));
  }

  /** In one batch the claim finds its own body and nothing is dropped ... */
  lemma {:induction false} OneBatchKeeps(c: Config)
    requires c.ttlMs >= 0 && c.maxPending >= 2
    ensures IngestAll(c, EMPTY, [TwoBodies(c) + [EarlyClaim(c)]]).s.dropped == 0
  {
    var recs := TwoBodies(c) + [EarlyClaim(c)];
    TwoBodiesWait(c);
    IngestOne(c, EMPTY, recs);
    SortSorted(recs, Before);
    ClaimedStaysFresh(c, BothWaiting(c), EarlyClaim(c));
    EvictFresh(c, Step(c, BothWaiting(c), EarlyClaim(c)).s, c.ttlMs + 2, c.ttlMs + 2);
  }

  lemma {:induction false} EvictReports(c: Config, s: State, nowMs: int)
    ensures EvictStale(c, s, nowMs).dropped >= s.dropped
  {
    DrainStaleShrinks(s.fifo, nowMs - c.ttlMs);
  }

  /** ... cut before the claim, the first batch evicts the body and reports it. */
  lemma {:induction false} TwoBatchesDrop(c: Config)
    requires c.ttlMs >= 0 && c.maxPending >= 2
    ensures IngestAll(c, EMPTY, [TwoBodies(c), [EarlyClaim(c)]]).s.dropped >= 1
  {
    hide StableSort, Sorted, Before;
    TwoBodiesWait(c);
    SortSorted(TwoBodies(c), Before);
    IngestOne(c, EMPTY, TwoBodies(c));
    EvictDropsOne(c, BothWaiting(c), BothWaiting(c).fifo[0], BothWaiting(c).fifo[1]);
    var s3 := IngestAll(c, EMPTY, [TwoBodies(c)]).s;
    assert s3.dropped == 1;
    var cut := [TwoBodies(c), [EarlyClaim(c)]];
    assert cut[..1] == [TwoBodies(c)];
    var claim := StableSort([EarlyClaim(c)], Before);
    assert claim == [EarlyClaim(c)] by { SortOne(EarlyClaim(c)); }
    StepsSnoc(c, s3, [], EarlyClaim(c));
    assert [] + [EarlyClaim(c)] == [EarlyClaim(c)];
    assert Step(c, s3, EarlyClaim(c)).s.dropped == 1;
    EvictReports(c, Steps(c, s3, claim).s, Steps(c, s3, claim).s.newestTs);
  }

  lemma {:induction false} SortOne(r: Rec)
    ensures StableSort([r], Before) == [r]
  {
    SortSorted([r], Before);
  }

  lemma {:induction false} IngestOne(c: Config, s: State, recs: seq<Rec>)
    ensures IngestAll(c, s, [recs]).s == Ingest(c, s, recs).s
  {
    assert [recs][..0] == [];
    assert IngestAll(c, s, []) == Turn(s, []);
  }

  lemma {:induction false} EvictDropsOne(c: Config, s: State, u1: Unclaimed, u2: Unclaimed)
    requires s.fifo == [u1, u2] && s.pending == [] && c.maxPending >= 1
    requires u1.startedAt < s.newestTs - c.ttlMs <= u2.startedAt
    ensures EvictStale(c, s, s.newestTs) == s.(fifo := [u2], dropped := s.dropped + 1)
  {
    assert s.fifo[1..] == [u2];
    assert DrainStale(s.fifo, s.newestTs - c.ttlMs) == [u2];
  }

  lemma {:induction false} ClaimedStaysFresh(c: Config, s: State, claim: Rec)
    requires claim.Accounting? && claim.requestId.Some? && claim.ts == s.newestTs && c.ttlMs >= 0 && c.maxPending >= 1
    requires s.pending == [] && |s.fifo| == 2 && s.fifo[0].model == claim.model && claim.model.Some?
    requires s.fifo[1].startedAt == s.newestTs
    ensures Fresh(c, Step(c, s, claim).s, s.newestTs)
  {
    assert FindModel(s.fifo, claim.model.value) == 0;
    assert RemoveAt(s.fifo, 0) == [s.fifo[1]];
    PutIn(s.pending, RequestId(claim.requestId.value), Accounted(s, claim));
  }
}
