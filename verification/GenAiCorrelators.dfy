/**
 * The correlator object: a FIFO that is spliced and shifted, a pending map
 * mutated entry by entry, counters, and the record loop.  Each method is proved
 * against the function of `CorrelatorModel` it implements.
 */
module GenAiCorrelators {
  import opened Prelude
  import opened OrderedMap
  import opened CorrelatorModel

  class GenAiCorrelator {
    const c: Config
    var fifo: seq<Unclaimed>
    var pending: seq<Entry<PendingKey, Pending>>
    var newestTs: int
    var synthSeq: nat
    var dropped: nat
    var assignments: seq<Assigned>

    function Model(): State
      reads this
    {
      State(fifo, pending, newestTs, synthSeq, dropped, assignments)
    }

    constructor (c: Config)
      ensures this.c == c && Model() == EMPTY
    {
      this.c := c;
      fifo, pending, newestTs, synthSeq, dropped, assignments := [], [], 0, 0, 0, [];
    }

    method ClaimRequest(model: Option<string>) returns (r: Option<Unclaimed>)
      modifies this`fifo
      ensures r == Claimed(old(fifo), model)
      ensures fifo == AfterClaim(old(fifo), model)
    {
      if |fifo| == 0 { return None; }
      if model.Some? {
        var idx := FindModel(fifo, model.value);
        if idx != |fifo| {
          r := Some(fifo[idx]);
          fifo := RemoveAt(fifo, idx);
          return;
        }
      }
      r := Some(fifo[0]);
      fifo := RemoveAt(fifo, 0);
    }

    /** Emit the exchange under `key` if both bodies are in, taking it out of the map. */
    method TryEmit(key: PendingKey, p: Pending) returns (out: seq<Inference>)
      modifies this`pending
      ensures var t := Settle(c, old(Model()), key, p); Model() == t.s && out == t.out
    {
      pending := Put(pending, key, p);
      if p.request.None? || p.response.None? { return []; }
      pending := Delete(pending, key);
      if p.request.value.text.None? || p.response.value.text.None? { return []; }
      if !c.buildable(p.request.value.text.value, p.response.value.text.value) { return []; }
      out := [Inference(p.request.value, p.response.value, p.querySource, p.agentName,
                        Stamp(c, p.startedAt, p.endedAt))];
    }

    /** Shifts off waiting bodies for as long as the oldest is stale. */
    method DrainFifo(cutoff: int) returns (gaps: nat)
      modifies this`fifo
      ensures fifo == DrainStale(old(fifo), cutoff) && gaps == |old(fifo)| - |fifo|
    {
      gaps := 0;
      while |fifo| > 0 && fifo[0].startedAt < cutoff
        invariant DrainStale(fifo, cutoff) == DrainStale(old(fifo), cutoff)
        invariant gaps == |old(fifo)| - |fifo|
      {
        fifo := fifo[1..];
        gaps := gaps + 1;
      }
    }

    /** Shift the oldest entries out until the FIFO is within its cap. */
    method ShiftOverflow() returns (gaps: nat)
      modifies this`fifo
      ensures fifo == TrimFifo(old(fifo), c.maxPending) && gaps == |old(fifo)| - |fifo|
    {
      gaps := 0;
      while |fifo| > c.maxPending
        invariant |fifo| <= |old(fifo)| && fifo == old(fifo)[|old(fifo)| - |fifo|..]
        invariant |fifo| >= c.maxPending || fifo == old(fifo)
        invariant gaps == |old(fifo)| - |fifo|
      {
        fifo := fifo[1..];
        gaps := gaps + 1;
      }
    }

    /** Delete the pending exchanges whose last activity is stale. */
    method DropStalePending(cutoff: int) returns (gaps: nat)
      modifies this`pending
      ensures pending == Filter(old(pending), (e: Entry<PendingKey, Pending>) => IsFresh(e, cutoff))
      ensures gaps == |old(pending)| - |pending|
    {
      gaps := 0;
      var kept := [];
      var i := 0;
      while i < |pending|
        invariant 0 <= i <= |pending| && pending == old(pending)
        invariant kept == Filter(pending[..i], (e: Entry<PendingKey, Pending>) => IsFresh(e, cutoff))
        invariant gaps == i - |kept|
      {
        assert pending[..i + 1] == pending[..i] + [pending[i]];
        FilterAppend(pending[..i], [pending[i]], (e: Entry<PendingKey, Pending>) => IsFresh(e, cutoff));
        if IsFresh(pending[i], cutoff) {
          kept := kept + [pending[i]];
        } else {
          gaps := gaps + 1;
        }
        i := i + 1;
      }
      assert pending[..i] == pending;
      pending := kept;
    }

    method Evict(nowMs: int)
      modifies this
      ensures Model() == EvictStale(c, old(Model()), nowMs)
    {
      var cutoff := nowMs - c.ttlMs;
      hide Filter, DrainStale;
      var drained := DrainFifo(cutoff);
      var overflow := ShiftOverflow();
      var stale := DropStalePending(cutoff);
      dropped := dropped + drained + overflow + stale;
    }

    method TakeRequestBody(r: Rec)
      requires r.RequestBody?
      modifies this
      ensures Model() == TakeBody(c, old(Model()), r)
    {
      fifo := fifo + [Unclaimed(r.body, r.exchangeId, r.ts, r.model)];
      var gaps := ShiftOverflow();
      dropped := dropped + gaps;
    }

    method TakeAccounting(r: Rec) returns (out: seq<Inference>)
      requires r.Accounting?
      modifies this
      ensures var t := Account(c, old(Model()), r); Model() == t.s && out == t.out
    {
      var key: PendingKey;
      if r.requestId.Some? {
        key := RequestId(r.requestId.value);
      } else {
        key := AcctKey(r.ts, synthSeq);
        synthSeq := synthSeq + 1;
      }
      var claimed := ClaimRequest(r.model);
      var found := Get(pending, key);
      var p := if found.Some? then found.value else FRESH_PENDING;
      if claimed.Some? {
        p := p.(request := Some(claimed.value.body), startedAt := claimed.value.startedAt);
        if claimed.value.exchangeId.Some? && r.requestId.Some? {
          assignments := assignments
            + [Assigned(claimed.value.exchangeId.value, r.requestId.value, r.querySource, r.agentName)];
        }
      }
      p := p.(querySource := OrElse(p.querySource, r.querySource),
              agentName := OrElse(p.agentName, r.agentName), endedAt := r.ts);
      out := TryEmit(key, p);
    }

    method TakeResponse(r: Rec) returns (out: seq<Inference>)
      requires r.ResponseBody?
      modifies this
      ensures var t := Respond(c, old(Model()), r); Model() == t.s && out == t.out
    {
      var key: PendingKey;
      if r.requestId.Some? {
        key := RequestId(r.requestId.value);
      } else {
        key := RespKey(r.ts, synthSeq);
        synthSeq := synthSeq + 1;
      }
      var found := Get(pending, key);
      var p := if found.Some? then found.value else FRESH_PENDING;
      out := TryEmit(key, p.(response := Some(r.response), endedAt := r.ts));
    }

    method TakeError(r: Rec)
      requires r.ApiError?
      modifies this
      ensures Model() == Discard(old(Model()), r)
    {
      var _ := ClaimRequest(r.model);
      if r.requestId.Some? && r.requestId.value != "" {
        pending := Delete(pending, RequestId(r.requestId.value));
      }
    }

    method IngestRecords(records: seq<Rec>) returns (out: seq<Inference>)
      modifies this
      ensures var t := Ingest(c, old(Model()), records); Model() == t.s && out == t.out
    {
      hide Step, EvictStale, StableSort;
      var normalized := StableSort(records, Before);
      out := [];
      var i := 0;
      while i < |normalized|
        invariant 0 <= i <= |normalized|
        invariant Turn(Model(), out) == Steps(c, old(Model()), normalized[..i])
      {
        var rec := normalized[i];
        assert normalized[..i + 1] == normalized[..i] + [rec];
        StepsSnoc(c, old(Model()), normalized[..i], rec);
        var emitted := TakeRecord(rec);
        out := out + emitted;
        i := i + 1;
      }
      assert normalized[..i] == normalized;
      Evict(newestTs);
      out := StableSort(out, Earlier);
    }

    method TakeRecord(rec: Rec) returns (out: seq<Inference>)
      modifies this
      ensures var t := Step(c, old(Model()), rec); Model() == t.s && out == t.out
    {
      if rec.ts > newestTs { newestTs := rec.ts; }
      out := [];
      match rec
      case RequestBody(_, _, _, _, _) => TakeRequestBody(rec);
      case Accounting(_, _, _, _, _, _) => out := TakeAccounting(rec);
      case ResponseBody(_, _, _, _) => out := TakeResponse(rec);
      case ApiError(_, _, _, _) => TakeError(rec);
    }
  }
}
