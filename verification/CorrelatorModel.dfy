/**
 * The GenAI correlator: request bodies carry no id, so they wait in one FIFO
 * until an accounting record of their model claims the oldest and keys it by
 * request id, where the response joins it.
 *
 * A record carries what capturing its body produced; parsing and mapping a pair
 * of texts is the abstract predicate `buildable`; the raw store is the log of
 * request ids assigned to captured exchanges.
 */
module CorrelatorModel {
  import opened Prelude
  import opened OrderedMap

  type Text = string

  datatype Config = Config(
    ttlMs: int,
    maxPending: nat,
    /** `now()`, the timestamp of last resort. */
    clock: int,
    buildable: (Text, Text) -> bool)

  /** What is kept of a captured request body. */
  datatype Body = Body(text: Option<Text>, bodyRef: Option<string>, hash: Option<string>)
  datatype Response = Response(text: Option<Text>, hash: Option<string>)

  datatype Unclaimed = Unclaimed(body: Body, exchangeId: Option<nat>, startedAt: int, model: Option<string>)

  datatype Pending = Pending(
    request: Option<Body>, response: Option<Response>,
    startedAt: int, endedAt: int,
    querySource: Option<string>, agentName: Option<string>)

  const FRESH_PENDING := Pending(None, None, 0, 0, None, None)

  /** `request_id`, or the synthetic key of a record without one. */
  datatype PendingKey = RequestId(id: string) | AcctKey(ts: int, n: nat) | RespKey(ts: int, n: nat)

  /** `event.sequence`; +Infinity when absent. */
  datatype SeqNo = Fin(n: int) | Infinite

  datatype Rec =
    | RequestBody(ts: int, seqNo: SeqNo, model: Option<string>, body: Body, exchangeId: Option<nat>)
    | Accounting(ts: int, seqNo: SeqNo, model: Option<string>, requestId: Option<string>,
                 querySource: Option<string>, agentName: Option<string>)
    | ResponseBody(ts: int, seqNo: SeqNo, requestId: Option<string>, response: Response)
    | ApiError(ts: int, seqNo: SeqNo, model: Option<string>, requestId: Option<string>)

  datatype Inference = Inference(
    request: Body, response: Response, querySource: Option<string>, agentName: Option<string>, ts: int)

  /** What the raw store is told of a captured exchange once its request id is known. */
  datatype Assigned = Assigned(
    exchangeId: nat, requestId: string, querySource: Option<string>, agentName: Option<string>)

  datatype State = State(
    fifo: seq<Unclaimed>,
    pending: seq<Entry<PendingKey, Pending>>,
    newestTs: int,
    synthSeq: nat,
    dropped: nat,
    assignments: seq<Assigned>)

  const EMPTY := State([], [], 0, 0, 0, [])

  datatype Turn = Turn(s: State, out: seq<Inference>)

  // --------------------------------------------------------------- the helpers

  predicate HasModel(u: Unclaimed, model: string) { u.model == Some(model) }

  /** `findIndex`; the length when nothing matches. */
  function FindModel(fifo: seq<Unclaimed>, model: string): (i: nat)
    ensures i <= |fifo|
  {
    if fifo == [] then 0 else if HasModel(fifo[0], model) then 0 else 1 + FindModel(fifo[1..], model)
  }

  /** Index of the body a claim takes: oldest of the model, else oldest of all. */
  function ClaimIndex(fifo: seq<Unclaimed>, model: Option<string>): (i: nat)
    requires fifo != []
    ensures i < |fifo|
  {
    if model.Some? && FindModel(fifo, model.value) < |fifo| then FindModel(fifo, model.value) else 0
  }

  function Claimed(fifo: seq<Unclaimed>, model: Option<string>): Option<Unclaimed> {
    if fifo == [] then None else Some(fifo[ClaimIndex(fifo, model)])
  }

  function AfterClaim(fifo: seq<Unclaimed>, model: Option<string>): seq<Unclaimed> {
    if fifo == [] then [] else RemoveAt(fifo, ClaimIndex(fifo, model))
  }

  function PendingAt(s: State, key: PendingKey): Pending {
    if Get(s.pending, key).Some? then Get(s.pending, key).value else FRESH_PENDING
  }

  function OrElse(a: Option<string>, b: Option<string>): Option<string> { if a.Some? then a else b }

  /** JavaScript's `a || b || now()` on numbers. */
  function Stamp(c: Config, startedAt: int, endedAt: int): int {
    if startedAt != 0 then startedAt else if endedAt != 0 then endedAt else c.clock
  }

  function Built(c: Config, p: Pending): seq<Inference>
    requires p.request.Some? && p.response.Some?
  {
    var req, resp := p.request.value, p.response.value;
    if req.text.None? || resp.text.None? || !c.buildable(req.text.value, resp.text.value) then []
    else [Inference(req, resp, p.querySource, p.agentName, Stamp(c, p.startedAt, p.endedAt))]
  }

  /** Store `p` under `key`, and emit it at once if it is complete. */
  function Settle(c: Config, s: State, key: PendingKey, p: Pending): Turn {
    if p.request.Some? && p.response.Some? then Turn(s.(pending := Delete(Put(s.pending, key, p), key)), Built(c, p))
    else Turn(s.(pending := Put(s.pending, key, p)), [])
  }

  // ------------------------------------------------------------- one record

  function TrimFifo(fifo: seq<Unclaimed>, maxPending: nat): seq<Unclaimed> {
    if |fifo| > maxPending then fifo[|fifo| - maxPending..] else fifo
  }

  function TakeBody(c: Config, s: State, r: Rec): State
    requires r.RequestBody?
  {
    var fifo := s.fifo + [Unclaimed(r.body, r.exchangeId, r.ts, r.model)];
    var kept := TrimFifo(fifo, c.maxPending);
    s.(fifo := kept, dropped := s.dropped + (|fifo| - |kept|))
  }

  function AccountKey(s: State, r: Rec): PendingKey
    requires r.Accounting?
  {
    if r.requestId.Some? then RequestId(r.requestId.value) else AcctKey(r.ts, s.synthSeq)
  }

  /** The exchange after an accounting record claimed (or failed to claim) a body for it. */
  function Accounted(s: State, r: Rec): Pending
    requires r.Accounting?
  {
    var claimed := Claimed(s.fifo, r.model);
    var p := PendingAt(s, AccountKey(s, r));
    var p1 := if claimed.Some? then p.(request := Some(claimed.value.body),
        startedAt := claimed.value.startedAt) else p;
    p1.(querySource := OrElse(p1.querySource, r.querySource),
        agentName := OrElse(p1.agentName, r.agentName), endedAt := r.ts)
  }

  /** The rest of the state after the claim: the id is bridged onto the captured exchange. */
  function Bridged(s: State, r: Rec): State
    requires r.Accounting?
  {
    var claimed := Claimed(s.fifo, r.model);
    s.(fifo := AfterClaim(s.fifo, r.model),
       synthSeq := if r.requestId.Some? then s.synthSeq else s.synthSeq + 1,
       assignments :=
         if claimed.Some? && claimed.value.exchangeId.Some? && r.requestId.Some?
         then s.assignments + [Assigned(claimed.value.exchangeId.value, r.requestId.value, r.querySource, r.agentName)]
         else s.assignments)
  }

  function Account(c: Config, s: State, r: Rec): Turn
    requires r.Accounting?
  {
    Settle(c, Bridged(s, r), AccountKey(s, r), Accounted(s, r))
  }

  function Respond(c: Config, s: State, r: Rec): Turn
    requires r.ResponseBody?
  {
    var key := if r.requestId.Some? then RequestId(r.requestId.value) else RespKey(r.ts, s.synthSeq);
    var s1 := if r.requestId.Some? then s else s.(synthSeq := s.synthSeq + 1);
    Settle(c, s1, key, PendingAt(s, key).(response := Some(r.response), endedAt := r.ts))
  }

  function Discard(s: State, r: Rec): State
    requires r.ApiError?
  {
    var s1 := s.(fifo := AfterClaim(s.fifo, r.model));
    if r.requestId.Some? && r.requestId.value != "" then s1.(pending := Delete(s1.pending,
        RequestId(r.requestId.value)))
    else s1
  }

  function Step(c: Config, s0: State, r: Rec): Turn {
    var s := s0.(newestTs := Max(r.ts, s0.newestTs));
    match r
    case RequestBody(_, _, _, _, _) => Turn(TakeBody(c, s, r), [])
    case Accounting(_, _, _, _, _, _) => Account(c, s, r)
    case ResponseBody(_, _, _, _) => Respond(c, s, r)
    case ApiError(_, _, _, _) => Turn(Discard(s, r), [])
  }

  /** The record loop of one `ingest`. */
  function Steps(c: Config, s: State, recs: seq<Rec>): Turn {
    if recs == [] then Turn(s, [])
    else
      var before := Steps(c, s, recs[..|recs| - 1]);
      var t := Step(c, before.s, recs[|recs| - 1]);
      Turn(t.s, before.out + t.out)
  }

  // ---------------------------------------------------------------- eviction

  /** Drops the stale prefix only: a stale entry behind a fresh one stays. */
  function DrainStale(fifo: seq<Unclaimed>, cutoff: int): seq<Unclaimed> {
    if fifo != [] && fifo[0].startedAt < cutoff then DrainStale(fifo[1..], cutoff) else fifo
  }

  predicate IsFresh(e: Entry<PendingKey, Pending>, cutoff: int) {
    Max(e.value.startedAt, e.value.endedAt) >= cutoff
  }

  function EvictStale(c: Config, s: State, nowMs: int): State {
    var cutoff := nowMs - c.ttlMs;
    var fifo := TrimFifo(DrainStale(s.fifo, cutoff), c.maxPending);
    var pending := Filter(s.pending, (e: Entry<PendingKey, Pending>) => IsFresh(e, cutoff));
    DrainStaleShrinks(s.fifo, cutoff);
    s.(fifo := fifo, pending := pending,
       dropped := s.dropped + (|s.fifo| - |fifo|) + (|s.pending| - |pending|))
  }

  lemma {:induction false} DrainStaleShrinks(fifo: seq<Unclaimed>, cutoff: int)
    ensures |DrainStale(fifo, cutoff)| <= |fifo|
    ensures DrainStale(fifo, cutoff) == fifo[|fifo| - |DrainStale(fifo, cutoff)|..]
  {
    if fifo != [] && fifo[0].startedAt < cutoff {
      DrainStaleShrinks(fifo[1..], cutoff);
    }
  }

  // ------------------------------------------------------------------ ingest

  predicate SeqBefore(a: SeqNo, b: SeqNo) { a.Fin? && (b.Infinite? || a.n < b.n) }

  /** Batch order: event sequence, then timestamp. */
  predicate Before(a: Rec, b: Rec) {
    if a.seqNo != b.seqNo then SeqBefore(a.seqNo, b.seqNo) else a.ts < b.ts
  }

  predicate Earlier(a: Inference, b: Inference) { a.ts < b.ts }

  function Ingest(c: Config, s: State, recs: seq<Rec>): Turn {
    var t := Steps(c, s, StableSort(recs, Before));
    Turn(EvictStale(c, t.s, t.s.newestTs), StableSort(t.out, Earlier))
  }

  /** Successive batches, their outputs concatenated. */
  function IngestAll(c: Config, s: State, batches: seq<seq<Rec>>): Turn {
    if batches == [] then Turn(s, [])
    else
      var before := IngestAll(c, s, batches[..|batches| - 1]);
      var t := Ingest(c, before.s, batches[|batches| - 1]);
      Turn(t.s, before.out + t.out)
  }

  function Flatten(batches: seq<seq<Rec>>): seq<Rec> {
    if batches == [] then [] else Flatten(batches[..|batches| - 1]) + batches[|batches| - 1]
  }

  lemma {:induction false} StepsSnoc(c: Config, s: State, recs: seq<Rec>, r: Rec)
    ensures Steps(c, s, recs + [r])
         == var before := Steps(c, s, recs); var t := Step(c, before.s, r); Turn(t.s, before.out + t.out)
  {
    assert (recs + [r])[..|recs|] == recs;
  }

  lemma {:induction false} StepsAppend(c: Config, s: State, a: seq<Rec>, b: seq<Rec>)
    ensures Steps(c, s, a + b)
         == var ta := Steps(c, s, a); var tb := Steps(c, ta.s, b); Turn(tb.s, ta.out + tb.out)
    decreases |b|
  {
    hide Step;
    if b == [] {
      assert a + b == a;
    } else {
      var n := |b| - 1;
      assert a + b == (a + b[..n]) + [b[n]] && b == b[..n] + [b[n]];
      StepsAppend(c, s, a, b[..n]);
      StepsSnoc(c, s, a + b[..n], b[n]);
      StepsSnoc(c, Steps(c, s, a).s, b[..n], b[n]);
    }
  }
}
