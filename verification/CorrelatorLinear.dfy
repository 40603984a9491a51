/**
 * Linear use of request bodies: over every run of ingests and sweeps each captured
 * body is in exactly one of FIFO, pending map, output and losses, every loss has a
 * cause, and the reported drops are exactly the losses to cap and TTL.
 */
module CorrelatorLinear {
  import opened Prelude
  import opened OrderedMap
  import opened CorrelatorModel

  // How many times body `x` is in each place.

  function InFifo(fifo: seq<Unclaimed>, x: Body): nat {
    if fifo == [] then 0 else One(fifo[0].body == x) + InFifo(fifo[1..], x)
  }

  function Holds(p: Option<Pending>, x: Body): nat {
    One(p.Some? && p.value.request == Some(x))
  }

  function InPending(m: seq<Entry<PendingKey, Pending>>, x: Body): nat {
    if m == [] then 0 else Holds(Some(m[0].value), x) + InPending(m[1..], x)
  }

  function InOut(out: seq<Inference>, x: Body): nat {
    if out == [] then 0 else One(out[0].request == x) + InOut(out[1..], x)
  }

  function InRecs(recs: seq<Rec>, x: Body): nat {
    if recs == [] then 0 else One(recs[0].RequestBody? && recs[0].body == x) + InRecs(recs[1..], x)
  }

  function InState(s: State, x: Body): nat { InFifo(s.fifo, x) + InPending(s.pending, x) }

  lemma {:induction false} FifoAppend(a: seq<Unclaimed>, b: seq<Unclaimed>, x: Body)
    ensures InFifo(a + b, x) == InFifo(a, x) + InFifo(b, x)
  {
    if a == [] {
      assert a + b == b;
    } else {
      assert (a + b)[0] == a[0] && (a + b)[1..] == a[1..] + b;
      FifoAppend(a[1..], b, x);
    }
  }

  lemma {:induction false} OutAppend(a: seq<Inference>, b: seq<Inference>, x: Body)
    ensures InOut(a + b, x) == InOut(a, x) + InOut(b, x)
  {
    if a == [] {
      assert a + b == b;
    } else {
      assert (a + b)[0] == a[0] && (a + b)[1..] == a[1..] + b;
      OutAppend(a[1..], b, x);
    }
  }

  lemma {:induction false} RecsSnoc(a: seq<Rec>, r: Rec, x: Body)
    ensures InRecs(a + [r], x) == InRecs(a, x) + One(r.RequestBody? && r.body == x)
  {
    if a == [] {
      assert a + [r] == [r] && [r][1..] == [];
    } else {
      assert (a + [r])[0] == a[0] && (a + [r])[1..] == a[1..] + [r];
      RecsSnoc(a[1..], r, x);
    }
  }

  lemma {:induction false} SplitFifo(fifo: seq<Unclaimed>, i: nat, x: Body)
    requires i <= |fifo|
    ensures InFifo(fifo[..i], x) + InFifo(fifo[i..], x) == InFifo(fifo, x)
  {
    FifoAppend(fifo[..i], fifo[i..], x);
    assert fifo == fifo[..i] + fifo[i..];
  }

  lemma {:induction false} RemoveFifo(fifo: seq<Unclaimed>, i: nat, x: Body)
    requires i < |fifo|
    ensures InFifo(RemoveAt(fifo, i), x) + One(fifo[i].body == x) == InFifo(fifo, x)
  {
    FifoAppend(fifo[..i], fifo[i + 1..], x);
    FifoAppend(fifo[..i], fifo[i..], x);
    assert fifo == fifo[..i] + fifo[i..] && fifo[i..][1..] == fifo[i + 1..];
  }

  lemma {:induction false} PutPending(m: seq<Entry<PendingKey, Pending>>, k: PendingKey, p: Pending, x: Body)
    ensures InPending(Put(m, k, p), x) + Holds(Get(m, k), x) == InPending(m, x) + Holds(Some(p), x)
  {
    if m == [] {
    } else {
      if m[0].key == k {
        assert Put(m, k, p)[1..] == m[1..];
      } else {
        PutPending(m[1..], k, p, x);
        assert Put(m, k, p)[1..] == Put(m[1..], k, p);
      }
    }
  }

  lemma {:induction false} DeletePending(m: seq<Entry<PendingKey, Pending>>, k: PendingKey, x: Body)
    ensures InPending(Delete(m, k), x) + Holds(Get(m, k), x) == InPending(m, x)
  {
    if m != [] && m[0].key != k {
      DeletePending(m[1..], k, x);
      assert Delete(m, k)[1..] == Delete(m[1..], k);
    }
  }

  // ---------------------------------------------------------------------- losses

  datatype Cause =
    | CapTrim       // pushed out of a full FIFO
    | StaleFifo     // in the stale prefix an eviction drains
    | StalePending  // in a pending exchange an eviction drops
    | ErrorClaim    // claimed by an error record
    | ErrorDelete   // in the pending exchange an error record deletes
    | NoText        // joined, but a text was never captured: nothing is said
    | Unbuildable   // joined, but the pair does not parse or build: another diagnostic says so
    | Overwritten   // in a pending exchange whose id claims a second body

  /** One thing given up; a pending exchange dropped as stale may hold no body. */
  datatype Loss = Loss(cause: Cause, body: Option<Body>)

  function Lost(losses: seq<Loss>, x: Body): nat {
    if losses == [] then 0 else One(losses[0].body == Some(x)) + Lost(losses[1..], x)
  }

  /** What the `dropped` diagnostic counts: losses to cap and TTL. */
  predicate IsReported(l: Loss) { l.cause.CapTrim? || l.cause.StaleFifo? || l.cause.StalePending? }

  function Reported(losses: seq<Loss>): nat {
    if losses == [] then 0 else One(IsReported(losses[0])) + Reported(losses[1..])
  }

  function FifoLosses(fifo: seq<Unclaimed>, cause: Cause): (r: seq<Loss>)
    ensures |r| == |fifo|
  {
    if fifo == [] then [] else [Loss(cause, Some(fifo[0].body))] + FifoLosses(fifo[1..], cause)
  }

  function PendingLosses(m: seq<Entry<PendingKey, Pending>>, cutoff: int): seq<Loss> {
    if m == [] then []
    else
      (if IsFresh(m[0], cutoff) then [] else [Loss(StalePending, m[0].value.request)])
      + PendingLosses(m[1..], cutoff)
  }

  function Held(found: Option<Pending>): Option<Body> { if found.Some? then found.value.request else None }

  predicate LacksText(request: Body, response: Response) { request.text.None? || response.text.None? }

  function SettleLosses(c: Config, p: Pending): seq<Loss> {
    if p.request.Some? && p.response.Some? && Built(c, p) == [] then
      [Loss(if LacksText(p.request.value, p.response.value) then NoText else Unbuildable, p.request)]
    else []
  }

  function TakeBodyLosses(c: Config, s: State, r: Rec): seq<Loss>
    requires r.RequestBody?
  {
    var fifo := s.fifo + [Unclaimed(r.body, r.exchangeId, r.ts, r.model)];
    if |fifo| > c.maxPending then FifoLosses(fifo[..|fifo| - c.maxPending], CapTrim) else []
  }

  function AccountLosses(c: Config, s: State, r: Rec): seq<Loss>
    requires r.Accounting?
  {
    (if s.fifo != [] && Held(Get(s.pending, AccountKey(s, r))).Some?
     then [Loss(Overwritten, Held(Get(s.pending, AccountKey(s, r))))] else [])
    + SettleLosses(c, Accounted(s, r))
  }

  function RespondKey(s: State, r: Rec): PendingKey
    requires r.ResponseBody?
  {
    if r.requestId.Some? then RequestId(r.requestId.value) else RespKey(r.ts, s.synthSeq)
  }

  function Responded(s: State, r: Rec): Pending
    requires r.ResponseBody?
  {
    PendingAt(s, RespondKey(s, r)).(response := Some(r.response), endedAt := r.ts)
  }

  function DiscardLosses(s: State, r: Rec): seq<Loss>
    requires r.ApiError?
  {
    (if s.fifo != [] then [Loss(ErrorClaim, Some(s.fifo[ClaimIndex(s.fifo, r.model)].body))] else [])
    + (if r.requestId.Some? && r.requestId.value != "" && Get(s.pending, RequestId(r.requestId.value)).Some?
       then [Loss(ErrorDelete, Held(Get(s.pending, RequestId(r.requestId.value))))] else [])
  }

  /** What one record gives up. */
  function StepLosses(c: Config, s: State, r: Rec): seq<Loss> {
    match r
    case RequestBody(_, _, _, _, _) => TakeBodyLosses(c, s, r)
    case Accounting(_, _, _, _, _, _) => AccountLosses(c, s, r)
    case ResponseBody(_, _, _, _) => SettleLosses(c, Responded(s, r))
    case ApiError(_, _, _, _) => DiscardLosses(s, r)
  }

  function StepsLosses(c: Config, s: State, recs: seq<Rec>): seq<Loss> {
    if recs == [] then []
    else
      var n := |recs| - 1;
      StepsLosses(c, s, recs[..n]) + StepLosses(c, Steps(c, s, recs[..n]).s, recs[n])
  }

  function EvictLosses(c: Config, s: State, nowMs: int): seq<Loss> {
    var cutoff := nowMs - c.ttlMs;
    DrainStaleShrinks(s.fifo, cutoff);
    var drained := DrainStale(s.fifo, cutoff);
    FifoLosses(s.fifo[..|s.fifo| - |drained|], StaleFifo)
    + (if |drained| > c.maxPending then FifoLosses(drained[..|drained| - c.maxPending], CapTrim) else [])
    + PendingLosses(s.pending, cutoff)
  }

  lemma {:induction false} LostAppend(a: seq<Loss>, b: seq<Loss>, x: Body)
    ensures Lost(a + b, x) == Lost(a, x) + Lost(b, x)
  {
    if a == [] {
      assert a + b == b;
    } else {
      assert (a + b)[0] == a[0] && (a + b)[1..] == a[1..] + b;
      LostAppend(a[1..], b, x);
    }
  }

  lemma {:induction false} ReportedAppend(a: seq<Loss>, b: seq<Loss>)
    ensures Reported(a + b) == Reported(a) + Reported(b)
  {
    if a == [] {
      assert a + b == b;
    } else {
      assert (a + b)[0] == a[0] && (a + b)[1..] == a[1..] + b;
      ReportedAppend(a[1..], b);
    }
  }

  lemma {:induction false} OneLoss(l: Loss, x: Body)
    ensures Lost([l], x) == One(l.body == Some(x)) && Lost([], x) == 0
    ensures Reported([l]) == One(IsReported(l)) && Reported([]) == 0
  {
    assert [l][1..] == [];
  }

  lemma {:induction false} FifoLossesIs(fifo: seq<Unclaimed>, cause: Cause, x: Body)
    ensures Lost(FifoLosses(fifo, cause), x) == InFifo(fifo, x)
    ensures Reported(FifoLosses(fifo, cause)) == if IsReported(Loss(cause, None)) then |fifo| else 0
  {
    if fifo == [] {
    } else {
      FifoLossesIs(fifo[1..], cause, x);
      assert FifoLosses(fifo, cause)[1..] == FifoLosses(fifo[1..], cause);
    }
  }

  lemma {:induction false} PendingLossesIs(m: seq<Entry<PendingKey, Pending>>, cutoff: int, x: Body)
    ensures var kept := Filter(m, (e: Entry<PendingKey, Pending>) => IsFresh(e, cutoff));
      && InPending(kept, x) + Lost(PendingLosses(m, cutoff), x) == InPending(m, x)
      && Reported(PendingLosses(m, cutoff)) == |m| - |kept|
  {
    if m == [] {
    } else {
      PendingLossesIs(m[1..], cutoff, x);
      var stays := (e: Entry<PendingKey, Pending>) => IsFresh(e, cutoff);
      var l, losses := Loss(StalePending, m[0].value.request), PendingLosses(m[1..], cutoff);
      var rest := Filter(m[1..], stays);
      assert Filter(m, stays) == if IsFresh(m[0], cutoff) then [m[0]] + rest else rest;
      assert PendingLosses(m, cutoff) == if IsFresh(m[0], cutoff) then losses else [l] + losses;
      assert InPending([m[0]] + rest, x) == Holds(Some(m[0].value), x) + InPending(rest, x) by {
        assert ([m[0]] + rest)[1..] == rest;
      }
      hide Filter, PendingLosses, IsFresh;
      LostAppend([l], losses, x);
      ReportedAppend([l], losses);
      OneLoss(l, x);
    }
  }

  // ------------------------------------------------------------------- one record

  /**
   * Settling moves `p`'s body into the map, into the output or, unbuilt, out of reach,
   * replacing what its key held.
   */
  lemma {:induction false} SettleLinear(c: Config, s: State, key: PendingKey, p: Pending, x: Body)
    ensures var t := Settle(c, s, key, p);
      && t.s.fifo == s.fifo && t.s.dropped == s.dropped && Reported(SettleLosses(c, p)) == 0
      && InPending(t.s.pending, x) + InOut(t.out, x) + Lost(SettleLosses(c, p), x) + Holds(Get(s.pending, key), x)
           == InPending(s.pending, x) + Holds(Some(p), x)
  {
    PutPending(s.pending, key, p, x);
    OneLoss(Loss(NoText, p.request), x);
    OneLoss(Loss(Unbuildable, p.request), x);
    if p.request.Some? && p.response.Some? {
      GetPut(s.pending, key, p, key);
      DeletePending(Put(s.pending, key, p), key, x);
      BuiltOne(c, p, x);
    }
    hide Put, Get, Delete, InPending, Built;
  }

  lemma {:induction false} BuiltOne(c: Config, p: Pending, x: Body)
    requires p.request.Some? && p.response.Some?
    ensures InOut([], x) == 0
    ensures Built(c, p) != [] ==> InOut(Built(c, p), x) == One(p.request == Some(x))
  {
  }

  lemma {:induction false} AccountLinear(c: Config, s: State, r: Rec, x: Body)
    requires r.Accounting?
    ensures var t := Account(c, s, r);
      && InState(t.s, x) + InOut(t.out, x) + Lost(AccountLosses(c, s, r), x) == InState(s, x)
      && t.s.dropped == s.dropped + Reported(AccountLosses(c, s, r))
  {
    var key, p := AccountKey(s, r), Accounted(s, r);
    SettleLinear(c, Bridged(s, r), key, p, x);
    var over := Loss(Overwritten, Held(Get(s.pending, key)));
    OneLoss(over, x);
    LostAppend([over], SettleLosses(c, p), x);
    ReportedAppend([over], SettleLosses(c, p));
    assert [] + SettleLosses(c, p) == SettleLosses(c, p);
    if s.fifo != [] {
      RemoveFifo(s.fifo, ClaimIndex(s.fifo, r.model), x);
    }
    hide Settle, InOut, InPending, InFifo, Get, Lost, Reported, SettleLosses, ClaimIndex, RemoveAt;
  }

  lemma {:induction false} RespondLinear(c: Config, s: State, r: Rec, x: Body)
    requires r.ResponseBody?
    ensures var t := Respond(c, s, r);
      && InState(t.s, x) + InOut(t.out, x) + Lost(SettleLosses(c, Responded(s, r)), x) == InState(s, x)
      && t.s.dropped == s.dropped + Reported(SettleLosses(c, Responded(s, r)))
  {
    var s1 := if r.requestId.Some? then s else s.(synthSeq := s.synthSeq + 1);
    SettleLinear(c, s1, RespondKey(s, r), Responded(s, r), x);
    hide Settle, InOut, InPending, InFifo, Get, Lost, Reported, SettleLosses;
  }

  lemma {:induction false} DiscardLinear(s: State, r: Rec, x: Body)
    requires r.ApiError?
    ensures InState(Discard(s, r), x) + Lost(DiscardLosses(s, r), x) == InState(s, x)
    ensures Discard(s, r).dropped == s.dropped + Reported(DiscardLosses(s, r))
  {
    hide InPending, InFifo, Get, Delete, ClaimIndex, RemoveAt, Lost, Reported;
    var claim, del: seq<Loss> := [], [];
    OneLoss(Loss(ErrorClaim, None), x);
    if s.fifo != [] {
      var l := Loss(ErrorClaim, Some(s.fifo[ClaimIndex(s.fifo, r.model)].body));
      claim := [l];
      OneLoss(l, x);
      RemoveFifo(s.fifo, ClaimIndex(s.fifo, r.model), x);
    }
    if r.requestId.Some? {
      var key := RequestId(r.requestId.value);
      DeletePending(s.pending, key, x);
      if r.requestId.value != "" && Get(s.pending, key).Some? {
        var l := Loss(ErrorDelete, Held(Get(s.pending, key)));
        del := [l];
        OneLoss(l, x);
      }
    }
    LostAppend(claim, del, x);
    ReportedAppend(claim, del);
    assert DiscardLosses(s, r) == claim + del;
  }

  lemma {:induction false} TakeBodyLinear(c: Config, s: State, r: Rec, x: Body)
    requires r.RequestBody?
    ensures InState(TakeBody(c, s, r), x) + Lost(TakeBodyLosses(c, s, r), x) == InState(s, x) + One(r.body == x)
    ensures TakeBody(c, s, r).dropped == s.dropped + Reported(TakeBodyLosses(c, s, r))
  {
    var u := Unclaimed(r.body, r.exchangeId, r.ts, r.model);
    FifoAppend(s.fifo, [u], x);
    assert InFifo([u], x) == One(r.body == x) by { assert [u][1..] == []; }
    var fifo := s.fifo + [u];
    OneLoss(Loss(CapTrim, None), x);
    hide InFifo, InPending, Lost, Reported, FifoLosses;
    if |fifo| > c.maxPending {
      SplitFifo(fifo, |fifo| - c.maxPending, x);
      FifoLossesIs(fifo[..|fifo| - c.maxPending], CapTrim, x);
    }
  }

  /** One record neither duplicates, invents nor mislays a request body, and reports exactly its cap losses. */
  lemma {:induction false} StepLinear(c: Config, s: State, r: Rec, x: Body)
    ensures var t := Step(c, s, r);
      && InState(t.s, x) + InOut(t.out, x) + Lost(StepLosses(c, s, r), x)
         == InState(s, x) + One(r.RequestBody? && r.body == x)
      && t.s.dropped == s.dropped + Reported(StepLosses(c, s, r))
  {
    var s1 := s.(newestTs := Max(r.ts, s.newestTs));
    SameLosses(c, s, s1, r);
    assert InOut([], x) == 0;
    hide Account, Respond, Discard, TakeBody, InFifo, InPending, InOut, Lost, Reported, TakeBodyLosses, AccountLosses,
        SettleLosses, DiscardLosses, Responded;
    match r
    case RequestBody(_, _, _, _, _) => TakeBodyLinear(c, s1, r, x);
    case Accounting(_, _, _, _, _, _) => AccountLinear(c, s1, r, x);
    case ResponseBody(_, _, _, _) => RespondLinear(c, s1, r, x);
    case ApiError(_, _, _, _) => DiscardLinear(s1, r, x);
  }

  lemma {:induction false} SameLosses(c: Config, s: State, s1: State, r: Rec)
    requires s1 == s.(newestTs := s1.newestTs)
    ensures StepLosses(c, s, r) == StepLosses(c, s1, r)
  {
    hide FifoLosses, SettleLosses, Get, ClaimIndex;
  }

  lemma {:induction false} OneMoreStep(c: Config, s: State, recs: seq<Rec>, x: Body)
    requires recs != []
    ensures var n := |recs| - 1;
      var before := Steps(c, s, recs[..n]);
      var t := Step(c, before.s, recs[n]);
      && Steps(c, s, recs) == Turn(t.s, before.out + t.out)
      && StepsLosses(c, s, recs) == StepsLosses(c, s, recs[..n]) + StepLosses(c, before.s, recs[n])
      && InRecs(recs, x) == InRecs(recs[..n], x) + One(recs[n].RequestBody? && recs[n].body == x)
  {
    hide Step, StepLosses, InRecs;
    var n := |recs| - 1;
    RecsSnoc(recs[..n], recs[n], x);
    assert recs == recs[..n] + [recs[n]];
  }

  lemma {:induction false} StepsLinear(c: Config, s: State, recs: seq<Rec>, x: Body)
    ensures var t := Steps(c, s, recs);
      && InState(t.s, x) + InOut(t.out, x) + Lost(StepsLosses(c, s, recs), x) == InState(s, x) + InRecs(recs, x)
      && t.s.dropped == s.dropped + Reported(StepsLosses(c, s, recs))
  {
    if recs == [] {
    } else {
      hide *;
      var n := |recs| - 1;
      var before := Steps(c, s, recs[..n]);
      OneMoreStep(c, s, recs, x);
      StepsLinear(c, s, recs[..n], x);
      StepLinear(c, before.s, recs[n], x);
      OutAppend(before.out, Step(c, before.s, recs[n]).out, x);
      LostAppend(StepsLosses(c, s, recs[..n]), StepLosses(c, before.s, recs[n]), x);
      ReportedAppend(StepsLosses(c, s, recs[..n]), StepLosses(c, before.s, recs[n]));
    }
  }

  /** Draining the stale prefix and trimming to the cap. */
  lemma {:induction false} DrainLinear(c: Config, fifo: seq<Unclaimed>, cutoff: int, x: Body)
    ensures var drained := DrainStale(fifo, cutoff);
      && |drained| <= |fifo|
      && var a := FifoLosses(fifo[..|fifo| - |drained|], StaleFifo);
         var b := if |drained| > c.maxPending then FifoLosses(drained[..|drained| - c.maxPending], CapTrim) else [];
         && InFifo(TrimFifo(drained, c.maxPending), x) + Lost(a, x) + Lost(b, x) == InFifo(fifo, x)
         && Reported(a) + Reported(b) == |fifo| - |TrimFifo(drained, c.maxPending)|
  {
    var drained := DrainStale(fifo, cutoff);
    DrainStaleShrinks(fifo, cutoff);
    SplitFifo(fifo, |fifo| - |drained|, x);
    FifoLossesIs(fifo[..|fifo| - |drained|], StaleFifo, x);
    OneLoss(Loss(CapTrim, None), x);
    if |drained| > c.maxPending {
      SplitFifo(drained, |drained| - c.maxPending, x);
      FifoLossesIs(drained[..|drained| - c.maxPending], CapTrim, x);
    }
    hide DrainStale, InFifo, Lost, Reported, FifoLosses;
  }

  lemma {:induction false} EvictLinear(c: Config, s: State, nowMs: int, x: Body)
    ensures InState(EvictStale(c, s, nowMs), x) + Lost(EvictLosses(c, s, nowMs), x) == InState(s, x)
    ensures EvictStale(c, s, nowMs).dropped == s.dropped + Reported(EvictLosses(c, s, nowMs))
  {
    hide DrainStale, InFifo, InPending, Filter, TrimFifo, FifoLosses, PendingLosses, Lost, Reported;
    var cutoff := nowMs - c.ttlMs;
    DrainLinear(c, s.fifo, cutoff, x);
    PendingLossesIs(s.pending, cutoff, x);
    var drained := DrainStale(s.fifo, cutoff);
    var a := FifoLosses(s.fifo[..|s.fifo| - |drained|], StaleFifo);
    var b := if |drained| > c.maxPending then FifoLosses(drained[..|drained| - c.maxPending], CapTrim) else [];
    var d := PendingLosses(s.pending, cutoff);
    LostAppend(a, b, x);
    LostAppend(a + b, d, x);
    ReportedAppend(a, b);
    ReportedAppend(a + b, d);
  }

  // ------------------------------------------------------------ the whole run

  datatype Op = IngestOp(recs: seq<Rec>) | SweepOp(nowMs: int)

  function Perform(c: Config, s: State, op: Op): Turn {
    match op
    case IngestOp(recs) => Ingest(c, s, recs)
    case SweepOp(nowMs) => Turn(EvictStale(c, s, nowMs), [])
  }

  function RunOps(c: Config, s: State, ops: seq<Op>): Turn {
    if ops == [] then Turn(s, [])
    else
      var before := RunOps(c, s, ops[..|ops| - 1]);
      var t := Perform(c, before.s, ops[|ops| - 1]);
      Turn(t.s, before.out + t.out)
  }

  function PerformLosses(c: Config, s: State, op: Op): seq<Loss> {
    match op
    case IngestOp(recs) =>
      var sorted := StableSort(recs, Before);
      var s1 := Steps(c, s, sorted).s;
      StepsLosses(c, s, sorted) + EvictLosses(c, s1, s1.newestTs)
    case SweepOp(nowMs) => EvictLosses(c, s, nowMs)
  }

  /** Everything a run gave up, with its causes, in order. */
  function RunLosses(c: Config, s: State, ops: seq<Op>): seq<Loss> {
    if ops == [] then []
    else
      var n := |ops| - 1;
      RunLosses(c, s, ops[..n]) + PerformLosses(c, RunOps(c, s, ops[..n]).s, ops[n])
  }

  /** How many times `x` was captured over a run. */
  function Captured(ops: seq<Op>, x: Body): nat {
    if ops == [] then 0
    else Captured(ops[..|ops| - 1], x) + if ops[|ops| - 1].IngestOp? then InRecs(ops[|ops| - 1].recs, x) else 0
  }

  lemma {:induction false} InsertRecs(s: seq<Rec>, r: Rec, x: Body)
    ensures InRecs(InsertSorted(s, r, Before), x) == InRecs(s, x) + One(r.RequestBody? && r.body == x)
  {
    hide Before;
    if s == [] {
    } else {
      InsertRecs(s[1..], r, x);
      assert ([r] + s)[1..] == s;
      assert ([s[0]] + InsertSorted(s[1..], r, Before))[1..] == InsertSorted(s[1..], r, Before);
    }
  }

  lemma {:induction false} SortRecs(s: seq<Rec>, x: Body)
    ensures InRecs(StableSort(s, Before), x) == InRecs(s, x)
  {
    if s == [] {
    } else {
      var n := |s| - 1;
      SortRecs(s[..n], x);
      InsertRecs(StableSort(s[..n], Before), s[n], x);
      RecsSnoc(s[..n], s[n], x);
      assert s == s[..n] + [s[n]];
    }
  }

  lemma {:induction false} InsertOut(s: seq<Inference>, r: Inference, x: Body)
    ensures InOut(InsertSorted(s, r, Earlier), x) == InOut(s, x) + One(r.request == x)
  {
    hide Earlier;
    if s == [] {
    } else {
      InsertOut(s[1..], r, x);
      assert ([r] + s)[1..] == s;
      assert ([s[0]] + InsertSorted(s[1..], r, Earlier))[1..] == InsertSorted(s[1..], r, Earlier);
    }
  }

  lemma {:induction false} SortOut(s: seq<Inference>, x: Body)
    ensures InOut(StableSort(s, Earlier), x) == InOut(s, x)
  {
    if s == [] {
    } else {
      var n := |s| - 1;
      SortOut(s[..n], x);
      InsertOut(StableSort(s[..n], Earlier), s[n], x);
      OutAppend(s[..n], [s[n]], x);
      assert s == s[..n] + [s[n]];
    }
  }

  lemma {:induction false} PerformLinear(c: Config, s: State, op: Op, x: Body)
    ensures var t := Perform(c, s, op);
      && InState(t.s, x) + InOut(t.out, x) + Lost(PerformLosses(c, s, op), x)
         == InState(s, x) + (if op.IngestOp? then InRecs(op.recs, x) else 0)
      && t.s.dropped == s.dropped + Reported(PerformLosses(c, s, op))
  {
    assert InOut([], x) == 0;
    hide Steps, StepsLosses, EvictLosses, StableSort, EvictStale, InState, InOut, InRecs, Lost, Reported;
    match op
    case IngestOp(recs) =>
      var sorted := StableSort(recs, Before);
      var t := Steps(c, s, sorted);
      SortRecs(recs, x);
      StepsLinear(c, s, sorted, x);
      EvictLinear(c, t.s, t.s.newestTs, x);
      SortOut(t.out, x);
      LostAppend(StepsLosses(c, s, sorted), EvictLosses(c, t.s, t.s.newestTs), x);
      ReportedAppend(StepsLosses(c, s, sorted), EvictLosses(c, t.s, t.s.newestTs));
    case SweepOp(nowMs) =>
      EvictLinear(c, s, nowMs, x);
  }

  /**
   * Over any run every captured body is in exactly one place: the FIFO, the pending map,
   * the output or the losses, as often as it was captured.  The reported total is exactly
   * the FIFO entries lost to cap and TTL plus the pending exchanges lost to TTL.
   */
  lemma {:induction false} LinearUse(c: Config, ops: seq<Op>, x: Body)
    ensures var t, losses := RunOps(c, EMPTY, ops), RunLosses(c, EMPTY, ops);
      && InFifo(t.s.fifo, x) + InPending(t.s.pending, x) + InOut(t.out, x) + Lost(losses, x) == Captured(ops, x)
      && t.s.dropped == Reported(losses)
  {
    hide Perform, PerformLosses;
    if ops == [] {
    } else {
      var n := |ops| - 1;
      var before := RunOps(c, EMPTY, ops[..n]);
      LinearUse(c, ops[..n], x);
      PerformLinear(c, before.s, ops[n], x);
      OutAppend(before.out, Perform(c, before.s, ops[n]).out, x);
      LostAppend(RunLosses(c, EMPTY, ops[..n]), PerformLosses(c, before.s, ops[n]), x);
      ReportedAppend(RunLosses(c, EMPTY, ops[..n]), PerformLosses(c, before.s, ops[n]));
      hide InFifo, InPending, InOut, InRecs, Lost, Reported;
    }
  }

  // ------------------------------------------------------------ caps and drops

  /** Between records the FIFO never exceeds its cap, and a cap drop is reported one for one. */
  lemma {:induction false} StepBounds(c: Config, s: State, r: Rec)
    requires |s.fifo| <= c.maxPending
    ensures var s' := Step(c, s, r).s;
      && |s'.fifo| <= c.maxPending
      && (r.RequestBody? ==> |s.fifo| + 1 == |s'.fifo| + (s'.dropped - s.dropped))
      && (!r.RequestBody? ==> s'.dropped == s.dropped)
  {
  }

  lemma {:induction false} StepsBounds(c: Config, s: State, recs: seq<Rec>)
    requires |s.fifo| <= c.maxPending
    ensures |Steps(c, s, recs).s.fifo| <= c.maxPending
  {
    hide Step;
    if recs == [] {
    } else {
      StepsBounds(c, s, recs[..|recs| - 1]);
      StepBounds(c, Steps(c, s, recs[..|recs| - 1]).s, recs[|recs| - 1]);
    }
  }

  lemma {:induction false} RunBounds(c: Config, ops: seq<Op>)
    ensures |RunOps(c, EMPTY, ops).s.fifo| <= c.maxPending
  {
    if ops == [] {
    } else {
      var n := |ops| - 1;
      RunBounds(c, ops[..n]);
      var s := RunOps(c, EMPTY, ops[..n]).s;
      if ops[n].IngestOp? {
        StepsBounds(c, s, StableSort(ops[n].recs, Before));
      }
    }
  }

  lemma {:induction false} DrainedAreStale(fifo: seq<Unclaimed>, cutoff: int)
    ensures |DrainStale(fifo, cutoff)| <= |fifo|
    ensures forall i :: 0 <= i < |fifo| - |DrainStale(fifo, cutoff)| ==> fifo[i].startedAt < cutoff
    ensures DrainStale(fifo, cutoff) != [] ==> DrainStale(fifo, cutoff)[0].startedAt >= cutoff
  {
    if fifo != [] && fifo[0].startedAt < cutoff {
      DrainedAreStale(fifo[1..], cutoff);
    }
  }

  /**
   * An eviction reports exactly the entries it removed: the stale prefix of the
   * FIFO (the cap never bites here) and every stale pending exchange.
   */
  lemma {:induction false} EvictionReported(c: Config, s: State, nowMs: int)
    requires |s.fifo| <= c.maxPending
    ensures var s', cutoff := EvictStale(c, s, nowMs), nowMs - c.ttlMs;
      && s'.dropped - s.dropped == (|s.fifo| - |s'.fifo|) + (|s.pending| - |s'.pending|)
      && |s'.fifo| <= |s.fifo| && s'.fifo == s.fifo[|s.fifo| - |s'.fifo|..]
      && (forall i :: 0 <= i < |s.fifo| - |s'.fifo| ==> s.fifo[i].startedAt < cutoff)
      && (s'.fifo != [] ==> s'.fifo[0].startedAt >= cutoff)
      && (forall e :: e in s'.pending <==>
            e in s.pending && (e.value.startedAt >= cutoff || e.value.endedAt >= cutoff))
  {
    DrainStaleShrinks(s.fifo, nowMs - c.ttlMs);
    DrainedAreStale(s.fifo, nowMs - c.ttlMs);
  }
}
