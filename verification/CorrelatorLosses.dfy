/**
 * Exactly when the correlator loses a request body without counting it as dropped:
 * evictions never do, and a record does in four cases.
 */
module CorrelatorLosses {
  import opened Prelude
  import opened OrderedMap
  import opened CorrelatorModel
  import opened CorrelatorLinear

  // ------------------------------------------------------------------- the guards

  /** An accounting record claims a body for an id that already holds one. */
  predicate Overwrites(s: State, r: Rec) {
    r.Accounting? && s.fifo != [] && Held(Get(s.pending, AccountKey(s, r))).Some?
  }

  function Answered(found: Option<Pending>): Option<Response> { if found.Some? then found.value.response else None }

  /** The request body of the exchange a record adds to: just claimed, or held from before. */
  function JoinRequest(s: State, r: Rec): Option<Body> {
    match r
    case Accounting(_, _, _, _, _, _) =>
      if s.fifo != [] then Some(s.fifo[ClaimIndex(s.fifo, r.model)].body) else Held(Get(s.pending, AccountKey(s, r)))
    case ResponseBody(_, _, _, _) => Held(Get(s.pending, RespondKey(s, r)))
    case _ => None
  }

  /** And its response: the record's own, or held from before. */
  function JoinResponse(s: State, r: Rec): Option<Response> {
    match r
    case Accounting(_, _, _, _, _, _) => Answered(Get(s.pending, AccountKey(s, r)))
    case ResponseBody(_, _, _, _) => Some(r.response)
    case _ => None
  }

  predicate Joins(s: State, r: Rec) { JoinRequest(s, r).Some? && JoinResponse(s, r).Some? }

  /** The record completes an exchange one of whose texts was never captured. */
  predicate JoinsTextless(s: State, r: Rec) {
    Joins(s, r) && LacksText(JoinRequest(s, r).value, JoinResponse(s, r).value)
  }

  /** The record completes an exchange whose two texts do not parse or build. */
  predicate JoinsUnbuildable(c: Config, s: State, r: Rec) {
    && Joins(s, r) && !LacksText(JoinRequest(s, r).value, JoinResponse(s, r).value)
    && !c.buildable(JoinRequest(s, r).value.text.value, JoinResponse(s, r).value.text.value)
  }

  /** An error record claims a waiting body, or deletes an exchange that holds one. */
  predicate ErrorDiscards(s: State, r: Rec) {
    && r.ApiError?
    && (s.fifo != []
        || (r.requestId.Some? && r.requestId.value != "" && Held(Get(s.pending, RequestId(r.requestId.value))).Some?))
  }

  // ------------------------------------------------------------------- the losses

  /** A body given up without being counted as dropped. */
  predicate IsUncounted(l: Loss) { !IsReported(l) && l.body.Some? }

  predicate Uncounted(losses: seq<Loss>) { exists i :: 0 <= i < |losses| && IsUncounted(losses[i]) }

  lemma {:induction false} UncountedAppend(a: seq<Loss>, b: seq<Loss>)
    ensures Uncounted(a + b) <==> Uncounted(a) || Uncounted(b)
  {
    if i :| 0 <= i < |a| && IsUncounted(a[i]) {
      assert (a + b)[i] == a[i];
    }
    if i :| 0 <= i < |b| && IsUncounted(b[i]) {
      assert (a + b)[|a| + i] == b[i];
    }
  }

  lemma {:induction false} UncountedOne(l: Loss)
    ensures Uncounted([l]) <==> IsUncounted(l)
  {
    assert [l][0] == l;
  }

  lemma {:induction false} UncountedNone()
    ensures !Uncounted([])
  {
  }

  /** A body is among the losses exactly as often as some loss names it. */
  lemma {:induction false} LostIs(losses: seq<Loss>, x: Body)
    ensures Lost(losses, x) > 0 <==> exists i :: 0 <= i < |losses| && losses[i].body == Some(x)
  {
    if losses == [] {
    } else {
      LostIs(losses[1..], x);
      if i :| 0 <= i < |losses[1..]| && losses[1..][i].body == Some(x) {
        assert losses[i + 1].body == Some(x);
      }
      if i :| 0 <= i < |losses| && losses[i].body == Some(x) {
        assert i > 0 ==> losses[1..][i - 1] == losses[i];
      }
    }
  }

  lemma {:induction false} ReportedIs(losses: seq<Loss>)
    ensures Reported(losses) > 0 <==> exists i :: 0 <= i < |losses| && IsReported(losses[i])
  {
    if losses == [] {
    } else {
      ReportedIs(losses[1..]);
      if i :| 0 <= i < |losses[1..]| && IsReported(losses[1..][i]) {
        assert IsReported(losses[i + 1]);
      }
      if i :| 0 <= i < |losses| && IsReported(losses[i]) {
        assert i > 0 ==> losses[1..][i - 1] == losses[i];
      }
    }
  }

  lemma {:induction false} AccountedIs(s: State, r: Rec)
    requires r.Accounting?
    ensures Accounted(s, r).request == JoinRequest(s, r) && Accounted(s, r).response == JoinResponse(s, r)
  {
  }

  lemma {:induction false} RespondedIs(s: State, r: Rec)
    requires r.ResponseBody?
    ensures Responded(s, r).request == JoinRequest(s, r) && Responded(s, r).response == JoinResponse(s, r)
  {
  }

  lemma {:induction false} SettleUncounted(c: Config, s: State, r: Rec, p: Pending)
    requires p.request == JoinRequest(s, r) && p.response == JoinResponse(s, r)
    ensures Uncounted(SettleLosses(c, p)) <==> JoinsTextless(s, r) || JoinsUnbuildable(c, s, r)
    ensures Reported(SettleLosses(c, p)) == 0
  {
    UncountedOne(Loss(NoText, p.request));
    UncountedOne(Loss(Unbuildable, p.request));
    ReportedIs(SettleLosses(c, p));
    hide JoinRequest, JoinResponse, Uncounted, Reported;
    UncountedNone();
  }

  lemma {:induction false} FifoCounted(fifo: seq<Unclaimed>, cause: Cause)
    requires IsReported(Loss(cause, None))
    ensures !Uncounted(FifoLosses(fifo, cause))
  {
    if fifo == [] {
    } else {
      FifoCounted(fifo[1..], cause);
      UncountedOne(Loss(cause, Some(fifo[0].body)));
      UncountedAppend([Loss(cause, Some(fifo[0].body))], FifoLosses(fifo[1..], cause));
    }
  }

  lemma {:induction false} PendingCounted(m: seq<Entry<PendingKey, Pending>>, cutoff: int)
    ensures !Uncounted(PendingLosses(m, cutoff))
  {
    if m == [] {
    } else {
      PendingCounted(m[1..], cutoff);
      UncountedOne(Loss(StalePending, m[0].value.request));
      UncountedAppend([Loss(StalePending, m[0].value.request)], PendingLosses(m[1..], cutoff));
      assert [] + PendingLosses(m[1..], cutoff) == PendingLosses(m[1..], cutoff);
    }
  }

  lemma {:induction false} BodyCounted(c: Config, s: State, r: Rec)
    requires r.RequestBody?
    ensures !Uncounted(StepLosses(c, s, r))
  {
    hide FifoLosses, Uncounted;
    UncountedNone();
    var fifo := s.fifo + [Unclaimed(r.body, r.exchangeId, r.ts, r.model)];
    if |fifo| > c.maxPending {
      FifoCounted(fifo[..|fifo| - c.maxPending], CapTrim);
    }
  }

  lemma {:induction false} AccountUncounted(c: Config, s: State, r: Rec)
    requires r.Accounting?
    ensures Uncounted(StepLosses(c, s, r)) <==> Overwrites(s, r) || JoinsTextless(s, r) || JoinsUnbuildable(c, s, r)
    ensures Reported(StepLosses(c, s, r)) == 0
  {
    hide SettleLosses, Uncounted, Reported, Get, ClaimIndex, JoinsTextless, JoinsUnbuildable, Accounted, JoinRequest,
        JoinResponse;
    var over := [Loss(Overwritten, Held(Get(s.pending, AccountKey(s, r))))];
    var settled := SettleLosses(c, Accounted(s, r));
    AccountedIs(s, r);
    SettleUncounted(c, s, r, Accounted(s, r));
    UncountedOne(over[0]);
    OneLossCounts(over[0]);
    UncountedAppend(over, settled);
    ReportedAppend(over, settled);
    assert [] + settled == settled;
  }

  lemma {:induction false} OneLossCounts(l: Loss)
    ensures Reported([l]) == One(IsReported(l)) && Reported([]) == 0
  {
    assert [l][1..] == [];
  }

  lemma {:induction false} DiscardUncounted(s: State, r: Rec)
    requires r.ApiError?
    ensures Uncounted(DiscardLosses(s, r)) <==> ErrorDiscards(s, r)
    ensures Reported(DiscardLosses(s, r)) == 0
  {
    hide Uncounted, Reported, Get, ClaimIndex;
    UncountedNone();
    OneLossCounts(Loss(ErrorClaim, None));
    var claim, del: seq<Loss> := [], [];
    if s.fifo != [] {
      claim := [Loss(ErrorClaim, Some(s.fifo[ClaimIndex(s.fifo, r.model)].body))];
      UncountedOne(claim[0]);
      OneLossCounts(claim[0]);
    }
    if r.requestId.Some? && r.requestId.value != "" && Get(s.pending, RequestId(r.requestId.value)).Some? {
      del := [Loss(ErrorDelete, Held(Get(s.pending, RequestId(r.requestId.value))))];
      UncountedOne(del[0]);
      OneLossCounts(del[0]);
    }
    UncountedAppend(claim, del);
    ReportedAppend(claim, del);
    assert DiscardLosses(s, r) == claim + del;
  }

  predicate Guarded(c: Config, s: State, r: Rec) {
    Overwrites(s, r) || JoinsTextless(s, r) || JoinsUnbuildable(c, s, r) || ErrorDiscards(s, r)
  }

  lemma {:induction false} StepUncounted(c: Config, s: State, r: Rec)
    ensures Uncounted(StepLosses(c, s, r)) <==> Guarded(c, s, r)
    ensures Uncounted(StepLosses(c, s, r)) ==> Reported(StepLosses(c, s, r)) == 0
  {
    match r
    case RequestBody(_, _, _, _, _) =>
      BodyCounted(c, s, r);
      hide Uncounted, StepLosses, Reported;
    case Accounting(_, _, _, _, _, _) =>
      AccountUncounted(c, s, r);
      hide Uncounted, StepLosses, Reported;
    case ResponseBody(_, _, _, _) =>
      RespondedIs(s, r);
      SettleUncounted(c, s, r, Responded(s, r));
      hide Uncounted, SettleLosses, Reported, Responded;
    case ApiError(_, _, _, _) =>
      DiscardUncounted(s, r);
      hide Uncounted, DiscardLosses, Reported;
  }

  /** The record's own new body. */
  function Arriving(r: Rec, x: Body): nat { One(r.RequestBody? && r.body == x) }

  /** A record leaves a body in fewer places than before, its own new body included. */
  ghost predicate LosesBody(c: Config, s: State, r: Rec) {
    var t := Step(c, s, r);
    exists x: Body :: InState(t.s, x) + InOut(t.out, x) < InState(s, x) + Arriving(r, x)
  }

  /**
   * A record loses a body without counting it as dropped exactly when it claims a body
   * for an id that already holds one, completes an exchange that lacks a text or whose
   * texts do not build, or is an error that discards a waiting or held body.  Of these
   * only texts that do not parse or build are reported, by a diagnostic of their own.
   */
  lemma {:induction false} UncountedLossIff(c: Config, s: State, r: Rec)
    ensures LosesBody(c, s, r) && Step(c, s, r).s.dropped == s.dropped
        <==> Overwrites(s, r) || JoinsTextless(s, r) || JoinsUnbuildable(c, s, r) || ErrorDiscards(s, r)
  {
    var t, losses := Step(c, s, r), StepLosses(c, s, r);
    StepUncounted(c, s, r);
    ReportedIs(losses);
    if LosesBody(c, s, r) && t.s.dropped == s.dropped {
      var x: Body :| InState(t.s, x) + InOut(t.out, x) < InState(s, x) + Arriving(r, x);
      StepLinear(c, s, r, x);
      LostIs(losses, x);
      hide Step, StepLosses, InState, InOut, Overwrites, JoinsTextless, JoinsUnbuildable, ErrorDiscards;
      var i :| 0 <= i < |losses| && losses[i].body == Some(x);
      assert IsUncounted(losses[i]);
    }
    if Uncounted(losses) {
      var i :| 0 <= i < |losses| && IsUncounted(losses[i]);
      var x := losses[i].body.value;
      StepLinear(c, s, r, x);
      LostIs(losses, x);
      hide Step, StepLosses, InState, InOut, Arriving, Overwrites, JoinsTextless, JoinsUnbuildable, ErrorDiscards;
      assert InState(t.s, x) + InOut(t.out, x) < InState(s, x) + Arriving(r, x);
    }
  }

  /** Evictions count every body they give up. */
  lemma {:induction false} EvictionCounts(c: Config, s: State, nowMs: int, x: Body)
    requires InState(EvictStale(c, s, nowMs), x) < InState(s, x)
    ensures EvictStale(c, s, nowMs).dropped > s.dropped
  {
    var losses := EvictLosses(c, s, nowMs);
    EvictLinear(c, s, nowMs, x);
    EvictedCounted(c, s, nowMs);
    LostIs(losses, x);
    ReportedIs(losses);
    hide EvictStale, EvictLosses, InState;
    var i :| 0 <= i < |losses| && losses[i].body == Some(x);
    assert !IsUncounted(losses[i]);
  }

  lemma {:induction false} EvictedCounted(c: Config, s: State, nowMs: int)
    ensures !Uncounted(EvictLosses(c, s, nowMs))
  {
    hide FifoLosses, PendingLosses, Uncounted, DrainStale;
    UncountedNone();
    var cutoff := nowMs - c.ttlMs;
    DrainStaleShrinks(s.fifo, cutoff);
    var drained := DrainStale(s.fifo, cutoff);
    var a := FifoLosses(s.fifo[..|s.fifo| - |drained|], StaleFifo);
    var b := if |drained| > c.maxPending then FifoLosses(drained[..|drained| - c.maxPending], CapTrim) else [];
    FifoCounted(s.fifo[..|s.fifo| - |drained|], StaleFifo);
    if |drained| > c.maxPending {
      FifoCounted(drained[..|drained| - c.maxPending], CapTrim);
    }
    PendingCounted(s.pending, cutoff);
    UncountedAppend(a, b);
    UncountedAppend(a + b, PendingLosses(s.pending, cutoff));
  }

  /** Two bodies, and two accounting records that carry the same request id. */
  function SameIdTwice(a: Body, b: Body): seq<Rec> {
    [RequestBody(1, Fin(0), Some("m"), a, None), RequestBody(1, Fin(1), Some("m"), b, None),
     Accounting(1, Fin(2), Some("m"), Some("id"), None, None), Accounting(1, Fin(3), Some("m"), Some("id"), None, None)]
  }

  function OnlySecond(b: Body): State { EMPTY.(pending := [Joining(b)], newestTs := 1) }

  /** The overwrite is reachable: the first body is nowhere, and nothing was dropped. */
  lemma {:induction false} OverwriteReachable(c: Config, a: Body, b: Body)
    requires c.maxPending >= 2 && a != b
    ensures var t := Steps(c, EMPTY, SameIdTwice(a, b));
      && InState(t.s, a) == 0 && InOut(t.out, a) == 0 && t.s.dropped == 0
      && Lost(StepsLosses(c, EMPTY, SameIdTwice(a, b)), a) == 1
  {
    hide *;
    CapturedOnce(a, b);
    FirstNowhere(a, b);
    SameIdRun(c, a, b);
    StepsLinear(c, EMPTY, SameIdTwice(a, b), a);
  }

  lemma {:induction false} FirstNowhere(a: Body, b: Body)
    requires a != b
    ensures InState(OnlySecond(b), a) == 0 && InState(EMPTY, a) == 0 && InOut([], a) == 0
    ensures OnlySecond(b).dropped == 0
  {
    var m := [Joining(b)];
    assert m[1..] == [] && InPending(m, a) == Holds(Some(m[0].value), a) + InPending([], a);
    assert OnlySecond(b).pending == m;
  }

  lemma {:induction false} SameIdRun(c: Config, a: Body, b: Body)
    requires c.maxPending >= 2
    ensures Steps(c, EMPTY, SameIdTwice(a, b)) == Turn(OnlySecond(b), [])
  {
    var r := SameIdTwice(a, b);
    assert r[..0] == [] && r[..1] == [] + [r[0]] && r[..2] == r[..1] + [r[1]] && r[..3] == r[..2] + [r[2]];
    assert r == r[..3] + [r[3]] && Steps(c, EMPTY, []) == Turn(EMPTY, []);
    hide Step, Steps;
    StepsSnoc(c, EMPTY, [], r[0]);
    StepsSnoc(c, EMPTY, r[..1], r[1]);
    StepsSnoc(c, EMPTY, r[..2], r[2]);
    StepsSnoc(c, EMPTY, r[..3], r[3]);
    FirstTwo(c, a, b);
    FirstClaim(c, a, b);
    SecondClaim(c, a, b);
  }

  function Waits(body: Body): Unclaimed { Unclaimed(body, None, 1, Some("m")) }
  function Joining(body: Body): Entry<PendingKey, Pending> {
    Entry(RequestId("id"), Pending(Some(body), None, 1, 1, None, None))
  }

  lemma {:induction false} FirstTwo(c: Config, a: Body, b: Body)
    requires c.maxPending >= 2
    ensures var s1 := EMPTY.(fifo := [Waits(a)], newestTs := 1);
      && Step(c, EMPTY, SameIdTwice(a, b)[0]) == Turn(s1, [])
      && Step(c, s1, SameIdTwice(a, b)[1]) == Turn(EMPTY.(fifo := [Waits(a), Waits(b)], newestTs := 1), [])
  {
  }

  lemma {:induction false} FirstClaim(c: Config, a: Body, b: Body)
    ensures Step(c, EMPTY.(fifo := [Waits(a), Waits(b)], newestTs := 1), SameIdTwice(a, b)[2])
         == Turn(EMPTY.(fifo := [Waits(b)], pending := [Joining(a)], newestTs := 1), [])
  {
    var fifo := [Waits(a), Waits(b)];
    assert FindModel(fifo, "m") == 0 && RemoveAt(fifo, 0) == [Waits(b)];
  }

  lemma {:induction false} SecondClaim(c: Config, a: Body, b: Body)
    ensures Step(c, EMPTY.(fifo := [Waits(b)], pending := [Joining(a)], newestTs := 1), SameIdTwice(a, b)[3])
         == Turn(EMPTY.(pending := [Joining(b)], newestTs := 1), [])
  {
    var fifo := [Waits(b)];
    assert FindModel(fifo, "m") == 0 && RemoveAt(fifo, 0) == [];
    assert [Joining(a)][1..] == [];
  }

  lemma {:induction false} CapturedOnce(a: Body, b: Body)
    requires a != b
    ensures InRecs(SameIdTwice(a, b), a) == 1
  {
    var r := SameIdTwice(a, b);
    RecsSnoc([], r[0], a);
    RecsSnoc(r[..1], r[1], a);
    RecsSnoc(r[..2], r[2], a);
    RecsSnoc(r[..3], r[3], a);
    assert [] + [r[0]] == r[..1] && r[..1] + [r[1]] == r[..2] && r[..2] + [r[2]] == r[..3] && r[..3] + [r[3]] == r;
  }

  /** Two calls of different models; the first call's body is trimmed by a cap of one before it is claimed. */
  function TrimmedFirst(a: Body, b: Body, resp: Response): seq<Rec> {
    [RequestBody(1, Fin(0), Some("m"), a, None), RequestBody(1, Fin(1), Some("n"), b, None),
     Accounting(1, Fin(2), Some("m"), Some("id"), None, None), ResponseBody(1, Fin(3), Some("id"), resp)]
  }

  /**
   * A reported drop can pair across calls: the first call's response is joined to the
   * second call's body.  So joining each call to itself needs a stream without drops.
   */
  lemma {:induction false} DropMispairs(c: Config, a: Body, b: Body, resp: Response)
    requires c.maxPending == 1
    requires b.text.Some? && resp.text.Some? && c.buildable(b.text.value, resp.text.value)
    ensures Steps(c, EMPTY, TrimmedFirst(a, b, resp))
         == Turn(EMPTY.(newestTs := 1, dropped := 1), [Inference(b, resp, None, None, 1)])
  {
    var r := TrimmedFirst(a, b, resp);
    assert r[..0] == [] && r[..1] == [] + [r[0]] && r[..2] == r[..1] + [r[1]] && r[..3] == r[..2] + [r[2]];
    assert r == r[..3] + [r[3]] && Steps(c, EMPTY, []) == Turn(EMPTY, []);
    hide Step, Steps;
    StepsSnoc(c, EMPTY, [], r[0]);
    StepsSnoc(c, EMPTY, r[..1], r[1]);
    StepsSnoc(c, EMPTY, r[..2], r[2]);
    StepsSnoc(c, EMPTY, r[..3], r[3]);
    FirstTrimmed(c, a, b, resp);
    FallbackClaim(c, a, b, resp);
    WrongJoin(c, a, b, resp);
  }

  function OnlyOther(b: Body): State {
    EMPTY.(fifo := [Unclaimed(b, None, 1, Some("n"))], newestTs := 1, dropped := 1)
  }

  function WronglyJoining(b: Body): State { EMPTY.(pending := [Joining(b)], newestTs := 1, dropped := 1) }

  lemma {:induction false} FirstTrimmed(c: Config, a: Body, b: Body, resp: Response)
    requires c.maxPending == 1
    ensures var s1 := EMPTY.(fifo := [Waits(a)], newestTs := 1);
      && Step(c, EMPTY, TrimmedFirst(a, b, resp)[0]) == Turn(s1, [])
      && Step(c, s1, TrimmedFirst(a, b, resp)[1]) == Turn(OnlyOther(b), [])
  {
  }

  lemma {:induction false} FallbackClaim(c: Config, a: Body, b: Body, resp: Response)
    ensures Step(c, OnlyOther(b), TrimmedFirst(a, b, resp)[2]) == Turn(WronglyJoining(b), [])
  {
    var fifo := OnlyOther(b).fifo;
    assert "m"[0] != "n"[0] && FindModel(fifo, "m") == 1 && RemoveAt(fifo, 0) == [];
  }

  lemma {:induction false} WrongJoin(c: Config, a: Body, b: Body, resp: Response)
    requires b.text.Some? && resp.text.Some? && c.buildable(b.text.value, resp.text.value)
    ensures Step(c, WronglyJoining(b), TrimmedFirst(a, b, resp)[3])
         == Turn(EMPTY.(newestTs := 1, dropped := 1), [Inference(b, resp, None, None, 1)])
  {
    assert [Joining(b)][1..] == [];
  }
}
