/**
 * The correlator does what `CorrelatorPairing` says should come out: by
 * simulation over the record loop, then for every batching of the stream.
 */
module CorrelatorJoins {
  import opened Prelude
  import opened OrderedMap
  import opened CorrelatorModel
  import opened CorrelatorBatches
  import opened CorrelatorPairing

  /** What the pending map holds for one call after `evs`. */
  ghost predicate PendingOk(calls: seq<Call>, evs: seq<Ev>, pending: seq<Entry<PendingKey, Pending>>, k: nat)
    requires k < |calls|
  {
    var p, acct, resp := Get(pending, RequestId(calls[k].id)), AccountingOf(evs, k), ResponseOf(evs, k);
    if Failed(evs, k) then p.Some? ==> p.value.request.None?
    else if acct.Some? && resp.Some? then p == None
    else if acct.Some? then
      p == Some(Pending(Some(calls[k].body), None, calls[k].bodyTs, acct.value.ts,
                        acct.value.querySource, acct.value.agentName))
    else if resp.Some? then p == Some(Pending(None, Some(calls[k].response), 0, resp.value.ts, None, None))
    else p == None
  }

  ghost predicate Agrees(c: Config, calls: seq<Call>, evs: seq<Ev>, t: Turn)
    requires Known(calls, evs)
  {
    && Valid(calls, Waiting(evs))
    && t.s.fifo == Entries(calls, Waiting(evs))
    && UniqueKeys(t.s.pending)
    && (forall k :: 0 <= k < |calls| ==> PendingOk(calls, evs, t.s.pending, k))
    && t.out == Joined(c, calls, evs)
    && t.s.assignments == Bridges(calls, evs)
  }

  lemma {:induction false} SettleGet(c: Config, s: State, key: PendingKey, p: Pending, key': PendingKey)
    requires UniqueKeys(s.pending)
    ensures var t := Settle(c, s, key, p);
      && UniqueKeys(t.s.pending)
      && t.s.fifo == s.fifo && t.s.assignments == s.assignments
      && Get(t.s.pending, key') == (if key != key' then Get(s.pending, key')
                                    else if p.request.Some? && p.response.Some? then None else Some(p))
      && t.out == (if p.request.Some? && p.response.Some? then Built(c, p) else [])
  {
    PutKeys(s.pending, key, p);
    GetPut(s.pending, key, p, key');
    DeleteKeys(Put(s.pending, key, p), key);
    GetDelete(Put(s.pending, key, p), key, key');
  }

  /** An event says nothing about other calls. */
  lemma {:induction false} OtherCall(evs: seq<Ev>, e: Ev, k: nat)
    requires e.call != k
    ensures AccountingOf(evs + [e], k) == AccountingOf(evs, k)
    ensures ResponseOf(evs + [e], k) == ResponseOf(evs, k)
    ensures Failed(evs + [e], k) == Failed(evs, k)
  {
    assert (evs + [e])[..|evs|] == evs;
    assert forall x :: x in evs + [e] <==> x in evs || x == e;
  }

  lemma {:induction false} ThisCall(evs: seq<Ev>, e: Ev)
    ensures AccountingOf(evs + [e], e.call) == if e.SendAccounting? then Some(e) else AccountingOf(evs, e.call)
    ensures ResponseOf(evs + [e], e.call) == if e.SendResponse? then Some(e) else ResponseOf(evs, e.call)
    ensures Failed(evs + [e], e.call) == (e.SendError? || Failed(evs, e.call))
  {
    assert (evs + [e])[..|evs|] == evs;
    assert forall x :: x in evs + [e] <==> x in evs || x == e;
  }

  /** With one claim and one response per call, what an event excludes before it. */
  lemma {:induction false} Excludes(calls: seq<Call>, evs: seq<Ev>, e: Ev)
    requires WellFormed(calls, evs + [e])
    ensures IsClaim(e) ==> AccountingOf(evs, e.call).None? && !Failed(evs, e.call)
    ensures e.SendResponse? ==> ResponseOf(evs, e.call).None?
    ensures Failed(evs, e.call) ==> AccountingOf(evs, e.call).None?
  {
    var all := evs + [e];
    assert all[|evs|] == e;
    forall x | x in evs && x.call == e.call && IsClaim(x) ensures !IsClaim(e) {
      var i :| 0 <= i < |evs| && evs[i] == x;
      assert all[i] == x;
    }
    forall x | x in evs && x.call == e.call && x.SendResponse? ensures !e.SendResponse? {
      var i :| 0 <= i < |evs| && evs[i] == x;
      assert all[i] == x;
    }
    if x :| x in evs && x.SendError? && x.call == e.call {
      var i :| 0 <= i < |evs| && evs[i] == x;
      forall y | y in evs && y.SendAccounting? ensures y.call != e.call {
        var j :| 0 <= j < |evs| && evs[j] == y;
        assert i != j && all[i] == x && all[j] == y;
      }
    }
  }

  lemma {:induction false} ClaimsOwn(calls: seq<Call>, evs: seq<Ev>, e: Ev, fifo: seq<Unclaimed>)
    requires WellFormed(calls, evs + [e]) && IsClaim(e) && e.call < |calls|
    requires Known(calls, evs) && Valid(calls, Waiting(evs)) && fifo == Entries(calls, Waiting(evs))
    ensures Claimed(fifo, Some(calls[e.call].model)) == Some(EntryOf(calls[e.call]))
    ensures Valid(calls, Waiting(evs + [e]))
    ensures AfterClaim(fifo, Some(calls[e.call].model)) == Entries(calls, Waiting(evs + [e]))
  {
    var all := evs + [e];
    assert all[..|evs|] == evs && all[|all| - 1] == e;
    WellFormedPrefix(calls, all, |evs|);
    QueuesHold(calls, evs);
    OwnBodyIsNext(calls, all);
    ClaimTakesFirstOfModel(calls, Waiting(evs), e.call);
  }

  lemma {:induction false} IdsDiffer(calls: seq<Call>, i: nat, j: nat)
    requires DistinctIds(calls) && i < |calls| && j < |calls| && i != j
    ensures calls[i].id != calls[j].id
  {
    if i < j { } else { }
  }

  lemma {:induction false} BodyQuiet(c: Config, calls: seq<Call>, evs: seq<Ev>, e: Ev)
    requires Known(calls, evs + [e]) && Known(calls, evs) && (e.SendBody? || e.SendError?)
    ensures Joined(c, calls, evs + [e]) == Joined(c, calls, evs)
    ensures Bridges(calls, evs + [e]) == Bridges(calls, evs)
  {
    assert (evs + [e])[..|evs|] == evs;
  }

  lemma {:induction false} BodyStep(c: Config, calls: seq<Call>, evs: seq<Ev>, e: Ev, t: Turn)
    requires WellFormed(calls, evs + [e]) && Known(calls, evs) && e.call < |calls|
    requires Agrees(c, calls, evs, t) && e.SendBody? && Step(c, t.s, RecOf(calls, e)).s.dropped == t.s.dropped
    ensures var t' := Step(c, t.s, RecOf(calls, e)); Agrees(c, calls, evs + [e], Turn(t'.s, t.out + t'.out))
  {
    var all := evs + [e];
    assert all[..|evs|] == evs && all[..|all|] == all && all[|evs|] == e;
    hide Entries, Joined, Bridges;
    EntriesSnoc(calls, Waiting(evs), e.call);
    BodyQuiet(c, calls, evs, e);
    forall k | 0 <= k < |calls| ensures PendingOk(calls, all, t.s.pending, k) {
      assert PendingOk(calls, evs, t.s.pending, k);
      if k == e.call { ThisCall(evs, e); } else { OtherCall(evs, e, k); }
    }
  }

  lemma {:induction false} ErrorPending(calls: seq<Call>, evs: seq<Ev>, e: Ev, before: seq<Entry<PendingKey, Pending>>,
    after: seq<Entry<PendingKey, Pending>>, k: nat)
    requires e.call < |calls| && k < |calls| && DistinctIds(calls) && UniqueKeys(before)
    requires e.SendError? && AccountingOf(evs, e.call).None? && PendingOk(calls, evs, before, k)
    requires after == before || after == Delete(before, RequestId(calls[e.call].id))
    ensures PendingOk(calls, evs + [e], after, k)
  {
    GetDelete(before, RequestId(calls[e.call].id), RequestId(calls[k].id));
    if k == e.call {
      ThisCall(evs, e);
    } else {
      OtherCall(evs, e, k);
      IdsDiffer(calls, k, e.call);
    }
    hide Get, Delete, UniqueKeys, AccountingOf, ResponseOf, Failed, DistinctIds;
  }

  lemma {:induction false} ErrorDoes(c: Config, calls: seq<Call>, e: Ev, s: State)
    requires e.SendError? && e.call < |calls|
    ensures var t, id := Step(c, s, RecOf(calls, e)), RequestId(calls[e.call].id);
      && t.out == [] && t.s.fifo == AfterClaim(s.fifo, Some(calls[e.call].model))
      && (t.s.pending == s.pending || t.s.pending == Delete(s.pending, id))
      && t.s.assignments == s.assignments
  {
    hide AfterClaim, Delete;
  }

  lemma {:induction false} ErrorStep(c: Config, calls: seq<Call>, evs: seq<Ev>, e: Ev, t: Turn)
    requires WellFormed(calls, evs + [e]) && Known(calls, evs) && e.call < |calls|
    requires Agrees(c, calls, evs, t) && e.SendError?
    ensures var t' := Step(c, t.s, RecOf(calls, e)); Agrees(c, calls, evs + [e], Turn(t'.s, t.out + t'.out))
  {
    var all := evs + [e];
    assert DistinctIds(calls) && Known(calls, all);
    hide Entries, AfterClaim, Claimed, Delete, Get, UniqueKeys, WellFormed, DistinctIds, PendingOk, AccountingOf,
        ResponseOf, Failed, Joined, Bridges, Waiting, Known, Step;
    ErrorDoes(c, calls, e, t.s);
    assert t.out + [] == t.out;
    BodyQuiet(c, calls, evs, e);
    ClaimsOwn(calls, evs, e, t.s.fifo);
    Excludes(calls, evs, e);
    DeleteKeys(t.s.pending, RequestId(calls[e.call].id));
    var pending := Step(c, t.s, RecOf(calls, e)).s.pending;
    forall k | 0 <= k < |calls| ensures PendingOk(calls, all, pending, k) {
      ErrorPending(calls, evs, e, t.s.pending, pending, k);
    }
  }

  lemma {:induction false} AccountedOwn(c: Config, calls: seq<Call>, evs: seq<Ev>, e: Ev, s: State)
    requires WellFormed(calls, evs + [e]) && Known(calls, evs) && e.SendAccounting?
    requires Valid(calls, Waiting(evs)) && s.fifo == Entries(calls, Waiting(evs))
    requires e.call < |calls| && PendingOk(calls, evs, s.pending, e.call)
    ensures var k := calls[e.call];
      Accounted(s, RecOf(calls, e))
        == Pending(Some(k.body), if ResponseOf(evs, e.call).Some? then Some(k.response) else None,
                   k.bodyTs, e.ts, e.querySource, e.agentName)
  {
    hide Entries, Claimed;
    ClaimsOwn(calls, evs, e, s.fifo);
    Excludes(calls, evs, e);
  }

  lemma {:induction false} AccountingStep(c: Config, calls: seq<Call>, evs: seq<Ev>, e: Ev, t: Turn)
    requires WellFormed(calls, evs + [e]) && Known(calls, evs) && e.call < |calls|
    requires Agrees(c, calls, evs, t) && e.SendAccounting?
    ensures var t' := Step(c, t.s, RecOf(calls, e)); Agrees(c, calls, evs + [e], Turn(t'.s, t.out + t'.out))
  {
    hide Entries, AfterClaim, Claimed, Accounted, Settle, Built;
    var all := evs + [e];
    var r := RecOf(calls, e);
    var s := t.s.(newestTs := Max(r.ts, t.s.newestTs));
    var id := RequestId(calls[e.call].id);
    assert all[..|evs|] == evs && all[|evs|] == e;
    assert PendingOk(calls, evs, t.s.pending, e.call) && PendingOk(calls, evs, s.pending, e.call);
    ClaimsOwn(calls, evs, e, s.fifo);
    Excludes(calls, evs, e);
    AccountedOwn(c, calls, evs, e, s);
    var p := Accounted(s, r);
    SettleGet(c, Bridged(s, r), id, p, id);
    var pending := Step(c, t.s, r).s.pending;
    forall k | 0 <= k < |calls| ensures PendingOk(calls, all, pending, k) {
      SettleGet(c, Bridged(s, r), id, p, RequestId(calls[k].id));
      if k == e.call {
        ThisCall(evs, e);
      } else {
        assert PendingOk(calls, evs, t.s.pending, k);
        OtherCall(evs, e, k);
        IdsDiffer(calls, k, e.call);
      }
    }
  }

  lemma {:induction false} ResponseStep(c: Config, calls: seq<Call>, evs: seq<Ev>, e: Ev, t: Turn)
    requires WellFormed(calls, evs + [e]) && Known(calls, evs) && e.call < |calls|
    requires Agrees(c, calls, evs, t) && e.SendResponse?
    ensures var t' := Step(c, t.s, RecOf(calls, e)); Agrees(c, calls, evs + [e], Turn(t'.s, t.out + t'.out))
  {
    hide Entries, Settle, Built;
    var all := evs + [e];
    var r := RecOf(calls, e);
    var s := t.s.(newestTs := Max(r.ts, t.s.newestTs));
    var id := RequestId(calls[e.call].id);
    assert all[..|evs|] == evs && all[|evs|] == e;
    assert PendingOk(calls, evs, t.s.pending, e.call);
    Excludes(calls, evs, e);
    var p := PendingAt(s, id).(response := Some(r.response), endedAt := r.ts);
    SettleGet(c, s, id, p, id);
    var pending := Step(c, t.s, r).s.pending;
    forall k | 0 <= k < |calls| ensures PendingOk(calls, all, pending, k) {
      SettleGet(c, s, id, p, RequestId(calls[k].id));
      if k == e.call {
        ThisCall(evs, e);
      } else {
        assert PendingOk(calls, evs, t.s.pending, k);
        OtherCall(evs, e, k);
        IdsDiffer(calls, k, e.call);
      }
    }
  }

  lemma {:induction false} StepsAgree(c: Config, calls: seq<Call>, evs: seq<Ev>)
    requires WellFormed(calls, evs) && Known(calls, evs) && Steps(c, EMPTY, Recs(calls, evs)).s.dropped == 0
    ensures Agrees(c, calls, evs, Steps(c, EMPTY, Recs(calls, evs)))
  {
    hide WellFormed, Step;
    if evs != [] {
      var n := |evs| - 1;
      var init, e := evs[..n], evs[n];
      assert init + [e] == evs;
      WellFormedPrefix(calls, evs, n);
      StepsSnoc(c, EMPTY, Recs(calls, init), RecOf(calls, e));
      var t := Steps(c, EMPTY, Recs(calls, init));
      StepReports(c, t.s, RecOf(calls, e));
      StepsAgree(c, calls, init);
      match e
      case SendBody(_, _) => BodyStep(c, calls, init, e, t);
      case SendAccounting(_, _, _, _, _) => AccountingStep(c, calls, init, e, t);
      case SendError(_, _, _) => ErrorStep(c, calls, init, e, t);
      case SendResponse(_, _, _) => ResponseStep(c, calls, init, e, t);
    } else {
      assert Entries(calls, []) == [];
    }
  }

  // ------------------------------------------------------------- main results

  /**
   * Correct pairing, for any interleaving and any batching, of any length in time: as
   * long as no drop is reported, what is emitted is exactly each completed call's own
   * body joined to its own response, and the request ids assigned in the raw store are
   * each exchange's own.  `Processed` is the order in which ingest takes the records.
   */
  lemma {:induction false} EveryBodyMeetsItsResponse(c: Config, calls: seq<Call>, evs: seq<Ev>, batches: seq<seq<Rec>>)
    requires WellFormed(calls, evs) && Known(calls, evs) && Processed(batches) == Recs(calls, evs)
    requires IngestAll(c, EMPTY, batches).s.dropped == 0
    ensures var t := IngestAll(c, EMPTY, batches);
      && multiset(t.out) == multiset(Joined(c, calls, evs))
      && t.s.assignments == Bridges(calls, evs)
      && Valid(calls, Waiting(evs)) && t.s.fifo == Entries(calls, Waiting(evs))
  {
    hide WellFormed, Steps, IngestAll, Processed, Recs;
    IngestAllKeeps(c, EMPTY, batches);
    StepsAgree(c, calls, evs);
  }

  /** When the second of a call's accounting record and response came in. */
  function CompletedAt(evs: seq<Ev>, k: nat): int {
    if evs == [] then 0
    else
      var e := evs[|evs| - 1];
      if e.call == k && (e.SendAccounting? || e.SendResponse?) then e.ts else CompletedAt(evs[..|evs| - 1], k)
  }

  predicate Buildable(c: Config, k: Call) {
    k.body.text.Some? && k.response.text.Some? && c.buildable(k.body.text.value, k.response.text.value)
  }

  predicate Completed(evs: seq<Ev>, k: nat) { AccountingOf(evs, k).Some? && ResponseOf(evs, k).Some? }

  /** What is to be emitted for a completed call, field by field. */
  function Expected(c: Config, calls: seq<Call>, evs: seq<Ev>, k: nat): Inference
    requires k < |calls| && Completed(evs, k)
  {
    Inference(
      request := calls[k].body,
      response := calls[k].response,
      querySource := AccountingOf(evs, k).value.querySource,
      agentName := AccountingOf(evs, k).value.agentName,
      ts := if calls[k].bodyTs != 0 then calls[k].bodyTs
            else if CompletedAt(evs, k) != 0 then CompletedAt(evs, k) else c.clock)
  }

  lemma {:induction false} CompletedMore(evs: seq<Ev>, e: Ev, k: nat)
    ensures CompletedAt(evs + [e], k)
         == if e.call == k && (e.SendAccounting? || e.SendResponse?) then e.ts else CompletedAt(evs, k)
  {
    assert (evs + [e])[..|evs|] == evs;
  }

  /** What completes a call is its expected inference, if its texts build. */
  lemma {:induction false} CompletionIs(c: Config, calls: seq<Call>, evs: seq<Ev>, e: Ev)
    requires e.call < |calls|
    ensures var k, all := e.call, evs + [e];
      Completion(c, calls, evs, e)
      == if Completed(all, k) && (e.SendAccounting? || e.SendResponse?) && Buildable(c, calls[k])
         then [Expected(c, calls, all, k)] else []
  {
    ThisCall(evs, e);
    CompletedMore(evs, e, e.call);
    hide AccountingOf, ResponseOf, CompletedAt;
  }

  /** With one accounting record and one response per call, nothing later changes what was expected. */
  lemma {:induction false} ExpectedStays(c: Config, calls: seq<Call>, evs: seq<Ev>, e: Ev, k: nat)
    requires k < |calls| && Completed(evs, k)
    requires OnceEach(evs + [e])
    ensures Completed(evs + [e], k) && Expected(c, calls, evs + [e], k) == Expected(c, calls, evs, k)
  {
    CompletedMore(evs, e, k);
    if e.call == k {
      ThisCall(evs, e);
      NoSecond(evs, e);
    } else {
      OtherCall(evs, e, k);
    }
    hide AccountingOf, ResponseOf, CompletedAt, OnceEach;
  }

  lemma {:induction false} NoSecond(evs: seq<Ev>, e: Ev)
    requires OnceEach(evs + [e]) && Completed(evs, e.call)
    ensures !e.SendAccounting? && !e.SendResponse?
  {
    var all := evs + [e];
    var i :| 0 <= i < |evs| && evs[i] == AccountingOf(evs, e.call).value;
    var j :| 0 <= j < |evs| && evs[j] == ResponseOf(evs, e.call).value;
    assert all[i] == evs[i] && all[j] == evs[j] && all[|evs|] == e;
  }

  /**
   * Every emitted inference is one call's: never one call's body with another's response,
   * and, with one record of each kind per call, with that call's own source, agent and time.
   */
  lemma {:induction false} InferencesAreCalls(c: Config, calls: seq<Call>, evs: seq<Ev>,
      inf: Inference) returns (k: nat)
    requires Known(calls, evs) && inf in Joined(c, calls, evs)
    ensures k < |calls| && Completed(evs, k) && Buildable(c, calls[k])
    ensures inf.request == calls[k].body && inf.response == calls[k].response
    ensures OnceEach(evs) ==>
      && inf.querySource == AccountingOf(evs, k).value.querySource
      && inf.agentName == AccountingOf(evs, k).value.agentName
      && inf.ts == (if calls[k].bodyTs != 0 then calls[k].bodyTs
                    else if CompletedAt(evs, k) != 0 then CompletedAt(evs, k) else c.clock)
  {
    var n := |evs| - 1;
    var init, e := evs[..n], evs[n];
    assert init + [e] == evs;
    hide AccountingOf, ResponseOf, CompletedAt, Completion, Buildable;
    if inf in Joined(c, calls, init) {
      k := InferencesAreCalls(c, calls, init, inf);
      if k == e.call { ThisCall(init, e); } else { OtherCall(init, e, k); }
      if OnceEach(evs) {
        OnceBefore(init, e);
        ExpectedStays(c, calls, init, e, k);
      }
    } else {
      k := e.call;
      assert inf in Completion(c, calls, init, e);
      CompletionIs(c, calls, init, e);
    }
  }

  lemma {:induction false} OnceBefore(evs: seq<Ev>, e: Ev)
    requires OnceEach(evs + [e])
    ensures OnceEach(evs)
  {
    assert forall i :: 0 <= i < |evs| ==> (evs + [e])[i] == evs[i];
  }

  /** ... and every completed call whose texts build is emitted, so described. */
  lemma {:induction false} CallsAreInferences(c: Config, calls: seq<Call>, evs: seq<Ev>, k: nat)
    requires Known(calls, evs) && k < |calls| && Buildable(c, calls[k])
    requires AccountingOf(evs, k).Some? && ResponseOf(evs, k).Some?
    ensures exists inf :: inf in Joined(c, calls, evs)
                       && inf.request == calls[k].body && inf.response == calls[k].response
    ensures OnceEach(evs) ==> Expected(c, calls, evs, k) in Joined(c, calls, evs)
  {
    var n := |evs| - 1;
    var init, e := evs[..n], evs[n];
    assert init + [e] == evs;
    if e.call == k { ThisCall(init, e); } else { OtherCall(init, e, k); }
    if AccountingOf(init, k).Some? && ResponseOf(init, k).Some? {
      CallsAreInferences(c, calls, init, k);
      if OnceEach(evs) {
        OnceBefore(init, e);
        ExpectedStays(c, calls, init, e, k);
      }
    } else {
      assert e.call == k;
      CompletionIs(c, calls, init, e);
      assert Expected(c, calls, evs, k) in Completion(c, calls, init, e);
      assert Expected(c, calls, evs, k) in Joined(c, calls, evs);
    }
  }

  /**
   * As long as no drop is reported, what comes out of any batching is exactly the
   * expected inference of each completed call whose texts build.
   */
  lemma {:induction false} EmittedExactly(c: Config, calls: seq<Call>, evs: seq<Ev>, batches: seq<seq<Rec>>,
      inf: Inference)
    requires WellFormed(calls, evs) && Known(calls, evs) && Processed(batches) == Recs(calls, evs)
    requires IngestAll(c, EMPTY, batches).s.dropped == 0
    ensures inf in IngestAll(c, EMPTY, batches).out
        <==> exists k :: 0 <= k < |calls| && Completed(evs, k) && Buildable(c, calls[k])
                      && inf == Expected(c, calls, evs, k)
  {
    EveryBodyMeetsItsResponse(c, calls, evs, batches);
    assert OnceEach(evs);
    hide WellFormed, IngestAll, Processed, Recs, Joined, Buildable, AccountingOf, ResponseOf, CompletedAt;
    var out := IngestAll(c, EMPTY, batches).out;
    assert inf in out <==> inf in multiset(out);
    assert inf in Joined(c, calls, evs) <==> inf in multiset(Joined(c, calls, evs));
    if inf in out {
      var k := InferencesAreCalls(c, calls, evs, inf);
      assert inf == Expected(c, calls, evs, k);
    }
    if k :| 0 <= k < |calls| && Completed(evs, k) && Buildable(c, calls[k]) && inf == Expected(c, calls, evs, k) {
      CallsAreInferences(c, calls, evs, k);
    }
  }

  /** Each ingest hands on its inferences in time order. */
  lemma {:induction false} IngestInOrder(c: Config, s: State, recs: seq<Rec>)
    ensures var out := Ingest(c, s, recs).out; forall i, j :: 0 <= i < j < |out| ==> out[i].ts <= out[j].ts
  {
    assert Ordering(Earlier);
    var t := Steps(c, s, StableSort(recs, Before));
    hide StableSort, Steps, EvictStale;
    SortSorts(t.out, Earlier);
  }
}
