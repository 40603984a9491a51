/**
 * Correct pairing.  Each call emits its request body, then one accounting or
 * error record; per model those claims come in body order.  Under any
 * interleaving of calls and models every accounting record claims its own body
 * from the one shared FIFO, and what is emitted is each call's body joined to
 * the response with its request id.
 */
module CorrelatorPairing {
  import opened Prelude
  import opened CorrelatorModel

  /** One `/v1/messages` call, as its records will describe it. */
  datatype Call = Call(
    model: string, id: string,
    body: Body, exchangeId: Option<nat>, bodyTs: int,
    response: Response)

  datatype Ev =
    | SendBody(call: nat, seqNo: SeqNo)
    | SendAccounting(call: nat, ts: int, seqNo: SeqNo, querySource: Option<string>, agentName: Option<string>)
    | SendError(call: nat, ts: int, seqNo: SeqNo)
    | SendResponse(call: nat, ts: int, seqNo: SeqNo)

  predicate IsClaim(e: Ev) { e.SendAccounting? || e.SendError? }

  function RecOf(calls: seq<Call>, e: Ev): Rec
    requires e.call < |calls|
  {
    var k := calls[e.call];
    match e
    case SendBody(_, seqNo) => RequestBody(k.bodyTs, seqNo, Some(k.model), k.body, k.exchangeId)
    case SendAccounting(_, ts, seqNo, qs, agent) => Accounting(ts, seqNo, Some(k.model), Some(k.id), qs, agent)
    case SendError(_, ts, seqNo) => ApiError(ts, seqNo, Some(k.model), Some(k.id))
    case SendResponse(_, ts, seqNo) => ResponseBody(ts, seqNo, Some(k.id), k.response)
  }

  ghost predicate Known(calls: seq<Call>, evs: seq<Ev>) {
    forall i :: 0 <= i < |evs| ==> evs[i].call < |calls|
  }

  function Recs(calls: seq<Call>, evs: seq<Ev>): seq<Rec>
    requires Known(calls, evs)
  {
    if evs == [] then [] else Recs(calls, evs[..|evs| - 1]) + [RecOf(calls, evs[|evs| - 1])]
  }

  // ----------------------------------------------------- what a stream promises

  /** Calls of a model in the order their bodies were sent. */
  function BodiesOf(calls: seq<Call>, evs: seq<Ev>, model: string): seq<nat>
    requires Known(calls, evs)
  {
    if evs == [] then []
    else
      var e := evs[|evs| - 1];
      BodiesOf(calls, evs[..|evs| - 1], model) + if e.SendBody? && calls[e.call].model == model then [e.call] else []
  }

  /** Calls of a model in the order of their accounting or error records. */
  function ClaimsOf(calls: seq<Call>, evs: seq<Ev>, model: string): seq<nat>
    requires Known(calls, evs)
  {
    if evs == [] then []
    else
      var e := evs[|evs| - 1];
      ClaimsOf(calls, evs[..|evs| - 1], model) + if IsClaim(e) && calls[e.call].model == model then [e.call] else []
  }

  /** Per model, claims follow bodies and come in their order. */
  ghost predicate InBodyOrder(calls: seq<Call>, evs: seq<Ev>)
    requires Known(calls, evs)
  {
    forall k, m :: 0 <= k <= |evs| ==> ClaimsOf(calls, evs[..k], m) <= BodiesOf(calls, evs[..k], m)
  }

  /** No call sends two bodies, two claims or two responses. */
  ghost predicate OnceEach(evs: seq<Ev>) {
    forall i, j :: 0 <= i < j < |evs| && evs[i].call == evs[j].call ==>
      && !(evs[i].SendBody? && evs[j].SendBody?)
      && !(IsClaim(evs[i]) && IsClaim(evs[j]))
      && !(evs[i].SendResponse? && evs[j].SendResponse?)
  }

  ghost predicate DistinctIds(calls: seq<Call>) {
    forall i, j :: 0 <= i < j < |calls| ==> calls[i].id != calls[j].id
  }

  function RemoveFirst(w: seq<nat>, call: nat): seq<nat> {
    if w == [] then [] else if w[0] == call then w[1..] else [w[0]] + RemoveFirst(w[1..], call)
  }

  /** Calls whose body was sent and not yet claimed: the ideal queue, by call. */
  function Waiting(evs: seq<Ev>): seq<nat> {
    if evs == [] then []
    else
      var e, before := evs[|evs| - 1], Waiting(evs[..|evs| - 1]);
      if e.SendBody? then before + [e.call] else if IsClaim(e) then RemoveFirst(before, e.call) else before
  }

  ghost predicate WellFormed(calls: seq<Call>, evs: seq<Ev>) {
    Known(calls, evs) && InBodyOrder(calls, evs) && OnceEach(evs) && DistinctIds(calls)
  }

  // ------------------------------------------------------- what should come out

  function AccountingOf(evs: seq<Ev>, call: nat): (r: Option<Ev>)
    ensures r.Some? ==> r.value.SendAccounting? && r.value in evs && r.value.call == call
    ensures r.None? ==> forall e :: e in evs && e.SendAccounting? ==> e.call != call
  {
    if evs == [] then None
    else
      var e := evs[|evs| - 1];
      assert forall x :: x in evs <==> x in evs[..|evs| - 1] || x == e;
      if e.SendAccounting? && e.call == call then Some(e) else AccountingOf(evs[..|evs| - 1], call)
  }

  function ResponseOf(evs: seq<Ev>, call: nat): (r: Option<Ev>)
    ensures r.Some? ==> r.value.SendResponse? && r.value in evs && r.value.call == call
    ensures r.None? ==> forall e :: e in evs && e.SendResponse? ==> e.call != call
  {
    if evs == [] then None
    else
      var e := evs[|evs| - 1];
      assert forall x :: x in evs <==> x in evs[..|evs| - 1] || x == e;
      if e.SendResponse? && e.call == call then Some(e) else ResponseOf(evs[..|evs| - 1], call)
  }

  ghost predicate Failed(evs: seq<Ev>, call: nat) { exists e :: e in evs && e.SendError? && e.call == call }

  /** The inference of one call, if its texts are readable and build. */
  function Join(c: Config, k: Call, acct: Ev, endedAt: int): seq<Inference>
    requires acct.SendAccounting?
  {
    Built(c, Pending(Some(k.body), Some(k.response), k.bodyTs, endedAt, acct.querySource, acct.agentName))
  }

  /** What an event completes: the call whose accounting and response are now both in. */
  function Completion(c: Config, calls: seq<Call>, evs: seq<Ev>, e: Ev): seq<Inference>
    requires e.call < |calls|
  {
    if e.SendAccounting? && ResponseOf(evs, e.call).Some? then Join(c, calls[e.call], e, e.ts)
    else if e.SendResponse? && AccountingOf(evs, e.call).Some? then
      Join(c, calls[e.call], AccountingOf(evs, e.call).value, e.ts)
    else []
  }

  /** Each call's own body joined to its own response, in order of completion. */
  function Joined(c: Config, calls: seq<Call>, evs: seq<Ev>): seq<Inference>
    requires Known(calls, evs)
  {
    if evs == [] then []
    else
      var init := evs[..|evs| - 1];
      Joined(c, calls, init) + Completion(c, calls, init, evs[|evs| - 1])
  }

  /** Each accounting record bridges its own request id onto its own captured exchange. */
  function Bridges(calls: seq<Call>, evs: seq<Ev>): seq<Assigned>
    requires Known(calls, evs)
  {
    if evs == [] then []
    else
      var e := evs[|evs| - 1];
      Bridges(calls, evs[..|evs| - 1])
      + if e.SendAccounting? && calls[e.call].exchangeId.Some?
        then [Assigned(calls[e.call].exchangeId.value, calls[e.call].id, e.querySource, e.agentName)] else []
  }

  // ---------------------------------------------------------------- the queues

  function EntryOf(k: Call): Unclaimed { Unclaimed(k.body, k.exchangeId, k.bodyTs, Some(k.model)) }

  ghost predicate Valid(calls: seq<Call>, w: seq<nat>) { forall i :: 0 <= i < |w| ==> w[i] < |calls| }

  function Entries(calls: seq<Call>, w: seq<nat>): (r: seq<Unclaimed>)
    requires Valid(calls, w)
    ensures |r| == |w|
  {
    if w == [] then []
    else
      [EntryOf(calls[w[0]])] + Entries(calls, w[1..])
  }

  /** The waiting calls of one model. */
  function OfModel(calls: seq<Call>, w: seq<nat>, model: string): seq<nat>
    requires Valid(calls, w)
  {
    if w == [] then []
    else
      (if calls[w[0]].model == model then [w[0]] else []) + OfModel(calls, w[1..], model)
  }

  lemma {:induction false} EntriesSnoc(calls: seq<Call>, w: seq<nat>, i: nat)
    requires Valid(calls, w) && i < |calls|
    ensures Valid(calls, w + [i])
    ensures Entries(calls, w + [i]) == Entries(calls, w) + [EntryOf(calls[i])]
  {
    if w == [] {
      assert w + [i] == [i] && [i][1..] == [];
    } else {
      assert (w + [i])[0] == w[0] && (w + [i])[1..] == w[1..] + [i];
      EntriesSnoc(calls, w[1..], i);
    }
  }

  lemma {:induction false} OfModelSnoc(calls: seq<Call>, w: seq<nat>, i: nat, m: string)
    requires Valid(calls, w) && i < |calls| && Valid(calls, w + [i])
    ensures OfModel(calls, w + [i], m) == OfModel(calls, w, m) + if calls[i].model == m then [i] else []
  {
    if w == [] {
      assert w + [i] == [i] && [i][1..] == [];
    } else {
      assert (w + [i])[0] == w[0] && (w + [i])[1..] == w[1..] + [i];
      var head := if calls[w[0]].model == m then [w[0]] else [];
      assert OfModel(calls, w, m) == head + OfModel(calls, w[1..], m);
      assert OfModel(calls, w + [i], m) == head + OfModel(calls, w[1..] + [i], m);
      hide OfModel;
      OfModelSnoc(calls, w[1..], i, m);
    }
  }

  /** Searching by model finds the call that is first of its model, and removing it removes that call. */
  lemma {:induction false} ClaimTakesFirstOfModel(calls: seq<Call>, w: seq<nat>, call: nat)
    requires Valid(calls, w) && call < |calls|
    requires var q := OfModel(calls, w, calls[call].model); q != [] && q[0] == call
    ensures Valid(calls, RemoveFirst(w, call))
    ensures var m, es := calls[call].model, Entries(calls, w);
      && FindModel(es, m) < |es| && es[FindModel(es, m)] == EntryOf(calls[call])
      && RemoveAt(es, FindModel(es, m)) == Entries(calls, RemoveFirst(w, call))
  {
    var es, m := Entries(calls, w), calls[call].model;
    var tail := Entries(calls, w[1..]);
    assert es == [EntryOf(calls[w[0]])] + tail && es[1..] == tail;
    if calls[w[0]].model == m {
      assert w[0] == call;
      assert RemoveAt(es, 0) == tail;
    } else {
      ClaimTakesFirstOfModel(calls, w[1..], call);
      var i := FindModel(tail, m);
      assert FindModel(es, m) == 1 + i;
      RemoveAtCons(es, i);
      hide FindModel, RemoveAt, OfModel;
      var rest := RemoveFirst(w[1..], call);
      assert RemoveFirst(w, call) == [w[0]] + rest && ([w[0]] + rest)[1..] == rest;
    }
  }

  lemma {:induction false} ClaimLeavesOtherModels(calls: seq<Call>, w: seq<nat>, call: nat, model: string)
    requires Valid(calls, w) && call < |calls| && Valid(calls, RemoveFirst(w, call))
    requires var q := OfModel(calls, w, calls[call].model); q != [] && q[0] == call
    ensures OfModel(calls, RemoveFirst(w, call), model)
         == if model == calls[call].model then OfModel(calls, w, model)[1..] else OfModel(calls, w, model)
  {
    if w[0] == call {
      assert RemoveFirst(w, call) == w[1..];
    } else {
      var rest := RemoveFirst(w[1..], call);
      assert RemoveFirst(w, call) == [w[0]] + rest && ([w[0]] + rest)[1..] == rest;
      ClaimLeavesOtherModels(calls, w[1..], call, model);
    }
  }

  lemma {:induction false} WaitingValid(calls: seq<Call>, evs: seq<Ev>)
    requires Known(calls, evs)
    ensures Valid(calls, Waiting(evs))
  {
    if evs == [] {
    } else {
      WaitingValid(calls, evs[..|evs| - 1]);
      RemoveFirstValid(calls, Waiting(evs[..|evs| - 1]), evs[|evs| - 1].call);
    }
  }

  lemma {:induction false} RemoveFirstValid(calls: seq<Call>, w: seq<nat>, call: nat)
    requires Valid(calls, w)
    ensures Valid(calls, RemoveFirst(w, call))
  {
    if w == [] {
    } else {
      RemoveFirstValid(calls, w[1..], call);
    }
  }

  /** The shared queue, seen by one model, is that model's bodies minus its claims. */
  ghost predicate PerModelQueues(calls: seq<Call>, evs: seq<Ev>, w: seq<nat>)
    requires Known(calls, evs) && Valid(calls, w)
  {
    forall m :: |ClaimsOf(calls, evs, m)| <= |BodiesOf(calls, evs, m)|
             && OfModel(calls, w, m) == BodiesOf(calls, evs, m)[|ClaimsOf(calls, evs, m)|..]
  }

  lemma {:induction false} WellFormedPrefix(calls: seq<Call>, evs: seq<Ev>, n: nat)
    requires WellFormed(calls, evs) && n <= |evs|
    ensures WellFormed(calls, evs[..n])
  {
    var init := evs[..n];
    forall k, m | 0 <= k <= |init| ensures ClaimsOf(calls, init[..k], m) <= BodiesOf(calls, init[..k], m) {
      assert init[..k] == evs[..k];
    }
  }

  lemma {:induction false} PrefixClaims(calls: seq<Call>, evs: seq<Ev>, m: string)
    requires WellFormed(calls, evs)
    ensures ClaimsOf(calls, evs, m) <= BodiesOf(calls, evs, m)
  {
    assert evs[..|evs|] == evs;
  }

  /** A claim finds its own call at the head of its model's queue. */
  lemma {:induction false} OwnBodyIsNext(calls: seq<Call>, evs: seq<Ev>)
    requires WellFormed(calls, evs) && evs != [] && IsClaim(evs[|evs| - 1])
    requires var init := evs[..|evs| - 1];
      Valid(calls, Waiting(init)) && PerModelQueues(calls, init, Waiting(init))
    ensures var e := evs[|evs| - 1];
      var q := OfModel(calls, Waiting(evs[..|evs| - 1]), calls[e.call].model);
      q != [] && q[0] == e.call
  {
    var e, init := evs[|evs| - 1], evs[..|evs| - 1];
    var m := calls[e.call].model;
    PrefixClaims(calls, evs, m);
    var claims, bodies := ClaimsOf(calls, init, m), BodiesOf(calls, init, m);
    assert ClaimsOf(calls, evs, m) == claims + [e.call] && BodiesOf(calls, evs, m) == bodies;
    assert (claims + [e.call])[|claims|] == bodies[|claims|];
  }

  /** What one more event adds to the lists a model's queue is made of. */
  lemma {:induction false} OneMore(calls: seq<Call>, evs: seq<Ev>, m: string)
    requires Known(calls, evs) && evs != []
    ensures var e, init := evs[|evs| - 1], evs[..|evs| - 1];
      && Waiting(evs) == (if e.SendBody? then Waiting(init) + [e.call]
                          else if IsClaim(e) then RemoveFirst(Waiting(init), e.call) else Waiting(init))
      && BodiesOf(calls, evs, m)
         == BodiesOf(calls, init, m) + (if e.SendBody? && calls[e.call].model == m then [e.call] else [])
      && ClaimsOf(calls, evs, m)
         == ClaimsOf(calls, init, m) + (if IsClaim(e) && calls[e.call].model == m then [e.call] else [])
  {
  }

  /** A new body goes to the back of its model's queue. */
  lemma {:induction false} QueueGrows(calls: seq<Call>, w: seq<nat>, i: nat, m: string, bodies: seq<nat>,
      bodies': seq<nat>, n: nat)
    requires i < |calls| && Valid(calls, w) && Valid(calls, w + [i])
    requires bodies' == bodies + if calls[i].model == m then [i] else []
    requires n <= |bodies| && OfModel(calls, w, m) == bodies[n..]
    ensures n <= |bodies'| && OfModel(calls, w + [i], m) == bodies'[n..]
  {
    hide *;
    OfModelSnoc(calls, w, i, m);
    TailSnoc(bodies, n, i);
  }

  /** A claim takes the head of its own model's queue, and leaves the others alone. */
  lemma {:induction false} QueueShrinks(calls: seq<Call>, w: seq<nat>, i: nat, m: string, bodies: seq<nat>,
      claims: seq<nat>, claims': seq<nat>)
    requires i < |calls| && Valid(calls, w) && Valid(calls, RemoveFirst(w, i))
    requires var q := OfModel(calls, w, calls[i].model); q != [] && q[0] == i
    requires claims' == claims + if calls[i].model == m then [i] else []
    requires |claims| <= |bodies| && OfModel(calls, w, m) == bodies[|claims|..]
    ensures |claims'| <= |bodies| && OfModel(calls, RemoveFirst(w, i), m) == bodies[|claims'|..]
  {
    hide *;
    ClaimLeavesOtherModels(calls, w, i, m);
    TailOfTail(bodies, |claims|);
  }

  lemma {:induction false} QueuesStep(calls: seq<Call>, evs: seq<Ev>, m: string)
    requires WellFormed(calls, evs) && evs != []
    requires var init := evs[..|evs| - 1]; Valid(calls, Waiting(init)) && PerModelQueues(calls, init, Waiting(init))
    requires Valid(calls, Waiting(evs))
    ensures |ClaimsOf(calls, evs, m)| <= |BodiesOf(calls, evs, m)|
    ensures OfModel(calls, Waiting(evs), m) == BodiesOf(calls, evs, m)[|ClaimsOf(calls, evs, m)|..]
  {
    var e, init := evs[|evs| - 1], evs[..|evs| - 1];
    assert Known(calls, evs) && Known(calls, init) && (e.SendBody? ==> !IsClaim(e));
    assert e.call < |calls|;
    hide *;
    var w, bodies, claims := Waiting(init), BodiesOf(calls, init, m), ClaimsOf(calls, init, m);
    var bodies', claims' := BodiesOf(calls, evs, m), ClaimsOf(calls, evs, m);
    QueueOf(calls, init, w, m);
    OneMore(calls, evs, m);
    if e.SendBody? {
      assert claims' == claims;
      QueueGrows(calls, w, e.call, m, bodies, bodies', |claims|);
    } else if IsClaim(e) {
      assert bodies' == bodies;
      OwnBodyIsNext(calls, evs);
      QueueShrinks(calls, w, e.call, m, bodies, claims, claims');
    } else {
      assert bodies' == bodies && claims' == claims;
    }
  }

  lemma {:induction false} QueueOf(calls: seq<Call>, evs: seq<Ev>, w: seq<nat>, m: string)
    requires Known(calls, evs) && Valid(calls, w) && PerModelQueues(calls, evs, w)
    ensures |ClaimsOf(calls, evs, m)| <= |BodiesOf(calls, evs, m)|
    ensures OfModel(calls, w, m) == BodiesOf(calls, evs, m)[|ClaimsOf(calls, evs, m)|..]
  {
    hide Known, Valid, OfModel, BodiesOf, ClaimsOf;
  }

  lemma {:induction false} TailSnoc<T>(s: seq<T>, n: nat, x: T)
    requires n <= |s|
    ensures (s + [x])[n..] == s[n..] + [x]
  {
  }

  lemma {:induction false} TailOfTail<T>(s: seq<T>, n: nat)
    requires n <= |s|
    ensures n < |s| ==> s[n..][1..] == s[n + 1..]
  {
  }

  lemma {:induction false} QueuesHold(calls: seq<Call>, evs: seq<Ev>)
    requires WellFormed(calls, evs)
    ensures Valid(calls, Waiting(evs)) && PerModelQueues(calls, evs, Waiting(evs))
  {
    hide WellFormed;
    KnownOf(calls, evs);
    WaitingValid(calls, evs);
    if evs == [] {
    } else {
      WellFormedPrefix(calls, evs, |evs| - 1);
      QueuesHold(calls, evs[..|evs| - 1]);
      forall m ensures |ClaimsOf(calls, evs, m)| <= |BodiesOf(calls, evs, m)|
                    && OfModel(calls, Waiting(evs), m) == BodiesOf(calls, evs, m)[|ClaimsOf(calls, evs, m)|..] {
        QueuesStep(calls, evs, m);
      }
    }
  }

  lemma {:induction false} KnownOf(calls: seq<Call>, evs: seq<Ev>)
    requires WellFormed(calls, evs)
    ensures Known(calls, evs)
  {
  }
}
