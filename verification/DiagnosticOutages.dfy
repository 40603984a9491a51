/**
 * The outage latch over whole runs: a call that threw latches, a durable fact of the
 * outage is what releases it, and every release has left one.
 */
module DiagnosticOutages {
  import opened Prelude
  import opened DiagnosticModel
  import opened DiagnosticLedger
  import opened DiagnosticCoverage
  import opened DiagnosticAnswers
  import opened DiagnosticHealth

  /**
   * An emitter call, whose driver throws at unit `fault` (if there is one) and throws
   * on the outage fact if `factFault`; or any other use of the tables, such as a sweep,
   * which has nothing to do with the latch.
   */
  datatype Op =
    | EmitOp(action: Action, t: int, fault: nat, factFault: bool)
    | OtherOp(units: seq<Unit>, t: int)

  datatype Store = Store(tables: State, writeFailed: bool)

  const NEW_STORE := Store(EMPTY, false)

  predicate Throws(op: Op) { op.EmitOp? && op.fault < |UnitsOf(op.action)| }

  /** A call that would also get the outage fact written, were there one to write. */
  predicate Succeeds(op: Op) { op.EmitOp? && !Throws(op) && !op.factFault }

  const OUTAGE: Unit := FactUnit(UNAVAILABLE, 1)

  function UnitsRun(op: Op, latched: bool): seq<Unit> {
    if op.OtherOp? then op.units
    else if Throws(op) then UnitsOf(op.action)[..op.fault]
    else UnitsOf(op.action) + if latched && Succeeds(op) then [OUTAGE] else []
  }

  function LatchAfter(op: Op, latched: bool): bool { Throws(op) || (latched && !Succeeds(op)) }

  function StoreStep(c: Config, s: Store, op: Op): Store {
    Store(Run(c, s.tables, At(op.t, UnitsRun(op, s.writeFailed))), LatchAfter(op, s.writeFailed))
  }

  function StoreRun(c: Config, s: Store, ops: seq<Op>): Store {
    if ops == [] then s else StoreStep(c, StoreRun(c, s, ops[..|ops| - 1]), ops[|ops| - 1])
  }

  /** The latch, which the tables never influence. */
  function Latch(ops: seq<Op>): bool {
    ops != [] && LatchAfter(ops[|ops| - 1], Latch(ops[..|ops| - 1]))
  }

  /** Every unit the run performs, at its time. */
  function StepsOf(ops: seq<Op>): seq<Step> {
    if ops == [] then []
    else
      var n := |ops| - 1;
      StepsOf(ops[..n]) + At(ops[n].t, UnitsRun(ops[n], Latch(ops[..n])))
  }

  /** The outage fact lands in call `i`, and the latch clears. */
  predicate LandsAt(ops: seq<Op>, i: nat) {
    i < |ops| && Latch(ops[..i]) && Succeeds(ops[i])
  }

  // ------------------------------------------------------------------- the latch

  lemma {:induction false} RunIsSteps(c: Config, ops: seq<Op>)
    ensures StoreRun(c, NEW_STORE, ops) == Store(Run(c, EMPTY, StepsOf(ops)), Latch(ops))
  {
    hide UnitsRun, At;
    if ops == [] {
    } else {
      var n := |ops| - 1;
      RunIsSteps(c, ops[..n]);
      RunAppend(c, EMPTY, StepsOf(ops[..n]), At(ops[n].t, UnitsRun(ops[n], Latch(ops[..n]))));
    }
  }

  /** Some call threw and none since has succeeded. */
  ghost predicate ThrewUnhealed(ops: seq<Op>) {
    exists i :: 0 <= i < |ops| && Throws(ops[i]) && forall j :: i < j < |ops| ==> !Succeeds(ops[j])
  }

  lemma {:induction false} UnhealedStep(ops: seq<Op>)
    requires ops != []
    ensures var n := |ops| - 1;
      ThrewUnhealed(ops) <==> Throws(ops[n]) || (ThrewUnhealed(ops[..n]) && !Succeeds(ops[n]))
  {
    hide Throws, Succeeds;
    var n := |ops| - 1;
    if i :| 0 <= i < |ops| && Throws(ops[i]) && forall j :: i < j < |ops| ==> !Succeeds(ops[j]) {
      if i < n {
        assert Throws(ops[..n][i]) && forall j :: i < j < n ==> !Succeeds(ops[..n][j]);
      }
    }
    if ThrewUnhealed(ops[..n]) && !Succeeds(ops[n]) {
      var i :| 0 <= i < n && Throws(ops[..n][i]) && forall j :: i < j < n ==> !Succeeds(ops[..n][j]);
      assert Throws(ops[i]);
      forall j | i < j < |ops| ensures !Succeeds(ops[j]) {
        assert j < n ==> ops[..n][j] == ops[j];
      }
    }
  }

  lemma {:induction false} LatchUnhealed(ops: seq<Op>)
    ensures Latch(ops) <==> ThrewUnhealed(ops)
  {
    if ops == [] {
    } else {
      hide ThrewUnhealed, Throws, Succeeds;
      LatchUnhealed(ops[..|ops| - 1]);
      UnhealedStep(ops);
    }
  }

  /** A call that succeeds after a throw finds the latch set, or one between them did: so some fact lands. */
  lemma {:induction false} SuccessLands(ops: seq<Op>, i: nat, j: nat) returns (k: nat)
    requires i < j < |ops| && Throws(ops[i]) && Succeeds(ops[j])
    ensures i < k <= j && LandsAt(ops, k)
    decreases j - i
  {
    if k' :| i < k' < j && Succeeds(ops[k']) {
      k := SuccessLands(ops, i, k');
    } else {
      k := j;
      LatchUnhealed(ops[..j]);
      assert Throws(ops[..j][i]) && forall m :: i < m < j ==> !Succeeds(ops[..j][m]);
    }
  }

  /**
   * Over any run of a new store the latch is set exactly when some call threw after the
   * last outage fact that landed, that is, when no later call got through.
   */
  lemma {:induction false} LatchIs(c: Config, ops: seq<Op>)
    ensures StoreRun(c, NEW_STORE, ops).writeFailed <==> ThrewUnhealed(ops)
    ensures ThrewUnhealed(ops)
        <==> exists i :: 0 <= i < |ops| && Throws(ops[i]) && forall j :: i < j < |ops| ==> !LandsAt(ops, j)
  {
    RunIsSteps(c, ops);
    LatchUnhealed(ops);
    hide Throws, Succeeds, LandsAt, StoreRun, Latch;
    if ThrewUnhealed(ops) {
      var i :| 0 <= i < |ops| && Throws(ops[i]) && forall j :: i < j < |ops| ==> !Succeeds(ops[j]);
      forall j | i < j < |ops| ensures !LandsAt(ops, j) {
        if LandsAt(ops, j) {
          LandsSucceeds(ops, j);
        }
      }
    }
    if i :| 0 <= i < |ops| && Throws(ops[i]) && forall j :: i < j < |ops| ==> !LandsAt(ops, j) {
      forall j | i < j < |ops| ensures !Succeeds(ops[j]) {
        if Succeeds(ops[j]) {
          var k := SuccessLands(ops, i, j);
        }
      }
    }
  }

  lemma {:induction false} LandsSucceeds(ops: seq<Op>, j: nat)
    requires LandsAt(ops, j)
    ensures Succeeds(ops[j])
  {
  }

  // ---------------------------------------------------------------- what it records

  predicate IsOutage(o: Occ) { o.fact && o.cause == UNAVAILABLE }

  /** Only an emitter call writes the outage fact. */
  predicate OutagesByEmitters(ops: seq<Op>) {
    forall i :: 0 <= i < |ops| && ops[i].OtherOp? ==>
      forall u :: u in ops[i].units ==> !(u.FactUnit? && u.fact == UNAVAILABLE)
  }

  /** How often the latch cleared. */
  function Cleared(ops: seq<Op>): nat {
    if ops == [] then 0 else Cleared(ops[..|ops| - 1]) + One(Latch(ops[..|ops| - 1]) && Succeeds(ops[|ops| - 1]))
  }

  /** Units that write no outage fact leave none behind. */
  lemma {:induction false} NoOutageWritten(c: Config, s: State, steps: seq<Step>)
    requires forall i :: 0 <= i < |steps| && steps[i].u.FactUnit? ==> steps[i].u.fact != UNAVAILABLE
    ensures Weigh(History(c, s, steps), IsOutage) == 0
    decreases |steps|
  {
    if steps == [] {
    } else {
      var s1, added := Apply(c, s, steps[0]), Added(c, s, steps[0]);
      NoOutageWritten(c, s1, steps[1..]);
      WeighAppend(added, History(c, s1, steps[1..]), IsOutage);
      UnitWrites(c, s, steps[0]);
    }
  }

  lemma {:induction false} UnitWrites(c: Config, s: State, step: Step)
    requires step.u.FactUnit? ==> step.u.fact != UNAVAILABLE
    ensures Weigh(Added(c, s, step), IsOutage) == 0
  {
    forall o | o in Added(c, s, step) ensures !IsOutage(o) {
      if step.u.InsertUnit? {
        EventOccsIn(EventsFor(step.u.cause, step.u.members, step.t), o);
      }
    }
    hide Added;
    WeighNone(Added(c, s, step), IsOutage);
  }

  /** A call's own units, in whole or in part, write no outage fact. */
  lemma {:induction false} ActionWrites(a: Action, n: nat)
    requires n <= |UnitsOf(a)|
    ensures forall u :: u in UnitsOf(a)[..n] ==> !(u.FactUnit? && u.fact == UNAVAILABLE)
  {
    forall u | u in UnitsOf(a)[..n] ensures !(u.FactUnit? && u.fact == UNAVAILABLE) {
      assert u in UnitsOf(a);
    }
  }

  /** One operation writes an outage fact exactly when it clears the latch. */
  lemma {:induction false} OpWrites(c: Config, s: State, op: Op, latched: bool)
    requires op.OtherOp? ==> forall u :: u in op.units ==> !(u.FactUnit? && u.fact == UNAVAILABLE)
    ensures Weigh(History(c, s, At(op.t, UnitsRun(op, latched))), IsOutage) == One(latched && Succeeds(op))
    ensures latched && Succeeds(op) ==>
      Occ(UNAVAILABLE, UNATTRIBUTED, op.t, 1, true) in History(c, s, At(op.t, UnitsRun(op, latched)))
  {
    if latched && Succeeds(op) {
      var own := At(op.t, UnitsOf(op.action));
      var fact := Step(op.t, OUTAGE);
      assert UnitsOf(op.action)[..|UnitsOf(op.action)|] == UnitsOf(op.action);
      ActionWrites(op.action, |UnitsOf(op.action)|);
      NoOutageWritten(c, s, own);
      assert At(op.t, UnitsRun(op, latched)) == own + [fact];
      RunAppend(c, s, own, [fact]);
      FactWritten(c, Run(c, s, own), op.t);
      WeighAppend(History(c, s, own), History(c, Run(c, s, own), [fact]), IsOutage);
    } else {
      if op.EmitOp? {
        ActionWrites(op.action, if Throws(op) then op.fault else |UnitsOf(op.action)|);
        assert UnitsOf(op.action)[..|UnitsOf(op.action)|] == UnitsOf(op.action);
        assert UnitsOf(op.action) + [] == UnitsOf(op.action);
      }
      NoOutageWritten(c, s, At(op.t, UnitsRun(op, latched)));
    }
  }

  lemma {:induction false} FactWritten(c: Config, s: State, t: int)
    ensures var o := Occ(UNAVAILABLE, UNATTRIBUTED, t, 1, true);
      o in History(c, s, [Step(t, OUTAGE)]) && Weigh(History(c, s, [Step(t, OUTAGE)]), IsOutage) == 1
  {
    var o := Occ(UNAVAILABLE, UNATTRIBUTED, t, 1, true);
    assert [Step(t, OUTAGE)][1..] == [] && [o][1..] == [];
    assert History(c, s, [Step(t, OUTAGE)]) == [o] + [];
  }

  /** One more operation, and what it writes. */
  lemma {:induction false} OneMoreOp(c: Config, ops: seq<Op>)
    requires ops != []
    ensures var n := |ops| - 1;
      var before := StepsOf(ops[..n]);
      History(c, EMPTY, StepsOf(ops)) == History(c, EMPTY, before)
        + History(c, Run(c, EMPTY, before), At(ops[n].t, UnitsRun(ops[n], Latch(ops[..n]))))
  {
    hide Run, History, UnitsRun, At, Latch;
    var n := |ops| - 1;
    RunAppend(c, EMPTY, StepsOf(ops[..n]), At(ops[n].t, UnitsRun(ops[n], Latch(ops[..n]))));
  }

  lemma {:induction false} EmittersBefore(ops: seq<Op>, n: nat)
    requires OutagesByEmitters(ops) && n < |ops|
    ensures OutagesByEmitters(ops[..n])
    ensures ops[n].OtherOp? ==> forall u :: u in ops[n].units ==> !(u.FactUnit? && u.fact == UNAVAILABLE)
  {
    assert forall i :: 0 <= i < n ==> ops[..n][i] == ops[i];
  }

  lemma {:induction false} ClearedUnfolds(ops: seq<Op>)
    ensures ops == [] ==> Cleared(ops) == 0 && StepsOf(ops) == []
    ensures ops != [] ==>
      Cleared(ops) == Cleared(ops[..|ops| - 1]) + One(Latch(ops[..|ops| - 1]) && Succeeds(ops[|ops| - 1]))
  {
    hide Latch, Succeeds;
  }

  /**
   * Every clearing of the latch has left its own outage fact, and nothing else writes
   * one: over any run as many facts are written as the latch was cleared.
   */
  lemma {:induction false} OutagesRecorded(c: Config, ops: seq<Op>)
    requires OutagesByEmitters(ops)
    ensures Weigh(History(c, EMPTY, StepsOf(ops)), IsOutage) == Cleared(ops)
  {
    ClearedUnfolds(ops);
    if ops == [] {
    } else {
      hide *;
      var n := |ops| - 1;
      var before, units := StepsOf(ops[..n]), At(ops[n].t, UnitsRun(ops[n], Latch(ops[..n])));
      EmittersBefore(ops, n);
      OutagesRecorded(c, ops[..n]);
      OpWrites(c, Run(c, EMPTY, before), ops[n], Latch(ops[..n]));
      OneMoreOp(c, ops);
      WeighAppend(History(c, EMPTY, before), History(c, Run(c, EMPTY, before), units), IsOutage);
    }
  }

  lemma {:induction false} LandsBefore(ops: seq<Op>, i: nat)
    requires LandsAt(ops, i) && i < |ops| - 1
    ensures LandsAt(ops[..|ops| - 1], i) && ops[..|ops| - 1][i] == ops[i]
  {
    hide Latch, Succeeds;
    assert ops[..|ops| - 1][..i] == ops[..i];
  }

  lemma {:induction false} LastRecorded(c: Config, ops: seq<Op>)
    requires OutagesByEmitters(ops) && ops != [] && LandsAt(ops, |ops| - 1)
    ensures Occ(UNAVAILABLE, UNATTRIBUTED, ops[|ops| - 1].t, 1, true) in History(c, EMPTY, StepsOf(ops))
  {
    var n := |ops| - 1;
    EmittersBefore(ops, n);
    assert Latch(ops[..n]) && Succeeds(ops[n]);
    hide *;
    OpWrites(c, Run(c, EMPTY, StepsOf(ops[..n])), ops[n], Latch(ops[..n]));
    OneMoreOp(c, ops);
  }

  /** The fact a clearing leaves is at the time of its call, and stays in the history. */
  lemma {:induction false} ClearingRecorded(c: Config, ops: seq<Op>, i: nat)
    requires OutagesByEmitters(ops) && i < |ops| && LandsAt(ops, i)
    ensures Occ(UNAVAILABLE, UNATTRIBUTED, ops[i].t, 1, true) in History(c, EMPTY, StepsOf(ops))
  {
    hide *;
    if i == |ops| - 1 {
      LastRecorded(c, ops);
    } else {
      LandsBefore(ops, i);
      EmittersBefore(ops, |ops| - 1);
      ClearingRecorded(c, ops[..|ops| - 1], i);
      OneMoreOp(c, ops);
    }
  }

  /** Health is `unknown` exactly under an unhealed throw or after a state eviction. */
  lemma {:induction false} UnknownIff(c: Config, ops: seq<Op>, t: int)
    ensures var s := StoreRun(c, NEW_STORE, ops);
      HealthOf(c, s.tables, s.writeFailed, t) == Unknown
      <==> ThrewUnhealed(ops) || EvictsState(c, EMPTY, StepsOf(ops))
  {
    RunIsSteps(c, ops);
    LatchUnhealed(ops);
    EvictionLatches(c, EMPTY, StepsOf(ops), false, t);
    hide StoreRun, ThrewUnhealed, EvictsState, Run, StepsOf, Latch;
  }

  /** When a unit writes an overflow fact: a cap was met. */
  predicate Overflows(c: Config, s: State, u: Unit) {
    || (u.CapDetailUnit? && |s.events| > c.maxDetailRows)
    || (u.CapBucketUnit? && |s.buckets| > c.maxBucketRows)
    || (u.CapStateUnit? && |s.unresolved| > c.maxStateRows)
  }

  /** The time of a run's last overflow. */
  function LastOverflow(c: Config, s: State, steps: seq<Step>): Option<int>
    decreases |steps|
  {
    if steps == [] then None
    else
      var later := LastOverflow(c, Apply(c, s, steps[0]), steps[1..]);
      if later.Some? then later else if Overflows(c, s, steps[0].u) then Some(steps[0].t) else None
  }

  lemma {:induction false} UnitOverflows(c: Config, s: State, step: Step)
    ensures Apply(c, s, step).overflowLast == if Overflows(c, s, step.u) then step.t else s.overflowLast
  {
    hide FoldBucket, FoldHours, FoldAll, TakeOldest, DropOldest, MaxKey, Filter, UpsertAll, EventsFor;
  }

  lemma {:induction false} LastOverflowKept(c: Config, s: State, steps: seq<Step>)
    ensures var last := LastOverflow(c, s, steps);
      Run(c, s, steps).overflowLast == if last.Some? then last.value else s.overflowLast
    decreases |steps|
  {
    hide Apply, Overflows;
    if steps == [] {
    } else {
      UnitOverflows(c, s, steps[0]);
      LastOverflowKept(c, Apply(c, s, steps[0]), steps[1..]);
    }
  }

  /**
   * Health over any run: `unknown` under an unhealed throw or after a state eviction, else
   * `degraded` for as long after the last overflow as detail is kept, else healthy.  An
   * overflow at the clock's zero reads as none.
   */
  lemma {:induction false} HealthIs(c: Config, ops: seq<Op>, t: int)
    ensures var s := StoreRun(c, NEW_STORE, ops);
      var last := LastOverflow(c, EMPTY, StepsOf(ops));
      HealthOf(c, s.tables, s.writeFailed, t)
      == if ThrewUnhealed(ops) || EvictsState(c, EMPTY, StepsOf(ops)) then Unknown
         else if last.Some? && last.value != 0 && t < last.value + c.detailMs then Degraded
         else Healthy
  {
    RunIsSteps(c, ops);
    LatchUnhealed(ops);
    EvictionLatches(c, EMPTY, StepsOf(ops), false, t);
    LastOverflowKept(c, EMPTY, StepsOf(ops));
    hide StoreRun, ThrewUnhealed, EvictsState, Run, StepsOf, Latch, LastOverflow;
  }
}
