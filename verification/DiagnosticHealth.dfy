/**
 * Current health: unresolved state is a fold of what was recorded and
 * recovered, an evicted incident latches health to `unknown`, and every record
 * and sweep leaves the tables within their bounds.
 */
module DiagnosticHealth {
  import opened Prelude
  import opened DiagnosticModel
  import opened DiagnosticAnswers

  // ------------------------------------------------- operations as whole steps

  lemma {:induction false} RunOne(c: Config, s: State, step: Step)
    ensures Run(c, s, [step]) == Apply(c, s, step)
  {
    assert [step][1..] == [];
    assert Run(c, Apply(c, s, step), []) == Apply(c, s, step);
  }

  lemma {:induction false} RunCons(c: Config, s: State, step: Step, rest: seq<Step>)
    ensures Run(c, s, [step] + rest) == Run(c, Apply(c, s, step), rest)
  {
    assert ([step] + rest)[1..] == rest;
  }

  lemma {:induction false} AtCons(t: int, u: Unit, us: seq<Unit>)
    ensures At(t, [u] + us) == [Step(t, u)] + At(t, us)
  {
  }

  lemma {:induction false} RunCaps(c: Config, s: State, t: int)
    ensures Run(c, s, At(t, CAPS)) == EnforceCaps(c, s, t)
  {
    hide CapDetail, CapBucket, CapState;
    assert At(t, CAPS) == [Step(t, CapDetailUnit)] + ([Step(t, CapBucketUnit)] + [Step(t, CapStateUnit)]);
    RunCons(c, s, Step(t, CapDetailUnit), [Step(t, CapBucketUnit)] + [Step(t, CapStateUnit)]);
    RunCons(c, CapDetail(c, s, t), Step(t, CapBucketUnit), [Step(t, CapStateUnit)]);
    RunOne(c, CapBucket(c, CapDetail(c, s, t), t), Step(t, CapStateUnit));
  }

  /** The tables after the inserts of one `record`, before the caps. */
  function Written(s: State, t: int, cause: Cause, members: seq<string>): State {
    var named := Attributed(members);
    var s1 := Insert(s, t, cause, if named != [] then named else [UNATTRIBUTED]);
    if |Dedup(members)| > MAX_FANOUT then AddFact(s1, FANOUT_TRUNCATED, |Dedup(members)|, t) else s1
  }

  lemma {:induction false} RecordIs(c: Config, s: State, t: int, cause: Cause, members: seq<string>)
    ensures Record(c, s, t, cause, members) == EnforceCaps(c, Written(s, t, cause, members), t)
  {
    var named := Attributed(members);
    var ins := InsertUnit(cause, if named != [] then named else [UNATTRIBUTED]);
    var s1 := Apply(c, s, Step(t, ins));
    hide EnforceCaps, Insert, AddFact;
    if |Dedup(members)| > MAX_FANOUT {
      var fact := FactUnit(FANOUT_TRUNCATED, |Dedup(members)|);
      assert RecordUnits(cause, members) == [ins] + ([fact] + CAPS);
      AtCons(t, ins, [fact] + CAPS);
      AtCons(t, fact, CAPS);
      RunCons(c, s, Step(t, ins), [Step(t, fact)] + At(t, CAPS));
      RunCons(c, s1, Step(t, fact), At(t, CAPS));
      RunCaps(c, Apply(c, s1, Step(t, fact)), t);
    } else {
      assert RecordUnits(cause, members) == [ins] + CAPS;
      AtCons(t, ins, CAPS);
      RunCons(c, s, Step(t, ins), At(t, CAPS));
      RunCaps(c, s1, t);
    }
  }

  lemma {:induction false} SweepIs(c: Config, s: State, t: int)
    ensures Sweep(c, s, t) == EnforceCaps(c, Fold(c, s, t), t)
  {
    hide Fold, EnforceCaps;
    AtCons(t, FoldUnit, CAPS);
    RunCons(c, s, Step(t, FoldUnit), At(t, CAPS));
    RunCaps(c, Fold(c, s, t), t);
  }

  // ----------------------------------------------------------------- the bounds

  predicate HasKey(bs: seq<Bucket>, b: Bucket) { exists x :: x in bs && SameKey(x, b) }

  lemma {:induction false} FoldBucketGrows(bs: seq<Bucket>, b: Bucket)
    ensures |FoldBucket(bs, b)| == |bs| + One(!HasKey(bs, b))
    ensures HasKey(FoldBucket(bs, b), b)
  {
    var r := FoldBucket(bs, b);
    assert r[0] in r;
    if bs == [] {
    } else {
      FoldBucketGrows(bs[1..], b);
      assert forall x :: x in bs <==> x == bs[0] || x in bs[1..];
      if !SameKey(bs[0], b) {
        var x :| x in FoldBucket(bs[1..], b) && SameKey(x, b);
        assert x in r;
      }
    }
  }

  function OverflowRow(t: int): Bucket { HourRow(OVERFLOW, UNATTRIBUTED, 1, t) }

  /** When one enforcement leaves the bucket table a row over its cap. */
  ghost predicate LeavesExtraRow(c: Config, s: State, t: int) {
    if c.maxBucketRows == 0 then
      |s.events| > c.maxDetailRows || |s.buckets| > 0 || |s.unresolved| > c.maxStateRows
    else
      && |s.unresolved| > c.maxStateRows && |s.events| <= c.maxDetailRows
      && |s.buckets| == c.maxBucketRows && !HasKey(s.buckets, OverflowRow(t))
  }

  lemma {:induction false} CapDetailRows(c: Config, s: State, t: int)
    ensures var s1 := CapDetail(c, s, t);
      && |s1.events| <= c.maxDetailRows && s1.unresolved == s.unresolved
      && (|s.events| <= c.maxDetailRows ==> s1 == s)
      && (|s.events| > c.maxDetailRows ==>
            |s1.buckets| == |s.buckets| + One(!HasKey(s.buckets, OverflowRow(t))) && HasKey(s1.buckets, OverflowRow(t)))
  {
    hide FoldBucket, TakeOldest, DropOldest, MaxKey, HasKey;
    FoldBucketGrows(s.buckets, OverflowRow(t));
  }

  lemma {:induction false} CapBucketRows(c: Config, s: State, t: int)
    ensures var s2 := CapBucket(c, s, t);
      && s2.events == s.events && s2.unresolved == s.unresolved
      && (|s.buckets| <= c.maxBucketRows ==> s2 == s)
      && (|s.buckets| > c.maxBucketRows ==>
            HasKey(s2.buckets, OverflowRow(t)) && |s2.buckets| <= Max(c.maxBucketRows, 1)
            && (c.maxBucketRows == 0 ==> |s2.buckets| == 1))
  {
    hide FoldBucket, TakeOldest, DropOldest, MaxKey, HasKey;
    if |s.buckets| > c.maxBucketRows {
      var kept := DropOldest(s.buckets, BucketStart, |s.buckets| - c.maxBucketRows + 1);
      FoldBucketGrows(kept, OverflowRow(t));
      if c.maxBucketRows == 0 {
        FoldEmpty(OverflowRow(t));
      }
    }
  }

  lemma {:induction false} CapStateRows(c: Config, s: State, t: int)
    ensures var s3 := CapState(c, s, t);
      && s3.events == s.events && |s3.unresolved| <= c.maxStateRows
      && |s3.buckets| == |s.buckets| + One(|s.unresolved| > c.maxStateRows && !HasKey(s.buckets, OverflowRow(t)))
  {
    hide FoldBucket, TakeOldest, DropOldest, HasKey;
    FoldBucketGrows(s.buckets, OverflowRow(t));
  }

  /**
   * One enforcement bounds every table.  The bucket table is left one row over its cap
   * exactly when unresolved state is evicted from under a bucket table that is already
   * full and holds no overflow row of this hour; a cap of 0 cannot hold any overflow row.
   */
  lemma {:induction false} CapsBound(c: Config, s: State, t: int)
    ensures var r := EnforceCaps(c, s, t);
      && |r.events| <= c.maxDetailRows
      && |r.unresolved| <= c.maxStateRows
      && |r.buckets| <= c.maxBucketRows + 1
      && (|r.buckets| > c.maxBucketRows <==> LeavesExtraRow(c, s, t))
  {
    var s1 := CapDetail(c, s, t);
    var s2 := CapBucket(c, s1, t);
    CapDetailRows(c, s, t);
    CapBucketRows(c, s1, t);
    CapStateRows(c, s2, t);
    NoKey(s2.buckets, OverflowRow(t));
    NoKey(s.buckets, OverflowRow(t));
    hide CapDetail, CapBucket, CapState, HasKey, OverflowRow;
  }

  lemma {:induction false} NoKey(bs: seq<Bucket>, b: Bucket)
    ensures HasKey(bs, b) ==> bs != []
  {
  }

  lemma {:induction false} FoldEmpty(b: Bucket)
    ensures FoldBucket([], b) == [b]
  {
  }

  /** After each record and each sweep. */
  lemma {:induction false} OperationsBound(c: Config, s: State, t: int, cause: Cause, members: seq<string>)
    ensures var r := Record(c, s, t, cause, members);
      && |r.events| <= c.maxDetailRows && |r.unresolved| <= c.maxStateRows && |r.buckets| <= c.maxBucketRows + 1
      && (|r.buckets| > c.maxBucketRows <==> LeavesExtraRow(c, Written(s, t, cause, members), t))
    ensures var r := Sweep(c, s, t);
      && |r.events| <= c.maxDetailRows && |r.unresolved| <= c.maxStateRows && |r.buckets| <= c.maxBucketRows + 1
      && (|r.buckets| > c.maxBucketRows <==> LeavesExtraRow(c, Fold(c, s, t), t))
  {
    hide Record, Sweep, EnforceCaps, Written, Fold, LeavesExtraRow;
    RecordIs(c, s, t, cause, members);
    CapsBound(c, Written(s, t, cause, members), t);
    SweepIs(c, s, t);
    CapsBound(c, Fold(c, s, t), t);
  }

  /** Room for one bucket row, and none for unresolved state. */
  const TIGHT := Config(0, 0, 0, 10, 1, 0)

  /** What the first emitter call that succeeds after an outage runs: its own units, then the outage's fact. */
  function AfterOutage(a: Action): seq<Step> { At(0, UnitsOf(a) + [FactUnit(UNAVAILABLE, 1)]) }

  const RECOVERY := Recover("activity.append_failed", "m")

  lemma {:induction false} OutageFills()
    ensures Run(TIGHT, EMPTY, AfterOutage(RECOVERY)) == EMPTY.(buckets := [HourRow(UNAVAILABLE, UNATTRIBUTED, 1, 0)])
  {
    var units := UnitsOf(RECOVERY) + [FactUnit(UNAVAILABLE, 1)];
    assert AfterOutage(RECOVERY) == [Step(0, units[0])] + [Step(0, FactUnit(UNAVAILABLE, 1))];
    RunCons(TIGHT, EMPTY, Step(0, units[0]), [Step(0, FactUnit(UNAVAILABLE, 1))]);
    RunOne(TIGHT, EMPTY, Step(0, FactUnit(UNAVAILABLE, 1)));
  }

  lemma {:induction false} OneNamed(m: string)
    ensures Dedup([m]) == [m] && Attributed([m]) == [m]
  {
    assert [m][..0] == [] && Dedup([]) == [];
  }

  lemma {:induction false} OneUpsert(u: Unresolved)
    ensures UpsertAll([], u.cause, [u.member], u.since) == [u]
  {
    assert [u.member][1..] == [];
    assert UpsertAll([], u.cause, [u.member], u.since) == UpsertAll(Upsert([], u), u.cause, [], u.since);
  }

  lemma {:induction false} TightWrites(s: State, cause: Cause)
    requires cause in INCIDENTS && s == EMPTY.(buckets := s.buckets)
    ensures var w := Written(s, HOUR, cause, ["m"]);
      w.buckets == s.buckets && |w.events| == 1 && |w.unresolved| == 1
  {
    hide EventsFor, UpsertAll;
    OneNamed("m");
    assert Written(s, HOUR, cause, ["m"]) == Insert(s, HOUR, cause, ["m"]);
    OneUpsert(Unresolved(cause, "m", HOUR));
  }

  /** The extra row is reachable from an empty store: an outage's fact fills the table, then an incident is recorded. */
  lemma {:induction false} BucketBoundIsTight()
    ensures var s := Run(TIGHT, EMPTY, AfterOutage(RECOVERY));
      && |s.buckets| == TIGHT.maxBucketRows
      && |Record(TIGHT, s, HOUR, "activity.append_failed", ["m"]).buckets| == TIGHT.maxBucketRows + 1
  {
    var cause: Cause := "activity.append_failed";
    var s := Run(TIGHT, EMPTY, AfterOutage(RECOVERY));
    OutageFills();
    TightWrites(s, cause);
    assert cause in INCIDENTS && !HasKey(s.buckets, OverflowRow(HOUR));
    OperationsBound(TIGHT, s, HOUR, cause, ["m"]);
    hide Run, Record, Written, HasKey, AfterOutage;
  }

  // ---------------------------------------------------------- unresolved state

  function Lookup(us: seq<Unresolved>, cause: Cause, member: string): Option<int> {
    if us == [] then None
    else if us[0].cause == cause && us[0].member == member then Some(us[0].since)
    else Lookup(us[1..], cause, member)
  }

  predicate IsIncident(step: Step, cause: Cause, member: string) {
    step.u.InsertUnit? && step.u.cause == cause && cause in INCIDENTS && member in step.u.members
  }

  predicate IsRecovery(step: Step, cause: Cause, member: string) {
    step.u == ClearUnit(cause, member)
  }

  /** Step `i` recorded an incident that no later step recovered from. */
  predicate Open(steps: seq<Step>, i: nat, cause: Cause, member: string) {
    && i < |steps| && IsIncident(steps[i], cause, member)
    && forall j :: i < j < |steps| ==> !IsRecovery(steps[j], cause, member)
  }

  /** `since` is the instant of the first incident still open, if any. */
  ghost predicate IsSince(steps: seq<Step>, cause: Cause, member: string, since: Option<int>) {
    match since
    case None => forall i: nat :: !Open(steps, i, cause, member)
    case Some(t) => exists i: nat :: Open(steps, i, cause, member) && steps[i].t == t
                             && forall j: nat :: Open(steps, j, cause, member) ==> i <= j
  }

  lemma {:induction false} LookupAppend(us: seq<Unresolved>, u: Unresolved, cause: Cause, member: string)
    ensures Lookup(us + [u], cause, member)
         == if Lookup(us, cause, member).Some? then Lookup(us, cause, member)
            else if u.cause == cause && u.member == member then Some(u.since) else None
  {
    if us == [] {
      assert us + [u] == [u] && [u][1..] == [];
    } else {
      assert (us + [u])[1..] == us[1..] + [u];
      LookupAppend(us[1..], u, cause, member);
    }
  }

  lemma {:induction false} LookupFinds(us: seq<Unresolved>, cause: Cause, member: string)
    ensures Lookup(us, cause, member).Some? <==>
      exists i :: 0 <= i < |us| && us[i].cause == cause && us[i].member == member
  {
    if us == [] {
    } else {
      LookupFinds(us[1..], cause, member);
      if i :| 0 <= i < |us| && us[i].cause == cause && us[i].member == member {
        if i > 0 {
          assert us[1..][i - 1] == us[i];
        }
      }
      if i :| 0 <= i < |us[1..]| && us[1..][i].cause == cause && us[1..][i].member == member {
        assert us[i + 1] == us[1..][i];
      }
    }
  }

  lemma {:induction false} LookupUpsertAll(
    us: seq<Unresolved>, cause: Cause, members: seq<string>, t: int, cause': Cause, member: string)
    ensures Lookup(UpsertAll(us, cause, members, t), cause', member)
         == if Lookup(us, cause', member).Some? then Lookup(us, cause', member)
            else if cause == cause' && member in members then Some(t) else None
    decreases |members|
  {
    if members == [] {
    } else {
      var u := Unresolved(cause, members[0], t);
      LookupFinds(us, cause, members[0]);
      LookupAppend(us, u, cause', member);
      LookupUpsertAll(Upsert(us, u), cause, members[1..], t, cause', member);
    }
  }

  lemma {:induction false} LookupFilter(us: seq<Unresolved>, cause: Cause, member: string, cause': Cause,
      member': string)
    ensures Lookup(Filter(us, (u: Unresolved) => !(u.cause == cause && u.member == member)), cause', member')
         == if cause == cause' && member == member' then None else Lookup(us, cause', member')
  {
    if us == [] {
    } else {
      LookupFilter(us[1..], cause, member, cause', member');
      var rest := Filter(us[1..], (u: Unresolved) => !(u.cause == cause && u.member == member));
      assert ([us[0]] + rest)[1..] == rest;
    }
  }

  lemma {:induction false} LookupApply(c: Config, s: State, step: Step, cause: Cause, member: string)
    requires !Apply(c, s, step).stateEvicted
    ensures !s.stateEvicted
    ensures Lookup(Apply(c, s, step).unresolved, cause, member)
         == if IsRecovery(step, cause, member) then None
            else if Lookup(s.unresolved, cause, member).Some? then Lookup(s.unresolved, cause, member)
            else if IsIncident(step, cause, member) then Some(step.t) else None
  {
    hide Lookup, UpsertAll, FoldBucket, FoldHours, FoldAll, TakeOldest, DropOldest, MaxKey, Filter;
    match step.u
    case InsertUnit(cz, members) => LookupUpsertAll(s.unresolved, cz, members, step.t, cause, member);
    case ClearUnit(cz, m) => LookupFilter(s.unresolved, cz, m, cause, member);
    case FactUnit(_, _) =>
    case CapDetailUnit =>
    case CapBucketUnit =>
    case CapStateUnit =>
    case FoldUnit =>
  }

  lemma {:induction false} SinceStep(steps: seq<Step>, step: Step, cause: Cause, member: string, before: Option<int>)
    requires IsSince(steps, cause, member, before)
    ensures IsSince(steps + [step], cause, member,
      if IsRecovery(step, cause, member) then None
      else if before.Some? then before
      else if IsIncident(step, cause, member) then Some(step.t) else None)
  {
    var all, n := steps + [step], |steps|;
    assert all[n] == step;
    forall i: nat ensures Open(all, i, cause, member) <==>
      (if i < n then Open(steps, i, cause, member) && !IsRecovery(step, cause, member)
       else i == n && IsIncident(step, cause, member)) {
      assert i < n ==> all[i] == steps[i];
      if i < n && Open(all, i, cause, member) {
        forall j | i < j < n ensures !IsRecovery(steps[j], cause, member) { assert all[j] == steps[j]; }
      }
    }
    if before.Some? && !IsRecovery(step, cause, member) {
      var i: nat :| Open(steps, i, cause, member) && steps[i].t == before.value
              && forall j: nat :: Open(steps, j, cause, member) ==> i <= j;
      assert Open(all, i, cause, member) && all[i].t == before.value;
    } else if IsIncident(step, cause, member) && !IsRecovery(step, cause, member) {
      assert Open(all, n, cause, member);
    }
  }

  /**
   * Until a state-cap eviction, (cause, member) is unresolved exactly when an
   * incident was recorded for it since its last recovery, `since` being the
   * first such instant; sweeps and caps in between change nothing.
   */
  lemma {:induction false} UnresolvedIsHistory(c: Config, steps: seq<Step>, cause: Cause, member: string)
    requires !Run(c, EMPTY, steps).stateEvicted
    ensures IsSince(steps, cause, member, Lookup(Run(c, EMPTY, steps).unresolved, cause, member))
    decreases |steps|
  {
    if steps == [] {
    } else {
      var n := |steps| - 1;
      var init, step := steps[..n], steps[n];
      assert steps == init + [step];
      RunAppend(c, EMPTY, init, [step]);
      RunOne(c, Run(c, EMPTY, init), step);
      LookupApply(c, Run(c, EMPTY, init), step, cause, member);
      UnresolvedIsHistory(c, init, cause, member);
      SinceStep(init, step, cause, member, Lookup(Run(c, EMPTY, init).unresolved, cause, member));
    }
  }

  /** Some cap enforcement of the run evicted unresolved state. */
  predicate EvictsState(c: Config, s: State, steps: seq<Step>)
    decreases |steps|
  {
    steps != [] &&
    ((steps[0].u == CapStateUnit && |s.unresolved| > c.maxStateRows)
     || EvictsState(c, Apply(c, s, steps[0]), steps[1..]))
  }

  /** Health reads `unknown` for ever after an eviction, and the latch has no other cause. */
  lemma {:induction false} EvictionLatches(c: Config, s: State, steps: seq<Step>, writeFailed: bool, t: int)
    ensures Run(c, s, steps).stateEvicted <==> s.stateEvicted || EvictsState(c, s, steps)
    ensures s.stateEvicted || EvictsState(c, s, steps) || writeFailed ==>
      HealthOf(c, Run(c, s, steps), writeFailed, t) == Unknown
    decreases |steps|
  {
    hide FoldHours, FoldAll, FoldBucket, TakeOldest, DropOldest, MaxKey, Filter;
    if steps == [] {
    } else {
      EvictionLatches(c, Apply(c, s, steps[0]), steps[1..], writeFailed, t);
    }
  }
}
