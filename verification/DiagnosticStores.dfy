/**
 * The diagnostic store itself: tables and meta rows updated statement by
 * statement, each operation proved to be a run of the atomic units of
 * `DiagnosticModel`, so every whole-run result holds of it.
 */
module DiagnosticStores {
  import opened Prelude
  import opened DiagnosticModel
  import opened DiagnosticHealth
  import opened DiagnosticOutages

  // ------------------------------------------------ loops as specification steps

  lemma {:induction false} FoldBucketFound(bs: seq<Bucket>, b: Bucket, i: nat)
    requires i < |bs| && SameKey(bs[i], b) && forall j :: 0 <= j < i ==> !SameKey(bs[j], b)
    ensures FoldBucket(bs, b) == bs[i := Merge(bs[i], b)]
  {
    if i == 0 {
    } else {
      FoldBucketFound(bs[1..], b, i - 1);
    }
  }

  lemma {:induction false} FoldBucketAbsent(bs: seq<Bucket>, b: Bucket)
    requires forall j :: 0 <= j < |bs| ==> !SameKey(bs[j], b)
    ensures FoldBucket(bs, b) == bs + [b]
  {
    if bs == [] {
    } else {
      FoldBucketAbsent(bs[1..], b);
    }
  }

  lemma {:induction false} FoldAllSnoc(bs: seq<Bucket>, added: seq<Bucket>, b: Bucket)
    ensures FoldAll(bs, added + [b]) == FoldBucket(FoldAll(bs, added), b)
    decreases |added|
  {
    if added == [] {
      assert [] + [b] == [b] && [b][1..] == [];
    } else {
      assert (added + [b])[0] == added[0] && (added + [b])[1..] == added[1..] + [b];
      FoldAllSnoc(FoldBucket(bs, added[0]), added[1..], b);
    }
  }

  lemma {:induction false} HourRowsSnoc(es: seq<Event>, e: Event)
    ensures HourRows(es + [e]) == HourRows(es) + [HourRow(e.cause, e.member, 1, e.ts)]
  {
    if es == [] {
      assert [] + [e] == [e] && [e][1..] == [];
    } else {
      assert (es + [e])[0] == es[0] && (es + [e])[1..] == es[1..] + [e];
      HourRowsSnoc(es[1..], e);
    }
  }

  lemma {:induction false} DayRowsSnoc(bs: seq<Bucket>, b: Bucket)
    ensures DayRows(bs + [b]) == DayRows(bs) + [DayRow(b)]
  {
    if bs == [] {
      assert [] + [b] == [b] && [b][1..] == [];
    } else {
      assert (bs + [b])[0] == bs[0] && (bs + [b])[1..] == bs[1..] + [b];
      DayRowsSnoc(bs[1..], b);
    }
  }

  lemma {:induction false} EventsForSnoc(cause: Cause, ms: seq<string>, m: string, t: int)
    ensures EventsFor(cause, ms + [m], t) == EventsFor(cause, ms, t) + [Event(cause, m, t)]
  {
    if ms == [] {
      assert [] + [m] == [m] && [m][1..] == [];
    } else {
      assert (ms + [m])[0] == ms[0] && (ms + [m])[1..] == ms[1..] + [m];
      EventsForSnoc(cause, ms[1..], m, t);
    }
  }

  lemma {:induction false} UpsertAllSnoc(us: seq<Unresolved>, cause: Cause, ms: seq<string>, m: string, t: int)
    ensures UpsertAll(us, cause, ms + [m], t) == Upsert(UpsertAll(us, cause, ms, t), Unresolved(cause, m, t))
    decreases |ms|
  {
    if ms == [] {
      assert [] + [m] == [m] && [m][1..] == [];
    } else {
      assert (ms + [m])[0] == ms[0] && (ms + [m])[1..] == ms[1..] + [m];
      UpsertAllSnoc(Upsert(us, Unresolved(cause, ms[0], t)), cause, ms[1..], m, t);
    }
  }

  class DiagnosticStore {
    const c: Config
    var events: seq<Event>
    var buckets: seq<Bucket>
    var unresolved: seq<Unresolved>
    var floor: int
    var overflowLast: int
    var stateEvicted: bool
    /** In memory only: the latch a throwing write sets. */
    var writeFailed: bool

    function Model(): State
      reads this
    {
      State(events, buckets, unresolved, floor, overflowLast, stateEvicted)
    }

    constructor (c: Config)
      ensures this.c == c && Model() == EMPTY && !writeFailed
    {
      this.c := c;
      events, buckets, unresolved := [], [], [];
      floor, overflowLast, stateEvicted, writeFailed := 0, 0, false, false;
    }

    method RaiseFloorTo(firstCoveredInstant: int)
      modifies this`floor
      ensures Model() == RaiseFloor(old(Model()), firstCoveredInstant)
    {
      if firstCoveredInstant > floor {
        floor := firstCoveredInstant;
      }
    }

    /** `INSERT ... ON CONFLICT DO UPDATE`, accumulating into the row with the same key. */
    method FoldRow(b: Bucket)
      modifies this`buckets
      ensures buckets == FoldBucket(old(buckets), b)
    {
      var i := 0;
      while i < |buckets| && !SameKey(buckets[i], b)
        invariant 0 <= i <= |buckets| && buckets == old(buckets)
        invariant forall j :: 0 <= j < i ==> !SameKey(buckets[j], b)
      {
        i := i + 1;
      }
      if i < |buckets| {
        FoldBucketFound(buckets, b, i);
        buckets := buckets[i := Merge(buckets[i], b)];
      } else {
        FoldBucketAbsent(buckets, b);
        buckets := buckets + [b];
      }
    }

    method RecordFanoutTruncated(n: pos, t: int)
      modifies this`buckets
      ensures Model() == AddFact(old(Model()), FANOUT_TRUNCATED, n, t)
    {
      FoldRow(HourRow(FANOUT_TRUNCATED, UNATTRIBUTED, n, t));
    }

    method RecordOverflowFact(t: int)
      modifies this`buckets, this`overflowLast
      ensures Model() == RecordOverflow(old(Model()), t)
    {
      overflowLast := t;
      FoldRow(HourRow(OVERFLOW, UNATTRIBUTED, 1, t));
    }

    method EnforceDetailCap(t: int)
      modifies this
      ensures Model() == CapDetail(c, old(Model()), t) && writeFailed == old(writeFailed)
    {
      hide FoldBucket, TakeOldest, DropOldest, MaxKey;
      if |events| > c.maxDetailRows {
        var over := |events| - c.maxDetailRows;
        var cut := MaxKey(TakeOldest(events, EventTs, over), EventTs);
        events := DropOldest(events, EventTs, over);
        RaiseFloorTo(cut + 1);
        RecordOverflowFact(t);
      }
    }

    method EnforceBucketCap(t: int)
      modifies this
      ensures Model() == CapBucket(c, old(Model()), t) && writeFailed == old(writeFailed)
    {
      hide FoldBucket, TakeOldest, DropOldest, MaxKey;
      if |buckets| > c.maxBucketRows {
        var over := |buckets| - c.maxBucketRows + 1;
        var cut := MaxKey(TakeOldest(buckets, BucketStart, over), BucketEnd);
        buckets := DropOldest(buckets, BucketStart, over);
        RaiseFloorTo(cut);
        RecordOverflowFact(t);
      }
    }

    method EnforceStateCap(t: int)
      modifies this
      ensures Model() == CapState(c, old(Model()), t) && writeFailed == old(writeFailed)
    {
      if |unresolved| > c.maxStateRows {
        unresolved := DropOldest(unresolved, Since, |unresolved| - c.maxStateRows);
        RecordOverflowFact(t);
        stateEvicted := true;
      }
    }

    method Enforce(t: int)
      modifies this
      ensures Model() == EnforceCaps(c, old(Model()), t) && writeFailed == old(writeFailed)
    {
      EnforceDetailCap(t);
      EnforceBucketCap(t);
      EnforceStateCap(t);
    }

    /** The insert transaction of one diagnostic. */
    method InsertRows(cause: Cause, members: seq<string>, t: int)
      modifies this`events, this`unresolved
      ensures Model() == Insert(old(Model()), t, cause, members)
    {
      var i := 0;
      while i < |members|
        invariant 0 <= i <= |members|
        invariant events == old(events) + EventsFor(cause, members[..i], t)
        invariant unresolved == if cause in INCIDENTS then UpsertAll(old(unresolved), cause, members[..i], t)
            else old(unresolved)
      {
        assert members[..i + 1] == members[..i] + [members[i]];
        EventsForSnoc(cause, members[..i], members[i], t);
        UpsertAllSnoc(old(unresolved), cause, members[..i], members[i], t);
        events := events + [Event(cause, members[i], t)];
        if cause in INCIDENTS {
          unresolved := Upsert(unresolved, Unresolved(cause, members[i], t));
        }
        i := i + 1;
      }
      assert members[..i] == members;
    }

    method RecordDiagnostic(cause: Cause, members: seq<string>, t: int)
      modifies this
      ensures Model() == Record(c, old(Model()), t, cause, members) && writeFailed == old(writeFailed)
    {
      RecordIs(c, Model(), t, cause, members);
      var all := Dedup(members);
      var named := if |all| > MAX_FANOUT then [] else all;
      InsertRows(cause, if named != [] then named else [UNATTRIBUTED], t);
      if |all| > MAX_FANOUT {
        RecordFanoutTruncated(|all|, t);
      }
      Enforce(t);
    }

    method Resolve(cause: Cause, member: string)
      modifies this`unresolved
      ensures Model() == ClearState(old(Model()), cause, member)
    {
      unresolved := Filter(unresolved, (u: Unresolved) => !(u.cause == cause && u.member == member));
    }

    /** First stage of the sweep: aged detail into hour buckets. */
    method FoldAgedDetail(cut: int)
      modifies this`events, this`buckets
      ensures Model() == FoldDetail(old(Model()), cut)
    {
      var rows := Filter(events, (e: Event) => e.ts < cut);
      var i := 0;
      while i < |rows|
        invariant 0 <= i <= |rows| && events == old(events)
        invariant buckets == FoldAll(old(buckets), HourRows(rows[..i]))
      {
        assert rows[..i + 1] == rows[..i] + [rows[i]];
        HourRowsSnoc(rows[..i], rows[i]);
        FoldAllSnoc(old(buckets), HourRows(rows[..i]), HourRow(rows[i].cause, rows[i].member, 1, rows[i].ts));
        FoldRow(HourRow(rows[i].cause, rows[i].member, 1, rows[i].ts));
        i := i + 1;
      }
      assert rows[..i] == rows;
      events := Filter(events, (e: Event) => !(e.ts < cut));
    }

    /** Second stage: aged hour buckets into day buckets. */
    method FoldAgedHours(cut: int)
      modifies this`buckets
      ensures buckets == FoldHours(old(buckets), cut)
    {
      var rows := Filter(buckets, (b: Bucket) => OldHour(b, cut));
      var i := 0;
      while i < |rows|
        invariant 0 <= i <= |rows|
        invariant buckets == FoldAll(old(buckets), DayRows(rows[..i]))
      {
        assert rows[..i + 1] == rows[..i] + [rows[i]];
        DayRowsSnoc(rows[..i], rows[i]);
        FoldAllSnoc(old(buckets), DayRows(rows[..i]), DayRow(rows[i]));
        FoldRow(DayRow(rows[i]));
        i := i + 1;
      }
      assert rows[..i] == rows;
      buckets := Filter(buckets, (b: Bucket) => !OldHour(b, cut));
    }

    /** Third stage: days past the horizon go, and the floor moves past them. */
    method DropAgedDays(cut: int)
      modifies this`buckets, this`floor
      ensures Model() == DropDays(old(Model()), cut)
    {
      var dropped := Filter(buckets, (b: Bucket) => OldDay(b, cut));
      if |dropped| > 0 {
        var removedEnd := MaxKey(dropped, BucketEnd);
        buckets := Filter(buckets, (b: Bucket) => !OldDay(b, cut));
        RaiseFloorTo(removedEnd);
      }
    }

    method FoldTransaction(t: int)
      modifies this
      ensures Model() == Fold(c, old(Model()), t) && writeFailed == old(writeFailed)
    {
      hide FoldHours, FoldAll, Filter, MaxKey, HourRows;
      FoldAgedDetail(t - c.detailMs);
      FoldAgedHours(t - c.hourMs);
      DropAgedDays(t - c.dayMs);
    }

    method SweepTables(t: int)
      modifies this
      ensures Model() == Sweep(c, old(Model()), t) && writeFailed == old(writeFailed)
    {
      SweepIs(c, Model(), t);
      FoldTransaction(t);
      Enforce(t);
    }

    /** One atomic unit, as the code above performs it. */
    method Perform(u: Unit, t: int)
      modifies this
      ensures Model() == Apply(c, old(Model()), Step(t, u)) && writeFailed == old(writeFailed)
    {
      match u
      case InsertUnit(cause, members) => InsertRows(cause, members, t);
      case FactUnit(fact, n) => FoldRow(HourRow(fact, UNATTRIBUTED, n, t));
      case CapDetailUnit => EnforceDetailCap(t);
      case CapBucketUnit => EnforceBucketCap(t);
      case CapStateUnit => EnforceStateCap(t);
      case FoldUnit => FoldTransaction(t);
      case ClearUnit(cause, member) => Resolve(cause, member);
    }

    method PerformAll(units: seq<Unit>, t: int)
      modifies this
      ensures Model() == Run(c, old(Model()), At(t, units)) && writeFailed == old(writeFailed)
    {
      for i := 0 to |units|
        invariant Model() == Run(c, old(Model()), At(t, units[..i])) && writeFailed == old(writeFailed)
      {
        RunAtSnoc(c, old(Model()), t, units[..i], units[i]);
        assert units[..i + 1] == units[..i] + [units[i]];
        Perform(units[i], t);
      }
      assert units[..|units|] == units;
    }

    /**
     * An emitter call.  The driver throws at atomic unit `fault` (if there is
     * one); `factFault` says whether writing the `unavailable` fact throws too.
     * The call itself never throws, and the latch clears only once a fact
     * recording the outage has landed.
     */
    method EmitSafely(a: Action, t: int, fault: nat, factFault: bool)
      modifies this
      ensures fault < |UnitsOf(a)| ==>
        && writeFailed
        && Model() == Run(c, old(Model()), At(t, UnitsOf(a)[..fault]))
      ensures fault >= |UnitsOf(a)| && !(old(writeFailed) && !factFault) ==>
        && writeFailed == old(writeFailed)
        && Model() == Run(c, old(Model()), At(t, UnitsOf(a)))
      ensures fault >= |UnitsOf(a)| && old(writeFailed) && !factFault ==>
        && !writeFailed
        && Model() == Run(c, old(Model()), At(t, UnitsOf(a) + [FactUnit(UNAVAILABLE, 1)]))
      ensures Store(Model(), writeFailed)
           == StoreStep(c, Store(old(Model()), old(writeFailed)), EmitOp(a, t, fault, factFault))
    {
      hide Run, UnitsOf, At, Apply, HourRow;
      assert UnitsOf(a) + [] == UnitsOf(a);
      var units := UnitsOf(a);
      if fault < |units| {
        PerformAll(units[..fault], t);
        writeFailed := true;
        return;
      }
      PerformAll(units, t);
      if writeFailed && !factFault {
        RunAtSnoc(c, old(Model()), t, units, FactUnit(UNAVAILABLE, 1));
        Perform(FactUnit(UNAVAILABLE, 1), t);
        writeFailed := false;
      }
    }

    /** `query`: refuses below the floor, else counts events and overlapping buckets. */
    method QueryWindow(q: Query) returns (a: Answer)
      ensures a == Ask(Model(), q)
    {
      hide Filter, SumN, MinOf, MaxOf, HitsEvent, HitsBucket, IsRefusal;
      if q.from < floor {
        return Answer(q.from, q.to, NoEvidence, 0, None, None, Indeterminate);
      }
      var es := Filter(events, (e: Event) => HitsEvent(q, e));
      var bs := Filter(buckets, (b: Bucket) => HitsBucket(q, b));
      var bkN := SumN(bs);
      var refusalCrosses := false;
      if q.member != AnyMember {
        refusalCrosses := SumN(Filter(buckets, (b: Bucket) => IsRefusal(q, b))) > 0;
      }
      if bkN == 0 {
        return Answer(q.from, q.to, if |es| > 0 then ByEvent else NoEvidence, |es|,
                      MinOf(es, EventTs), MaxOf(es, EventTs), if refusalCrosses then Indeterminate else Exact);
      }
      var lo, hi := MinOf(bs, BucketStart), MaxOf(bs, BucketEnd);
      var res := if exists b :: b in bs && b.res == Day then ByDay else ByHour;
      a := Answer(Min(q.from, if lo.Some? then lo.value else q.from), Max(q.to, if hi.Some? then hi.value else q.to),
                  res, |es| + bkN, MinOpt(MinOf(es, EventTs), MinOf(bs, FirstTs)),
                  MaxOpt(MaxOf(es, EventTs), MaxOf(bs, LastTs)), if refusalCrosses then Indeterminate else Bucketed);
    }

    method ReadHealth(t: int) returns (h: Health)
      ensures h == HealthOf(c, Model(), writeFailed, t)
    {
      if writeFailed { return Unknown; }
      var last := overflowLast;
      if stateEvicted { return Unknown; }
      if last == 0 { return Healthy; }
      h := if t - last < c.detailMs then Degraded else Healthy;
    }
  }

  lemma {:induction false} RunAtSnoc(c: Config, s: State, t: int, units: seq<Unit>, u: Unit)
    ensures Run(c, s, At(t, units + [u])) == Apply(c, Run(c, s, At(t, units)), Step(t, u))
  {
    hide Apply;
    RunSnoc(c, s, At(t, units), Step(t, u));
    assert At(t, units + [u]) == At(t, units) + [Step(t, u)];
  }

  lemma {:induction false} RunSnoc(c: Config, s: State, steps: seq<Step>, step: Step)
    ensures Run(c, s, steps + [step]) == Apply(c, Run(c, s, steps), step)
    decreases |steps|
  {
    hide Apply;
    if steps == [] {
      assert [] + [step] == [step] && [step][1..] == [];
    } else {
      assert (steps + [step])[0] == steps[0] && (steps + [step])[1..] == steps[1..] + [step];
      RunSnoc(c, Apply(c, s, steps[0]), steps[1..], step);
    }
  }
}
