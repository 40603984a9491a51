/**
 * Eviction is never silent.
 *
 * The ledger is maintained by every atomic unit, so conservation and the
 * soundness of `Ask` hold at every point of every run, including after a throw
 * between two units and under any clock.
 */
module DiagnosticCoverage {
  import opened Prelude
  import opened DiagnosticModel
  import opened DiagnosticLedger

  /** The occurrences a unit writes. */
  function Added(c: Config, s: State, step: Step): seq<Occ> {
    var overflow := [Occ(OVERFLOW, UNATTRIBUTED, step.t, 1, true)];
    match step.u
    case InsertUnit(cause, members) => EventOccs(EventsFor(cause, members, step.t))
    case FactUnit(fact, n) => [Occ(fact, UNATTRIBUTED, step.t, n, true)]
    case CapDetailUnit => if |s.events| > c.maxDetailRows then overflow else []
    case CapBucketUnit => if |s.buckets| > c.maxBucketRows then overflow else []
    case CapStateUnit => if |s.unresolved| > c.maxStateRows then overflow else []
    case FoldUnit => []
    case ClearUnit(_, _) => []
  }

  /** Everything written by a run, in order. */
  function History(c: Config, s: State, steps: seq<Step>): seq<Occ>
    decreases |steps|
  {
    if steps == [] then []
    else Added(c, s, steps[0]) + History(c, Apply(c, s, steps[0]), steps[1..])
  }

  /** The events a unit deletes for good: what the detail cap evicts. */
  function EventsGone(c: Config, s: State, step: Step): seq<Event> {
    if step.u.CapDetailUnit? && |s.events| > c.maxDetailRows then
      TakeOldest(s.events, EventTs, |s.events| - c.maxDetailRows)
    else []
  }

  /** The rows a unit deletes for good: what the bucket cap evicts, and days past the horizon. */
  function RowsGone(c: Config, s: State, step: Step): seq<Bucket> {
    match step.u
    case CapBucketUnit =>
      if |s.buckets| > c.maxBucketRows then TakeOldest(s.buckets, BucketStart, |s.buckets| - c.maxBucketRows + 1)
      else []
    case FoldUnit =>
      Filter(FoldHours(FoldDetail(s, step.t - c.detailMs).buckets, step.t - c.hourMs),
             (b: Bucket) => OldDay(b, step.t - c.dayMs))
    case _ => []
  }

  /** The occurrences of a cause and member that a unit sheds. */
  function ShedBy(c: Config, s: State, step: Step, cause: Cause, member: string): nat {
    EventsCount(EventsGone(c, s, step), cause, member) + RowsCount(RowsGone(c, s, step), cause, member)
  }

  function ShedOver(c: Config, s: State, steps: seq<Step>, cause: Cause, member: string): nat
    decreases |steps|
  {
    if steps == [] then 0
    else ShedBy(c, s, steps[0], cause, member) + ShedOver(c, Apply(c, s, steps[0]), steps[1..], cause, member)
  }

  /** `p` accounts for `s` and `h`: nothing written was lost track of. */
  ghost predicate Accounts(s: State, p: Ledger, h: seq<Occ>) {
    Explains(s, p) && multiset(Stored(s, p)) == multiset(h)
  }

  // --------------------------------------------------------------- the units

  lemma {:induction false} AddFactAccounts(s: State, p: Ledger, h: seq<Occ>, cause: Cause, n: pos,
      t: int) returns (p': Ledger)
    requires Accounts(s, p, h)
    ensures Accounts(AddFact(s, cause, n, t), p', h + [Occ(cause, UNATTRIBUTED, t, n, true)])
    ensures p'.shed == p.shed
  {
    FactLineOk(cause, n, t);
    FoldLineOk(p.lines, FactLine(cause, n, t));
    p' := p.(lines := FoldLine(p.lines, FactLine(cause, n, t)));
  }

  lemma {:induction false} RecordOverflowAccounts(s: State, p: Ledger, h: seq<Occ>, t: int) returns (p': Ledger)
    requires Accounts(s, p, h)
    ensures Accounts(RecordOverflow(s, t), p', h + [Occ(OVERFLOW, UNATTRIBUTED, t, 1, true)])
    ensures p'.shed == p.shed
  {
    p' := AddFactAccounts(s, p, h, OVERFLOW, 1, t);
  }

  lemma {:induction false} InsertAccounts(s: State, p: Ledger, h: seq<Occ>, t: int, cause: Cause, members: seq<string>)
    requires Accounts(s, p, h)
    ensures Accounts(Insert(s, t, cause, members), p, h + EventOccs(EventsFor(cause, members, t)))
  {
    EventOccsAppend(s.events, EventsFor(cause, members, t));
  }

  lemma {:induction false} EvictedEventsOld(es: seq<Event>, floor: int, o: Occ)
    requires es != [] && MaxKey(es, EventTs) + 1 <= floor && o in EventOccs(es)
    ensures o.ts < floor
  {
    EventOccsIn(es, o);
  }

  lemma {:induction false} CapDetailAccounts(c: Config, s: State, p: Ledger, h: seq<Occ>, t: int) returns (p': Ledger)
    requires Accounts(s, p, h) && |s.events| > c.maxDetailRows
    ensures Accounts(CapDetail(c, s, t), p', h + [Occ(OVERFLOW, UNATTRIBUTED, t, 1, true)])
    ensures p'.shed == p.shed + EventOccs(EventsGone(c, s, Step(t, CapDetailUnit)))
  {
    hide FoldBucket, TakeOldest, DropOldest, EventOccs, MaxKey, OccsIn, Rows;
    var over := |s.events| - c.maxDetailRows;
    var gone := TakeOldest(s.events, EventTs, over);
    var s1 := RaiseFloor(s.(events := DropOldest(s.events, EventTs, over)), MaxKey(gone, EventTs) + 1);
    var p1 := p.(shed := p.shed + EventOccs(gone));
    EvictEvents(s.events, over);
    forall o | o in EventOccs(gone) ensures o.ts < s1.floor {
      EvictedEventsOld(gone, s1.floor, o);
    }
    p' := RecordOverflowAccounts(s1, p1, h, t);
  }

  lemma {:induction false} LinesBelow(ls: seq<Line>, floor: int, o: Occ)
    requires ls != [] && LinesOk(ls) && MaxKey(Rows(ls), BucketEnd) <= floor && o in OccsIn(ls)
    ensures o.ts < floor
  {
    var l := OccInLine(ls, o);
    assert LineOk(l) && BucketEnd(l.row) <= floor;
  }

  lemma {:induction false} EvictedLinesOk(ls: seq<Line>, k: nat)
    requires LinesOk(ls)
    ensures LinesOk(TakeOldest(ls, LineStart, k)) && LinesOk(DropOldest(ls, LineStart, k))
  {
    OldestSplits(ls, LineStart, k);
    forall l | l in TakeOldest(ls, LineStart, k) || l in DropOldest(ls, LineStart, k) ensures LineOk(l) {
      assert l in multiset(ls);
    }
  }

  /** Shedding some lines of the ledger and keeping the others, with no claim yet about the floor. */
  lemma {:induction false} ShedLines(s: State, p: Ledger, h: seq<Occ>, kept: seq<Line>, gone: seq<Line>)
    requires Accounts(s, p, h)
    requires multiset(OccsIn(p.lines)) == multiset(OccsIn(gone)) + multiset(OccsIn(kept))
    ensures multiset(Stored(s.(buckets := Rows(kept)), Ledger(kept, p.shed + OccsIn(gone)))) == multiset(h)
  {
    hide OccsIn, EventOccs, Rows, LinesOk;
  }

  lemma {:induction false} AllShedBelow(shed: seq<Occ>, gone: seq<Line>, floor: int, end: int)
    requires gone != [] && LinesOk(gone) && Rows(gone) != [] && end == MaxKey(Rows(gone), BucketEnd) <= floor
    requires forall o :: o in shed ==> o.ts < floor
    ensures forall o :: o in shed + OccsIn(gone) ==> o.ts < floor
  {
    hide OccsIn, Rows, LinesOk, MaxKey;
    forall o | o in OccsIn(gone) ensures o.ts < floor {
      LinesBelow(gone, floor, o);
    }
  }

  /** What is shed below a raised floor keeps the ledger. */
  lemma {:induction false} ShedBelow(s: State, p: Ledger, h: seq<Occ>, kept: seq<Line>, gone: seq<Line>, end: int)
    requires Accounts(s, p, h) && gone != [] && LinesOk(kept) && LinesOk(gone)
    requires multiset(OccsIn(p.lines)) == multiset(OccsIn(gone)) + multiset(OccsIn(kept))
    requires Rows(gone) != [] && end == MaxKey(Rows(gone), BucketEnd)
    ensures Accounts(RaiseFloor(s.(buckets := Rows(kept)), end), Ledger(kept, p.shed + OccsIn(gone)), h)
  {
    var s1, p1 := RaiseFloor(s.(buckets := Rows(kept)), end), Ledger(kept, p.shed + OccsIn(gone));
    assert s1.buckets == Rows(kept) && s1.floor >= end && s1.floor >= s.floor;
    assert Stored(s1, p1) == Stored(s.(buckets := Rows(kept)), p1);
    ShedLines(s, p, h, kept, gone);
    assert forall o :: o in p.shed ==> o.ts < s1.floor;
    hide OccsIn, EventOccs, Rows, LinesOk, MaxKey, Stored, RaiseFloor;
    AllShedBelow(p.shed, gone, s1.floor, end);
  }

  lemma {:induction false} CapBucketAccounts(c: Config, s: State, p: Ledger, h: seq<Occ>, t: int)
    returns (p': Ledger, gone: seq<Line>)
    requires Accounts(s, p, h) && |s.buckets| > c.maxBucketRows
    ensures Accounts(CapBucket(c, s, t), p', h + [Occ(OVERFLOW, UNATTRIBUTED, t, 1, true)])
    ensures p'.shed == p.shed + OccsIn(gone) && LinesOk(gone)
    ensures Rows(gone) == TakeOldest(s.buckets, BucketStart, |s.buckets| - c.maxBucketRows + 1)
  {
    var over := |s.buckets| - c.maxBucketRows + 1;
    gone := TakeOldest(p.lines, LineStart, over);
    var kept := DropOldest(p.lines, LineStart, over);
    assert Rows(p.lines) == s.buckets && LinesOk(p.lines);
    var taken := TakeOldest(s.buckets, BucketStart, over);
    var s1 := RaiseFloor(s.(buckets := DropOldest(s.buckets, BucketStart, over)), MaxKey(taken, BucketEnd));
    assert CapBucket(c, s, t) == RecordOverflow(s1, t);
    hide *;
    EvictKeeps(p.lines, over);
    EvictTakes(p.lines, over);
    EvictOccs(p.lines, over);
    EvictedLinesOk(p.lines, over);
    ShedBelow(s, p, h, kept, gone, MaxKey(taken, BucketEnd));
    p' := RecordOverflowAccounts(s1, Ledger(kept, p.shed + OccsIn(gone)), h, t);
  }

  lemma {:induction false} CapStateAccounts(c: Config, s: State, p: Ledger, h: seq<Occ>, t: int) returns (p': Ledger)
    requires Accounts(s, p, h) && |s.unresolved| > c.maxStateRows
    ensures Accounts(CapState(c, s, t), p', h + [Occ(OVERFLOW, UNATTRIBUTED, t, 1, true)])
    ensures p'.shed == p.shed
  {
    var s1 := s.(unresolved := DropOldest(s.unresolved, Since, |s.unresolved| - c.maxStateRows));
    p' := RecordOverflowAccounts(s1, p, h, t);
  }

  // ---------------------------------------------------------------- the sweep

  lemma {:induction false} EventOccsCons(e: Event, es: seq<Event>)
    ensures EventOccs([e] + es) == [OccOf(e)] + EventOccs(es)
    ensures multiset(EventOccs([e] + es)) == multiset{OccOf(e)} + multiset(EventOccs(es))
  {
    assert ([e] + es)[1..] == es;
  }

  lemma {:induction false} SplitCons(e: Event, es: seq<Event>, k: seq<Event>, d: seq<Event>)
    requires multiset(EventOccs(es)) == multiset(EventOccs(k)) + multiset(EventOccs(d))
    ensures multiset(EventOccs([e] + es)) == multiset(EventOccs([e] + k)) + multiset(EventOccs(d))
    ensures multiset(EventOccs([e] + es)) == multiset(EventOccs(k)) + multiset(EventOccs([e] + d))
  {
    hide EventOccs;
    EventOccsCons(e, es);
    EventOccsCons(e, k);
    EventOccsCons(e, d);
  }

  lemma {:induction false} SplitEvents(es: seq<Event>, p: Event -> bool)
    ensures multiset(EventOccs(es))
         == multiset(EventOccs(Filter(es, p))) + multiset(EventOccs(Filter(es, e => !p(e))))
  {
    if es == [] {
    } else {
      var k, d := Filter(es[1..], p), Filter(es[1..], e => !p(e));
      assert es == [es[0]] + es[1..];
      assert Filter(es, p) == if p(es[0]) then [es[0]] + k else k;
      assert Filter(es, e => !p(e)) == if p(es[0]) then d else [es[0]] + d;
      hide EventOccs, Filter;
      SplitEvents(es[1..], p);
      SplitCons(es[0], es[1..], k, d);
    }
  }

  /** Folding detail into hours sheds nothing. */
  lemma {:induction false} FoldDetailAccounts(s: State, p: Ledger, h: seq<Occ>, cut: int) returns (p': Ledger)
    requires Accounts(s, p, h)
    ensures Accounts(FoldDetail(s, cut), p', h) && p'.shed == p.shed
  {
    var aged := Filter(s.events, (e: Event) => e.ts < cut);
    HourLinesOk(aged);
    FoldLinesOk(p.lines, HourLines(aged));
    SplitEvents(s.events, (e: Event) => e.ts < cut);
    FilterExt(s.events, (e: Event) => !(e.ts < cut), e => !((e: Event) => e.ts < cut)(e));
    p' := p.(lines := FoldLines(p.lines, HourLines(aged)));
  }

  /** A fold into day rows does not touch the hour rows about to be deleted. */
  lemma {:induction false} FoldLineKeepsHours(ls: seq<Line>, l: Line, cut: int)
    requires l.row.res == Day
    ensures Filter(FoldLine(ls, l), (l: Line) => OldHour(l.row, cut)) == Filter(ls, (l: Line) => OldHour(l.row, cut))
  {
    if ls != [] && !SameKey(ls[0].row, l.row) {
      FoldLineKeepsHours(ls[1..], l, cut);
      assert FoldLine(ls, l)[1..] == FoldLine(ls[1..], l);
    } else if ls != [] {
      assert FoldLine(ls, l)[1..] == ls[1..];
    }
  }

  lemma {:induction false} FoldLinesKeepHours(ls: seq<Line>, added: seq<Line>, cut: int)
    requires forall l :: l in added ==> l.row.res == Day
    ensures Filter(FoldLines(ls, added), (l: Line) => OldHour(l.row, cut))
         == Filter(ls, (l: Line) => OldHour(l.row, cut))
    decreases |added|
  {
    if added == [] {
    } else {
      assert added[0] in added;
      FoldLineKeepsHours(ls, added[0], cut);
      FoldLinesKeepHours(FoldLine(ls, added[0]), added[1..], cut);
    }
  }

  lemma {:induction false} DayLinesAreDays(ls: seq<Line>)
    ensures forall l :: l in DayLines(ls) ==> l.row.res == Day
  {
    if ls == [] {
    } else {
      DayLinesAreDays(ls[1..]);
    }
  }

  /** Folding hours into days sheds nothing. */
  lemma {:induction false} FoldHoursAccounts(s: State, p: Ledger, h: seq<Occ>, cut: int) returns (p': Ledger)
    requires Accounts(s, p, h)
    ensures Accounts(s.(buckets := FoldHours(s.buckets, cut)), p', h) && p'.shed == p.shed
  {
    hide FoldAll, FoldLines, DayRows, DayLines, Rows, OccsIn, Filter, EventOccs, FoldLine, FoldBucket;
    var aged := Filter(p.lines, (l: Line) => OldHour(l.row, cut));
    FilterLinesAs(p.lines, cut);
    DayLinesOk(aged);
    DayLinesAreDays(aged);
    FoldLinesOk(p.lines, DayLines(aged));
    var folded := FoldLines(p.lines, DayLines(aged));
    FoldLinesKeepHours(p.lines, DayLines(aged), cut);
    FilterLinesAs(folded, cut);
    p' := p.(lines := Filter(folded, (l: Line) => !OldHour(l.row, cut)));
    assert multiset(OccsIn(p'.lines)) == multiset(OccsIn(folded)) - multiset(OccsIn(aged)) == multiset(OccsIn(p.lines));
  }

  lemma {:induction false} FilterLinesAs(ls: seq<Line>, cut: int)
    ensures Rows(Filter(ls, (l: Line) => OldHour(l.row, cut))) == Filter(Rows(ls), (b: Bucket) => OldHour(b, cut))
    ensures Rows(Filter(ls, (l: Line) => !OldHour(l.row, cut))) == Filter(Rows(ls), (b: Bucket) => !OldHour(b, cut))
    ensures multiset(OccsIn(ls)) == multiset(OccsIn(Filter(ls, (l: Line) => OldHour(l.row, cut))))
                                  + multiset(OccsIn(Filter(ls, (l: Line) => !OldHour(l.row, cut))))
  {
    var isOld := (b: Bucket) => OldHour(b, cut);
    var notOld := (b: Bucket) => !OldHour(b, cut);
    FilterLines(ls, isOld);
    FilterLines(ls, notOld);
    FilterExt(ls, (l: Line) => isOld(l.row), (l: Line) => OldHour(l.row, cut));
    FilterExt(ls, (l: Line) => !isOld(l.row), (l: Line) => !OldHour(l.row, cut));
    FilterExt(ls, (l: Line) => notOld(l.row), (l: Line) => !OldHour(l.row, cut));
  }

  lemma {:induction false} SplitLines(ls: seq<Line>, cut: int) returns (kept: seq<Line>, gone: seq<Line>)
    requires LinesOk(ls)
    ensures LinesOk(kept) && LinesOk(gone)
    ensures Rows(kept) == Filter(Rows(ls), (b: Bucket) => !OldDay(b, cut))
    ensures Rows(gone) == Filter(Rows(ls), (b: Bucket) => OldDay(b, cut))
    ensures multiset(OccsIn(ls)) == multiset(OccsIn(gone)) + multiset(OccsIn(kept))
    ensures gone == [] ==> kept == ls
  {
    hide Rows, OccsIn;
    var isOld := (b: Bucket) => OldDay(b, cut);
    var notOld := (b: Bucket) => !OldDay(b, cut);
    gone := Filter(ls, (l: Line) => isOld(l.row));
    kept := Filter(ls, (l: Line) => !isOld(l.row));
    FilterLines(ls, isOld);
    FilterLines(ls, notOld);
    FilterExt(ls, (l: Line) => notOld(l.row), (l: Line) => !isOld(l.row));
    FilterExt(Rows(ls), isOld, (b: Bucket) => OldDay(b, cut));
    FilterExt(Rows(ls), notOld, (b: Bucket) => !OldDay(b, cut));
    if gone == [] {
      forall l | l in ls ensures !isOld(l.row) {
        assert isOld(l.row) ==> l in gone;
      }
      FilterAll(ls, (l: Line) => !isOld(l.row));
    }
  }

  /** Past the day horizon evidence goes, below a floor that covers all of it. */
  lemma {:induction false} DropDaysAccounts(s: State, p: Ledger, h: seq<Occ>, cut: int)
    returns (p': Ledger, gone: seq<Line>)
    requires Accounts(s, p, h)
    ensures Accounts(DropDays(s, cut), p', h)
    ensures p'.shed == p.shed + OccsIn(gone) && LinesOk(gone)
    ensures Rows(gone) == Filter(s.buckets, (b: Bucket) => OldDay(b, cut))
  {
    assert Rows(p.lines) == s.buckets && LinesOk(p.lines);
    assert OccsIn([]) == [] && p.shed + [] == p.shed;
    hide Rows, OccsIn, Filter, LinesOk, MaxKey, Accounts, Explains;
    var kept;
    kept, gone := SplitLines(p.lines, cut);
    p' := Ledger(kept, p.shed + OccsIn(gone));
    if gone == [] {
      assert p' == p;
    } else {
      ShedBelow(s, p, h, kept, gone, MaxKey(Rows(gone), BucketEnd));
    }
  }

  lemma {:induction false} FoldAccounts(c: Config, s: State, p: Ledger, h: seq<Occ>, t: int)
    returns (p': Ledger, gone: seq<Line>)
    requires Accounts(s, p, h)
    ensures Accounts(Fold(c, s, t), p', h)
    ensures p'.shed == p.shed + OccsIn(gone) && LinesOk(gone)
    ensures Rows(gone) == RowsGone(c, s, Step(t, FoldUnit))
  {
    hide FoldDetail, FoldHours, DropDays, Accounts, LinesOk, OccsIn, Rows, Filter;
    var p1 := FoldDetailAccounts(s, p, h, t - c.detailMs);
    var s1 := FoldDetail(s, t - c.detailMs);
    var p2 := FoldHoursAccounts(s1, p1, h, t - c.hourMs);
    p', gone := DropDaysAccounts(s1.(buckets := FoldHours(s1.buckets, t - c.hourMs)), p2, h, t - c.dayMs);
  }

  // ----------------------------------------------------------------- the runs

  /** What a unit deletes for good is what the ledger sheds: evicted events, and the occurrences behind the rows. */
  ghost predicate Sheds(c: Config, s: State, step: Step, before: seq<Occ>, gone: seq<Line>, after: seq<Occ>) {
    && LinesOk(gone) && Rows(gone) == RowsGone(c, s, step)
    && after == before + EventOccs(EventsGone(c, s, step)) + OccsIn(gone)
  }

  lemma {:induction false} ShedsNothing(c: Config, s: State, step: Step, shed: seq<Occ>)
    requires EventsGone(c, s, step) == [] && RowsGone(c, s, step) == []
    ensures Sheds(c, s, step, shed, [], shed)
  {
    hide EventsGone, RowsGone;
  }

  lemma {:induction false} ShedsEvents(c: Config, s: State, step: Step, before: seq<Occ>, after: seq<Occ>)
    requires step.u.CapDetailUnit? && after == before + EventOccs(EventsGone(c, s, step))
    ensures Sheds(c, s, step, before, [], after)
  {
    hide EventsGone;
  }

  lemma {:induction false} ShedsRows(c: Config, s: State, step: Step, before: seq<Occ>, gone: seq<Line>,
      after: seq<Occ>)
    requires !step.u.CapDetailUnit? && after == before + OccsIn(gone) && LinesOk(gone)
    requires Rows(gone) == RowsGone(c, s, step)
    ensures Sheds(c, s, step, before, gone, after)
  {
    hide RowsGone, Rows, OccsIn, LinesOk;
  }

  /** The units that delete nothing, and the caps that are not met. */
  lemma {:induction false} QuietAccounts(c: Config, s: State, p: Ledger, h: seq<Occ>, step: Step)
    returns (p': Ledger)
    requires Accounts(s, p, h) && !step.u.FoldUnit?
    requires step.u.CapDetailUnit? ==> |s.events| <= c.maxDetailRows
    requires step.u.CapBucketUnit? ==> |s.buckets| <= c.maxBucketRows
    ensures Accounts(Apply(c, s, step), p', h + Added(c, s, step)) && p'.shed == p.shed
  {
    hide FoldBucket, EventsFor, EventOccs, OccsIn, Rows, LinesOk, Filter;
    assert h + [] == h;
    p' := p;
    match step.u
    case InsertUnit(cause, members) => InsertAccounts(s, p, h, step.t, cause, members);
    case FactUnit(fact, n) => p' := AddFactAccounts(s, p, h, fact, n, step.t);
    case CapStateUnit =>
      if |s.unresolved| > c.maxStateRows { p' := CapStateAccounts(c, s, p, h, step.t); }
    case _ =>
  }

  lemma {:induction false} DetailSheds(c: Config, s: State, p: Ledger, h: seq<Occ>, step: Step) returns (p': Ledger)
    requires Accounts(s, p, h) && step.u.CapDetailUnit? && |s.events| > c.maxDetailRows
    ensures Accounts(Apply(c, s, step), p', h + Added(c, s, step)) && Sheds(c, s, step, p.shed, [], p'.shed)
  {
    assert step == Step(step.t, CapDetailUnit) && Apply(c, s, step) == CapDetail(c, s, step.t);
    assert Added(c, s, step) == [Occ(OVERFLOW, UNATTRIBUTED, step.t, 1, true)];
    hide *;
    p' := CapDetailAccounts(c, s, p, h, step.t);
    ShedsEvents(c, s, step, p.shed, p'.shed);
  }

  lemma {:induction false} BucketsShed(c: Config, s: State, p: Ledger, h: seq<Occ>, step: Step)
    returns (p': Ledger, gone: seq<Line>)
    requires Accounts(s, p, h) && step.u.CapBucketUnit? && |s.buckets| > c.maxBucketRows
    ensures Accounts(Apply(c, s, step), p', h + Added(c, s, step)) && Sheds(c, s, step, p.shed, gone, p'.shed)
  {
    assert Apply(c, s, step) == CapBucket(c, s, step.t);
    assert Added(c, s, step) == [Occ(OVERFLOW, UNATTRIBUTED, step.t, 1, true)];
    assert RowsGone(c, s, step) == TakeOldest(s.buckets, BucketStart, |s.buckets| - c.maxBucketRows + 1);
    hide *;
    p', gone := CapBucketAccounts(c, s, p, h, step.t);
    ShedsRows(c, s, step, p.shed, gone, p'.shed);
  }

  lemma {:induction false} FoldSheds(c: Config, s: State, p: Ledger, h: seq<Occ>, step: Step)
    returns (p': Ledger, gone: seq<Line>)
    requires Accounts(s, p, h) && step.u.FoldUnit?
    ensures Accounts(Apply(c, s, step), p', h + Added(c, s, step)) && Sheds(c, s, step, p.shed, gone, p'.shed)
  {
    assert step == Step(step.t, FoldUnit) && Apply(c, s, step) == Fold(c, s, step.t);
    assert Added(c, s, step) == [] && h + [] == h;
    hide *;
    p', gone := FoldAccounts(c, s, p, h, step.t);
    ShedsRows(c, s, step, p.shed, gone, p'.shed);
  }

  /** A unit keeps the ledger, and sheds what it deletes. */
  lemma {:induction false} ApplyAccounts(c: Config, s: State, p: Ledger, h: seq<Occ>, step: Step)
    returns (p': Ledger, gone: seq<Line>)
    requires Accounts(s, p, h)
    ensures Accounts(Apply(c, s, step), p', h + Added(c, s, step))
    ensures Sheds(c, s, step, p.shed, gone, p'.shed)
  {
    hide *;
    gone := [];
    if step.u.CapDetailUnit? && |s.events| > c.maxDetailRows {
      p' := DetailSheds(c, s, p, h, step);
    } else if step.u.CapBucketUnit? && |s.buckets| > c.maxBucketRows {
      p', gone := BucketsShed(c, s, p, h, step);
    } else if step.u.FoldUnit? {
      p', gone := FoldSheds(c, s, p, h, step);
    } else {
      p' := QuietAccounts(c, s, p, h, step);
      QuietDeletes(c, s, step);
      ShedsNothing(c, s, step, p.shed);
    }
  }

  lemma {:induction false} QuietDeletes(c: Config, s: State, step: Step)
    requires !step.u.FoldUnit?
    requires step.u.CapDetailUnit? ==> |s.events| <= c.maxDetailRows
    requires step.u.CapBucketUnit? ==> |s.buckets| <= c.maxBucketRows
    ensures EventsGone(c, s, step) == [] && RowsGone(c, s, step) == []
  {
  }

  lemma {:induction false} ShedWeighs(c: Config, s: State, step: Step, shed: seq<Occ>, gone: seq<Line>,
      after: seq<Occ>, cause: Cause, member: string)
    requires Sheds(c, s, step, shed, gone, after)
    ensures Weigh(after, Is(cause, member))
         == Weigh(shed, Is(cause, member)) + ShedBy(c, s, step, cause, member)
  {
    hide EventsGone, RowsGone, LinesOk;
    var es, f := EventsGone(c, s, step), Is(cause, member);
    WeighAppend(shed + EventOccs(es), OccsIn(gone), f);
    WeighAppend(shed, EventOccs(es), f);
    CountEvents(es, (e: Event) => e.cause == cause && e.member == member, f);
    SumOfLines(gone, cause, member);
  }

  lemma {:induction false} RunAccounts(c: Config, s: State, p: Ledger, h: seq<Occ>, steps: seq<Step>)
    returns (p': Ledger)
    requires Accounts(s, p, h)
    ensures Accounts(Run(c, s, steps), p', h + History(c, s, steps))
    ensures forall cause, member ::
      Weigh(p'.shed, Is(cause, member)) == Weigh(p.shed, Is(cause, member)) + ShedOver(c, s, steps, cause, member)
    decreases |steps|
  {
    if steps == [] {
      assert h + [] == h;
      p' := p;
    } else {
      var s1, added := Apply(c, s, steps[0]), Added(c, s, steps[0]);
      var p1, gone := ApplyAccounts(c, s, p, h, steps[0]);
      p' := RunAccounts(c, s1, p1, h + added, steps[1..]);
      assert h + added + History(c, s1, steps[1..]) == h + History(c, s, steps);
      hide Accounts, Apply, Added, History, ShedBy, Sheds, Is, Weigh;
      forall cause, member
        ensures Weigh(p'.shed, Is(cause, member))
             == Weigh(p.shed, Is(cause, member)) + ShedOver(c, s, steps, cause, member) {
        ShedWeighs(c, s, steps[0], p.shed, gone, p1.shed, cause, member);
      }
    }
  }

  /**
   * Every state a fresh store can reach accounts for everything ever written to it, and
   * what was shed is exactly what caps and the day horizon deleted on the way.
   */
  lemma {:induction false} ReachableAccounts(c: Config, steps: seq<Step>) returns (p: Ledger)
    ensures Accounts(Run(c, EMPTY, steps), p, History(c, EMPTY, steps))
    ensures forall cause, member ::
      Weigh(p.shed, Is(cause, member)) == ShedOver(c, EMPTY, steps, cause, member)
  {
    EmptyAccounts();
    hide *;
    p := RunAccounts(c, EMPTY, Ledger([], []), [], steps);
    assert [] + History(c, EMPTY, steps) == History(c, EMPTY, steps);
  }

  lemma {:induction false} EmptyAccounts()
    ensures Accounts(EMPTY, Ledger([], []), [])
    ensures forall cause, member :: Weigh([], Is(cause, member)) == 0
  {
  }
}
