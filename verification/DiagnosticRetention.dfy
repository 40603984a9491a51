/**
 * What the sweep and the three caps do to the tables, said of the rows themselves:
 * where each event and bucket lands, which rows a cap evicts, and how far the floor
 * rises.  Over any run the floor stays within a day of something that was written.
 */
module DiagnosticRetention {
  import opened Prelude
  import opened DiagnosticModel
  import opened DiagnosticLedger
  import opened DiagnosticCoverage
  import opened DiagnosticSweep

  // ---------------------------------------------------------------------- sweep

  /** A sweep moves what is counted under `from` to `to`: an hour before its cut joins its day. */
  predicate Lands(from: Key, hourCut: int, dayCut: int, to: Key) {
    && to.cause == from.cause && to.member == from.member
    && (from.res == Hour && from.start >= hourCut ==> to.res == Hour && to.start == from.start)
    && (from.res == Hour && from.start < hourCut ==> to.res == Day && to.start == DayOf(from.start))
    && (from.res == Day ==> to.res == Day && to.start == from.start)
    && (to.res == Day ==> to.start >= dayCut)
  }

  function HourKey(e: Event): Key { Key(e.cause, e.member, Hour, HourOf(e.ts)) }

  /** The merged counts of single events. */
  function Counted(es: seq<Event>, p: Event -> bool): Agg {
    if es == [] then Zero
    else Plus(if p(es[0]) then Agg(1, es[0].ts, es[0].ts) else Zero, Counted(es[1..], p))
  }

  lemma {:induction false} FoldedCounts(es: seq<Event>, cut: int, p: Key -> bool, q: Event -> bool)
    requires forall e :: q(e) == (e.ts < cut && p(HourKey(e)))
    ensures Total(Folded(es, cut), p) == Counted(es, q)
  {
    if es == [] {
    } else {
      var rest := Filter(es[1..], (e: Event) => e.ts < cut);
      FoldedCounts(es[1..], cut, p, q);
      if es[0].ts < cut {
        assert Folded(es, cut)[1..] == HourRows(rest);
        assert KeyOf(HourRow(es[0].cause, es[0].member, 1, es[0].ts)) == HourKey(es[0]);
      }
    }
  }

  lemma {:induction false} LandsIs(c: Config, t: int, to: Key, k: Key)
    ensures AfterSweep(c, t, Only(to))(k) == Lands(k, t - c.hourMs, t - c.dayMs, to)
  {
  }

  /**
   * A bucket row left by a sweep holds exactly the rows and the aged events that land on
   * its key: how many, the first and the last; a key nothing lands on has no row.
   */
  lemma {:induction false} SweepLands(c: Config, s: State, t: int, to: Key)
    ensures Total(Fold(c, s, t).buckets, (k: Key) => k == to)
         == Plus(Total(s.buckets, (k: Key) => Lands(k, t - c.hourMs, t - c.dayMs, to)),
                 Counted(s.events, (e: Event) =>
                   e.ts < t - c.detailMs && Lands(HourKey(e), t - c.hourMs, t - c.dayMs, to)))
  {
    hide Total, Plus, Folded, Fold, AfterSweep, Lands, Counted, HourKey;
    var lands := (k: Key) => Lands(k, t - c.hourMs, t - c.dayMs, to);
    var counted := (e: Event) => e.ts < t - c.detailMs && Lands(HourKey(e), t - c.hourMs, t - c.dayMs, to);
    forall k ensures AfterSweep(c, t, Only(to))(k) == lands(k) {
      LandsIs(c, t, to, k);
    }
    TotalSweep(c, s, t, Only(to));
    TotalExt(Fold(c, s, t).buckets, Only(to), (k: Key) => k == to);
    TotalExt(s.buckets, AfterSweep(c, t, Only(to)), lands);
    TotalExt(Folded(s.events, t - c.detailMs), AfterSweep(c, t, Only(to)), lands);
    FoldedCounts(s.events, t - c.detailMs, lands, counted);
  }

  /** A sweep takes from the detail table the events older than the detail age, and touches nothing else. */
  lemma {:induction false} SweepEvents(c: Config, s: State, t: int, e: Event)
    ensures multiset(Fold(c, s, t).events)[e] == if e.ts < t - c.detailMs then 0 else multiset(s.events)[e]
    ensures var s' := Fold(c, s, t);
      s'.unresolved == s.unresolved && s'.overflowLast == s.overflowLast && s'.stateEvicted == s.stateEvicted
  {
    FoldEvents(c, s, t);
    hide Fold, Filter;
    FilterCounts(s.events, (e: Event) => !(e.ts < t - c.detailMs), e);
  }

  /** What is counted under `k` is in, or joins, a day past the day age that ends after `v`. */
  predicate Expires(k: Key, hourCut: int, dayCut: int, v: int) {
    || (k.res == Day && k.start < dayCut && k.start + DAY > v)
    || (k.res == Hour && k.start < hourCut && DayOf(k.start) < dayCut && DayOf(k.start) + DAY > v)
  }

  /** Some day ending after `v` expires in the sweep: by a row of the table, or by events it folds. */
  ghost predicate DayExpires(c: Config, s: State, t: int, v: int) {
    || (exists b :: b in s.buckets && Expires(KeyOf(b), t - c.hourMs, t - c.dayMs, v))
    || (exists e :: e in s.events && e.ts < t - c.detailMs && Expires(HourKey(e), t - c.hourMs, t - c.dayMs, v))
  }

  lemma {:induction false} CountedNonZero(es: seq<Event>, p: Event -> bool)
    ensures Counted(es, p) != Zero <==> exists e :: e in es && p(e)
  {
    if es == [] {
    } else {
      CountedNonZero(es[1..], p);
      assert es[0] in es && forall e :: e in es <==> e == es[0] || e in es[1..];
    }
  }

  lemma {:induction false} ExpiresIs(c: Config, t: int, v: int, k: Key)
    ensures AfterPromotion(t - c.hourMs, Drops(c, t, v))(k) == Expires(k, t - c.hourMs, t - c.dayMs, v)
  {
    DropCases(c, t, v, t - c.hourMs, k);
  }

  /** A sweep raises the floor to the end of the last day it drops, and no further. */
  lemma {:induction false} SweepFloor(c: Config, s: State, t: int, v: int)
    requires TableOk(s.buckets) && s.floor <= v
    ensures Fold(c, s, t).floor > v <==> DayExpires(c, s, t, v)
  {
    hide Total, Folded, Fold, AfterPromotion, Promotions, Drops, Expires, Counted, HourKey, KeyOf, Plus, DistinctKeys;
    var past := AfterPromotion(t - c.hourMs, Drops(c, t, v));
    var counted := (e: Event) => e.ts < t - c.detailMs && past(HourKey(e));
    forall k ensures past(k) == Expires(k, t - c.hourMs, t - c.dayMs, v) {
      ExpiresIs(c, t, v, k);
    }
    PromotionsOk(c, s, t);
    FloorPast(c, s, t, v);
    TotalPromotions(c, s, t, Drops(c, t, v));
    FoldedCounts(s.events, t - c.detailMs, past, counted);
    CountedNonZero(s.events, counted);
    TotalNonZero(s.buckets, past);
    PlusNonZero(Total(s.buckets, past), Counted(s.events, counted));
  }

  lemma {:induction false} PlusNonZero(a: Agg, b: Agg)
    ensures Plus(a, b) != Zero <==> a != Zero || b != Zero
  {
  }

  // ----------------------------------------------------------------------- caps

  /** An overflow adds one occurrence, now, to its own cause's hour, and is noted; the other rows keep their counts. */
  lemma {:induction false} OverflowCounts(s: State, t: int, at: Key)
    ensures var s' := RecordOverflow(s, t);
      && Total(s'.buckets, (k: Key) => k == at)
         == Plus(Total(s.buckets, (k: Key) => k == at),
                 if at == Key("retention.overflow", "", Hour, HourOf(t)) then Agg(1, t, t) else Zero)
      && s' == s.(buckets := s'.buckets, overflowLast := t)
  {
    TotalFold(s.buckets, HourRow(OVERFLOW, UNATTRIBUTED, 1, t), (k: Key) => k == at);
    hide Total, Plus, FoldBucket;
  }

  /** Within a cap nothing is evicted. */
  lemma {:induction false} CapsRest(c: Config, s: State, t: int)
    ensures |s.events| <= c.maxDetailRows ==> CapDetail(c, s, t) == s
    ensures |s.buckets| <= c.maxBucketRows ==> CapBucket(c, s, t) == s
    ensures |s.unresolved| <= c.maxStateRows ==> CapState(c, s, t) == s
  {
    hide RecordOverflow, RaiseFloor, TakeOldest, DropOldest, MaxKey;
  }

  lemma {:induction false} Evicted<T(!new)>(s: seq<T>, key: T -> int, k: nat)
    ensures multiset(s) == multiset(TakeOldest(s, key, k)) + multiset(DropOldest(s, key, k))
    ensures forall a, b :: a in TakeOldest(s, key, k) && b in DropOldest(s, key, k) ==> key(a) <= key(b)
  {
    hide *;
    OldestSplits(s, key, k);
    forall a, b | a in TakeOldest(s, key, k) && b in DropOldest(s, key, k) ensures key(a) <= key(b) {
      TakenAreOldest(s, key, k, a, b);
    }
  }

  lemma {:induction false} FloorReaches<T(!new)>(gone: seq<T>, key: T -> int, floor: int, past: int)
    requires gone != []
    ensures var floor' := Max(floor, MaxKey(gone, key) + past);
      && floor' >= floor && (forall a :: a in gone ==> key(a) + past <= floor')
      && (floor' == floor || exists a :: a in gone && floor' == key(a) + past)
  {
  }

  lemma {:induction false} CapDetailUnfolds(c: Config, s: State, t: int)
    requires |s.events| > c.maxDetailRows
    ensures var over := |s.events| - c.maxDetailRows;
      CapDetail(c, s, t) == RecordOverflow(s.(events := DropOldest(s.events, EventTs, over),
          floor := Max(s.floor, MaxKey(TakeOldest(s.events, EventTs, over), EventTs) + 1)), t)
  {
    hide TakeOldest, DropOldest, RecordOverflow, MaxKey;
  }

  lemma {:induction false} CapBucketUnfolds(c: Config, s: State, t: int)
    requires |s.buckets| > c.maxBucketRows
    ensures var over := |s.buckets| - c.maxBucketRows + 1;
      CapBucket(c, s, t) == RecordOverflow(s.(buckets := DropOldest(s.buckets, BucketStart, over),
          floor := Max(s.floor, MaxKey(TakeOldest(s.buckets, BucketStart, over), BucketEnd))), t)
  {
    hide TakeOldest, DropOldest, RecordOverflow, MaxKey;
  }

  /** Past its cap the detail table loses its oldest events, down to the cap, and the floor passes just those. */
  lemma {:induction false} CapDetailIs(c: Config, s: State, t: int)
    returns (gone: seq<Event>, kept: seq<Event>, floor: int)
    requires |s.events| > c.maxDetailRows
    ensures CapDetail(c, s, t) == RecordOverflow(s.(events := kept, floor := floor), t)
    ensures multiset(s.events) == multiset(gone) + multiset(kept) && |kept| == c.maxDetailRows
    ensures forall a, b :: a in gone && b in kept ==> a.ts <= b.ts
    ensures floor >= s.floor && forall a :: a in gone ==> a.ts < floor
    ensures floor == s.floor || exists a :: a in gone && floor == a.ts + 1
  {
    hide TakeOldest, DropOldest, RecordOverflow, MaxKey, CapDetail;
    var over := |s.events| - c.maxDetailRows;
    gone, kept := TakeOldest(s.events, EventTs, over), DropOldest(s.events, EventTs, over);
    floor := Max(s.floor, MaxKey(gone, EventTs) + 1);
    CapDetailUnfolds(c, s, t);
    FloorReaches(gone, EventTs, s.floor, 1);
    Evicted(s.events, EventTs, over);
  }

  /**
   * Past its cap the bucket table loses the rows that start earliest, down to one below the
   * cap, and the floor rises to the last of their ends and no further.
   */
  lemma {:induction false} CapBucketIs(c: Config, s: State, t: int)
    returns (gone: seq<Bucket>, kept: seq<Bucket>, floor: int)
    requires |s.buckets| > c.maxBucketRows
    ensures CapBucket(c, s, t) == RecordOverflow(s.(buckets := kept, floor := floor), t)
    ensures multiset(s.buckets) == multiset(gone) + multiset(kept) && |kept| == Max(0, c.maxBucketRows - 1)
    ensures forall a, b :: a in gone && b in kept ==> a.start <= b.start
    ensures floor >= s.floor && forall a :: a in gone ==> a.end <= floor
    ensures floor == s.floor || exists a :: a in gone && floor == a.end
  {
    hide TakeOldest, DropOldest, RecordOverflow, MaxKey, CapBucket;
    var over := |s.buckets| - c.maxBucketRows + 1;
    gone, kept := TakeOldest(s.buckets, BucketStart, over), DropOldest(s.buckets, BucketStart, over);
    floor := Max(s.floor, MaxKey(gone, BucketEnd));
    CapBucketUnfolds(c, s, t);
    FloorReaches(gone, BucketEnd, s.floor, 0);
    Evicted(s.buckets, BucketStart, over);
  }

  /** Past its cap the state table loses the rows unresolved longest, down to the cap, and health latches. */
  lemma {:induction false} CapStateIs(c: Config, s: State, t: int)
    returns (gone: seq<Unresolved>, kept: seq<Unresolved>)
    requires |s.unresolved| > c.maxStateRows
    ensures CapState(c, s, t) == RecordOverflow(s.(unresolved := kept), t).(stateEvicted := true)
    ensures multiset(s.unresolved) == multiset(gone) + multiset(kept) && |kept| == c.maxStateRows
    ensures forall a, b :: a in gone && b in kept ==> a.since <= b.since
  {
    hide TakeOldest, DropOldest, RecordOverflow;
    var over := |s.unresolved| - c.maxStateRows;
    gone, kept := TakeOldest(s.unresolved, Since, over), DropOldest(s.unresolved, Since, over);
    Evicted(s.unresolved, Since, over);
  }

  // ---------------------------------------------------------- the floor over runs

  /** Something written lies below `floor`, and within a day of it. */
  ghost predicate Earned(h: seq<Occ>, floor: int) { exists o :: o in h && floor - DAY <= o.ts < floor }

  lemma {:induction false} StoredEvents(s: State, p: Ledger, h: seq<Occ>, e: Event)
    requires Accounts(s, p, h) && e in s.events
    ensures OccOf(e) in h
  {
    hide OccsIn, Rows, LinesOk;
    EventHasOcc(s.events, e);
    assert OccOf(e) in Stored(s, p);
    assert OccOf(e) in multiset(Stored(s, p));
  }

  lemma {:induction false} EventHasOcc(es: seq<Event>, e: Event)
    requires e in es
    ensures OccOf(e) in EventOccs(es)
  {
    if e == es[0] {
    } else {
      EventHasOcc(es[1..], e);
    }
  }

  lemma {:induction false} LineOccs(ls: seq<Line>, b: Bucket) returns (l: Line)
    requires b in Rows(ls)
    ensures l in ls && l.row == b && forall o :: o in l.occs ==> o in OccsIn(ls)
  {
    if b == ls[0].row {
      l := ls[0];
    } else {
      l := LineOccs(ls[1..], b);
    }
  }

  /** Every bucket row counts something that was written, inside its interval. */
  lemma {:induction false} StoredRows(s: State, p: Ledger, h: seq<Occ>, b: Bucket) returns (o: Occ)
    requires Accounts(s, p, h) && b in s.buckets
    ensures o in h && b.start <= o.ts < b.end
    ensures b.start % Width(b.res) == 0 && b.end == b.start + Width(b.res)
  {
    hide OccsIn, Rows, EventOccs;
    var l := LineOccs(p.lines, b);
    assert LineOk(l);
    o :| o in l.occs && o.ts == l.row.first;
    assert o in Stored(s, p);
    assert o in multiset(Stored(s, p));
  }

  lemma {:induction false} CapDetailEarns(c: Config, s: State, p: Ledger, h: seq<Occ>, t: int)
    requires Accounts(s, p, h)
    ensures CapDetail(c, s, t).floor == s.floor || Earned(h, CapDetail(c, s, t).floor)
  {
    hide Accounts, CapDetail, FoldBucket, HourRow;
    CapsRest(c, s, t);
    if |s.events| > c.maxDetailRows {
      var gone, kept, floor := CapDetailIs(c, s, t);
      if floor != s.floor {
        var e :| e in gone && floor == e.ts + 1;
        assert e in multiset(s.events);
        StoredEvents(s, p, h, e);
      }
    }
  }

  lemma {:induction false} CapBucketEarns(c: Config, s: State, p: Ledger, h: seq<Occ>, t: int)
    requires Accounts(s, p, h)
    ensures CapBucket(c, s, t).floor == s.floor || Earned(h, CapBucket(c, s, t).floor)
  {
    hide Accounts, CapBucket, FoldBucket, HourRow;
    CapsRest(c, s, t);
    if |s.buckets| > c.maxBucketRows {
      var gone, kept, floor := CapBucketIs(c, s, t);
      if floor != s.floor {
        var b :| b in gone && floor == b.end;
        assert b in multiset(s.buckets);
        var o := StoredRows(s, p, h, b);
      }
    }
  }

  lemma {:induction false} HourStarts(ts: int)
    ensures HourOf(ts) % HOUR == 0 && HourOf(ts) <= ts < HourOf(ts) + HOUR
  {
  }

  lemma {:induction false} FoldEarns(c: Config, s: State, p: Ledger, h: seq<Occ>, t: int)
    requires Accounts(s, p, h) && TableOk(s.buckets)
    ensures Fold(c, s, t).floor == s.floor || Earned(h, Fold(c, s, t).floor)
  {
    hide Accounts, Fold, DistinctKeys, HourOf, DayOf;
    var floor := Fold(c, s, t).floor;
    FoldFloor(c, s, t);
    if floor > s.floor {
      SweepFloor(c, s, t, floor - 1);
      SweepFloor(c, s, t, floor);
      if b :| b in s.buckets && Expires(KeyOf(b), t - c.hourMs, t - c.dayMs, floor - 1) {
        var o := StoredRows(s, p, h, b);
        assert !Expires(KeyOf(b), t - c.hourMs, t - c.dayMs, floor);
        if b.res == Hour {
          HourInDay(b.start);
        }
        assert floor - DAY <= o.ts < floor;
      } else {
        var e :| e in s.events && Expires(HourKey(e), t - c.hourMs, t - c.dayMs, floor - 1)
                 && e.ts < t - c.detailMs;
        StoredEvents(s, p, h, e);
        assert !Expires(HourKey(e), t - c.hourMs, t - c.dayMs, floor);
        HourStarts(e.ts);
        HourInDay(HourOf(e.ts));
        assert floor - DAY <= OccOf(e).ts < floor;
      }
    }
  }

  lemma {:induction false} StepEarns(c: Config, s: State, p: Ledger, h: seq<Occ>, step: Step)
    requires Accounts(s, p, h) && TableOk(s.buckets)
    ensures Apply(c, s, step).floor == s.floor || Earned(h, Apply(c, s, step).floor)
  {
    hide Accounts, Fold, CapDetail, CapBucket, TableOk, FoldBucket, TakeOldest, DropOldest, Filter, UpsertAll,
        EventsFor, HourRow;
    match step.u
    case InsertUnit(_, _) =>
    case FactUnit(_, _) =>
    case CapDetailUnit => CapDetailEarns(c, s, p, h, step.t);
    case CapBucketUnit => CapBucketEarns(c, s, p, h, step.t);
    case CapStateUnit =>
    case FoldUnit => FoldEarns(c, s, p, h, step.t);
    case ClearUnit(_, _) =>
  }

  lemma {:induction false} EarnedStays(h: seq<Occ>, more: seq<Occ>, floor: int)
    requires Earned(h, floor)
    ensures Earned(h + more, floor)
  {
    var o :| o in h && floor - DAY <= o.ts < floor;
    assert o in h + more;
  }

  lemma {:induction false} RunEarns(c: Config, s: State, p: Ledger, h: seq<Occ>, steps: seq<Step>)
    requires Accounts(s, p, h) && TableOk(s.buckets) && (s.floor == 0 || Earned(h, s.floor))
    ensures Run(c, s, steps).floor == 0 || Earned(h + History(c, s, steps), Run(c, s, steps).floor)
    decreases |steps|
  {
    hide Accounts, TableOk, Apply, Added, Earned;
    if steps == [] {
      assert h + [] == h;
    } else {
      var s1, added := Apply(c, s, steps[0]), Added(c, s, steps[0]);
      StepEarns(c, s, p, h, steps[0]);
      if Earned(h, s1.floor) {
        EarnedStays(h, added, s1.floor);
      }
      var p1, gone := ApplyAccounts(c, s, p, h, steps[0]);
      ApplyOk(c, s, steps[0]);
      RunEarns(c, s1, p1, h + added, steps[1..]);
      assert h + added + History(c, s1, steps[1..]) == h + History(c, s, steps);
    }
  }

  /**
   * After any run of a new store the floor is where it began, or something that was
   * written lies below it and within a day of it: the store never refuses further back
   * than it has to.
   */
  lemma {:induction false} FloorIsEarned(c: Config, steps: seq<Step>)
    ensures var floor := Run(c, EMPTY, steps).floor;
      floor == 0 || exists o :: o in History(c, EMPTY, steps) && floor - DAY <= o.ts < floor
  {
    EmptyAccounts();
    RunEarns(c, EMPTY, Ledger([], []), [], steps);
    assert [] + History(c, EMPTY, steps) == History(c, EMPTY, steps);
    hide Run, History;
  }
}
