/**
 * Sweep confluence: folding at t1 and again at t2 >= t1 leaves the same events,
 * the same bucket rows and the same floor as folding once at t2.
 *
 * A bucket table is read through `Total`: the merged counts of the rows whose
 * key satisfies a predicate.  A sweep moves keys (hour to day, day to nowhere),
 * so `Total` after a sweep is `Total` before it at the preimage predicate, and
 * confluence is a fact about where one key ends up.
 */
module DiagnosticSweep {
  import opened Prelude
  import opened DiagnosticModel

  datatype Key = Key(cause: Cause, member: string, res: Resolution, start: int)
  datatype Agg = Zero | Agg(n: nat, first: int, last: int)

  function KeyOf(b: Bucket): Key { Key(b.cause, b.member, b.res, b.start) }
  function AggOf(b: Bucket): Agg { Agg(b.n, b.first, b.last) }

  function Plus(a: Agg, b: Agg): Agg {
    if a == Zero then b
    else if b == Zero then a
    else Agg(a.n + b.n, Min(a.first, b.first), Max(a.last, b.last))
  }

  /** The merged counts of the rows whose key satisfies `p`. */
  function Total(bs: seq<Bucket>, p: Key -> bool): Agg {
    if bs == [] then Zero
    else Plus(if p(KeyOf(bs[0])) then AggOf(bs[0]) else Zero, Total(bs[1..], p))
  }

  lemma {:induction false} TotalExt(bs: seq<Bucket>, p: Key -> bool, q: Key -> bool)
    requires forall k :: p(k) == q(k)
    ensures Total(bs, p) == Total(bs, q)
  {
    if bs == [] {
    } else {
      TotalExt(bs[1..], p, q);
    }
  }

  lemma {:induction false} TotalFold(bs: seq<Bucket>, b: Bucket, p: Key -> bool)
    ensures Total(FoldBucket(bs, b), p) == Plus(Total(bs, p), if p(KeyOf(b)) then AggOf(b) else Zero)
  {
    if bs == [] {
    } else {
      if SameKey(bs[0], b) {
        assert FoldBucket(bs, b)[1..] == bs[1..];
      } else {
        TotalFold(bs[1..], b, p);
        assert FoldBucket(bs, b)[1..] == FoldBucket(bs[1..], b);
      }
    }
  }

  lemma {:induction false} TotalFoldAll(bs: seq<Bucket>, added: seq<Bucket>, p: Key -> bool)
    ensures Total(FoldAll(bs, added), p) == Plus(Total(bs, p), Total(added, p))
    decreases |added|
  {
    if added == [] {
    } else {
      TotalFold(bs, added[0], p);
      TotalFoldAll(FoldBucket(bs, added[0]), added[1..], p);
    }
  }

  lemma {:induction false} TotalFilter(bs: seq<Bucket>, keep: Bucket -> bool, k: Key -> bool, p: Key -> bool)
    requires forall b :: keep(b) == k(KeyOf(b))
    ensures Total(Filter(bs, keep), p) == Total(bs, x => k(x) && p(x))
  {
    if bs == [] {
    } else {
      TotalFilter(bs[1..], keep, k, p);
      var rest := Filter(bs[1..], keep);
      assert ([bs[0]] + rest)[1..] == rest;
    }
  }

  lemma {:induction false} PlusSplit(x: Agg, left: bool, a: Agg, b: Agg)
    ensures Plus(Plus(if left then x else Zero, a), Plus(if left then Zero else x, b)) == Plus(x, Plus(a, b))
  {
  }

  /** Disjoint predicates add up. */
  lemma {:induction false} TotalSplit(bs: seq<Bucket>, p: Key -> bool, q: Key -> bool, r: Key -> bool)
    requires forall k :: r(k) == (p(k) || q(k)) && !(p(k) && q(k))
    ensures Plus(Total(bs, p), Total(bs, q)) == Total(bs, r)
  {
    if bs == [] {
    } else {
      TotalSplit(bs[1..], p, q, r);
      var k := KeyOf(bs[0]);
      assert r(k) == (p(k) || q(k)) && !(p(k) && q(k));
      PlusSplit(if r(k) then AggOf(bs[0]) else Zero, p(k), Total(bs[1..], p), Total(bs[1..], q));
    }
  }

  lemma {:induction false} TotalNonZero(bs: seq<Bucket>, p: Key -> bool)
    ensures Total(bs, p) != Zero <==> exists b :: b in bs && p(KeyOf(b))
  {
    if bs == [] {
    } else {
      TotalNonZero(bs[1..], p);
      assert bs[0] in bs && forall b :: b in bs <==> b == bs[0] || b in bs[1..];
    }
  }

  // ------------------------------------------------------------ where keys go

  function DayKey(k: Key): Key { Key(k.cause, k.member, Day, DayOf(k.start)) }

  predicate OldHourKey(k: Key, cut: int) { k.res == Hour && k.start < cut }
  predicate OldDayKey(k: Key, cut: int) { k.res == Day && k.start < cut }

  function Promoted(k: Key, hourCut: int): Key {
    if OldHourKey(k, hourCut) then DayKey(k) else k
  }

  /** Keys that satisfy `p` once hours older than the cut have become days. */
  function AfterPromotion(hourCut: int, p: Key -> bool): Key -> bool {
    (k: Key) => p(Promoted(k, hourCut))
  }

  /** Keys that survive the whole sweep and then satisfy `p`. */
  function AfterSweep(c: Config, t: int, p: Key -> bool): Key -> bool {
    (k: Key) => !OldDayKey(Promoted(k, t - c.hourMs), t - c.dayMs) && p(Promoted(k, t - c.hourMs))
  }

  lemma {:induction false} TotalDayRows(bs: seq<Bucket>, p: Key -> bool)
    ensures Total(DayRows(bs), p) == Total(bs, k => p(DayKey(k)))
  {
    if bs == [] {
    } else {
      TotalDayRows(bs[1..], p);
      assert DayRows(bs)[1..] == DayRows(bs[1..]);
      assert KeyOf(DayRow(bs[0])) == DayKey(KeyOf(bs[0]));
    }
  }

  lemma {:induction false} PromotionCases(cut: int, p: Key -> bool, k: Key)
    ensures AfterPromotion(cut, p)(k) == if OldHourKey(k, cut) then p(DayKey(k)) else p(k)
  {
    assert AfterPromotion(cut, p)(k) == p(Promoted(k, cut));
  }

  lemma {:induction false} TotalFoldHours(bs: seq<Bucket>, cut: int, p: Key -> bool)
    ensures Total(FoldHours(bs, cut), p) == Total(bs, AfterPromotion(cut, p))
  {
    hide Total, FoldAll, DayRows, Filter, Plus, DayOf;
    var isOld := (b: Bucket) => OldHour(b, cut);
    var notOld := (b: Bucket) => !OldHour(b, cut);
    var oldKey := (k: Key) => OldHourKey(k, cut);
    var newKey := (k: Key) => !OldHourKey(k, cut);
    var aged := Filter(bs, isOld);
    var q := (k: Key) => newKey(k) && p(k);
    var qDay := (k: Key) => q(DayKey(k));
    var promoted := (k: Key) => oldKey(k) && qDay(k);
    forall k ensures AfterPromotion(cut, p)(k) == (q(k) || promoted(k)) && !(q(k) && promoted(k)) {
      PromotionCases(cut, p, k);
      assert q(k) == (!OldHourKey(k, cut) && p(k));
      assert promoted(k) == (OldHourKey(k, cut) && p(DayKey(k)));
    }
    calc {
      Total(FoldHours(bs, cut), p);
      Total(Filter(FoldAll(bs, DayRows(aged)), notOld), p);
      { TotalFilter(FoldAll(bs, DayRows(aged)), notOld, newKey, p);
        TotalExt(FoldAll(bs, DayRows(aged)), x => newKey(x) && p(x), q); }
      Total(FoldAll(bs, DayRows(aged)), q);
      { TotalFoldAll(bs, DayRows(aged), q); }
      Plus(Total(bs, q), Total(DayRows(aged), q));
      { TotalDayRows(aged, q); TotalExt(aged, k => q(DayKey(k)), qDay); }
      Plus(Total(bs, q), Total(aged, qDay));
      { TotalFilter(bs, isOld, oldKey, qDay); TotalExt(bs, x => oldKey(x) && qDay(x), promoted); }
      Plus(Total(bs, q), Total(bs, promoted));
      { TotalSplit(bs, q, promoted, AfterPromotion(cut, p)); }
      Total(bs, AfterPromotion(cut, p));
    }
  }

  /** The events a sweep folds, as hour rows. */
  function Folded(es: seq<Event>, cut: int): seq<Bucket> {
    HourRows(Filter(es, (e: Event) => e.ts < cut))
  }

  /** The buckets once events and hours are folded, before any day is dropped. */
  function Promotions(c: Config, s: State, t: int): seq<Bucket> {
    FoldHours(FoldDetail(s, t - c.detailMs).buckets, t - c.hourMs)
  }

  lemma {:induction false} TotalPromotions(c: Config, s: State, t: int, p: Key -> bool)
    ensures Total(Promotions(c, s, t), p)
         == Plus(Total(s.buckets, AfterPromotion(t - c.hourMs, p)),
                 Total(Folded(s.events, t - c.detailMs), AfterPromotion(t - c.hourMs, p)))
  {
    hide Total, FoldAll, FoldHours, Filter, HourRows, Plus;
    TotalFoldHours(FoldDetail(s, t - c.detailMs).buckets, t - c.hourMs, p);
    TotalFoldAll(s.buckets, Folded(s.events, t - c.detailMs), AfterPromotion(t - c.hourMs, p));
  }

  /** A sweep pulls predicates back along the movement of keys. */
  lemma {:induction false} TotalSweep(c: Config, s: State, t: int, p: Key -> bool)
    ensures Total(Fold(c, s, t).buckets, p)
         == Plus(Total(s.buckets, AfterSweep(c, t, p)),
                 Total(Folded(s.events, t - c.detailMs), AfterSweep(c, t, p)))
  {
    hide Total, Plus, Folded, FoldHours, FoldDetail, Fold, Filter, Promotions, DropDays;
    var bs := Promotions(c, s, t);
    var notOld := (b: Bucket) => !OldDay(b, t - c.dayMs);
    var newKey := (k: Key) => !OldDayKey(k, t - c.dayMs);
    var q := (k: Key) => newKey(k) && p(k);
    DropDaysFilters(c, s, t);
    TotalFilter(bs, notOld, newKey, p);
    TotalExt(bs, x => newKey(x) && p(x), q);
    TotalPromotions(c, s, t, q);
    TotalExt(s.buckets, AfterPromotion(t - c.hourMs, q), AfterSweep(c, t, p));
    TotalExt(Folded(s.events, t - c.detailMs), AfterPromotion(t - c.hourMs, q), AfterSweep(c, t, p));
  }

  lemma {:induction false} DropDaysFilters(c: Config, s: State, t: int)
    ensures Fold(c, s, t).buckets == Filter(Promotions(c, s, t), (b: Bucket) => !OldDay(b, t - c.dayMs))
  {
    hide FoldHours, FoldAll, HourRows;
    var bs := Promotions(c, s, t);
    if Filter(bs, (b: Bucket) => OldDay(b, t - c.dayMs)) == [] {
      forall b | b in bs ensures !OldDay(b, t - c.dayMs) {
        assert b !in Filter(bs, (b: Bucket) => OldDay(b, t - c.dayMs));
      }
      FilterAll(bs, (b: Bucket) => !OldDay(b, t - c.dayMs));
    }
  }

  // ------------------------------------------------------------- confluence

  /** Events folded by t2 are those folded by t1 and those folded from what t1 left. */
  lemma {:induction false} FoldedSplits(es: seq<Event>, cut1: int, cut2: int, p: Key -> bool)
    requires cut1 <= cut2
    ensures Total(Folded(es, cut2), p)
         == Plus(Total(Folded(es, cut1), p), Total(Folded(Filter(es, (e: Event) => !(e.ts < cut1)), cut2), p))
  {
    if es != [] {
      var e, tail := es[0], es[1..];
      var rest := Filter(tail, (x: Event) => !(x.ts < cut1));
      FoldedSplits(tail, cut1, cut2, p);
      FoldedCons(e, tail, cut1, p);
      FoldedCons(e, tail, cut2, p);
      FoldedCons(e, rest, cut2, p);
      assert es == [e] + tail;
      assert Filter(es, (x: Event) => !(x.ts < cut1)) == if e.ts < cut1 then rest else [e] + rest;
      hide Total, Folded, Filter, Plus;
      PlusAC(Contribution(e, cut2, p), Total(Folded(tail, cut1), p), Total(Folded(rest, cut2), p));
      PlusZero(Total(Folded(tail, cut1), p));
    } else {
      PlusZero(Zero);
    }
  }

  lemma {:induction false} PlusZero(a: Agg)
    ensures Plus(Zero, a) == a == Plus(a, Zero)
  {
  }

  function Contribution(e: Event, cut: int, p: Key -> bool): Agg {
    var b := HourRow(e.cause, e.member, 1, e.ts);
    if e.ts < cut && p(KeyOf(b)) then AggOf(b) else Zero
  }

  lemma {:induction false} FoldedCons(e: Event, es: seq<Event>, cut: int, p: Key -> bool)
    ensures Total(Folded([e] + es, cut), p) == Plus(Contribution(e, cut, p), Total(Folded(es, cut), p))
  {
    var f := (x: Event) => x.ts < cut;
    assert ([e] + es)[1..] == es;
    var rest := Filter(es, f);
    if e.ts < cut {
      assert ([e] + rest)[1..] == rest;
      assert HourRows([e] + rest)[1..] == HourRows(rest);
    }
  }

  lemma {:induction false} PlusAC(a: Agg, b: Agg, d: Agg)
    ensures Plus(a, Plus(b, d)) == Plus(Plus(a, b), d) == Plus(b, Plus(a, d))
  {
  }

  lemma {:induction false} PromotedTwice(k: Key, h1: int, h2: int)
    requires h1 <= h2
    ensures Promoted(Promoted(k, h1), h2) == Promoted(k, h2)
    ensures Promoted(k, h1).res == Day ==> Promoted(k, h1) == Promoted(k, h2)
  {
  }

  lemma {:induction false} SweepCases(c: Config, t: int, p: Key -> bool, k: Key)
    ensures AfterSweep(c, t, p)(k)
         == (!OldDayKey(Promoted(k, t - c.hourMs), t - c.dayMs) && p(Promoted(k, t - c.hourMs)))
  {
  }

  lemma {:induction false} SweepKeysCompose(c: Config, t1: int, t2: int, p: Key -> bool, k: Key)
    requires t1 <= t2
    ensures AfterSweep(c, t1, AfterSweep(c, t2, p))(k) == AfterSweep(c, t2, p)(k)
  {
    hide Promoted, AfterSweep, DayKey;
    var k1 := Promoted(k, t1 - c.hourMs);
    PromotedTwice(k, t1 - c.hourMs, t2 - c.hourMs);
    SweepCases(c, t1, AfterSweep(c, t2, p), k);
    SweepCases(c, t2, p, k1);
    SweepCases(c, t2, p, k);
    if k1.res == Day {
      assert k1 == Promoted(k, t2 - c.hourMs);
    }
  }

  lemma {:induction false} TotalTwoSweeps(c: Config, s: State, t1: int, t2: int, p: Key -> bool)
    requires t1 <= t2
    ensures Total(Fold(c, Fold(c, s, t1), t2).buckets, p) == Total(Fold(c, s, t2).buckets, p)
  {
    hide Total, Folded, Fold, AfterSweep;
    var s1 := Fold(c, s, t1);
    var p2 := AfterSweep(c, t2, p);
    var p12 := AfterSweep(c, t1, p2);
    TotalSweep(c, s1, t2, p);
    TotalSweep(c, s, t1, p2);
    TotalSweep(c, s, t2, p);
    forall k ensures p12(k) == p2(k) {
      SweepKeysCompose(c, t1, t2, p, k);
    }
    TotalExt(s.buckets, p12, p2);
    TotalExt(Folded(s.events, t1 - c.detailMs), p12, p2);
    FoldedSplits(s.events, t1 - c.detailMs, t2 - c.detailMs, p2);
    FoldEvents(c, s, t1);
  }

  lemma {:induction false} FoldEvents(c: Config, s: State, t: int)
    ensures Fold(c, s, t).events == Filter(s.events, (e: Event) => !(e.ts < t - c.detailMs))
    ensures Fold(c, s, t).unresolved == s.unresolved
    ensures Fold(c, s, t).overflowLast == s.overflowLast
    ensures Fold(c, s, t).stateEvicted == s.stateEvicted
  {
    hide FoldAll, FoldHours, Filter, HourRows;
  }

  lemma {:induction false} EventsTwoSweeps(c: Config, s: State, t1: int, t2: int)
    requires t1 <= t2
    ensures Fold(c, Fold(c, s, t1), t2).events == Fold(c, s, t2).events
  {
    hide Fold, Filter;
    var f1 := (e: Event) => !(e.ts < t1 - c.detailMs);
    var f2 := (e: Event) => !(e.ts < t2 - c.detailMs);
    FoldEvents(c, s, t1);
    FoldEvents(c, s, t2);
    FoldEvents(c, Fold(c, s, t1), t2);
    FilterFilter(s.events, f1, f2, f2);
  }

  // ------------------------------------------------------------------ the floor

  ghost predicate Widths(bs: seq<Bucket>) {
    forall b :: b in bs ==> b.end == b.start + if b.res == Hour then HOUR else DAY
  }

  /** Day keys a sweep drops whose bucket ends past `v`. */
  function Drops(c: Config, t: int, v: int): Key -> bool {
    (k: Key) => OldDayKey(k, t - c.dayMs) && k.start + DAY > v
  }

  /** The floor rises past `v` exactly when some dropped day ends past `v`. */
  lemma {:induction false} FloorPast(c: Config, s: State, t: int, v: int)
    requires Widths(Promotions(c, s, t)) && s.floor <= v
    ensures Fold(c, s, t).floor > v <==> Total(Promotions(c, s, t), Drops(c, t, v)) != Zero
  {
    var s2 := FoldDetail(s, t - c.detailMs).(buckets := Promotions(c, s, t));
    FoldIsDrop(c, s, t);
    FoldDetailFloor(s, t - c.detailMs);
    hide Fold, FoldDetail, FoldHours, Total, Promotions, Widths, DropDays, Drops;
    DropDaysPast(c, s2, t, v);
  }

  lemma {:induction false} FoldIsDrop(c: Config, s: State, t: int)
    ensures Fold(c, s, t) == DropDays(FoldDetail(s, t - c.detailMs).(buckets := Promotions(c, s, t)), t - c.dayMs)
  {
    hide FoldDetail, FoldHours, DropDays;
  }

  lemma {:induction false} FoldDetailFloor(s: State, cut: int)
    ensures FoldDetail(s, cut).floor == s.floor
  {
  }

  lemma {:induction false} DropDaysPast(c: Config, s: State, t: int, v: int)
    requires Widths(s.buckets) && s.floor <= v
    ensures DropDays(s, t - c.dayMs).floor > v <==> Total(s.buckets, Drops(c, t, v)) != Zero
  {
    hide Total, Filter;
    var s' := DropDays(s, t - c.dayMs);
    var aged := Filter(s.buckets, (b: Bucket) => OldDay(b, t - c.dayMs));
    TotalNonZero(s.buckets, Drops(c, t, v));
    if b :| b in s.buckets && Drops(c, t, v)(KeyOf(b)) {
      assert b in aged && BucketEnd(b) == b.end > v;
    }
    if s'.floor > v {
      assert aged != [];
      var b :| b in aged && BucketEnd(b) == MaxKey(aged, BucketEnd);
      assert b in s.buckets && Drops(c, t, v)(KeyOf(b));
    }
  }

  predicate DropsDay(k: Key, cut: int, v: int) { OldDayKey(k, cut) && k.start + DAY > v }

  lemma {:induction false} DropCases(c: Config, t: int, v: int, h: int, k: Key)
    ensures AfterPromotion(h, Drops(c, t, v))(k) == DropsDay(Promoted(k, h), t - c.dayMs, v)
  {
    hide Promoted, OldDayKey;
  }

  /** A key that is a day already under the earlier cut is the same day under the later one. */
  lemma {:induction false} DaysCompose(k1: Key, k2: Key, cut1: int, cut2: int, v: int)
    requires cut1 <= cut2 && (k1.res == Day ==> k1 == k2)
    ensures DropsDay(k2, cut2, v) == (DropsDay(k1, cut1, v) || (!OldDayKey(k1, cut1) && DropsDay(k2, cut2, v)))
    ensures DropsDay(k1, cut1, v) ==> OldDayKey(k1, cut1)
  {
  }

  /** A key dropped by the second sweep alone was dropped by the first, or survived it to be dropped. */
  lemma {:induction false} DropKeysCompose(c: Config, t1: int, t2: int, v: int, k: Key)
    requires t1 <= t2
    ensures AfterPromotion(t2 - c.hourMs, Drops(c, t2, v))(k) ==
            (AfterPromotion(t1 - c.hourMs, Drops(c, t1, v))(k)
             || AfterSweep(c, t1, AfterPromotion(t2 - c.hourMs, Drops(c, t2, v)))(k))
    ensures !(AfterPromotion(t1 - c.hourMs, Drops(c, t1, v))(k)
          && AfterSweep(c, t1, AfterPromotion(t2 - c.hourMs, Drops(c, t2, v)))(k))
  {
    hide *;
    var h1, h2 := t1 - c.hourMs, t2 - c.hourMs;
    PromotedTwice(k, h1, h2);
    SweepCases(c, t1, AfterPromotion(h2, Drops(c, t2, v)), k);
    DropCases(c, t1, v, h1, k);
    DropCases(c, t2, v, h2, k);
    DropCases(c, t2, v, h2, Promoted(k, h1));
    DaysCompose(Promoted(k, h1), Promoted(k, h2), t1 - c.dayMs, t2 - c.dayMs, v);
  }

  lemma {:induction false} FloorTwoSweepsPast(c: Config, s: State, t1: int, t2: int, v: int)
    requires t1 <= t2 && s.floor <= v
    requires Widths(Promotions(c, s, t1)) && Widths(Promotions(c, s, t2))
    requires Widths(Promotions(c, Fold(c, s, t1), t2))
    ensures Fold(c, Fold(c, s, t1), t2).floor > v <==> Fold(c, s, t2).floor > v
  {
    hide Total, Folded, Fold, AfterSweep, AfterPromotion, Promotions, Drops;
    var s1 := Fold(c, s, t1);
    var d1 := AfterPromotion(t1 - c.hourMs, Drops(c, t1, v));
    var d2 := AfterPromotion(t2 - c.hourMs, Drops(c, t2, v));
    var d12 := AfterSweep(c, t1, d2);
    var old1, new2 := Folded(s.events, t1 - c.detailMs), Folded(s1.events, t2 - c.detailMs);
    FloorPast(c, s, t1, v);
    FloorPast(c, s, t2, v);
    TotalPromotions(c, s, t1, Drops(c, t1, v));
    TotalPromotions(c, s, t2, Drops(c, t2, v));
    forall k ensures d2(k) == (d1(k) || d12(k)) && !(d1(k) && d12(k)) {
      DropKeysCompose(c, t1, t2, v, k);
    }
    TotalSplit(s.buckets, d1, d12, d2);
    TotalSplit(old1, d1, d12, d2);
    FoldEvents(c, s, t1);
    FoldedSplits(s.events, t1 - c.detailMs, t2 - c.detailMs, d2);
    TotalPromotions(c, s1, t2, Drops(c, t2, v));
    TotalSweep(c, s, t1, d2);
    FoldFloor(c, s1, t2);
    if s1.floor <= v {
      FloorPast(c, s1, t2, v);
    }
  }

  lemma {:induction false} FoldFloor(c: Config, s: State, t: int)
    ensures Fold(c, s, t).floor >= s.floor
  {
  }

  // -------------------------------------------------------------- as one table

  ghost predicate DistinctKeys(bs: seq<Bucket>) {
    bs == [] || ((forall b :: b in bs[1..] ==> KeyOf(b) != KeyOf(bs[0])) && DistinctKeys(bs[1..]))
  }

  function Only(k: Key): Key -> bool { (x: Key) => x == k }

  lemma {:induction false} UniqueTotal(bs: seq<Bucket>, b: Bucket)
    requires DistinctKeys(bs) && b in bs
    ensures Total(bs, Only(KeyOf(b))) == AggOf(b)
  {
    if b == bs[0] {
      TotalNonZero(bs[1..], Only(KeyOf(b)));
    } else {
      UniqueTotal(bs[1..], b);
    }
  }

  lemma {:induction false} SameRow(a: seq<Bucket>, b: seq<Bucket>, x: Bucket)
    requires DistinctKeys(a) && DistinctKeys(b) && Widths(a) && Widths(b) && x in a
    requires Total(a, Only(KeyOf(x))) == Total(b, Only(KeyOf(x)))
    ensures x in b
  {
    UniqueTotal(a, x);
    TotalNonZero(b, Only(KeyOf(x)));
    var y :| y in b && KeyOf(y) == KeyOf(x);
    UniqueTotal(b, y);
    TotalExt(b, Only(KeyOf(x)), Only(KeyOf(y)));
    assert AggOf(x) == AggOf(y);
  }

  lemma {:induction false} UniqueCounts(bs: seq<Bucket>, x: Bucket)
    requires DistinctKeys(bs)
    ensures multiset(bs)[x] == if x in bs then 1 else 0
  {
    if bs == [] {
    } else {
      UniqueCounts(bs[1..], x);
      assert bs == [bs[0]] + bs[1..];
    }
  }

  lemma {:induction false} SameElements(a: seq<Bucket>, b: seq<Bucket>)
    requires DistinctKeys(a) && DistinctKeys(b) && forall x :: x in a <==> x in b
    ensures multiset(a) == multiset(b)
  {
    forall x ensures multiset(a)[x] == multiset(b)[x] {
      UniqueCounts(a, x);
      UniqueCounts(b, x);
    }
  }

  lemma {:induction false} TotalsDetermine(a: seq<Bucket>, b: seq<Bucket>)
    requires DistinctKeys(a) && DistinctKeys(b) && Widths(a) && Widths(b)
    requires forall k: Key :: Total(a, Only(k)) == Total(b, Only(k))
    ensures multiset(a) == multiset(b)
  {
    forall x | x in a ensures x in b { SameRow(a, b, x); }
    forall x | x in b ensures x in a { SameRow(b, a, x); }
    SameElements(a, b);
  }

  // ------------------------------------------------ the table's own invariants

  ghost predicate TableOk(bs: seq<Bucket>) { DistinctKeys(bs) && Widths(bs) }

  lemma {:induction false} FoldBucketOk(bs: seq<Bucket>, b: Bucket)
    requires TableOk(bs) && Widths([b])
    ensures TableOk(FoldBucket(bs, b))
    ensures forall x :: x in FoldBucket(bs, b) ==> KeyOf(x) == KeyOf(b) || exists y :: y in bs && KeyOf(y) == KeyOf(x)
  {
    assert b in [b];
    if bs == [] {
    } else {
      assert bs[0] in bs && Widths(bs[1..]);
      if SameKey(bs[0], b) {
        assert FoldBucket(bs, b)[1..] == bs[1..];
      } else {
        FoldBucketOk(bs[1..], b);
        assert FoldBucket(bs, b)[1..] == FoldBucket(bs[1..], b);
      }
    }
  }

  lemma {:induction false} FoldAllOk(bs: seq<Bucket>, added: seq<Bucket>)
    requires TableOk(bs) && Widths(added)
    ensures TableOk(FoldAll(bs, added))
    decreases |added|
  {
    if added == [] {
    } else {
      assert added[0] in added;
      FoldBucketOk(bs, added[0]);
      FoldAllOk(FoldBucket(bs, added[0]), added[1..]);
    }
  }

  lemma {:induction false} FilterOk(bs: seq<Bucket>, p: Bucket -> bool)
    requires TableOk(bs)
    ensures TableOk(Filter(bs, p))
  {
    if bs == [] {
    } else {
      FilterOk(bs[1..], p);
      var rest := Filter(bs[1..], p);
      assert ([bs[0]] + rest)[1..] == rest;
    }
  }

  lemma {:induction false} RemoveOk(bs: seq<Bucket>, i: nat)
    requires DistinctKeys(bs) && i < |bs|
    ensures DistinctKeys(RemoveAt(bs, i))
    ensures forall x :: x in RemoveAt(bs, i) ==> x in bs
  {
    if i == 0 {
      assert RemoveAt(bs, i) == bs[1..];
    } else {
      RemoveOk(bs[1..], i - 1);
      assert RemoveAt(bs, i) == [bs[0]] + RemoveAt(bs[1..], i - 1);
      assert RemoveAt(bs, i)[1..] == RemoveAt(bs[1..], i - 1);
    }
  }

  lemma {:induction false} DropOldestOk(bs: seq<Bucket>, k: nat)
    requires TableOk(bs)
    ensures TableOk(DropOldest(bs, BucketStart, k))
    decreases k
  {
    hide ArgMin, RemoveAt, DistinctKeys;
    if k != 0 && bs != [] {
      var i := ArgMin(bs, BucketStart);
      RemoveOk(bs, i);
      DropOldestOk(RemoveAt(bs, i), k - 1);
    }
  }

  lemma {:induction false} HourRowsOk(es: seq<Event>)
    ensures Widths(HourRows(es))
  {
    if es == [] {
    } else {
      HourRowsOk(es[1..]);
    }
  }

  lemma {:induction false} DayRowsOk(bs: seq<Bucket>)
    ensures Widths(DayRows(bs))
  {
    if bs == [] {
    } else {
      DayRowsOk(bs[1..]);
    }
  }

  lemma {:induction false} PromotionsOk(c: Config, s: State, t: int)
    requires TableOk(s.buckets)
    ensures TableOk(Promotions(c, s, t))
  {
    hide FoldAll, Filter, HourRows, DayRows, TableOk;
    var es := Filter(s.events, (e: Event) => e.ts < t - c.detailMs);
    var bs := FoldAll(s.buckets, HourRows(es));
    HourRowsOk(es);
    FoldAllOk(s.buckets, HourRows(es));
    var aged := Filter(bs, (b: Bucket) => OldHour(b, t - c.hourMs));
    DayRowsOk(aged);
    FoldAllOk(bs, DayRows(aged));
    FilterOk(FoldAll(bs, DayRows(aged)), (b: Bucket) => !OldHour(b, t - c.hourMs));
  }

  lemma {:induction false} FoldOk(c: Config, s: State, t: int)
    requires TableOk(s.buckets)
    ensures TableOk(Fold(c, s, t).buckets)
  {
    PromotionsOk(c, s, t);
    DropDaysFilters(c, s, t);
    FilterOk(Promotions(c, s, t), (b: Bucket) => !OldDay(b, t - c.dayMs));
  }

  lemma {:induction false} HourRowWide(cause: string, member: string, n: nat, t: int)
    ensures Widths([HourRow(cause, member, n, t)])
  {
  }

  lemma {:induction false} OverflowOk(bs: seq<Bucket>, t: int)
    requires TableOk(bs)
    ensures TableOk(FoldBucket(bs, HourRow(OVERFLOW, UNATTRIBUTED, 1, t)))
  {
    HourRowWide(OVERFLOW, UNATTRIBUTED, 1, t);
    hide FoldBucket, HourRow, Widths, DistinctKeys;
    FoldBucketOk(bs, HourRow(OVERFLOW, UNATTRIBUTED, 1, t));
  }

  lemma {:induction false} CapBucketOk(c: Config, s: State, t: int)
    requires TableOk(s.buckets)
    ensures TableOk(CapBucket(c, s, t).buckets)
  {
    hide DistinctKeys, FoldBucket, DropOldest, TakeOldest, MaxKey, Widths, HourRow;
    if |s.buckets| > c.maxBucketRows {
      DropOldestOk(s.buckets, |s.buckets| - c.maxBucketRows + 1);
      OverflowOk(DropOldest(s.buckets, BucketStart, |s.buckets| - c.maxBucketRows + 1), t);
    }
  }

  lemma {:induction false} ApplyOk(c: Config, s: State, step: Step)
    requires TableOk(s.buckets)
    ensures TableOk(Apply(c, s, step).buckets)
  {
    hide DistinctKeys, FoldBucket, DropOldest, TakeOldest, MaxKey, Fold, Filter, UpsertAll, EventsFor, Widths,
        HourRow, CapBucket;
    match step.u
    case InsertUnit(_, _) =>
    case FactUnit(fact, n) =>
      HourRowWide(fact, UNATTRIBUTED, n, step.t);
      FoldBucketOk(s.buckets, HourRow(fact, UNATTRIBUTED, n, step.t));
    case CapDetailUnit => OverflowOk(s.buckets, step.t);
    case CapBucketUnit => CapBucketOk(c, s, step.t);
    case CapStateUnit => OverflowOk(s.buckets, step.t);
    case FoldUnit => FoldOk(c, s, step.t);
    case ClearUnit(_, _) =>
  }

  /** In every reachable state bucket rows have distinct primary keys and full-width intervals. */
  lemma {:induction false} RunOk(c: Config, s: State, steps: seq<Step>)
    requires TableOk(s.buckets)
    ensures TableOk(Run(c, s, steps).buckets)
    decreases |steps|
  {
    if steps == [] {
    } else {
      ApplyOk(c, s, steps[0]);
      RunOk(c, Apply(c, s, steps[0]), steps[1..]);
    }
  }

  // ------------------------------------------------------------ the main result

  /** The same store: equal rows in every table (bucket rows in any rowid order). */
  ghost predicate SameTables(a: State, b: State) {
    && a.events == b.events
    && multiset(a.buckets) == multiset(b.buckets)
    && a.unresolved == b.unresolved
    && a.floor == b.floor
    && a.overflowLast == b.overflowLast
    && a.stateEvicted == b.stateEvicted
  }

  lemma {:induction false} FloorTwoSweeps(c: Config, s: State, t1: int, t2: int)
    requires t1 <= t2 && TableOk(s.buckets)
    ensures Fold(c, Fold(c, s, t1), t2).floor == Fold(c, s, t2).floor
  {
    hide Fold, Promotions, DistinctKeys, Widths;
    var s1 := Fold(c, s, t1);
    var two, one := Fold(c, s1, t2).floor, Fold(c, s, t2).floor;
    PromotionsOk(c, s, t1);
    PromotionsOk(c, s, t2);
    FoldOk(c, s, t1);
    PromotionsOk(c, s1, t2);
    FoldFloor(c, s, t1);
    FoldFloor(c, s1, t2);
    FoldFloor(c, s, t2);
    FloorTwoSweepsPast(c, s, t1, t2, two);
    FloorTwoSweepsPast(c, s, t1, t2, one);
  }

  /** Sweeping twice is sweeping once, later. */
  lemma {:induction false} FoldConfluent(c: Config, s: State, t1: int, t2: int)
    requires t1 <= t2 && TableOk(s.buckets)
    ensures SameTables(Fold(c, Fold(c, s, t1), t2), Fold(c, s, t2))
  {
    hide Fold, Total, DistinctKeys, Widths;
    var s1 := Fold(c, s, t1);
    FoldOk(c, s, t1);
    FoldOk(c, s1, t2);
    FoldOk(c, s, t2);
    forall k ensures Total(Fold(c, s1, t2).buckets, Only(k)) == Total(Fold(c, s, t2).buckets, Only(k)) {
      TotalTwoSweeps(c, s, t1, t2, Only(k));
    }
    TotalsDetermine(Fold(c, s1, t2).buckets, Fold(c, s, t2).buckets);
    EventsTwoSweeps(c, s, t1, t2);
    FloorTwoSweeps(c, s, t1, t2);
    FoldEvents(c, s, t1);
    FoldEvents(c, s1, t2);
    FoldEvents(c, s, t2);
  }

  predicate WithinCaps(c: Config, s: State) {
    |s.events| <= c.maxDetailRows && |s.buckets| <= c.maxBucketRows && |s.unresolved| <= c.maxStateRows
  }

  lemma {:induction false} SweepWithinCaps(c: Config, s: State, t: int)
    requires WithinCaps(c, Fold(c, s, t))
    ensures Sweep(c, s, t) == Fold(c, s, t)
  {
    hide Fold;
    var steps := At(t, SWEEP);
    assert steps[0] == Step(t, FoldUnit) && steps[1..] == At(t, CAPS);
    var caps := At(t, CAPS);
    assert caps[1..][0] == caps[1] && caps[1..][1..][0] == caps[2] && caps[1..][1..][1..] == [];
    var s1 := Fold(c, s, t);
    assert Run(c, s, steps) == Run(c, s1, caps);
    assert Run(c, s1, caps) == Run(c, s1, caps[1..]);
    assert Run(c, s1, caps[1..]) == Run(c, s1, caps[1..][1..]);
    assert Run(c, s1, caps[1..][1..]) == s1;
  }

  /**
   * From any reachable state, if the two-step path never meets a cap, then
   * `sweep` at t1 and again at t2 leaves the tables `sweep` at t2 leaves.
   */
  lemma {:induction false} SweepConfluent(c: Config, steps: seq<Step>, t1: int, t2: int)
    requires t1 <= t2
    requires WithinCaps(c, Fold(c, Run(c, EMPTY, steps), t1))
    requires WithinCaps(c, Fold(c, Fold(c, Run(c, EMPTY, steps), t1), t2))
    ensures var s := Run(c, EMPTY, steps);
      SameTables(Sweep(c, Sweep(c, s, t1), t2), Sweep(c, s, t2))
  {
    hide Fold, Sweep;
    var s := Run(c, EMPTY, steps);
    RunOk(c, EMPTY, steps);
    FoldConfluent(c, s, t1, t2);
    assert |multiset(Fold(c, s, t2).buckets)| == |Fold(c, s, t2).buckets|;
    assert |multiset(Fold(c, Fold(c, s, t1), t2).buckets)| == |Fold(c, Fold(c, s, t1), t2).buckets|;
    SweepWithinCaps(c, s, t1);
    SweepWithinCaps(c, s, t2);
    SweepWithinCaps(c, Fold(c, s, t1), t2);
  }
}
