/**
 * What the store's answers mean, over every run from an empty store: the
 * soundness of `exact` and `bucket` coverage, conservation of occurrences, and
 * honesty about refused fan-outs.
 */
module DiagnosticAnswers {
  import opened Prelude
  import opened DiagnosticModel
  import opened DiagnosticLedger
  import opened DiagnosticCoverage

  /**
   * The occurrences a query asks for in [from, to]: of its cause, if it names one, and of
   * the member it names, or of nobody in particular for `null`, or of anyone.
   */
  function Wanted(q: Query, from: int, to: int): Occ -> bool {
    (o: Occ) =>
      && from <= o.ts && o.ts <= to
      && (q.cause == None || q.cause == Some(o.cause))
      && (q.member == AnyMember || (q.member == NoMember && o.member == "") || q.member == Named(o.member))
  }

  lemma {:induction false} WantedIs(q: Query, from: int, to: int, o: Occ)
    ensures Wanted(q, from, to)(o) <==> from <= o.ts <= to && Matches(q, o.cause, o.member)
  {
  }

  /** Timestamp of the first occurrence in `h` satisfying `p`, if any. */
  ghost predicate IsFirst(h: seq<Occ>, p: Occ -> bool, first: Option<int>) {
    match first
    case None => forall o :: o in h ==> !p(o)
    case Some(t) => (exists o :: o in h && p(o) && o.ts == t) && forall o :: o in h && p(o) ==> t <= o.ts
  }

  ghost predicate IsLast(h: seq<Occ>, p: Occ -> bool, last: Option<int>) {
    match last
    case None => forall o :: o in h ==> !p(o)
    case Some(t) => (exists o :: o in h && p(o) && o.ts == t) && forall o :: o in h && p(o) ==> o.ts <= t
  }

  // -------------------------------------------------------- counting in parts

  /** Every occurrence in the window is counted by a bucket the query hits ... */
  lemma {:induction false} BucketsCoverWindow(ls: seq<Line>, q: Query)
    requires LinesOk(ls)
    ensures Weigh(OccsIn(ls), Wanted(q, q.from, q.to)) <= SumN(Filter(Rows(ls), (b: Bucket) => HitsBucket(q, b)))
  {
    if ls == [] {
    } else {
      var l := ls[0];
      assert l in ls && LineOk(l) && LinesOk(ls[1..]);
      BucketsCoverWindow(ls[1..], q);
      assert Rows(ls)[1..] == Rows(ls[1..]);
      WeighAppend(l.occs, OccsIn(ls[1..]), Wanted(q, q.from, q.to));
      if HitsBucket(q, l.row) {
        WeighMono(l.occs, Wanted(q, q.from, q.to), ANY);
      } else {
        WeighNone(l.occs, Wanted(q, q.from, q.to));
      }
    }
  }

  /** ... and nothing a hit bucket counts lies outside the union of the hit intervals. */
  lemma {:induction false} BucketsStayInside(ls: seq<Line>, q: Query, lo: int, hi: int)
    requires LinesOk(ls)
    requires forall b :: b in Rows(ls) && HitsBucket(q, b) ==> lo <= b.start && b.end <= hi
    ensures SumN(Filter(Rows(ls), (b: Bucket) => HitsBucket(q, b))) <= Weigh(OccsIn(ls), Wanted(q, lo, hi))
  {
    if ls == [] {
    } else {
      var l := ls[0];
      assert l in ls && LineOk(l) && LinesOk(ls[1..]);
      assert Rows(ls)[1..] == Rows(ls[1..]) && l.row == Rows(ls)[0];
      BucketsStayInside(ls[1..], q, lo, hi);
      WeighAppend(l.occs, OccsIn(ls[1..]), Wanted(q, lo, hi));
      if HitsBucket(q, l.row) {
        WeighMono(l.occs, ANY, Wanted(q, lo, hi));
      }
    }
  }

  lemma {:induction false} WeighStored(s: State, p: Ledger, f: Occ -> bool)
    ensures Weigh(Stored(s, p), f)
         == Weigh(EventOccs(s.events), f) + Weigh(OccsIn(p.lines), f) + Weigh(p.shed, f)
  {
    WeighAppend(EventOccs(s.events) + OccsIn(p.lines), p.shed, f);
    WeighAppend(EventOccs(s.events), OccsIn(p.lines), f);
  }

  lemma {:induction false} SumNPositive(bs: seq<Bucket>, b: Bucket)
    requires b in bs && b.n > 0
    ensures SumN(bs) > 0
  {
    if b != bs[0] {
      SumNPositive(bs[1..], b);
    }
  }

  lemma {:induction false} LineCounts(l: Line)
    requires LineOk(l)
    ensures l.row.n > 0
  {
    var o :| o in l.occs && o.ts == l.row.first;
    if Weigh(l.occs, ANY) == 0 {
      WeighZero(l.occs, ANY, o);
    }
  }

  lemma {:induction false} WeighZero(h: seq<Occ>, p: Occ -> bool, o: Occ)
    requires Weigh(h, p) == 0 && o in h
    ensures !p(o)
  {
    if o != h[0] {
      WeighZero(h[1..], p, o);
    }
  }

  // ------------------------------------------------------------ the two bounds

  lemma {:induction false} RowHasLine(ls: seq<Line>, b: Bucket) returns (l: Line)
    requires b in Rows(ls)
    ensures l in ls && l.row == b
  {
    if b == ls[0].row {
      l := ls[0];
    } else {
      assert Rows(ls)[1..] == Rows(ls[1..]);
      l := RowHasLine(ls[1..], b);
    }
  }

  /** No hit bucket carries weight, so no bucket is hit at all. */
  lemma {:induction false} NoBucketHit(s: State, p: Ledger, q: Query)
    requires Explains(s, p) && SumN(Filter(s.buckets, (b: Bucket) => HitsBucket(q, b))) == 0
    ensures Filter(s.buckets, (b: Bucket) => HitsBucket(q, b)) == []
  {
    var hit := Filter(s.buckets, (b: Bucket) => HitsBucket(q, b));
    if hit != [] {
      var b := hit[0];
      assert b in hit;
      var l := RowHasLine(p.lines, b);
      LineCounts(l);
      SumNPositive(hit, b);
    }
  }

  /** At least everything that happened in the window is counted. */
  lemma {:induction false} CountsAtLeast(s: State, p: Ledger, h: seq<Occ>, q: Query)
    requires Accounts(s, p, h) && s.floor <= q.from
    ensures Weigh(h, Wanted(q, q.from, q.to)) <= Ask(s, q).count
    ensures Ask(s, q).coverage == Exact ==> Ask(s, q).count == Weigh(h, Wanted(q, q.from, q.to))
  {
    hide EventOccs, OccsIn, Rows, Weigh, Filter, SumN, MinOf, MaxOf, Stored;
    var f := Wanted(q, q.from, q.to);
    WeighPermuted(Stored(s, p), h, f);
    WeighStored(s, p, f);
    CountEvents(s.events, (e: Event) => HitsEvent(q, e), f);
    BucketsCoverWindow(p.lines, q);
    WeighNone(p.shed, f);
  }

  /** A bucketed answer's interval covers every matching row. */
  lemma {:induction false} RowsInside(s: State, q: Query, b: Bucket)
    requires s.floor <= q.from
    requires var bs := Filter(s.buckets, (b: Bucket) => HitsBucket(q, b)); SumN(bs) != 0 && b in bs
    ensures Ask(s, q).from <= b.start && b.end <= Ask(s, q).to
  {
    hide SumN, MinOf, MaxOf, Filter, HitsEvent, HitsBucket, IsRefusal;
    assert BucketStart(b) == b.start && BucketEnd(b) == b.end;
  }

  lemma {:induction false} AskWidens(s: State, q: Query)
    ensures Ask(s, q).from <= q.from && q.to <= Ask(s, q).to
  {
    hide SumN, MinOf, MaxOf, Filter, HitsEvent, HitsBucket, IsRefusal;
  }

  /** At most what happened in the returned interval is counted. */
  lemma {:induction false} CountsAtMost(s: State, p: Ledger, h: seq<Occ>, q: Query)
    requires Accounts(s, p, h) && s.floor <= q.from
    ensures Ask(s, q).from <= q.from && q.to <= Ask(s, q).to
    ensures Ask(s, q).count <= Weigh(h, Wanted(q, Ask(s, q).from, Ask(s, q).to))
  {
    hide EventOccs, OccsIn, Rows, Weigh, Filter, SumN, MinOf, MaxOf, Stored;
    AskWidens(s, q);
    var a := Ask(s, q);
    var f, wide := Wanted(q, q.from, q.to), Wanted(q, a.from, a.to);
    var bs := Filter(s.buckets, (b: Bucket) => HitsBucket(q, b));
    WeighPermuted(Stored(s, p), h, wide);
    WeighStored(s, p, wide);
    CountEvents(s.events, (e: Event) => HitsEvent(q, e), f);
    WeighMono(EventOccs(s.events), f, wide);
    if SumN(bs) > 0 {
      forall b | b in Rows(p.lines) && HitsBucket(q, b) ensures a.from <= b.start && b.end <= a.to {
        RowsInside(s, q, b);
      }
      BucketsStayInside(p.lines, q, a.from, a.to);
    }
  }

  /** `first` and `last` of an exact answer are those of the window's occurrences. */
  lemma {:induction false} ExactEnds(s: State, p: Ledger, h: seq<Occ>, q: Query)
    requires Accounts(s, p, h) && Ask(s, q).coverage == Exact
    ensures IsFirst(h, Wanted(q, q.from, q.to), Ask(s, q).first)
    ensures IsLast(h, Wanted(q, q.from, q.to), Ask(s, q).last)
  {
    hide EventOccs, OccsIn, Rows, Weigh, Filter, SumN, MinOf, MaxOf;
    NoBucketHit(s, p, q);
    var f := Wanted(q, q.from, q.to);
    var es := Filter(s.events, (e: Event) => HitsEvent(q, e));
    forall o | o in OccsIn(p.lines) ensures !f(o) {
      var l := OccInLine(p.lines, o);
      assert l.row !in Filter(s.buckets, (b: Bucket) => HitsBucket(q, b));
      assert LineOk(l) && !HitsBucket(q, l.row);
    }
    forall o | o in h && f(o) ensures Event(o.cause, o.member, o.ts) in es {
      assert o in multiset(Stored(s, p));
      if o in p.shed {
      } else {
        EventOccsIn(s.events, o);
      }
    }
    forall e | e in es ensures OccOf(e) in h && f(OccOf(e)) && EventTs(e) == OccOf(e).ts {
      EventStored(s.events, e);
      assert OccOf(e) in Stored(s, p);
      assert OccOf(e) in multiset(h);
    }
    assert forall o :: o in h && f(o) ==> EventTs(Event(o.cause, o.member, o.ts)) == o.ts;
  }

  /** A bucket-level answer still brackets every occurrence in the window between `first` and `last`. */
  lemma {:induction false} BucketEndsBracket(s: State, p: Ledger, h: seq<Occ>, q: Query, o: Occ)
    requires Accounts(s, p, h) && s.floor <= q.from && o in h && Wanted(q, q.from, q.to)(o)
    ensures Ask(s, q).first.Some? && Ask(s, q).last.Some?
    ensures Ask(s, q).first.value <= o.ts <= Ask(s, q).last.value
  {
    WantedIs(q, q.from, q.to, o);
    hide Wanted, Matches, EventOccs, OccsIn, Rows, Weigh, SumN, MinOf, MaxOf, Filter;
    var es := Filter(s.events, (e: Event) => HitsEvent(q, e));
    var bs := Filter(s.buckets, (b: Bucket) => HitsBucket(q, b));
    assert o in multiset(Stored(s, p));
    if SumN(bs) == 0 {
      NoBucketHit(s, p, q);
    }
    if o in OccsIn(p.lines) {
      var l := OccInLine(p.lines, o);
      assert LineOk(l) && HitsBucket(q, l.row);
      assert l.row in bs && FirstTs(l.row) == l.row.first && LastTs(l.row) == l.row.last;
    } else if o in EventOccs(s.events) {
      EventOccsIn(s.events, o);
      assert Event(o.cause, o.member, o.ts) in es && EventTs(Event(o.cause, o.member, o.ts)) == o.ts;
    }
  }

  /** An answer's ends are an event's time, or a matching row's. */
  lemma {:induction false} EndsCome(s: State, q: Query, t: int)
    requires s.floor <= q.from && (Ask(s, q).first == Some(t) || Ask(s, q).last == Some(t))
    ensures var bs := Filter(s.buckets, (b: Bucket) => HitsBucket(q, b));
      || (exists e :: e in Filter(s.events, (e: Event) => HitsEvent(q, e)) && EventTs(e) == t)
      || (SumN(bs) != 0 && exists b :: b in bs && (FirstTs(b) == t || LastTs(b) == t))
  {
    hide SumN, MinOf, MaxOf, Filter, HitsEvent, HitsBucket, IsRefusal;
  }

  /** ... and both are timestamps of occurrences inside the interval it returns. */
  lemma {:induction false} BucketEndsReal(s: State, p: Ledger, h: seq<Occ>, q: Query, t: int)
    requires Accounts(s, p, h) && s.floor <= q.from
    requires Ask(s, q).first == Some(t) || Ask(s, q).last == Some(t)
    ensures exists o :: o in h && Wanted(q, Ask(s, q).from, Ask(s, q).to)(o) && o.ts == t
  {
    hide EventOccs, OccsIn, Rows, Weigh, SumN, MinOf, MaxOf, Filter, Ask;
    var a := Ask(s, q);
    var es := Filter(s.events, (e: Event) => HitsEvent(q, e));
    var bs := Filter(s.buckets, (b: Bucket) => HitsBucket(q, b));
    EndsCome(s, q, t);
    if e :| e in es && EventTs(e) == t {
      EventStored(s.events, e);
      AskWidens(s, q);
      assert OccOf(e) in multiset(Stored(s, p));
      assert OccOf(e) in h;
    } else {
      var b :| b in bs && (FirstTs(b) == t || LastTs(b) == t);
      var o := EndOfRow(s, p, h, b, t);
      RowsInside(s, q, b);
      assert o in h && Wanted(q, a.from, a.to)(o);
    }
  }

  /** A bucket row's ends are times of occurrences of its own cause and member, inside its interval. */
  lemma {:induction false} EndOfRow(s: State, p: Ledger, h: seq<Occ>, b: Bucket, t: int) returns (o: Occ)
    requires Accounts(s, p, h) && b in s.buckets && (FirstTs(b) == t || LastTs(b) == t)
    ensures o in h && o.ts == t && o.cause == b.cause && o.member == b.member && b.start <= o.ts <= b.end
  {
    hide EventOccs, OccsIn, Rows;
    var l := RowHasLine(p.lines, b);
    assert LineOk(l);
    o :| o in l.occs && o.ts == t;
    OccInLines(p.lines, l, o);
    assert o in Stored(s, p);
    assert o in multiset(h);
  }

  lemma {:induction false} OccInLines(ls: seq<Line>, l: Line, o: Occ)
    requires l in ls && o in l.occs
    ensures o in OccsIn(ls)
  {
    if l != ls[0] {
      OccInLines(ls[1..], l, o);
    }
  }

  lemma {:induction false} EventStored(es: seq<Event>, e: Event)
    requires e in es
    ensures OccOf(e) in EventOccs(es)
  {
    if e != es[0] {
      EventStored(es[1..], e);
    }
  }

  // ----------------------------------------------------------- the main results

  /**
   * Coverage soundness.  After any sequence of units from an empty store, an
   * `exact` answer counts exactly what was written under that filter in
   * [from, to], with its true first and last; a `bucket` answer is sandwiched
   * between what happened in the window and in the interval it returns.
   */
  lemma {:induction false} CoverageSound(c: Config, steps: seq<Step>, q: Query)
    ensures var a, h := Ask(Run(c, EMPTY, steps), q), History(c, EMPTY, steps);
      && (a.coverage == Exact ==>
            && a.from == q.from && a.to == q.to
            && a.count == Weigh(h, Wanted(q, q.from, q.to))
            && IsFirst(h, Wanted(q, q.from, q.to), a.first)
            && IsLast(h, Wanted(q, q.from, q.to), a.last))
      && (a.coverage == Bucketed ==>
            && a.from <= q.from && q.to <= a.to
            && Weigh(h, Wanted(q, q.from, q.to)) <= a.count <= Weigh(h, Wanted(q, a.from, a.to))
            && (forall o :: o in h && Wanted(q, q.from, q.to)(o) ==>
                  a.first.Some? && a.last.Some? && a.first.value <= o.ts <= a.last.value)
            && (forall t :: a.first == Some(t) || a.last == Some(t) ==>
                  exists o :: o in h && Wanted(q, a.from, a.to)(o) && o.ts == t))
  {
    var s, h := Run(c, EMPTY, steps), History(c, EMPTY, steps);
    var p := ReachableAccounts(c, steps);
    if s.floor <= q.from {
      forall o | o in h && Wanted(q, q.from, q.to)(o)
        ensures Ask(s, q).first.Some? && Ask(s, q).last.Some?
             && Ask(s, q).first.value <= o.ts <= Ask(s, q).last.value {
        BucketEndsBracket(s, p, h, q, o);
      }
      forall t | Ask(s, q).first == Some(t) || Ask(s, q).last == Some(t)
        ensures exists o :: o in h && Wanted(q, Ask(s, q).from, Ask(s, q).to)(o) && o.ts == t {
        BucketEndsReal(s, p, h, q, t);
      }
      CountsAtLeast(s, p, h, q);
      CountsAtMost(s, p, h, q);
      if Ask(s, q).coverage == Exact {
        ExactEnds(s, p, h, q);
      }
    }
  }

  /** A bucket row the query asks for: overlapping its window, under its filters. */
  predicate RowWanted(q: Query, b: Bucket) {
    && b.start <= q.to && q.from < b.end
    && (q.cause == None || q.cause == Some(b.cause))
    && (q.member == AnyMember || (q.member == NoMember && b.member == "") || q.member == Named(b.member))
  }

  predicate EventWanted(q: Query, e: Event) {
    && q.from <= e.ts && e.ts <= q.to
    && (q.cause == None || q.cause == Some(e.cause))
    && (q.member == AnyMember || (q.member == NoMember && e.member == "") || q.member == Named(e.member))
  }

  ghost predicate AnyRow(s: State, q: Query) { exists b :: b in s.buckets && RowWanted(q, b) }

  ghost predicate AnyDay(s: State, q: Query) { exists b :: b in s.buckets && RowWanted(q, b) && b.res == Day }

  ghost predicate AnyEvent(s: State, q: Query) { exists e :: e in s.events && EventWanted(q, e) }

  /** A member was asked about in a window that crosses a refused fan-out. */
  ghost predicate CrossesRefusal(s: State, q: Query) {
    q.member != AnyMember
    && exists b :: b in s.buckets && b.cause == FANOUT_TRUNCATED && b.start <= q.to && q.from < b.end
  }

  lemma {:induction false} RowsPositive(c: Config, steps: seq<Step>)
    ensures forall b :: b in Run(c, EMPTY, steps).buckets ==> b.n > 0
  {
    var p := ReachableAccounts(c, steps);
    forall b | b in Run(c, EMPTY, steps).buckets ensures b.n > 0 {
      var l := RowHasLine(p.lines, b);
      LineCounts(l);
    }
  }

  lemma {:induction false} SumOfFilter(bs: seq<Bucket>, p: Bucket -> bool)
    requires forall b :: b in bs ==> b.n > 0
    ensures SumN(Filter(bs, p)) > 0 <==> exists b :: b in bs && p(b)
    ensures Filter(bs, p) != [] <==> exists b :: b in bs && p(b)
  {
    var hit := Filter(bs, p);
    assert hit != [] ==> hit[0] in hit;
    if b :| b in bs && p(b) {
      assert b in hit;
      SumNPositive(hit, b);
    }
  }

  lemma {:induction false} HitsAreWanted(q: Query)
    ensures forall b :: HitsBucket(q, b) <==> RowWanted(q, b)
    ensures forall e :: HitsEvent(q, e) <==> EventWanted(q, e)
    ensures forall b :: IsRefusal(q, b) <==> b.cause == FANOUT_TRUNCATED && b.start <= q.to && q.from < b.end
  {
  }

  /** The four outcomes of an answer, before what it counts. */
  lemma {:induction false} AskShape(s: State, q: Query)
    requires s.floor <= q.from && forall b :: b in s.buckets ==> b.n > 0
    ensures var a := Ask(s, q);
      && a.coverage == (if CrossesRefusal(s, q) then Indeterminate else if AnyRow(s, q) then Bucketed else Exact)
      && a.resolution == (if AnyDay(s, q) then ByDay else if AnyRow(s, q) then ByHour
                          else if AnyEvent(s, q) then ByEvent else NoEvidence)
  {
    HitsAreWanted(q);
    hide HitsBucket, HitsEvent, IsRefusal, RowWanted, EventWanted, SumN, MinOf, MaxOf;
    var bs := Filter(s.buckets, (b: Bucket) => HitsBucket(q, b));
    var es := Filter(s.events, (e: Event) => HitsEvent(q, e));
    SumOfFilter(s.buckets, (b: Bucket) => HitsBucket(q, b));
    SumOfFilter(s.buckets, (b: Bucket) => IsRefusal(q, b));
    assert forall b :: b in bs <==> b in s.buckets && RowWanted(q, b);
    assert forall e :: e in es <==> e in s.events && EventWanted(q, e);
    assert es != [] ==> es[0] in es;
    hide Filter;
  }

  /** The interval an answer speaks for: its window, and every overlapping row's own. */
  lemma {:induction false} AskInterval(s: State, q: Query)
    requires s.floor <= q.from && forall b :: b in s.buckets ==> b.n > 0
    ensures var a := Ask(s, q);
      && a.from <= q.from && q.to <= a.to
      && (forall b :: b in s.buckets && RowWanted(q, b) ==> a.from <= b.start && b.end <= a.to)
      && (a.from == q.from || exists b :: b in s.buckets && RowWanted(q, b) && b.start == a.from)
      && (a.to == q.to || exists b :: b in s.buckets && RowWanted(q, b) && b.end == a.to)
  {
    HitsAreWanted(q);
    AskWidens(s, q);
    hide HitsBucket, HitsEvent, IsRefusal, RowWanted, EventWanted, SumN, MinOf, MaxOf;
    var bs := Filter(s.buckets, (b: Bucket) => HitsBucket(q, b));
    SumOfFilter(s.buckets, (b: Bucket) => HitsBucket(q, b));
    assert forall b :: b in bs <==> b in s.buckets && RowWanted(q, b);
    assert forall b :: BucketStart(b) == b.start && BucketEnd(b) == b.end;
    hide Filter;
  }

  /**
   * When each coverage and each resolution is returned, after any run: below the floor
   * nothing is answered; a member-filtered window across a refusal is indeterminate;
   * otherwise a wanted bucket row makes the answer one of buckets, a day row one of days,
   * over the union of the window and the rows' intervals.
   */
  lemma {:induction false} AnswerIs(c: Config, steps: seq<Step>, q: Query)
    ensures var s := Run(c, EMPTY, steps);
      var a := Ask(s, q);
      && (q.from < s.floor ==> a == Answer(q.from, q.to, NoEvidence, 0, None, None, Indeterminate))
      && (s.floor <= q.from ==>
            && a.coverage == (if CrossesRefusal(s, q) then Indeterminate else if AnyRow(s, q) then Bucketed else Exact)
            && a.resolution == (if AnyDay(s, q) then ByDay else if AnyRow(s, q) then ByHour
                                else if AnyEvent(s, q) then ByEvent else NoEvidence)
            && a.from <= q.from && q.to <= a.to
            && (forall b :: b in s.buckets && RowWanted(q, b) ==> a.from <= b.start && b.end <= a.to)
            && (a.from == q.from || exists b :: b in s.buckets && RowWanted(q, b) && b.start == a.from)
            && (a.to == q.to || exists b :: b in s.buckets && RowWanted(q, b) && b.end == a.to))
  {
    var s := Run(c, EMPTY, steps);
    RowsPositive(c, steps);
    if s.floor <= q.from {
      hide *;
      AskShape(s, q);
      AskInterval(s, q);
    }
  }

  /** A refused fan-out degrades `exact`, never the evidence still returned. */
  lemma {:induction false} RefusedStillCounts(c: Config, steps: seq<Step>, q: Query)
    requires Run(c, EMPTY, steps).floor <= q.from
    ensures var a, h := Ask(Run(c, EMPTY, steps), q), History(c, EMPTY, steps);
      Weigh(h, Wanted(q, q.from, q.to)) <= a.count <= Weigh(h, Wanted(q, a.from, a.to))
  {
    var p := ReachableAccounts(c, steps);
    CountsAtLeast(Run(c, EMPTY, steps), p, History(c, EMPTY, steps), q);
    CountsAtMost(Run(c, EMPTY, steps), p, History(c, EMPTY, steps), q);
  }

  /** What the emitters handed to `record`, straight from the inserts of a run. */
  function Recorded(steps: seq<Step>): seq<Occ> {
    if steps == [] then []
    else (match steps[0].u
          case InsertUnit(cause, members) => EventOccs(EventsFor(cause, members, steps[0].t))
          case _ => []) + Recorded(steps[1..])
  }

  const RETENTION: set<Cause> := {OVERFLOW, FANOUT_TRUNCATED, UNAVAILABLE}

  /** The store writes facts only under its own causes. */
  predicate OwnFacts(steps: seq<Step>) {
    forall i :: 0 <= i < |steps| && steps[i].u.FactUnit? ==> steps[i].u.fact in RETENTION
  }

  lemma {:induction false} HistoryIsRecorded(c: Config, s: State, steps: seq<Step>, cause: Cause, member: string)
    requires OwnFacts(steps) && cause !in RETENTION
    ensures Weigh(History(c, s, steps), Is(cause, member)) == Weigh(Recorded(steps), Is(cause, member))
    decreases |steps|
  {
    if steps == [] {
    } else {
      var s1 := Apply(c, s, steps[0]);
      HistoryIsRecorded(c, s1, steps[1..], cause, member);
      WeighAppend(Added(c, s, steps[0]), History(c, s1, steps[1..]), Is(cause, member));
      if steps[0].u.InsertUnit? {
        WeighAppend(Added(c, s, steps[0]), Recorded(steps[1..]), Is(cause, member));
      } else {
        assert Recorded(steps) == Recorded(steps[1..]);
        WeighNone(Added(c, s, steps[0]), Is(cause, member));
      }
    }
  }

  /**
   * Where everything written is: live, behind exactly the rows that count it, or shed by
   * a cap or the day horizon, and then below the floor.
   */
  lemma {:induction false} Partition(c: Config, steps: seq<Step>) returns (behind: seq<Occ>, shed: seq<Occ>)
    ensures var s := Run(c, EMPTY, steps);
      && multiset(EventOccs(s.events) + behind + shed) == multiset(History(c, EMPTY, steps))
      && (forall cause, member :: Weigh(behind, Is(cause, member)) == RowsCount(s.buckets, cause, member))
      && (forall cause, member :: Weigh(shed, Is(cause, member)) == ShedOver(c, EMPTY, steps, cause, member))
      && forall o :: o in shed ==> o.ts < s.floor
  {
    var p := ReachableAccounts(c, steps);
    behind, shed := OccsIn(p.lines), p.shed;
    forall cause, member
      ensures Weigh(behind, Is(cause, member)) == RowsCount(Run(c, EMPTY, steps).buckets, cause, member) {
      SumOfLines(p.lines, cause, member);
    }
  }

  /**
   * Conservation, exactly: per cause and member, what is live, what the buckets count and
   * what the caps and the day horizon deleted over the run add up to what was written;
   * outside the store's own causes that is what was recorded.
   */
  lemma {:induction false} Conservation(c: Config, steps: seq<Step>, cause: Cause, member: string)
    ensures var s, f := Run(c, EMPTY, steps), Is(cause, member);
      var kept := EventsCount(s.events, cause, member) + RowsCount(s.buckets, cause, member)
                + ShedOver(c, EMPTY, steps, cause, member);
      && kept == Weigh(History(c, EMPTY, steps), f)
      && (OwnFacts(steps) && cause !in RETENTION ==> kept == Weigh(Recorded(steps), f))
  {
    var s, h, f := Run(c, EMPTY, steps), History(c, EMPTY, steps), Is(cause, member);
    var behind, shed := Partition(c, steps);
    WeighPermuted(EventOccs(s.events) + behind + shed, h, f);
    WeighAppend(EventOccs(s.events) + behind, shed, f);
    WeighAppend(EventOccs(s.events), behind, f);
    CountEvents(s.events, (e: Event) => e.cause == cause && e.member == member, f);
    if OwnFacts(steps) && cause !in RETENTION {
      HistoryIsRecorded(c, EMPTY, steps, cause, member);
    }
  }

  /** A bucket's `n`, `first` and `last` are those of distinct written occurrences inside its interval. */
  lemma {:induction false} BucketsAreTrue(c: Config, steps: seq<Step>, b: Bucket) returns (occs: seq<Occ>)
    requires b in Run(c, EMPTY, steps).buckets
    ensures multiset(occs) <= multiset(History(c, EMPTY, steps))
    ensures forall o :: o in occs ==> o.cause == b.cause && o.member == b.member && b.start <= o.ts < b.end
    ensures b.n == Weigh(occs, ANY) > 0
    ensures IsFirst(occs, ANY, Some(b.first)) && IsLast(occs, ANY, Some(b.last))
  {
    var s := Run(c, EMPTY, steps);
    var p := ReachableAccounts(c, steps);
    var l := RowHasLine(p.lines, b);
    LineCounts(l);
    LineOccsCounted(p.lines, l);
    occs := l.occs;
  }

  lemma {:induction false} LineOccsCounted(ls: seq<Line>, l: Line)
    requires l in ls
    ensures multiset(l.occs) <= multiset(OccsIn(ls))
  {
    if l != ls[0] {
      LineOccsCounted(ls[1..], l);
    }
  }

  // ---------------------------------------------------------------- the floor

  /** The coverage floor never falls. */
  lemma {:induction false} FloorNeverFalls(c: Config, s: State, steps: seq<Step>)
    ensures Run(c, s, steps).floor >= s.floor
    decreases |steps|
  {
    hide FoldHours, FoldAll, FoldBucket, TakeOldest, DropOldest, MaxKey, Filter, UpsertAll, EventsFor;
    if steps == [] {
    } else {
      FloorNeverFalls(c, Apply(c, s, steps[0]), steps[1..]);
    }
  }

  lemma {:induction false} RunAppend(c: Config, s: State, a: seq<Step>, b: seq<Step>)
    ensures Run(c, s, a + b) == Run(c, Run(c, s, a), b)
    ensures History(c, s, a + b) == History(c, s, a) + History(c, Run(c, s, a), b)
    decreases |a|
  {
    if a == [] {
      assert a + b == b;
    } else {
      assert (a + b)[0] == a[0] && (a + b)[1..] == a[1..] + b;
      RunAppend(c, Apply(c, s, a[0]), a[1..], b);
    }
  }

  // ------------------------------------------------------------ refused fan-out

  lemma {:induction false} RefusalRefuses(s: State, q: Query, b: Bucket)
    requires q.member != AnyMember && b in s.buckets && b.n > 0 && IsRefusal(q, b)
    ensures Ask(s, q).coverage == Indeterminate
  {
    hide MinOf, MaxOf, HitsEvent, HitsBucket, IsRefusal;
    SumNPositive(Filter(s.buckets, (x: Bucket) => IsRefusal(q, x)), b);
  }

  lemma {:induction false} BelowFloorRefuses(s: State, q: Query)
    requires q.from < s.floor
    ensures Ask(s, q).coverage == Indeterminate
  {
  }

  lemma {:induction false} FactLineRefuses(s: State, p: Ledger, q: Query, o: Occ)
    requires Explains(s, p) && o in OccsIn(p.lines) && o.cause == FANOUT_TRUNCATED
    requires q.member != AnyMember && q.from <= o.ts <= q.to
    ensures Ask(s, q).coverage == Indeterminate
  {
    hide Rows, OccsIn, Ask, Weigh;
    var l := OccInLine(p.lines, o);
    assert LineOk(l) && IsRefusal(q, l.row);
    LineCounts(l);
    RefusalRefuses(s, q, l.row);
  }

  /** Every occurrence is an event's, a row's, or below the floor. */
  lemma {:induction false} StoredOrShed(s: State, p: Ledger, h: seq<Occ>, o: Occ)
    requires Accounts(s, p, h) && o in h
    ensures Explains(s, p) && (o in EventOccs(s.events) || o in OccsIn(p.lines) || o.ts < s.floor)
  {
    hide EventOccs, OccsIn, Rows, LinesOk;
    assert o in multiset(Stored(s, p));
  }

  lemma {:induction false} WrittenFactRefuses(s: State, p: Ledger, h: seq<Occ>, q: Query, o: Occ)
    requires Accounts(s, p, h) && o in h && o.fact && o.cause == FANOUT_TRUNCATED
    requires q.member != AnyMember && q.from <= o.ts <= q.to
    ensures Ask(s, q).coverage == Indeterminate
  {
    hide *;
    StoredOrShed(s, p, h, o);
    if o in EventOccs(s.events) {
      EventOccsIn(s.events, o);
    } else if o in OccsIn(p.lines) {
      FactLineRefuses(s, p, q, o);
    } else {
      BelowFloorRefuses(s, q);
    }
  }

  /** The first two units of a refused record: the unattributed row, then the fact. */
  lemma {:induction false} FanoutWritesFact(c: Config, s: State, t: int, cause: Cause, members: seq<string>, fault: nat)
    requires |Dedup(members)| > MAX_FANOUT && 2 <= fault <= |RecordUnits(cause, members)|
    ensures Occ(FANOUT_TRUNCATED, UNATTRIBUTED, t, |Dedup(members)|, true)
         in History(c, s, At(t, RecordUnits(cause, members)[..fault]))
  {
    var steps := At(t, RecordUnits(cause, members)[..fault]);
    assert steps[1] == Step(t, FactUnit(FANOUT_TRUNCATED, |Dedup(members)|));
    assert steps[1..][0] == steps[1];
    var s1 := Apply(c, s, steps[0]);
    assert History(c, s, steps) == Added(c, s, steps[0]) + History(c, s1, steps[1..]);
    assert History(c, s1, steps[1..])
        == Added(c, s1, steps[1]) + History(c, Apply(c, s1, steps[1]), steps[1..][1..]);
  }

  /**
   * A member-filtered window that contains a refused fan-out is never `exact`,
   * whatever was swept or evicted since: the refused set might have named anyone.
   * The record may have been cut short by a throw at any unit after its fact; `fault`
   * at the number of units is a record that ran to completion.
   */
  lemma {:induction false} RefusedFanoutNeverExact(c: Config, before: seq<Step>, t: int, cause: Cause,
      members: seq<string>, fault: nat, after: seq<Step>, q: Query)
    requires |Dedup(members)| > MAX_FANOUT && 2 <= fault <= |RecordUnits(cause, members)|
    requires q.member != AnyMember && q.from <= t <= q.to
    ensures var s := Run(c, EMPTY, before + At(t, RecordUnits(cause, members)[..fault]) + after);
      Ask(s, q).coverage == Indeterminate
  {
    hide Ask, Run, RecordUnits;
    var rec := At(t, RecordUnits(cause, members)[..fault]);
    var steps := before + rec + after;
    RunAppend(c, EMPTY, before + rec, after);
    RunAppend(c, EMPTY, before, rec);
    FanoutWritesFact(c, Run(c, EMPTY, before), t, cause, members, fault);
    var p := ReachableAccounts(c, steps);
    WrittenFactRefuses(Run(c, EMPTY, steps), p, History(c, EMPTY, steps), q,
                       Occ(FANOUT_TRUNCATED, UNATTRIBUTED, t, |Dedup(members)|, true));
  }

  predicate IsRefusalFact(o: Occ) { o.fact && o.cause == FANOUT_TRUNCATED }

  /** Coverage depends on the floor and the buckets alone, so inserting detail never changes it. */
  lemma {:induction false} InsertKeepsCoverage(s: State, t: int, cause: Cause, members: seq<string>, q: Query)
    ensures Ask(Insert(s, t, cause, members), q).coverage == Ask(s, q).coverage
  {
    hide Filter, SumN, MinOf, MaxOf, EventsFor, UpsertAll;
  }

  /** A record cut short before its fact inserts detail at most. */
  lemma {:induction false} OneStep(c: Config, s: State, step: Step)
    ensures Run(c, s, [step]) == Apply(c, s, step) && History(c, s, [step]) == Added(c, s, step)
  {
    assert [step][1..] == [];
    assert History(c, s, [step]) == Added(c, s, step) + History(c, Apply(c, s, step), []);
    hide Added, Apply;
  }

  lemma {:induction false} CutBeforeFact(c: Config, s: State, t: int, cause: Cause, members: seq<string>, fault: nat,
      q: Query)
    requires |Dedup(members)| > MAX_FANOUT && fault <= 1
    ensures fault <= |RecordUnits(cause, members)|
    ensures var steps := At(t, RecordUnits(cause, members)[..fault]);
      && Ask(Run(c, s, steps), q).coverage == Ask(s, q).coverage
      && forall o :: o in History(c, s, steps) ==> !IsRefusalFact(o)
  {
    var units := RecordUnits(cause, members);
    var steps := At(t, units[..fault]);
    if fault == 0 {
      assert units[..0] == [] && steps == [];
    } else {
      assert units[..1] == [units[0]] && steps == [Step(t, units[0])];
      OneStep(c, s, Step(t, units[0]));
      InsertKeepsCoverage(s, t, cause, units[0].members, q);
      forall o | o in Added(c, s, steps[0]) ensures !o.fact {
        EventOccsIn(EventsFor(cause, units[0].members, t), o);
      }
    }
  }

  /**
   * A refused record that throws writes its fact exactly if it got past its insert.  A
   * member-filtered window over it is then refused; otherwise the refusal leaves no
   * trace, and the window answers as it did before, whatever ran earlier: on a new store
   * it is `exact`.
   */
  lemma {:induction false} RefusalHonestIff(c: Config, before: seq<Step>, t: int, cause: Cause, members: seq<string>,
      fault: nat, q: Query)
    requires |Dedup(members)| > MAX_FANOUT && fault <= |RecordUnits(cause, members)|
    requires q.member != AnyMember && q.from <= t <= q.to
    ensures var s, rec := Run(c, EMPTY, before), At(t, RecordUnits(cause, members)[..fault]);
      && Ask(Run(c, EMPTY, before + rec), q).coverage == (if fault <= 1 then Ask(s, q).coverage else Indeterminate)
      && ((exists o :: o in History(c, s, rec) && IsRefusalFact(o)) <==> fault >= 2)
    ensures 0 <= q.from ==> Ask(Run(c, EMPTY, []), q).coverage == Exact
  {
    var s, rec := Run(c, EMPTY, before), At(t, RecordUnits(cause, members)[..fault]);
    RunAppend(c, EMPTY, before, rec);
    hide Run, RecordUnits, History;
    if fault >= 2 {
      RefusedFanoutNeverExact(c, before, t, cause, members, fault, [], q);
      FanoutWritesFact(c, s, t, cause, members, fault);
      assert before + rec + [] == before + rec;
      assert IsRefusalFact(Occ(FANOUT_TRUNCATED, UNATTRIBUTED, t, |Dedup(members)|, true));
    } else {
      CutBeforeFact(c, s, t, cause, members, fault, q);
    }
    NewStoreExact(c, q);
  }

  lemma {:induction false} NewStoreExact(c: Config, q: Query)
    ensures 0 <= q.from ==> Ask(Run(c, EMPTY, []), q).coverage == Exact
  {
  }
}
