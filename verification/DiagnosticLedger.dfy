/**
 * Where every occurrence is.
 *
 * Each occurrence ever written is still a detail event, or stands behind
 * exactly one bucket whose interval contains it, or was shed below the
 * coverage floor.  A `Ledger` records which, line by line beside the bucket
 * table; the lemmas here say how folding, deleting and evicting act on it.
 */
module DiagnosticLedger {
  import opened Prelude
  import opened DiagnosticModel

  /** One thing that happened; `fact` marks what the store wrote straight to a bucket. */
  datatype Occ = Occ(cause: Cause, member: string, ts: int, w: pos, fact: bool)

  function OccOf(e: Event): Occ { Occ(e.cause, e.member, e.ts, 1, false) }

  /** Number of occurrences, by weight, that satisfy `p`. */
  function Weigh(h: seq<Occ>, p: Occ -> bool): nat {
    if h == [] then 0 else (if p(h[0]) then h[0].w else 0) + Weigh(h[1..], p)
  }

  const ANY: Occ -> bool := _ => true

  lemma {:induction false} WeighAppend(a: seq<Occ>, b: seq<Occ>, p: Occ -> bool)
    ensures Weigh(a + b, p) == Weigh(a, p) + Weigh(b, p)
  {
    if a == [] {
      assert a + b == b;
    } else {
      assert (a + b)[0] == a[0] && (a + b)[1..] == a[1..] + b;
      WeighAppend(a[1..], b, p);
    }
  }

  lemma {:induction false} WeighMono(h: seq<Occ>, p: Occ -> bool, q: Occ -> bool)
    requires forall o :: o in h && p(o) ==> q(o)
    ensures Weigh(h, p) <= Weigh(h, q)
  {
    if h == [] {
    } else {
      assert h[0] in h;
      WeighMono(h[1..], p, q);
    }
  }

  lemma {:induction false} WeighExt(h: seq<Occ>, p: Occ -> bool, q: Occ -> bool)
    requires forall o :: o in h ==> p(o) == q(o)
    ensures Weigh(h, p) == Weigh(h, q)
  {
    WeighMono(h, p, q);
    WeighMono(h, q, p);
  }

  lemma {:induction false} WeighNone(h: seq<Occ>, p: Occ -> bool)
    requires forall o :: o in h ==> !p(o)
    ensures Weigh(h, p) == 0
  {
    if h == [] {
    } else {
      assert h[0] in h;
      WeighNone(h[1..], p);
    }
  }

  lemma {:induction false} WeighRemove(h: seq<Occ>, i: nat, p: Occ -> bool)
    requires i < |h|
    ensures Weigh(h, p) == Weigh(RemoveAt(h, i), p) + if p(h[i]) then h[i].w else 0
  {
    assert h == h[..i] + ([h[i]] + h[i + 1..]);
    WeighAppend(h[..i], [h[i]] + h[i + 1..], p);
    WeighAppend([h[i]], h[i + 1..], p);
    WeighAppend(h[..i], h[i + 1..], p);
  }

  /** Weight does not depend on order. */
  lemma {:induction false} WeighPermuted(a: seq<Occ>, b: seq<Occ>, p: Occ -> bool)
    requires multiset(a) == multiset(b)
    ensures Weigh(a, p) == Weigh(b, p)
    decreases |a|
  {
    if a == [] {
      assert |b| == |multiset(b)| == 0;
    } else {
      assert a[0] in multiset(b);
      var i :| 0 <= i < |b| && b[i] == a[0];
      assert a == [a[0]] + a[1..];
      RemoveAtMultiset(b, i);
      assert multiset(a) == multiset{a[0]} + multiset(a[1..]);
      calc {
        multiset(a[1..]);
        multiset(a) - multiset{a[0]};
        multiset(b) - multiset{b[i]};
        multiset(RemoveAt(b, i));
      }
      WeighPermuted(a[1..], RemoveAt(b, i), p);
      WeighRemove(b, i, p);
    }
  }

  // ------------------------------------------------------------------ ledger

  /** A bucket row together with the occurrences it stands for. */
  datatype Line = Line(row: Bucket, occs: seq<Occ>)
  datatype Ledger = Ledger(lines: seq<Line>, shed: seq<Occ>)

  function Width(r: Resolution): int { if r == Hour then HOUR else DAY }

  ghost predicate LineOk(l: Line) {
    && l.row.start % Width(l.row.res) == 0
    && l.row.end == l.row.start + Width(l.row.res)
    && (forall o :: o in l.occs ==>
          && o.cause == l.row.cause && o.member == l.row.member
          && l.row.start <= o.ts < l.row.end && l.row.first <= o.ts <= l.row.last)
    && (exists o :: o in l.occs && o.ts == l.row.first)
    && (exists o :: o in l.occs && o.ts == l.row.last)
    && l.row.n == Weigh(l.occs, ANY)
  }

  ghost predicate LinesOk(ls: seq<Line>) { forall l :: l in ls ==> LineOk(l) }

  function Rows(ls: seq<Line>): (r: seq<Bucket>)
    ensures |r| == |ls|
  {
    if ls == [] then [] else [ls[0].row] + Rows(ls[1..])
  }

  function OccsIn(ls: seq<Line>): seq<Occ> {
    if ls == [] then [] else ls[0].occs + OccsIn(ls[1..])
  }

  function EventOccs(es: seq<Event>): (r: seq<Occ>)
    ensures |r| == |es|
  {
    if es == [] then [] else [OccOf(es[0])] + EventOccs(es[1..])
  }

  function Stored(s: State, p: Ledger): seq<Occ> {
    EventOccs(s.events) + OccsIn(p.lines) + p.shed
  }

  /** `p` accounts for the buckets of `s`, and everything shed lies below the floor. */
  ghost predicate Explains(s: State, p: Ledger) {
    && Rows(p.lines) == s.buckets
    && LinesOk(p.lines)
    && forall o :: o in p.shed ==> o.ts < s.floor
  }

  lemma {:induction false} EventOccsAppend(a: seq<Event>, b: seq<Event>)
    ensures EventOccs(a + b) == EventOccs(a) + EventOccs(b)
  {
    if a == [] {
      assert a + b == b;
    } else {
      assert (a + b)[0] == a[0] && (a + b)[1..] == a[1..] + b;
      EventOccsAppend(a[1..], b);
    }
  }

  lemma {:induction false} EventOccsIn(es: seq<Event>, o: Occ)
    requires o in EventOccs(es)
    ensures !o.fact && o.w == 1 && Event(o.cause, o.member, o.ts) in es
  {
    if o in EventOccs(es[1..]) {
      EventOccsIn(es[1..], o);
    } else {
      assert es[0] in es;
    }
  }

  lemma {:induction false} RowsAppend(a: seq<Line>, b: seq<Line>)
    ensures Rows(a + b) == Rows(a) + Rows(b)
    ensures OccsIn(a + b) == OccsIn(a) + OccsIn(b)
  {
    if a == [] {
      assert a + b == b;
    } else {
      assert (a + b)[0] == a[0] && (a + b)[1..] == a[1..] + b;
      RowsAppend(a[1..], b);
    }
  }

  lemma {:induction false} RowsIndex(ls: seq<Line>, i: nat)
    requires i < |ls|
    ensures Rows(ls)[i] == ls[i].row
  {
    if i == 0 {
    } else {
      RowsIndex(ls[1..], i - 1);
    }
  }

  lemma {:induction false} OccInLine(ls: seq<Line>, o: Occ) returns (l: Line)
    requires o in OccsIn(ls)
    ensures l in ls && o in l.occs && l.row in Rows(ls)
  {
    if o in ls[0].occs {
      l := ls[0];
    } else {
      l := OccInLine(ls[1..], o);
    }
  }

  // ---------------------------------------------------------------- per filter

  function Is(cause: Cause, member: string): Occ -> bool {
    (o: Occ) => o.cause == cause && o.member == member
  }

  /** Events of a cause and member. */
  function EventsCount(es: seq<Event>, cause: Cause, member: string): nat {
    |Filter(es, (e: Event) => e.cause == cause && e.member == member)|
  }

  /** What the rows of a cause and member count. */
  function RowsCount(bs: seq<Bucket>, cause: Cause, member: string): nat {
    SumN(Filter(bs, (b: Bucket) => b.cause == cause && b.member == member))
  }

  lemma {:induction false} CountEvents(es: seq<Event>, p: Event -> bool, po: Occ -> bool)
    requires forall e :: e in es ==> p(e) == po(OccOf(e))
    ensures |Filter(es, p)| == Weigh(EventOccs(es), po)
  {
    if es == [] {
    } else {
      assert es[0] in es;
      CountEvents(es[1..], p, po);
    }
  }

  lemma {:induction false} SumOfLines(ls: seq<Line>, cause: Cause, member: string)
    requires LinesOk(ls)
    ensures Weigh(OccsIn(ls), Is(cause, member))
         == RowsCount(Rows(ls), cause, member)
  {
    if ls == [] {
    } else {
      var l := ls[0];
      assert l in ls && LineOk(l) && LinesOk(ls[1..]);
      SumOfLines(ls[1..], cause, member);
      assert Rows(ls)[1..] == Rows(ls[1..]);
      WeighAppend(l.occs, OccsIn(ls[1..]), Is(cause, member));
      if l.row.cause == cause && l.row.member == member {
        WeighExt(l.occs, Is(cause, member), ANY);
      } else {
        WeighNone(l.occs, Is(cause, member));
      }
    }
  }

  // ----------------------------------------------------------------- folding

  function Join(a: Line, b: Line): Line { Line(Merge(a.row, b.row), a.occs + b.occs) }

  function FoldLine(ls: seq<Line>, l: Line): seq<Line> {
    if ls == [] then [l]
    else if SameKey(ls[0].row, l.row) then [Join(ls[0], l)] + ls[1..]
    else [ls[0]] + FoldLine(ls[1..], l)
  }

  function FoldLines(ls: seq<Line>, added: seq<Line>): seq<Line>
    decreases |added|
  {
    if added == [] then ls else FoldLines(FoldLine(ls, added[0]), added[1..])
  }

  lemma {:induction false} JoinOk(a: Line, b: Line)
    requires LineOk(a) && LineOk(b) && SameKey(a.row, b.row)
    ensures LineOk(Join(a, b))
  {
    var j := Join(a, b);
    WeighAppend(a.occs, b.occs, ANY);
    var a1 :| a1 in a.occs && a1.ts == a.row.first;
    var b1 :| b1 in b.occs && b1.ts == b.row.first;
    assert a1 in j.occs && b1 in j.occs;
    var a2 :| a2 in a.occs && a2.ts == a.row.last;
    var b2 :| b2 in b.occs && b2.ts == b.row.last;
    assert a2 in j.occs && b2 in j.occs;
  }

  /** Folding a row in is lossless: the table's occurrences grow by exactly the row's. */
  lemma {:induction false} FoldLineOk(ls: seq<Line>, l: Line)
    requires LinesOk(ls) && LineOk(l)
    ensures LinesOk(FoldLine(ls, l))
    ensures Rows(FoldLine(ls, l)) == FoldBucket(Rows(ls), l.row)
    ensures multiset(OccsIn(FoldLine(ls, l))) == multiset(OccsIn(ls)) + multiset(l.occs)
  {
    if ls == [] {
    } else {
      assert ls[0] in ls && LinesOk(ls[1..]);
      assert Rows(ls)[1..] == Rows(ls[1..]);
      if SameKey(ls[0].row, l.row) {
        JoinOk(ls[0], l);
        assert FoldLine(ls, l)[1..] == ls[1..];
      } else {
        FoldLineOk(ls[1..], l);
        assert FoldLine(ls, l)[1..] == FoldLine(ls[1..], l);
      }
    }
  }

  lemma {:induction false} FoldLinesOk(ls: seq<Line>, added: seq<Line>)
    requires LinesOk(ls) && LinesOk(added)
    ensures LinesOk(FoldLines(ls, added))
    ensures Rows(FoldLines(ls, added)) == FoldAll(Rows(ls), Rows(added))
    ensures multiset(OccsIn(FoldLines(ls, added))) == multiset(OccsIn(ls)) + multiset(OccsIn(added))
    decreases |added|
  {
    if added == [] {
    } else {
      assert added[0] in added && LinesOk(added[1..]);
      FoldLineOk(ls, added[0]);
      FoldLinesOk(FoldLine(ls, added[0]), added[1..]);
      assert Rows(added)[1..] == Rows(added[1..]);
    }
  }

  function FactLine(cause: Cause, n: pos, t: int): Line {
    Line(HourRow(cause, UNATTRIBUTED, n, t), [Occ(cause, UNATTRIBUTED, t, n, true)])
  }

  lemma {:induction false} FactLineOk(cause: Cause, n: pos, t: int)
    ensures LineOk(FactLine(cause, n, t))
  {
    assert FactLine(cause, n, t).occs[0] in FactLine(cause, n, t).occs;
  }

  function HourLines(es: seq<Event>): (r: seq<Line>)
    ensures |r| == |es|
  {
    if es == [] then []
    else [Line(HourRow(es[0].cause, es[0].member, 1, es[0].ts), [OccOf(es[0])])] + HourLines(es[1..])
  }

  lemma {:induction false} HourLinesOk(es: seq<Event>)
    ensures LinesOk(HourLines(es)) && Rows(HourLines(es)) == HourRows(es) && OccsIn(HourLines(es)) == EventOccs(es)
  {
    if es == [] {
    } else {
      HourLinesOk(es[1..]);
      var l := HourLines(es)[0];
      assert l.occs[0] in l.occs;
      assert LineOk(l);
      assert HourLines(es)[1..] == HourLines(es[1..]);
    }
  }

  function DayLines(ls: seq<Line>): (r: seq<Line>)
    ensures |r| == |ls|
  {
    if ls == [] then [] else [Line(DayRow(ls[0].row), ls[0].occs)] + DayLines(ls[1..])
  }

  /** Hours are aligned inside days, so an hour bucket's occurrences all fall in its day. */
  lemma {:induction false} HourInDay(start: int)
    requires start % HOUR == 0
    ensures DayOf(start) <= start && start + HOUR <= DayOf(start) + DAY && DayOf(start) % DAY == 0
  {
  }

  lemma {:induction false} DayLinesOk(ls: seq<Line>)
    requires LinesOk(ls) && forall l :: l in ls ==> l.row.res == Hour
    ensures LinesOk(DayLines(ls)) && Rows(DayLines(ls)) == DayRows(Rows(ls)) && OccsIn(DayLines(ls)) == OccsIn(ls)
  {
    if ls == [] {
    } else {
      assert ls[0] in ls;
      DayLinesOk(ls[1..]);
      HourInDay(ls[0].row.start);
      assert LineOk(DayLines(ls)[0]);
      assert DayLines(ls)[1..] == DayLines(ls[1..]) && Rows(ls)[1..] == Rows(ls[1..]);
    }
  }

  // --------------------------------------------------- deletes that lose rows

  /** A delete by a row predicate acts on the ledger line by line. */
  lemma {:induction false} FilterLines(ls: seq<Line>, keep: Bucket -> bool)
    ensures Rows(Filter(ls, (l: Line) => keep(l.row))) == Filter(Rows(ls), keep)
    ensures multiset(OccsIn(ls)) == multiset(OccsIn(Filter(ls, (l: Line) => keep(l.row))))
                                  + multiset(OccsIn(Filter(ls, (l: Line) => !keep(l.row))))
  {
    if ls == [] {
    } else {
      FilterLines(ls[1..], keep);
      assert Rows(ls)[1..] == Rows(ls[1..]);
      var k := Filter(ls[1..], (l: Line) => keep(l.row));
      var d := Filter(ls[1..], (l: Line) => !keep(l.row));
      assert ([ls[0]] + k)[1..] == k && ([ls[0]] + d)[1..] == d;
    }
  }

  function LineStart(l: Line): int { l.row.start }

  lemma {:induction false} ArgMinLines(ls: seq<Line>)
    requires ls != []
    ensures ArgMin(ls, LineStart) == ArgMin(Rows(ls), BucketStart)
  {
    if |ls| > 1 {
      ArgMinLines(ls[1..]);
      var k := ArgMin(ls[1..], LineStart);
      assert Rows(ls)[1..] == Rows(ls[1..]);
      RowsIndex(ls, k + 1);
    }
  }

  lemma {:induction false} RemoveLine(ls: seq<Line>, i: nat)
    requires i < |ls|
    ensures Rows(RemoveAt(ls, i)) == RemoveAt(Rows(ls), i) && Rows(ls)[i] == ls[i].row
    ensures multiset(OccsIn(ls)) == multiset(ls[i].occs) + multiset(OccsIn(RemoveAt(ls, i)))
  {
    RowsAppend(ls[..i], ls[i + 1..]);
    RowsAppend(ls[..i], ls[i..]);
    assert ls[..i] + ls[i..] == ls && ls[i..][0] == ls[i] && ls[i..][1..] == ls[i + 1..];
    RowsIndex(ls, i);
    assert Rows(ls[i..])[1..] == Rows(ls[i + 1..]);
  }

  lemma {:induction false} RemoveLineRows(ls: seq<Line>, i: nat, taken: seq<Line>)
    requires i < |ls|
    ensures Rows([ls[i]] + taken) == [ls[i].row] + Rows(taken)
    ensures Rows(RemoveAt(ls, i)) == RemoveAt(Rows(ls), i) && Rows(ls)[i] == ls[i].row
  {
    RemoveLine(ls, i);
    assert ([ls[i]] + taken)[1..] == taken;
  }

  lemma {:induction false} EvictLine(ls: seq<Line>, i: nat, taken: seq<Line>, kept: seq<Line>)
    requires i < |ls|
    requires multiset(OccsIn(RemoveAt(ls, i))) == multiset(OccsIn(taken)) + multiset(OccsIn(kept))
    ensures multiset(OccsIn(ls)) == multiset(OccsIn([ls[i]] + taken)) + multiset(OccsIn(kept))
  {
    RemoveLine(ls, i);
    assert ([ls[i]] + taken)[1..] == taken;
  }

  // One step of each eviction, from the table without its oldest row.

  lemma {:induction false} EvictKeepsStep(ls: seq<Line>, k: nat)
    requires k != 0 && ls != []
    requires var rest := RemoveAt(ls, ArgMin(ls, LineStart));
      Rows(DropOldest(rest, LineStart, k - 1)) == DropOldest(Rows(rest), BucketStart, k - 1)
    ensures Rows(DropOldest(ls, LineStart, k)) == DropOldest(Rows(ls), BucketStart, k)
  {
    hide *;
    OldestStep(ls, LineStart, k);
    OldestStep(Rows(ls), BucketStart, k);
    ArgMinLines(ls);
    RemoveLineRows(ls, ArgMin(ls, LineStart), []);
  }

  lemma {:induction false} EvictTakesStep(ls: seq<Line>, k: nat)
    requires k != 0 && ls != []
    requires var rest := RemoveAt(ls, ArgMin(ls, LineStart));
      Rows(TakeOldest(rest, LineStart, k - 1)) == TakeOldest(Rows(rest), BucketStart, k - 1)
    ensures Rows(TakeOldest(ls, LineStart, k)) == TakeOldest(Rows(ls), BucketStart, k)
  {
    hide *;
    var i := ArgMin(ls, LineStart);
    OldestStep(ls, LineStart, k);
    OldestStep(Rows(ls), BucketStart, k);
    ArgMinLines(ls);
    RemoveLineRows(ls, i, TakeOldest(RemoveAt(ls, i), LineStart, k - 1));
  }

  lemma {:induction false} EvictOccsStep(ls: seq<Line>, k: nat)
    requires k != 0 && ls != []
    requires var rest := RemoveAt(ls, ArgMin(ls, LineStart));
      multiset(OccsIn(rest)) == multiset(OccsIn(TakeOldest(rest, LineStart, k - 1)))
                              + multiset(OccsIn(DropOldest(rest, LineStart, k - 1)))
    ensures multiset(OccsIn(ls)) == multiset(OccsIn(TakeOldest(ls, LineStart, k)))
                                  + multiset(OccsIn(DropOldest(ls, LineStart, k)))
  {
    hide *;
    var i := ArgMin(ls, LineStart);
    var rest := RemoveAt(ls, i);
    OldestStep(ls, LineStart, k);
    EvictLine(ls, i, TakeOldest(rest, LineStart, k - 1), DropOldest(rest, LineStart, k - 1));
  }

  lemma {:induction false} EvictsNothing(ls: seq<Line>, k: nat)
    requires k == 0 || ls == []
    ensures Rows(DropOldest(ls, LineStart, k)) == DropOldest(Rows(ls), BucketStart, k)
    ensures Rows(TakeOldest(ls, LineStart, k)) == TakeOldest(Rows(ls), BucketStart, k)
    ensures multiset(OccsIn(ls)) == multiset(OccsIn(TakeOldest(ls, LineStart, k)))
                                  + multiset(OccsIn(DropOldest(ls, LineStart, k)))
  {
    OldestStep(ls, LineStart, k);
    OldestStep(Rows(ls), BucketStart, k);
    assert Rows([]) == [] && OccsIn([]) == [];
  }

  /** Cap eviction on the ledger keeps the same rows as on the table, takes the same rows ... */
  lemma {:induction false} EvictKeeps(ls: seq<Line>, k: nat)
    ensures Rows(DropOldest(ls, LineStart, k)) == DropOldest(Rows(ls), BucketStart, k)
    decreases k
  {
    hide *;
    if k == 0 || ls == [] {
      EvictsNothing(ls, k);
    } else {
      EvictKeeps(RemoveAt(ls, ArgMin(ls, LineStart)), k - 1);
      EvictKeepsStep(ls, k);
    }
  }

  lemma {:induction false} EvictTakes(ls: seq<Line>, k: nat)
    ensures Rows(TakeOldest(ls, LineStart, k)) == TakeOldest(Rows(ls), BucketStart, k)
    decreases k
  {
    hide *;
    if k == 0 || ls == [] {
      EvictsNothing(ls, k);
    } else {
      EvictTakes(RemoveAt(ls, ArgMin(ls, LineStart)), k - 1);
      EvictTakesStep(ls, k);
    }
  }

  /** ... and exactly their occurrences. */
  lemma {:induction false} EvictOccs(ls: seq<Line>, k: nat)
    ensures multiset(OccsIn(ls)) == multiset(OccsIn(TakeOldest(ls, LineStart, k)))
                                  + multiset(OccsIn(DropOldest(ls, LineStart, k)))
    decreases k
  {
    hide *;
    if k == 0 || ls == [] {
      EvictsNothing(ls, k);
    } else {
      EvictOccs(RemoveAt(ls, ArgMin(ls, LineStart)), k - 1);
      EvictOccsStep(ls, k);
    }
  }

  lemma {:induction false} RemoveEvent(es: seq<Event>, i: nat)
    requires i < |es|
    ensures multiset(EventOccs(es)) == multiset{OccOf(es[i])} + multiset(EventOccs(RemoveAt(es, i)))
  {
    EventOccsAppend(es[..i], es[i + 1..]);
    EventOccsAppend(es[..i], es[i..]);
    assert es[..i] + es[i..] == es && es[i..][0] == es[i] && es[i..][1..] == es[i + 1..];
  }

  lemma {:induction false} EvictEvent(es: seq<Event>, i: nat, taken: seq<Event>, kept: seq<Event>)
    requires i < |es|
    requires multiset(EventOccs(RemoveAt(es, i))) == multiset(EventOccs(taken)) + multiset(EventOccs(kept))
    ensures multiset(EventOccs(es)) == multiset(EventOccs([es[i]] + taken)) + multiset(EventOccs(kept))
  {
    RemoveEvent(es, i);
    assert ([es[i]] + taken)[1..] == taken;
  }

  lemma {:induction false} EvictEventsStep(es: seq<Event>, k: nat)
    requires k != 0 && es != []
    requires var rest := RemoveAt(es, ArgMin(es, EventTs));
      multiset(EventOccs(rest)) == multiset(EventOccs(TakeOldest(rest, EventTs, k - 1)))
                                 + multiset(EventOccs(DropOldest(rest, EventTs, k - 1)))
    ensures multiset(EventOccs(es)) == multiset(EventOccs(TakeOldest(es, EventTs, k)))
                                     + multiset(EventOccs(DropOldest(es, EventTs, k)))
  {
    hide *;
    var i := ArgMin(es, EventTs);
    var rest := RemoveAt(es, i);
    OldestStep(es, EventTs, k);
    EvictEvent(es, i, TakeOldest(rest, EventTs, k - 1), DropOldest(rest, EventTs, k - 1));
  }

  lemma {:induction false} EvictsNoEvent(es: seq<Event>, k: nat)
    requires k == 0 || es == []
    ensures multiset(EventOccs(es)) == multiset(EventOccs(TakeOldest(es, EventTs, k)))
                                     + multiset(EventOccs(DropOldest(es, EventTs, k)))
  {
    assert EventOccs([]) == [];
  }

  lemma {:induction false} EvictEvents(es: seq<Event>, k: nat)
    ensures multiset(EventOccs(es)) == multiset(EventOccs(TakeOldest(es, EventTs, k)))
                                     + multiset(EventOccs(DropOldest(es, EventTs, k)))
    decreases k
  {
    hide *;
    if k == 0 || es == [] {
      EvictsNoEvent(es, k);
    } else {
      EvictEvents(RemoveAt(es, ArgMin(es, EventTs)), k - 1);
      EvictEventsStep(es, k);
    }
  }
}
