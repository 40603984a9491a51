/**
 * The diagnostics retention ladder as functions over its tables.
 *
 * Detail events fold into hour buckets, hour buckets into day buckets, day
 * buckets are dropped; three row caps evict what is oldest.  The store never
 * forgets silently: whatever leaves the tables raises `floor`, and a query
 * reaching below it refuses to answer.
 *
 * Tables are sequences in rowid order.  The clock is a parameter, read once
 * per operation.
 */
module DiagnosticModel {
  import opened Prelude

  type Cause = string

  type pos = n: nat | 0 < n witness 1

  const HOUR := 3_600_000
  const DAY := 86_400_000
  const MAX_FANOUT := 256

  /** The member column of an event that concerns nobody in particular. */
  const UNATTRIBUTED := ""

  const OVERFLOW: Cause := "retention.overflow"
  const FANOUT_TRUNCATED: Cause := "retention.fanout_truncated"
  const UNAVAILABLE: Cause := "retention.unavailable"

  /** The causes whose policy is `incident`; every other cause is a `point`. */
  const INCIDENTS: set<Cause> := {
    "correlator.body_ref_unreadable", "correlator.raw_capture_failed",
    "otlp.logs_store_failed", "otlp.genai_ingest_failed", "otlp.metrics_store_failed",
    "codex.genai_ingest_entry_failed", "activity.append_failed", "toolinvoke.audit_append_failed"
  }

  datatype Config = Config(
    detailMs: int, hourMs: int, dayMs: int,
    maxDetailRows: nat, maxBucketRows: nat, maxStateRows: nat)

  datatype Event = Event(cause: Cause, member: string, ts: int)
  datatype Resolution = Hour | Day
  datatype Bucket = Bucket(
    cause: Cause, member: string, start: int, end: int, res: Resolution,
    n: nat, first: int, last: int)
  datatype Unresolved = Unresolved(cause: Cause, member: string, since: int)

  datatype State = State(
    events: seq<Event>,
    buckets: seq<Bucket>,
    unresolved: seq<Unresolved>,
    floor: int,
    overflowLast: int,
    stateEvicted: bool)

  const EMPTY := State([], [], [], 0, 0, false)

  // ---------------------------------------------------------------- buckets

  function HourOf(ts: int): int { ts / HOUR * HOUR }
  function DayOf(ts: int): int { ts / DAY * DAY }

  predicate SameKey(a: Bucket, b: Bucket) {
    a.cause == b.cause && a.member == b.member && a.start == b.start && a.res == b.res
  }

  function Merge(row: Bucket, added: Bucket): Bucket {
    row.(n := row.n + added.n, first := Min(row.first, added.first), last := Max(row.last, added.last))
  }

  /** The upsert: merge into the row with the same primary key, else insert. */
  function FoldBucket(bs: seq<Bucket>, b: Bucket): seq<Bucket> {
    if bs == [] then [b]
    else if SameKey(bs[0], b) then [Merge(bs[0], b)] + bs[1..]
    else [bs[0]] + FoldBucket(bs[1..], b)
  }

  function FoldAll(bs: seq<Bucket>, added: seq<Bucket>): seq<Bucket>
    decreases |added|
  {
    if added == [] then bs else FoldAll(FoldBucket(bs, added[0]), added[1..])
  }

  function HourRow(cause: Cause, member: string, n: nat, ts: int): Bucket {
    Bucket(cause, member, HourOf(ts), HourOf(ts) + HOUR, Hour, n, ts, ts)
  }

  /** What an hour bucket contributes to its day. */
  function DayRow(b: Bucket): Bucket {
    Bucket(b.cause, b.member, DayOf(b.start), DayOf(b.start) + DAY, Day, b.n, b.first, b.last)
  }

  function HourRows(es: seq<Event>): (r: seq<Bucket>)
    ensures |r| == |es|
  {
    if es == [] then [] else [HourRow(es[0].cause, es[0].member, 1, es[0].ts)] + HourRows(es[1..])
  }

  function DayRows(bs: seq<Bucket>): (r: seq<Bucket>)
    ensures |r| == |bs|
  {
    if bs == [] then [] else [DayRow(bs[0])] + DayRows(bs[1..])
  }

  // -------------------------------------------------------------------- caps

  function RaiseFloor(s: State, firstCoveredInstant: int): State {
    if firstCoveredInstant > s.floor then s.(floor := firstCoveredInstant) else s
  }

  /** Overflow goes straight to a bucket, where the detail cap cannot evict it. */
  function RecordOverflow(s: State, t: int): State {
    s.(overflowLast := t, buckets := FoldBucket(s.buckets, HourRow(OVERFLOW, UNATTRIBUTED, 1, t)))
  }

  function EventTs(e: Event): int { e.ts }
  function BucketStart(b: Bucket): int { b.start }
  function BucketEnd(b: Bucket): int { b.end }
  function Since(u: Unresolved): int { u.since }

  function CapDetail(c: Config, s: State, t: int): State {
    if |s.events| <= c.maxDetailRows then s
    else
      var over := |s.events| - c.maxDetailRows;
      var cut := MaxKey(TakeOldest(s.events, EventTs, over), EventTs);
      RecordOverflow(RaiseFloor(s.(events := DropOldest(s.events, EventTs, over)), cut + 1), t)
  }

  /** Evicts one row more than the excess, to make room for its own overflow fact. */
  function CapBucket(c: Config, s: State, t: int): State {
    if |s.buckets| <= c.maxBucketRows then s
    else
      var over := |s.buckets| - c.maxBucketRows + 1;
      var cut := MaxKey(TakeOldest(s.buckets, BucketStart, over), BucketEnd);
      RecordOverflow(RaiseFloor(s.(buckets := DropOldest(s.buckets, BucketStart, over)), cut), t)
  }

  function CapState(c: Config, s: State, t: int): State {
    if |s.unresolved| <= c.maxStateRows then s
    else
      var over := |s.unresolved| - c.maxStateRows;
      RecordOverflow(s.(unresolved := DropOldest(s.unresolved, Since, over)), t).(stateEvicted := true)
  }

  function EnforceCaps(c: Config, s: State, t: int): State {
    CapState(c, CapBucket(c, CapDetail(c, s, t), t), t)
  }

  // ------------------------------------------------------------------ record

  function EventsFor(cause: Cause, members: seq<string>, t: int): (r: seq<Event>)
    ensures |r| == |members|
  {
    if members == [] then [] else [Event(cause, members[0], t)] + EventsFor(cause, members[1..], t)
  }

  /** `INSERT ... ON CONFLICT DO NOTHING`: an incident keeps its first `since`. */
  function Upsert(us: seq<Unresolved>, u: Unresolved): seq<Unresolved> {
    if exists i :: 0 <= i < |us| && us[i].cause == u.cause && us[i].member == u.member then us else us + [u]
  }

  function UpsertAll(us: seq<Unresolved>, cause: Cause, members: seq<string>, t: int): seq<Unresolved>
    decreases |members|
  {
    if members == [] then us
    else UpsertAll(Upsert(us, Unresolved(cause, members[0], t)), cause, members[1..], t)
  }

  function Insert(s: State, t: int, cause: Cause, members: seq<string>): State {
    s.(events := s.events + EventsFor(cause, members, t),
       unresolved := if cause in INCIDENTS then UpsertAll(s.unresolved, cause, members, t) else s.unresolved)
  }

  function ClearState(s: State, cause: Cause, member: string): State {
    s.(unresolved := Filter(s.unresolved, (u: Unresolved) => !(u.cause == cause && u.member == member)))
  }

  function AddFact(s: State, cause: Cause, n: pos, t: int): State {
    s.(buckets := FoldBucket(s.buckets, HourRow(cause, UNATTRIBUTED, n, t)))
  }

  // ------------------------------------------------------------------- sweep

  function FoldDetail(s: State, cut: int): State {
    s.(buckets := FoldAll(s.buckets, HourRows(Filter(s.events, (e: Event) => e.ts < cut))),
       events := Filter(s.events, (e: Event) => !(e.ts < cut)))
  }

  predicate OldHour(b: Bucket, cut: int) { b.res == Hour && b.start < cut }
  predicate OldDay(b: Bucket, cut: int) { b.res == Day && b.start < cut }

  function FoldHours(bs: seq<Bucket>, cut: int): seq<Bucket> {
    var aged := Filter(bs, (b: Bucket) => OldHour(b, cut));
    Filter(FoldAll(bs, DayRows(aged)), (b: Bucket) => !OldHour(b, cut))
  }

  function DropDays(s: State, cut: int): State {
    var aged := Filter(s.buckets, (b: Bucket) => OldDay(b, cut));
    if aged == [] then s
    else RaiseFloor(s.(buckets := Filter(s.buckets, (b: Bucket) => !OldDay(b, cut))), MaxKey(aged, BucketEnd))
  }

  /** The one transaction of `sweep`, before it enforces the caps. */
  function Fold(c: Config, s: State, t: int): State {
    var s1 := FoldDetail(s, t - c.detailMs);
    var s2 := s1.(buckets := FoldHours(s1.buckets, t - c.hourMs));
    DropDays(s2, t - c.dayMs)
  }

  // ------------------------------------------------------------------- query

  /** `member` omitted, `null` (the unattributed rows), or a name. */
  datatype MemberFilter = AnyMember | NoMember | Named(name: string)
  datatype Query = Query(member: MemberFilter, cause: Option<Cause>, from: int, to: int)

  datatype Coverage = Exact | Bucketed | Indeterminate
  datatype AnswerResolution = ByEvent | ByHour | ByDay | NoEvidence
  datatype Answer = Answer(
    from: int, to: int, resolution: AnswerResolution, count: int,
    first: Option<int>, last: Option<int>, coverage: Coverage)

  predicate Matches(q: Query, cause: Cause, member: string) {
    && (match q.member
        case AnyMember => true
        case NoMember => member == UNATTRIBUTED
        case Named(m) => member == m)
    && (q.cause.Some? ==> cause == q.cause.value)
  }

  predicate HitsEvent(q: Query, e: Event) {
    q.from <= e.ts <= q.to && Matches(q, e.cause, e.member)
  }

  predicate Overlaps(q: Query, b: Bucket) { b.start <= q.to && b.end > q.from }

  predicate HitsBucket(q: Query, b: Bucket) { Overlaps(q, b) && Matches(q, b.cause, b.member) }

  predicate IsRefusal(q: Query, b: Bucket) { b.cause == FANOUT_TRUNCATED && Overlaps(q, b) }

  function SumN(bs: seq<Bucket>): nat {
    if bs == [] then 0 else bs[0].n + SumN(bs[1..])
  }

  /** `MIN(key)`, NULL over no rows. */
  function MinOf<T(!new)>(s: seq<T>, key: T -> int): (m: Option<int>)
    ensures m.None? <==> s == []
    ensures m.Some? ==> (forall x :: x in s ==> m.value <= key(x)) && exists x :: x in s && key(x) == m.value
  {
    if s == [] then None
    else
      var rest := MinOf(s[1..], key);
      assert s[0] in s && forall x :: x in s <==> x == s[0] || x in s[1..];
      Some(if rest.Some? then Min(key(s[0]), rest.value) else key(s[0]))
  }

  function MaxOf<T(!new)>(s: seq<T>, key: T -> int): (m: Option<int>)
    ensures m.None? <==> s == []
    ensures m.Some? ==> (forall x :: x in s ==> key(x) <= m.value) && exists x :: x in s && key(x) == m.value
  {
    if s == [] then None else Some(MaxKey(s, key))
  }

  function MinOpt(a: Option<int>, b: Option<int>): Option<int> {
    if a.None? then b else if b.None? then a else Some(Min(a.value, b.value))
  }

  function MaxOpt(a: Option<int>, b: Option<int>): Option<int> {
    if a.None? then b else if b.None? then a else Some(Max(a.value, b.value))
  }

  function FirstTs(b: Bucket): int { b.first }
  function LastTs(b: Bucket): int { b.last }

  function Ask(s: State, q: Query): Answer {
    if q.from < s.floor then Answer(q.from, q.to, NoEvidence, 0, None, None, Indeterminate)
    else
      var es := Filter(s.events, (e: Event) => HitsEvent(q, e));
      var bs := Filter(s.buckets, (b: Bucket) => HitsBucket(q, b));
      var refused := q.member != AnyMember && SumN(Filter(s.buckets, (b: Bucket) => IsRefusal(q, b))) > 0;
      if SumN(bs) == 0 then
        Answer(q.from, q.to, if |es| > 0 then ByEvent else NoEvidence, |es|,
               MinOf(es, EventTs), MaxOf(es, EventTs), if refused then Indeterminate else Exact)
      else
        var lo, hi := MinOf(bs, BucketStart), MaxOf(bs, BucketEnd);
        Answer(Min(q.from, if lo.Some? then lo.value else q.from),
               Max(q.to, if hi.Some? then hi.value else q.to),
               if exists b :: b in bs && b.res == Day then ByDay else ByHour,
               |es| + SumN(bs),
               MinOpt(MinOf(es, EventTs), MinOf(bs, FirstTs)),
               MaxOpt(MaxOf(es, EventTs), MaxOf(bs, LastTs)),
               if refused then Indeterminate else Bucketed)
  }

  // ------------------------------------------------------------------ health

  datatype Health = Healthy | Degraded | Unknown

  function HealthOf(c: Config, s: State, writeFailed: bool, t: int): Health {
    if writeFailed then Unknown
    else if s.stateEvicted then Unknown
    else if s.overflowLast == 0 then Healthy
    else if t - s.overflowLast < c.detailMs then Degraded
    else Healthy
  }

  // -------------------------------------------------------------------- runs

  /**
   * The atomic units of the store's writes.  Every operation is a list of
   * them at one clock reading; a throw leaves the tables after some prefix.
   */
  datatype Unit =
    | InsertUnit(cause: Cause, members: seq<string>)
    | FactUnit(fact: Cause, n: pos)
    | CapDetailUnit
    | CapBucketUnit
    | CapStateUnit
    | FoldUnit
    | ClearUnit(cleared: Cause, member: string)

  datatype Step = Step(t: int, u: Unit)

  function Apply(c: Config, s: State, step: Step): State {
    match step.u
    case InsertUnit(cause, members) => Insert(s, step.t, cause, members)
    case FactUnit(fact, n) => AddFact(s, fact, n, step.t)
    case CapDetailUnit => CapDetail(c, s, step.t)
    case CapBucketUnit => CapBucket(c, s, step.t)
    case CapStateUnit => CapState(c, s, step.t)
    case FoldUnit => Fold(c, s, step.t)
    case ClearUnit(cause, member) => ClearState(s, cause, member)
  }

  function Run(c: Config, s: State, steps: seq<Step>): State
    decreases |steps|
  {
    if steps == [] then s else Run(c, Apply(c, s, steps[0]), steps[1..])
  }

  /** Members actually attributed: none at all once the set exceeds the bound. */
  function Attributed(members: seq<string>): seq<string> {
    if |Dedup(members)| > MAX_FANOUT then [] else Dedup(members)
  }

  const CAPS: seq<Unit> := [CapDetailUnit, CapBucketUnit, CapStateUnit]

  function RecordUnits(cause: Cause, members: seq<string>): seq<Unit> {
    var named := Attributed(members);
    [InsertUnit(cause, if named != [] then named else [UNATTRIBUTED])]
    + (if |Dedup(members)| > MAX_FANOUT then [FactUnit(FANOUT_TRUNCATED, |Dedup(members)|)] else [])
    + CAPS
  }

  /** What an emitter method asks for: record one diagnostic, or note a recovery. */
  datatype Action = Emit(cause: Cause, members: seq<string>) | Recover(recovered: Cause, member: string)

  function UnitsOf(a: Action): seq<Unit> {
    match a
    case Emit(cause, members) => RecordUnits(cause, members)
    case Recover(cause, member) => [ClearUnit(cause, member)]
  }

  const SWEEP: seq<Unit> := [FoldUnit] + CAPS

  function At(t: int, units: seq<Unit>): (r: seq<Step>)
    ensures |r| == |units|
    ensures forall i :: 0 <= i < |r| ==> r[i] == Step(t, units[i])
  {
    seq(|units|, i requires 0 <= i < |units| => Step(t, units[i]))
  }

  function Record(c: Config, s: State, t: int, cause: Cause, members: seq<string>): State {
    Run(c, s, At(t, RecordUnits(cause, members)))
  }

  function Sweep(c: Config, s: State, t: int): State {
    Run(c, s, At(t, SWEEP))
  }
}
