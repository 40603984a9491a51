/** The fixed-window limiter in front of enrollment minting, and the rate it really allows. */
module MintLimiter {
  import opened Prelude

  const ENROLL_MINT_MAX := 10
  const ENROLL_MINT_WINDOW_MS := 3600000

  datatype Bucket = Bucket(count: nat, firstAt: int)

  datatype Verdict = Allowed | Limited(retryAfter: int)

  /** Rounded up to whole seconds. */
  function CeilSeconds(ms: int): int { -((-ms) / 1000) }

  function CheckOf(found: Option<Bucket>, t: int): (Bucket, Verdict) {
    if found.None? || t - found.value.firstAt >= ENROLL_MINT_WINDOW_MS then (Bucket(1, t), Allowed)
    else
      var b := found.value.(count := found.value.count + 1);
      (b, if b.count > ENROLL_MINT_MAX then Limited(CeilSeconds(ENROLL_MINT_WINDOW_MS - (t - b.firstAt))) else Allowed)
  }

  /**
   * A mint passes exactly when its source has no bucket, its window of an hour is over, or
   * fewer than ten are counted in it; every attempt counts, and only a new window moves its
   * start.
   */
  lemma {:induction false} VerdictIs(found: Option<Bucket>, t: int)
    ensures var (b, v), runs := CheckOf(found, t), found.Some? && t - found.value.firstAt < 3600000;
      && (v.Allowed? <==> !runs || found.value.count < 10)
      && (runs ==> b.count == found.value.count + 1 && b.firstAt == found.value.firstAt)
      && (!runs ==> b.count == 1 && b.firstAt == t)
  {
  }

  function Find(buckets: map<string, Bucket>, key: string): Option<Bucket> {
    if key in buckets then Some(buckets[key]) else None
  }

  class Limiter {
    var buckets: map<string, Bucket>

    constructor ()
      ensures buckets == map[]
    {
      buckets := map[];
    }

    /** A refused request counts too, but never moves the window. */
    method CheckMintLimit(key: string, t: int) returns (r: Verdict)
      modifies this
      ensures r == CheckOf(Find(old(buckets), key), t).1
      ensures buckets == old(buckets)[key := CheckOf(Find(old(buckets), key), t).0]
    {
      if key !in buckets || t - buckets[key].firstAt >= ENROLL_MINT_WINDOW_MS {
        buckets := buckets[key := Bucket(1, t)];
        return Allowed;
      }
      var bucket := buckets[key].(count := buckets[key].count + 1);
      buckets := buckets[key := bucket];
      if bucket.count > ENROLL_MINT_MAX {
        return Limited(CeilSeconds(ENROLL_MINT_WINDOW_MS - (t - bucket.firstAt)));
      }
      r := Allowed;
    }
  }

  // ----------------------------------------------------------------------- runs

  datatype Request = Request(key: string, at: int)

  predicate ClockRises(requests: seq<Request>) {
    forall i, j :: 0 <= i <= j < |requests| ==> requests[i].at <= requests[j].at
  }

  function After(buckets: map<string, Bucket>, r: Request): map<string, Bucket> {
    buckets[r.key := CheckOf(Find(buckets, r.key), r.at).0]
  }

  function Run(buckets: map<string, Bucket>, requests: seq<Request>): map<string, Bucket> {
    if requests == [] then buckets
    else After(Run(buckets, requests[..|requests| - 1]), requests[|requests| - 1])
  }

  /** The last request of a run from `buckets` was let through. */
  predicate LastAllowed(buckets: map<string, Bucket>, requests: seq<Request>)
    requires requests != []
  {
    var r := requests[|requests| - 1];
    CheckOf(Find(Run(buckets, requests[..|requests| - 1]), r.key), r.at).1.Allowed?
  }

  predicate InWindow(t: int, from: int) { from <= t < from + ENROLL_MINT_WINDOW_MS }

  /** Accepted mints of one source at times in [from, from + one window). */
  function AcceptedIn(buckets: map<string, Bucket>, requests: seq<Request>, key: string, from: int): nat {
    if requests == [] then 0
    else
      var r := requests[|requests| - 1];
      AcceptedIn(buckets, requests[..|requests| - 1], key, from)
      + One(r.key == key && InWindow(r.at, from) && LastAllowed(buckets, requests))
  }

  function Used(b: Bucket): nat { Min(b.count, ENROLL_MINT_MAX) }

  /**
   * Why 19: a window that opened before the interval has spent at least its first
   * mint outside it, so it brings at most nine in; the next brings ten, and a third
   * cannot start inside the interval.
   */
  ghost predicate RateInv(found: Option<Bucket>, accepted: nat, from: int, now: int) {
    && (now < from ==> accepted == 0)
    && match found
       case None => accepted == 0
       case Some(b) =>
         && b.count >= 1 && b.firstAt <= now
         && (b.firstAt < from ==> accepted <= Used(b) - 1)
         && (InWindow(b.firstAt, from) ==> accepted <= 9 + Used(b))
         && (from + ENROLL_MINT_WINDOW_MS <= b.firstAt ==> accepted <= 19)
  }

  lemma {:induction false} CheckKeepsRate(found: Option<Bucket>, accepted: nat, from: int, now: int, t: int)
    requires RateInv(found, accepted, from, now) && now <= t
    ensures var (b, v) := CheckOf(found, t);
      RateInv(Some(b), accepted + One(InWindow(t, from) && v.Allowed?), from, t)
  {
  }

  lemma {:induction false} RunKeepsRate(requests: seq<Request>, key: string, from: int, now: int)
    requires ClockRises(requests) && (requests != [] ==> requests[|requests| - 1].at <= now)
    ensures RateInv(Find(Run(map[], requests), key), AcceptedIn(map[], requests, key, from), from, now)
  {
    hide CheckOf;
    if requests == [] {
    } else {
      var init, r := requests[..|requests| - 1], requests[|requests| - 1];
      assert forall i :: 0 <= i < |init| ==> init[i] == requests[i] && requests[i].at <= r.at;
      RunKeepsRate(init, key, from, r.at);
      CheckKeepsRate(Find(Run(map[], init), key), AcceptedIn(map[], init, key, from), from, r.at, r.at);
    }
  }

  /** With a clock that never goes back, no window-long interval holds more than 19 accepted mints of a source. */
  lemma {:induction false} RateBound(requests: seq<Request>, key: string, from: int)
    requires ClockRises(requests)
    ensures AcceptedIn(map[], requests, key, from) <= 2 * ENROLL_MINT_MAX - 1
  {
    RunKeepsRate(requests, key, from, if requests == [] then 0 else requests[|requests| - 1].at);
  }

  // ------------------------------------------------------------- the exact maximum

  /** What is left at `from` of a window that opened before it and still runs. */
  function LeftAt(found: Option<Bucket>, from: int): nat {
    if found.Some? && from - found.value.firstAt < ENROLL_MINT_WINDOW_MS then ENROLL_MINT_MAX - Used(found.value) else 0
  }

  /** A bucket as earlier requests leave it: counted at least once, opened before `from`. */
  predicate Earlier(found: Option<Bucket>, from: int) {
    found.Some? ==> found.value.count >= 1 && found.value.firstAt < from
  }

  /** `left` is what the window running at `from` still had; the interval opens one more at most. */
  ghost predicate RestInv(found0: Option<Bucket>, found: Option<Bucket>, accepted: nat, from: int) {
    var left := LeftAt(found0, from);
    match found
    case None => found0.None? && accepted == 0
    case Some(b) =>
      if b.firstAt < from then
        && found0.Some? && b.firstAt == found0.value.firstAt && b.count >= found0.value.count
        && (from - b.firstAt < ENROLL_MINT_WINDOW_MS ==> accepted <= Used(b) - Used(found0.value))
        && (from - b.firstAt >= ENROLL_MINT_WINDOW_MS ==> accepted == 0)
      else
        && b.count >= 1
        && accepted <= left + if InWindow(b.firstAt, from) then Used(b) else ENROLL_MINT_MAX
  }

  lemma {:induction false} CheckKeepsRest(found0: Option<Bucket>, found: Option<Bucket>, accepted: nat, from: int,
      t: int)
    requires Earlier(found0, from) && RestInv(found0, found, accepted, from) && t >= from
    requires found.Some? ==> found.value.firstAt <= t
    ensures var (b, v) := CheckOf(found, t);
      b.firstAt <= t && RestInv(found0, Some(b), accepted + One(InWindow(t, from) && v.Allowed?), from)
  {
  }

  lemma {:induction false} RunKeepsRest(buckets: map<string, Bucket>, requests: seq<Request>, key: string, from: int,
      now: int)
    requires Earlier(Find(buckets, key), from) && ClockRises(requests) && from <= now
    requires forall i :: 0 <= i < |requests| ==> from <= requests[i].at <= now
    ensures var found := Find(Run(buckets, requests), key);
      && RestInv(Find(buckets, key), found, AcceptedIn(buckets, requests, key, from), from)
      && (found.Some? ==> found.value.firstAt <= now)
  {
    hide CheckOf;
    if requests == [] {
    } else {
      var init, r := requests[..|requests| - 1], requests[|requests| - 1];
      assert forall i :: 0 <= i < |init| ==> init[i] == requests[i] && requests[i].at <= r.at;
      RunKeepsRest(buckets, init, key, from, r.at);
      CheckKeepsRest(Find(buckets, key), Find(Run(buckets, init), key), AcceptedIn(buckets, init, key, from), from,
          r.at);
    }
  }

  /**
   * From any bucket left by earlier requests, the accepted mints of the next window's
   * length are at most ten and what is left of a window still running.  So the limit
   * slides exactly from an absent, lapsed or used-up bucket.
   */
  lemma {:induction false} RateFromBucket(buckets: map<string, Bucket>, requests: seq<Request>, key: string,
      from: int)
    requires Earlier(Find(buckets, key), from) && ClockRises(requests)
    requires forall i :: 0 <= i < |requests| ==> from <= requests[i].at
    ensures AcceptedIn(buckets, requests, key, from) <= ENROLL_MINT_MAX + LeftAt(Find(buckets, key), from)
  {
    var now := if requests == [] then from else requests[|requests| - 1].at;
    RunKeepsRest(buckets, requests, key, from, now);
  }

  // ------------------------------------------------------------------- tightness

  /** `n` requests of one source at one time. */
  function Burst(key: string, t: int, n: nat): seq<Request> {
    if n == 0 then [] else Burst(key, t, n - 1) + [Request(key, t)]
  }

  /** One more request. */
  lemma {:induction false} RunSnoc(buckets: map<string, Bucket>, before: seq<Request>, r: Request, from: int)
    ensures Run(buckets, before + [r]) == After(Run(buckets, before), r)
    ensures var allowed := CheckOf(Find(Run(buckets, before), r.key), r.at).1.Allowed?;
      AcceptedIn(buckets, before + [r], r.key, from)
      == AcceptedIn(buckets, before, r.key, from) + One(InWindow(r.at, from) && allowed)
  {
    assert (before + [r])[..|before|] == before;
  }

  /** A burst inside a bucket's window is accepted up to the maximum. */
  lemma {:induction false} BurstAccepted(buckets: map<string, Bucket>, before: seq<Request>, key: string, t: int,
      n: nat, from: int, b: Bucket)
    requires Find(Run(buckets, before), key) == Some(b) && b.count + n <= ENROLL_MINT_MAX
    requires t - b.firstAt < ENROLL_MINT_WINDOW_MS
    ensures Find(Run(buckets, before + Burst(key, t, n)), key) == Some(Bucket(b.count + n, b.firstAt))
    ensures AcceptedIn(buckets, before + Burst(key, t, n), key, from)
         == AcceptedIn(buckets, before, key, from) + if InWindow(t, from) then n else 0
  {
    hide Run, AcceptedIn;
    if n == 0 {
      assert before + Burst(key, t, 0) == before;
    } else {
      var init := before + Burst(key, t, n - 1);
      BurstAccepted(buckets, before, key, t, n - 1, from, b);
      assert before + Burst(key, t, n) == init + [Request(key, t)];
      RunSnoc(buckets, init, Request(key, t), from);
    }
  }

  /** A burst of ten where no window runs opens one and is accepted whole. */
  lemma {:induction false} FreshBurst(buckets: map<string, Bucket>, before: seq<Request>, key: string, t: int,
      from: int)
    requires InWindow(t, from)
    requires var found := Find(Run(buckets, before), key);
      found.Some? ==> t - found.value.firstAt >= ENROLL_MINT_WINDOW_MS
    ensures AcceptedIn(buckets, before + Burst(key, t, 10), key, from) == AcceptedIn(buckets, before, key, from) + 10
  {
    var one := before + [Request(key, t)];
    RunSnoc(buckets, before, Request(key, t), from);
    assert Find(Run(buckets, one), key) == Some(Bucket(1, t));
    BurstOpens(key, t, 9);
    hide *;
    BurstAccepted(buckets, one, key, t, 9, from, Bucket(1, t));
    assert before + Burst(key, t, 10) == one + Burst(key, t, 9);
  }

  lemma {:induction false} BurstOpens(key: string, t: int, n: nat)
    ensures Burst(key, t, n + 1) == [Request(key, t)] + Burst(key, t, n)
  {
    if n == 0 {
    } else {
      BurstOpens(key, t, n - 1);
    }
  }

  /** What is left of the running window at `from`, then ten as soon as it lapses. */
  function MostRequests(found: Option<Bucket>, key: string, from: int): seq<Request> {
    if found.Some? && from - found.value.firstAt < ENROLL_MINT_WINDOW_MS then
      Burst(key, from, LeftAt(found, from)) + Burst(key, found.value.firstAt + ENROLL_MINT_WINDOW_MS, 10)
    else Burst(key, from, 10)
  }

  /** That bound is reached from every such bucket. */
  lemma {:induction false} RateFromBucketReached(buckets: map<string, Bucket>, key: string, from: int)
    requires Earlier(Find(buckets, key), from)
    ensures var found := Find(buckets, key);
      var requests := MostRequests(found, key, from);
      && ClockRises(requests) && (forall i :: 0 <= i < |requests| ==> from <= requests[i].at)
      && AcceptedIn(buckets, requests, key, from) == ENROLL_MINT_MAX + LeftAt(found, from)
  {
    var found := Find(buckets, key);
    assert Run(buckets, []) == buckets && AcceptedIn(buckets, [], key, from) == 0;
    TwoBurstsRise(key, from, 0, from, 10);
    assert Burst(key, from, 0) == [] && [] + Burst(key, from, 10) == Burst(key, from, 10);
    hide Run, AcceptedIn, Burst, Find, ClockRises;
    if found.Some? && from - found.value.firstAt < ENROLL_MINT_WINDOW_MS {
      RunningReached(buckets, key, from, found.value);
    } else {
      FreshBurst(buckets, [], key, from, from);
    }
  }

  lemma {:induction false} TwoBurstsRise(key: string, t1: int, n1: nat, t2: int, n2: nat)
    requires t1 <= t2
    ensures var requests := Burst(key, t1, n1) + Burst(key, t2, n2);
      ClockRises(requests) && forall i :: 0 <= i < |requests| ==> t1 <= requests[i].at
  {
    hide Burst;
    BurstAt(key, t1, n1);
    BurstAt(key, t2, n2);
    var requests := Burst(key, t1, n1) + Burst(key, t2, n2);
    assert forall i :: 0 <= i < |requests| ==> requests[i].at == if i < n1 then t1 else t2;
  }

  lemma {:induction false} RunningReached(buckets: map<string, Bucket>, key: string, from: int, b: Bucket)
    requires Find(buckets, key) == Some(b) && b.count >= 1 && b.firstAt < from < b.firstAt + ENROLL_MINT_WINDOW_MS
    ensures var requests := MostRequests(Some(b), key, from);
      && ClockRises(requests) && (forall i :: 0 <= i < |requests| ==> from <= requests[i].at)
      && AcceptedIn(buckets, requests, key, from) == ENROLL_MINT_MAX + LeftAt(Some(b), from)
  {
    var left, lapse := LeftAt(Some(b), from), b.firstAt + ENROLL_MINT_WINDOW_MS;
    var first := Burst(key, from, left);
    assert Run(buckets, []) == buckets && AcceptedIn(buckets, [], key, from) == 0;
    assert Find(Run(buckets, []), key) == Some(b) && (left > 0 ==> b.count + left <= ENROLL_MINT_MAX);
    assert left == 0 ==> first == [];
    assert MostRequests(Some(b), key, from) == first + Burst(key, lapse, 10);
    assert InWindow(from, from) && InWindow(lapse, from);
    TwoBurstsRise(key, from, left, lapse, 10);
    hide *;
    assert [] + first == first;
    if left > 0 {
      BurstAccepted(buckets, [], key, from, left, from, b);
    }
    FreshBurst(buckets, first, key, lapse, from);
  }

  const W := ENROLL_MINT_WINDOW_MS

  /** One mint, nine just before its window ends, ten just after. */
  function WorstCase(key: string): seq<Request> {
    [Request(key, 0)] + Burst(key, W - 1, 9) + [Request(key, W)] + Burst(key, W, 9)
  }

  lemma {:induction false} WorstCaseRises(key: string)
    ensures ClockRises(WorstCase(key))
  {
    var all := WorstCase(key);
    BurstAt(key, W - 1, 9);
    BurstAt(key, W, 9);
    hide Burst;
    assert forall i :: 0 <= i < |all| ==> all[i].at == if i == 0 then 0 else if i < 10 then W - 1 else W;
  }

  /** The bound is reached. */
  lemma {:induction false} RateBoundIsTight(key: string)
    ensures ClockRises(WorstCase(key)) && AcceptedIn(map[], WorstCase(key), key, W - 1) == 2 * ENROLL_MINT_MAX - 1
  {
    WorstCaseRises(key);
    var one := [Request(key, 0)];
    var late := one + Burst(key, W - 1, 9);
    var next := late + [Request(key, W)];
    assert [] + one == one && Run(map[], []) == map[] && AcceptedIn(map[], [], key, W - 1) == 0;
    hide Run, AcceptedIn, Burst, ClockRises;
    RunSnoc(map[], [], Request(key, 0), W - 1);
    BurstAccepted(map[], one, key, W - 1, 9, W - 1, Bucket(1, 0));
    RunSnoc(map[], late, Request(key, W), W - 1);
    assert Find(Run(map[], next), key) == Some(Bucket(1, W));
    BurstAccepted(map[], next, key, W, 9, W - 1, Bucket(1, W));
    assert WorstCase(key) == next + Burst(key, W, 9);
  }

  lemma {:induction false} BurstAt(key: string, t: int, n: nat)
    ensures |Burst(key, t, n)| == n
    ensures forall i :: 0 <= i < n ==> Burst(key, t, n)[i] == Request(key, t)
  {
    if n == 0 {
    } else {
      BurstAt(key, t, n - 1);
    }
  }

  /** Waiting out the reported seconds is enough, and one second less never is. */
  lemma {:induction false} RetryAfterIsExact(b: Bucket, t: int, later: int)
    requires CheckOf(Some(b), t).1.Limited? && b.firstAt <= t
    ensures var wait := CheckOf(Some(b), t).1.retryAfter;
      && 1 <= wait <= ENROLL_MINT_WINDOW_MS / 1000
      && (later >= t + 1000 * wait ==> CheckOf(Some(CheckOf(Some(b), t).0), later).1.Allowed?)
      && (t <= later <= t + 1000 * (wait - 1) ==> CheckOf(Some(CheckOf(Some(b), t).0), later).1.Limited?)
  {
    var x := ENROLL_MINT_WINDOW_MS - (t - b.firstAt);
    assert 0 < x <= ENROLL_MINT_WINDOW_MS;
    CeilIs(x);
    hide CeilSeconds;
  }

  lemma {:induction false} CeilIs(ms: int)
    ensures 1000 * (CeilSeconds(ms) - 1) < ms <= 1000 * CeilSeconds(ms)
  {
  }
}
