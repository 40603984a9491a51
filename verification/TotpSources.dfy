/**
 * What one source can spend of the bucket every codeless sign-in shares: within any
 * window's length at most nine wrong codes, as long as its own bucket is neither
 * cleared by a success nor evicted, and only through codeless sign-ins.
 */
module TotpSources {
  import opened Prelude
  import opened OrderedMap
  import opened TotpLockout
  import opened TotpVerdicts

  function KeyOf(source: string): string { CODELESS_SOURCE_LOCKOUT_PREFIX + source }

  lemma {:induction false} SourceMax(source: string)
    ensures MaxFailuresFor(KeyOf(source)) == 5 && KeyOf(source) != CODELESS_LOCKOUT_KEY
  {
    assert KeyOf(source)[0] == 'c' && CODELESS_LOCKOUT_KEY[0] == '_';
    assert KeyOf(source)[..|CODELESS_SOURCE_LOCKOUT_PREFIX|] == CODELESS_SOURCE_LOCKOUT_PREFIX;
  }

  /** A wrong code of a codeless sign-in from this source: it costs the shared bucket one failure. */
  predicate Charges(m: Buckets, a: Attempt, source: string) {
    a.member.None? && a.source == source && LoginOf(m, a).1.InvalidCode?
  }

  /** A success that removes the source's bucket. */
  predicate Clears(m: Buckets, a: Attempt, source: string) {
    && LoginOf(m, a).1.SignedIn?
    && (LockoutKey(a) == KeyOf(source)
        || (a.member.None? && (SourceKey(a) == KeyOf(source) || a.matched == Some(KeyOf(source)))))
  }

  predicate Within(t: int, from: int) { from <= t < from + TOTP_LOCKOUT_WINDOW_MS }

  /** Every reading of the clock in one window's length, the map short of full, the source not cleared. */
  predicate Calm(m: Buckets, a: Attempt, source: string, from: int) {
    && Within(a.sourceCheckAt, from) && Within(a.checkAt, from)
    && Within(a.recordAt, from) && Within(a.sourceRecordAt, from)
    && |m| < TOTP_LOCKOUT_MAX_BUCKETS
    && !Clears(m, a, source)
  }

  predicate CalmRun(m: Buckets, attempts: seq<Attempt>, source: string, from: int)
    decreases |attempts|
  {
    || attempts == []
    || (Calm(m, attempts[0], source, from) && CalmRun(LoginOf(m, attempts[0]).0, attempts[1..], source, from))
  }

  /** Wrong codes the source spends over a run. */
  function Spent(m: Buckets, attempts: seq<Attempt>, source: string): nat
    decreases |attempts|
  {
    if attempts == [] then 0
    else One(Charges(m, attempts[0], source)) + Spent(LoginOf(m, attempts[0]).0, attempts[1..], source)
  }

  /** What is left to spend: a bucket opened before the interval may still lapse once inside it. */
  function Left(m: Buckets, key: string, from: int): int {
    var b := Get(m, key);
    if b.None? then 5
    else if b.value.firstFailureAt < from then 10 - b.value.failures
    else 5 - b.value.failures
  }

  lemma {:induction false} LeftBounds(m: Buckets, source: string, from: int)
    requires Bounded(m)
    ensures 0 <= Left(m, KeyOf(source), from) <= 9
    ensures Get(m, KeyOf(source)).None? ==> Left(m, KeyOf(source), from) == 5
  {
    SourceMax(source);
    GetIn(m, KeyOf(source));
    hide Get, UniqueKeys, MaxFailuresFor;
  }

  lemma {:induction false} CheckLeft(m: Buckets, k: string, t: int, key: string, from: int)
    requires UniqueKeys(m) && Within(t, from)
    requires Get(m, key).Some? ==> Get(m, key).value.failures <= 5
    ensures Left(CheckOf(m, k, t).0, key, from) <= Left(m, key, from)
    ensures Get(CheckOf(m, k, t).0, key).Some? ==> Get(CheckOf(m, k, t).0, key).value.failures <= 5
  {
    GetDelete(m, k, key);
    hide Get, Delete, UniqueKeys, MaxFailuresFor;
  }

  lemma {:induction false} DeleteLeft(m: Buckets, k: string, key: string, from: int)
    requires UniqueKeys(m) && k != key
    ensures Left(Delete(m, k), key, from) == Left(m, key, from)
  {
    GetDelete(m, k, key);
    hide Get, Delete, UniqueKeys;
  }

  /** A prune of a map within the cap only drops buckets that are over. */
  lemma {:induction false} PruneGet(m: Buckets, t: int, key: string)
    requires UniqueKeys(m) && |m| <= TOTP_LOCKOUT_MAX_BUCKETS
    ensures Get(PruneOf(m, t), key)
         == if Get(m, key).Some? && !Over(Get(m, key).value, t) then Get(m, key) else None
  {
    GetFilter(m, (e: Entry<string, Bucket>) => !Over(e.value, t), key);
  }

  lemma {:induction false} RecordLeft(m: Buckets, k: string, t: int, key: string, from: int)
    requires UniqueKeys(m) && |m| <= TOTP_LOCKOUT_MAX_BUCKETS && Within(t, from)
    requires Get(m, key).Some? ==> Get(m, key).value.failures <= 5
    ensures Left(RecordOf(m, k, t), key, from) + One(k == key) <= Left(m, key, from)
    ensures |RecordOf(m, k, t)| <= |m| + 1
  {
    PruneGet(m, t, key);
    PruneSmaller(m, t);
    var base := if |m| >= TOTP_LOCKOUT_MAX_BUCKETS then PruneOf(m, t) else m;
    GetPut(base, k, Bucket(1, t), key);
    if Get(m, k).Some? {
      GetPut(m, k, Get(m, k).value.(failures := Get(m, k).value.failures + 1), key);
    }
    hide Get, Put, PruneOf, UniqueKeys;
  }

  lemma {:induction false} PruneSmaller(m: Buckets, t: int)
    ensures |PruneOf(m, t)| <= |m|
  {
  }

  /** One sign-in spends at most what is left. */
  lemma {:induction false} AttemptSpends(m: Buckets, a: Attempt, source: string, from: int)
    requires Bounded(m) && Calm(m, a, source, from)
    ensures Bounded(LoginOf(m, a).0)
    ensures Left(LoginOf(m, a).0, KeyOf(source), from) + One(Charges(m, a, source)) <= Left(m, KeyOf(source), from)
  {
    LoginBounded(m, a);
    FewFailures(m, source);
    if a.member.None? {
      CodelessSpends(m, a, source, from);
    } else {
      TargetedSpends(m, a, source, from);
    }
  }

  lemma {:induction false} FewFailures(m: Buckets, source: string)
    requires Bounded(m)
    ensures UniqueKeys(m) && (Get(m, KeyOf(source)).Some? ==> Get(m, KeyOf(source)).value.failures <= 5)
  {
    SourceMax(source);
    GetIn(m, KeyOf(source));
    hide Get, MaxFailuresFor;
  }

  lemma {:induction false} TargetedSpends(m: Buckets, a: Attempt, source: string, from: int)
    requires UniqueKeys(m) && a.member.Some? && Calm(m, a, source, from)
    requires Get(m, KeyOf(source)).Some? ==> Get(m, KeyOf(source)).value.failures <= 5
    ensures Left(LoginOf(m, a).0, KeyOf(source), from) <= Left(m, KeyOf(source), from)
  {
    hide Get, UniqueKeys, CheckOf, RecordOf, Left, KeyOf, Delete;
    var key, k := KeyOf(source), LockoutKey(a);
    CheckLeft(m, k, a.checkAt, key, from);
    CheckKeeps(m, k, a.checkAt);
    var m2 := CheckOf(m, k, a.checkAt).0;
    if a.matched.None? {
      RecordLeft(m2, k, a.recordAt, key, from);
    } else if k != key {
      DeleteLeft(m2, k, key, from);
    }
  }

  lemma {:induction false} CodelessSpends(m: Buckets, a: Attempt, source: string, from: int)
    requires UniqueKeys(m) && a.member.None? && Calm(m, a, source, from)
    requires Get(m, KeyOf(source)).Some? ==> Get(m, KeyOf(source)).value.failures <= 5
    ensures Left(LoginOf(m, a).0, KeyOf(source), from) + One(Charges(m, a, source)) <= Left(m, KeyOf(source), from)
  {
    SourceMax(source);
    SameSource(a, source);
    hide Get, UniqueKeys, CheckOf, RecordOf, Left, KeyOf, SourceKey, Delete, MaxFailuresFor;
    var key, own := KeyOf(source), SourceKey(a);
    CheckLeft(m, own, a.sourceCheckAt, key, from);
    CheckKeeps(m, own, a.sourceCheckAt);
    var (m1, sourceLock) := CheckOf(m, own, a.sourceCheckAt);
    CheckLeft(m1, CODELESS_LOCKOUT_KEY, a.checkAt, key, from);
    CheckKeeps(m1, CODELESS_LOCKOUT_KEY, a.checkAt);
    var (m2, lock) := CheckOf(m1, CODELESS_LOCKOUT_KEY, a.checkAt);
    if sourceLock.Open? && lock.Open? {
      if a.matched.None? {
        BothRecorded(m2, own, a.recordAt, a.sourceRecordAt, key, from);
      } else {
        ClearedLeft(m2, own, a.matched.value, key, from);
      }
    }
  }

  lemma {:induction false} SameSource(a: Attempt, source: string)
    ensures a.source == source <==> SourceKey(a) == KeyOf(source)
  {
    assert KeyOf(source)[|CODELESS_SOURCE_LOCKOUT_PREFIX|..] == source;
    assert SourceKey(a)[|CODELESS_SOURCE_LOCKOUT_PREFIX|..] == a.source;
  }

  lemma {:induction false} BothRecorded(m: Buckets, own: string, t1: int, t2: int, key: string, from: int)
    requires UniqueKeys(m) && |m| < TOTP_LOCKOUT_MAX_BUCKETS && key != CODELESS_LOCKOUT_KEY
    requires Within(t1, from) && Within(t2, from)
    requires Get(m, key).Some? ==> Get(m, key).value.failures <= 5
    ensures var m3 := RecordOf(m, CODELESS_LOCKOUT_KEY, t1);
      Left(RecordOf(m3, own, t2), key, from) + One(own == key) <= Left(m, key, from)
  {
    var m3 := RecordOf(m, CODELESS_LOCKOUT_KEY, t1);
    RecordKeeps(m, CODELESS_LOCKOUT_KEY, t1);
    GetPut(m, CODELESS_LOCKOUT_KEY, Bucket(1, t1), key);
    if Get(m, CODELESS_LOCKOUT_KEY).Some? {
      var b := Get(m, CODELESS_LOCKOUT_KEY).value;
      GetPut(m, CODELESS_LOCKOUT_KEY, b.(failures := b.failures + 1), key);
    }
    assert Get(m3, key) == Get(m, key);
    hide Get, UniqueKeys, RecordOf;
    RecordLeft(m, CODELESS_LOCKOUT_KEY, t1, key, from);
    RecordLeft(m3, own, t2, key, from);
  }

  lemma {:induction false} ClearedLeft(m: Buckets, own: string, name: string, key: string, from: int)
    requires UniqueKeys(m) && key != CODELESS_LOCKOUT_KEY && own != key && name != key
    ensures Left(Delete(Delete(Delete(m, CODELESS_LOCKOUT_KEY), own), name), key, from) == Left(m, key, from)
  {
    hide UniqueKeys, Delete, Left;
    var m1 := Delete(m, CODELESS_LOCKOUT_KEY);
    DeleteKeys(m, CODELESS_LOCKOUT_KEY);
    DeleteLeft(m, CODELESS_LOCKOUT_KEY, key, from);
    DeleteKeys(m1, own);
    DeleteLeft(m1, own, key, from);
    DeleteLeft(Delete(m1, own), name, key, from);
  }

  lemma {:induction false} RunSpends(m: Buckets, attempts: seq<Attempt>, source: string, from: int)
    requires Bounded(m) && CalmRun(m, attempts, source, from)
    ensures Spent(m, attempts, source) <= Left(m, KeyOf(source), from)
    decreases |attempts|
  {
    hide Bounded, LoginOf, Left, Calm, Charges;
    if attempts == [] {
      LeftBounds(m, source, from);
    } else {
      AttemptSpends(m, attempts[0], source, from);
      RunSpends(LoginOf(m, attempts[0]).0, attempts[1..], source, from);
    }
  }

  /**
   * Over any run whose clock readings fit in one window's length, a source spends at most
   * nine failures of the shared bucket, and at most five if it comes without a bucket.
   */
  lemma {:induction false} SourceSpendsAtMost(m: Buckets, attempts: seq<Attempt>, source: string, from: int)
    requires Bounded(m) && CalmRun(m, attempts, source, from)
    ensures Spent(m, attempts, source) <= 9
    ensures Get(m, KeyOf(source)).None? ==> Spent(m, attempts, source) <= 5
  {
    RunSpends(m, attempts, source, from);
    LeftBounds(m, source, from);
  }

  // Both bounds are reached by one source's wrong codes.

  function Guess(source: string, t: int): Attempt { Attempt(None, source, None, t, t, t, t) }

  function Guesses(source: string, t: int, n: nat): seq<Attempt> { seq(n, _ => Guess(source, t)) }

  /** The shared bucket and the source's own, `k` failures into one window. */
  function BothAt(source: string, k: nat, t: int): Buckets {
    [Entry(CODELESS_LOCKOUT_KEY, Bucket(k, t)), Entry(KeyOf(source), Bucket(k, t))]
  }

  lemma {:induction false} BothGet(source: string, k: nat, t: int)
    ensures var m := BothAt(source, k, t);
      && Get(m, CODELESS_LOCKOUT_KEY) == Some(Bucket(k, t)) && Get(m, KeyOf(source)) == Some(Bucket(k, t))
      && m[1..] == [Entry(KeyOf(source), Bucket(k, t))] && m[1..][1..] == []
  {
    SourceMax(source);
    var own := [Entry(KeyOf(source), Bucket(k, t))];
    assert BothAt(source, k, t)[1..] == own && Get(own, KeyOf(source)) == Some(Bucket(k, t)) && own[1..] == [];
  }

  /** A guess in an empty map opens both windows. */
  lemma {:induction false} FirstGuess(source: string, t: int)
    ensures LoginOf([], Guess(source, t)) == (BothAt(source, 1, t), InvalidCode)
  {
    SourceMax(source);
    hide MaxFailuresFor, KeyOf;
    assert SourceKey(Guess(source, t)) == KeyOf(source) by { SameSource(Guess(source, t), source); }
    var one := [Entry(CODELESS_LOCKOUT_KEY, Bucket(1, t))];
    assert one[1..] == [] && Get(one, KeyOf(source)).None?;
    assert Put(one, KeyOf(source), Bucket(1, t)) == BothAt(source, 1, t);
  }

  /** A guess in running windows adds one failure to each, until the source's own is full. */
  lemma {:induction false} NextGuess(source: string, k: nat, t0: int, t: int)
    requires 1 <= k < 5 && t - t0 < TOTP_LOCKOUT_WINDOW_MS
    ensures LoginOf(BothAt(source, k, t0), Guess(source, t)) == (BothAt(source, k + 1, t0), InvalidCode)
  {
    SourceMax(source);
    BothGet(source, k, t0);
    assert SourceKey(Guess(source, t)) == KeyOf(source) by { SameSource(Guess(source, t), source); }
    assert MaxFailuresFor(CODELESS_LOCKOUT_KEY) == 40;
    var m, b := BothAt(source, k, t0), Bucket(k + 1, t0);
    var m1 := [Entry(CODELESS_LOCKOUT_KEY, b)] + m[1..];
    assert Put(m, CODELESS_LOCKOUT_KEY, b) == m1;
    assert m1[1..] == m[1..] && Get(m1, KeyOf(source)) == Get(m1[1..], KeyOf(source)) == Some(Bucket(k, t0));
    assert Put(m1[1..], KeyOf(source), b) == [Entry(KeyOf(source), b)];
    assert Put(m1, KeyOf(source), b) == BothAt(source, k + 1, t0);
    hide MaxFailuresFor, KeyOf, Get, Put, BothAt;
  }

  /** A guess once the windows have lapsed finds nothing and opens both again. */
  lemma {:induction false} LapsedGuess(source: string, k: nat, t0: int, t: int)
    requires t - t0 >= TOTP_LOCKOUT_WINDOW_MS
    ensures LoginOf(BothAt(source, k, t0), Guess(source, t)) == (BothAt(source, 1, t), InvalidCode)
  {
    SourceMax(source);
    BothGet(source, k, t0);
    FirstGuess(source, t);
    assert SourceKey(Guess(source, t)) == KeyOf(source) by { SameSource(Guess(source, t), source); }
    var m := BothAt(source, k, t0);
    assert Delete(m, KeyOf(source)) == [m[0]];
    assert Delete([m[0]], CODELESS_LOCKOUT_KEY) == [] && Get([m[0]], CODELESS_LOCKOUT_KEY) == Some(Bucket(k, t0));
    var none: Buckets := [];
    assert Get(none, KeyOf(source)) == None && Get(none, CODELESS_LOCKOUT_KEY) == None;
    assert CheckOf(m, KeyOf(source), t) == ([m[0]], Open) && CheckOf([m[0]], CODELESS_LOCKOUT_KEY, t) == ([], Open);
    hide MaxFailuresFor, KeyOf, Get, Put, BothAt, Delete, RecordOf;
  }

  /** A calm attempt that spends one, and what follows it. */
  lemma {:induction false} OneSpent(m: Buckets, source: string, t: int, rest: seq<Attempt>, from: int)
    requires |m| <= 2 && Within(t, from) && LoginOf(m, Guess(source, t)).1.InvalidCode?
    ensures var m' := LoginOf(m, Guess(source, t)).0;
      && Spent(m, [Guess(source, t)] + rest, source) == 1 + Spent(m', rest, source)
      && (CalmRun(m, [Guess(source, t)] + rest, source, from) <==> CalmRun(m', rest, source, from))
  {
    var attempts := [Guess(source, t)] + rest;
    assert attempts[0] == Guess(source, t) && attempts[1..] == rest;
    hide LoginOf;
  }

  lemma {:induction false} BothSize(source: string, k: nat, t: int)
    ensures |BothAt(source, k, t)| == 2
  {
  }

  lemma {:induction false} NoGuess(source: string, t: int, rest: seq<Attempt>)
    ensures Guesses(source, t, 0) + rest == rest
  {
  }

  lemma {:induction false} NextOfGuesses(source: string, t: int, n: nat, rest: seq<Attempt>)
    requires n > 0
    ensures Guesses(source, t, n) + rest == [Guess(source, t)] + (Guesses(source, t, n - 1) + rest)
  {
  }

  lemma {:induction false} NothingSpent(m: Buckets, source: string, from: int)
    ensures Spent(m, [], source) == 0 && CalmRun(m, [], source, from)
  {
  }

  /** `n` wrong codes in running windows, and what follows them. */
  lemma {:induction false} GuessesSpent(source: string, k: nat, t0: int, t: int, n: nat, rest: seq<Attempt>, from: int,
      attempts: seq<Attempt>)
    requires 1 <= k && k + n <= 5 && t - t0 < TOTP_LOCKOUT_WINDOW_MS && Within(t, from)
    requires attempts == Guesses(source, t, n) + rest
    ensures Spent(BothAt(source, k, t0), attempts, source) == n + Spent(BothAt(source, k + n, t0), rest, source)
    ensures CalmRun(BothAt(source, k, t0), attempts, source, from)
        <==> CalmRun(BothAt(source, k + n, t0), rest, source, from)
    decreases n
  {
    hide *;
    if n == 0 {
      NoGuess(source, t, rest);
    } else {
      var more := Guesses(source, t, n - 1) + rest;
      BothSize(source, k, t0);
      NextGuess(source, k, t0, t);
      NextOfGuesses(source, t, n, rest);
      OneSpent(BothAt(source, k, t0), source, t, more, from);
      GuessesSpent(source, k + 1, t0, t, n - 1, rest, from, more);
    }
  }

  /** Five are spent from an empty map ... */
  lemma {:induction false} FiveReached(source: string)
    ensures var five := [Guess(source, 0)] + (Guesses(source, 0, 4) + []);
      CalmRun([], five, source, 0) && Spent([], five, source) == 5
  {
    assert Within(0, 0);
    hide *;
    FirstGuess(source, 0);
    OneSpent([], source, 0, Guesses(source, 0, 4) + [], 0);
    GuessesSpent(source, 1, 0, 0, 4, [], 0, Guesses(source, 0, 4) + []);
    NothingSpent(BothAt(source, 5, 0), source, 0);
  }

  /** ... and nine by a source with one failure just before the interval. */
  lemma {:induction false} NineReached(source: string)
    ensures var lapse := TOTP_LOCKOUT_WINDOW_MS;
      var m := LoginOf([], Guess(source, 0)).0;
      var nine := Guesses(source, 1, 4) + ([Guess(source, lapse)] + (Guesses(source, lapse, 4) + []));
      Bounded(m) && CalmRun(m, nine, source, 1) && Spent(m, nine, source) == 9
  {
    var lapse := TOTP_LOCKOUT_WINDOW_MS;
    assert Bounded([]) && Within(1, 1) && Within(lapse, 1);
    hide *;
    LoginBounded([], Guess(source, 0));
    FirstGuess(source, 0);
    var last := Guesses(source, lapse, 4) + [];
    var rest := [Guess(source, lapse)] + last;
    GuessesSpent(source, 1, 0, 1, 4, rest, 1, Guesses(source, 1, 4) + rest);
    LapsedGuess(source, 5, 0, lapse);
    BothSize(source, 5, 0);
    OneSpent(BothAt(source, 5, 0), source, lapse, last, 1);
    GuessesSpent(source, 1, lapse, lapse, 4, [], 1, last);
    NothingSpent(BothAt(source, 5, lapse), source, 1);
  }

  /**
   * A wrong code is charged to the shared bucket exactly when the sign-in is codeless or
   * names the shared key itself, which is a well-formed member name; a named sign-in
   * touches no source's bucket, so that one spelling escapes the bound above.
   */
  lemma {:induction false} SharedBucketChargedIff(m: Buckets, a: Attempt)
    requires UniqueKeys(m) && |m| + 1 < TOTP_LOCKOUT_MAX_BUCKETS && LoginOf(m, a).1.InvalidCode?
    ensures NameOk(CODELESS_LOCKOUT_KEY)
    ensures var b, after := Get(m, CODELESS_LOCKOUT_KEY), Get(LoginOf(m, a).0, CODELESS_LOCKOUT_KEY);
      after == if a.member.None? || a.member == Some(CODELESS_LOCKOUT_KEY) then Some(OneMore(b, a.checkAt, a.recordAt))
               else b
  {
    KeysDiffer(a);
    LoginEffect(m, a, CODELESS_LOCKOUT_KEY);
    hide LoginOf, Get, OneMore, FromKey, UniqueKeys;
  }
}
