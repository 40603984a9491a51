/**
 * The sign-in lockouts: failure buckets per member, per source and for codeless
 * sign-in, and the order in which the login handler checks and records them.
 */
module TotpLockout {
  import opened Prelude
  import opened OrderedMap
  import MintLimiter

  const TOTP_MAX_FAILURES := 5
  const TOTP_LOCKOUT_WINDOW_MS := 900000
  const TOTP_CODELESS_MAX_FAILURES := 40
  const TOTP_CODELESS_PER_SOURCE_MAX_FAILURES := 5
  const CODELESS_LOCKOUT_KEY := "__codeless__"
  const CODELESS_SOURCE_LOCKOUT_PREFIX := "codeless-src:"
  const TOTP_LOCKOUT_MAX_BUCKETS := 10000

  datatype Bucket = Bucket(failures: nat, firstFailureAt: int)

  type Buckets = seq<Entry<string, Bucket>>

  datatype Lock = Open | Locked(retryAfter: int)

  function MaxFailuresFor(key: string): nat {
    if key == CODELESS_LOCKOUT_KEY then TOTP_CODELESS_MAX_FAILURES
    else if CODELESS_SOURCE_LOCKOUT_PREFIX <= key then TOTP_CODELESS_PER_SOURCE_MAX_FAILURES
    else TOTP_MAX_FAILURES
  }

  predicate Over(b: Bucket, t: int) { t - b.firstFailureAt >= TOTP_LOCKOUT_WINDOW_MS }

  function CheckOf(m: Buckets, key: string, t: int): (Buckets, Lock) {
    var found := Get(m, key);
    if found.None? then (m, Open)
    else if Over(found.value, t) then (Delete(m, key), Open)
    else if found.value.failures >= MaxFailuresFor(key) then
      (m, Locked(MintLimiter.CeilSeconds(TOTP_LOCKOUT_WINDOW_MS - (t - found.value.firstFailureAt))))
    else (m, Open)
  }

  function Live(m: Buckets, t: int): Buckets { Filter(m, (e: Entry<string, Bucket>) => !Over(e.value, t)) }

  /** Expired buckets go first; past the cap the oldest go too. */
  function PruneOf(m: Buckets, t: int): Buckets {
    var live := Live(m, t);
    if |live| <= TOTP_LOCKOUT_MAX_BUCKETS then live else live[|live| - TOTP_LOCKOUT_MAX_BUCKETS..]
  }

  function RecordOf(m: Buckets, key: string, t: int): Buckets {
    var found := Get(m, key);
    if found.None? || Over(found.value, t) then
      Put(if |m| >= TOTP_LOCKOUT_MAX_BUCKETS then PruneOf(m, t) else m, key, Bucket(1, t))
    else Put(m, key, found.value.(failures := found.value.failures + 1))
  }

  // ------------------------------------------------------------------------ login

  /** One sign-in: `member` is absent for codeless; `matched` is whom the code verifies as, if anyone. */
  datatype Attempt = Attempt(
    member: Option<string>,
    source: string,
    matched: Option<string>,
    sourceCheckAt: int,
    checkAt: int,
    recordAt: int,
    sourceRecordAt: int)

  datatype Result =
    | TooMany(retryAfter: int)
    | MemberNameRequired(retryAfter: int)
    | InvalidCode
    | SignedIn(name: string)

  function LockoutKey(a: Attempt): string { if a.member.Some? then a.member.value else CODELESS_LOCKOUT_KEY }

  function SourceKey(a: Attempt): string { CODELESS_SOURCE_LOCKOUT_PREFIX + a.source }

  function LoginOf(m: Buckets, a: Attempt): (Buckets, Result) {
    var codeless := a.member.None?;
    var (m1, sourceLock) := if codeless then CheckOf(m, SourceKey(a), a.sourceCheckAt) else (m, Open);
    if sourceLock.Locked? then (m1, TooMany(sourceLock.retryAfter))
    else
      var (m2, lock) := CheckOf(m1, LockoutKey(a), a.checkAt);
      if lock.Locked? then (m2, if codeless then MemberNameRequired(lock.retryAfter) else TooMany(lock.retryAfter))
      else if a.matched.None? then
        var m3 := RecordOf(m2, LockoutKey(a), a.recordAt);
        (if codeless then RecordOf(m3, SourceKey(a), a.sourceRecordAt) else m3, InvalidCode)
      else
        var m3 := Delete(m2, LockoutKey(a));
        (if codeless then Delete(Delete(m3, SourceKey(a)), a.matched.value) else m3, SignedIn(a.matched.value))
  }

  class LoginGuard {
    var lockouts: Buckets

    constructor ()
      ensures lockouts == []
    {
      lockouts := [];
    }

    method CheckTotpLockout(key: string, t: int) returns (r: Lock)
      modifies this
      ensures (lockouts, r) == CheckOf(old(lockouts), key, t)
    {
      var entry := Get(lockouts, key);
      if entry.None? { return Open; }
      var elapsed := t - entry.value.firstFailureAt;
      if elapsed >= TOTP_LOCKOUT_WINDOW_MS {
        lockouts := Delete(lockouts, key);
        return Open;
      }
      if entry.value.failures >= MaxFailuresFor(key) {
        return Locked(MintLimiter.CeilSeconds(TOTP_LOCKOUT_WINDOW_MS - elapsed));
      }
      r := Open;
    }

    method PruneTotpLockouts(t: int)
      requires UniqueKeys(lockouts)
      modifies this
      ensures lockouts == PruneOf(old(lockouts), t)
    {
      SweepExpired(t);
      if |lockouts| <= TOTP_LOCKOUT_MAX_BUCKETS { return; }
      var excess := |lockouts| - TOTP_LOCKOUT_MAX_BUCKETS;
      ghost var live := lockouts;
      var dropped := 0;
      while dropped < excess
        invariant 0 <= dropped <= excess < |live| && lockouts == live[dropped..]
      {
        FrontGoes(lockouts);
        lockouts := Delete(lockouts, lockouts[0].key);
        dropped := dropped + 1;
      }
    }

    method SweepExpired(t: int)
      requires UniqueKeys(lockouts)
      modifies this
      ensures lockouts == Live(old(lockouts), t)
    {
      hide *;
      var all := lockouts;
      ghost var done: Buckets := [];
      for i := 0 to |all|
        invariant lockouts == done + all[i..]
        invariant done + Live(all[i..], t) == Live(all, t)
        invariant forall e :: e in done ==> exists j :: 0 <= j < i && all[j].key == e.key
      {
        LiveStep(all, i, t);
        KeysApart(all, i);
        assert forall e :: e in done ==> e.key != all[i].key;
        ReplaceAt(done, all[i].key, all[i].value, all[i].value, all[i + 1..]);
        ReassociateAll(done, all[i + 1..], all[i], Live(all[i + 1..], t));
        if Over(all[i].value, t) {
          lockouts := Delete(lockouts, all[i].key);
        } else {
          done := done + [all[i]];
        }
      }
      LiveNone(t);
      assert all[|all|..] == [];
    }

    method RecordTotpFailure(key: string, t: int)
      requires UniqueKeys(lockouts)
      modifies this
      ensures lockouts == RecordOf(old(lockouts), key, t)
    {
      var entry := Get(lockouts, key);
      if entry.None? || t - entry.value.firstFailureAt >= TOTP_LOCKOUT_WINDOW_MS {
        if |lockouts| >= TOTP_LOCKOUT_MAX_BUCKETS {
          PruneTotpLockouts(t);
        }
        lockouts := Put(lockouts, key, Bucket(1, t));
        return;
      }
      lockouts := Put(lockouts, key, entry.value.(failures := entry.value.failures + 1));
    }

    method Login(a: Attempt) returns (r: Result)
      requires UniqueKeys(lockouts)
      modifies this
      ensures (lockouts, r) == LoginOf(old(lockouts), a)
    {
      hide Get, Put, Delete, RecordOf, CheckOf, UniqueKeys;
      var codeless := a.member.None?;
      if codeless {
        CheckKeeps(lockouts, SourceKey(a), a.sourceCheckAt);
        var sourceLock := CheckTotpLockout(SourceKey(a), a.sourceCheckAt);
        if sourceLock.Locked? { return TooMany(sourceLock.retryAfter); }
      }
      CheckKeeps(lockouts, LockoutKey(a), a.checkAt);
      var lock := CheckTotpLockout(LockoutKey(a), a.checkAt);
      if lock.Locked? {
        if codeless { return MemberNameRequired(lock.retryAfter); }
        return TooMany(lock.retryAfter);
      }
      if a.matched.None? {
        RecordKeeps(lockouts, LockoutKey(a), a.recordAt);
        RecordTotpFailure(LockoutKey(a), a.recordAt);
        if codeless {
          RecordTotpFailure(SourceKey(a), a.sourceRecordAt);
        }
        return InvalidCode;
      }
      lockouts := Delete(lockouts, LockoutKey(a));
      if codeless {
        lockouts := Delete(lockouts, SourceKey(a));
        lockouts := Delete(lockouts, a.matched.value);
      }
      r := SignedIn(a.matched.value);
    }
  }

  // ------------------------------------------------------------------------ loops

  lemma {:induction false} LiveNone(t: int)
    ensures Live([], t) == []
  {
  }

  lemma {:induction false} LiveStep(m: Buckets, i: nat, t: int)
    requires i < |m|
    ensures m[i..] == [m[i]] + m[i + 1..]
    ensures Live(m[i..], t) == (if Over(m[i].value, t) then [] else [m[i]]) + Live(m[i + 1..], t)
  {
    assert m[i..][1..] == m[i + 1..];
  }

  lemma {:induction false} FrontGoes(m: Buckets)
    requires m != []
    ensures Delete(m, m[0].key) == m[1..]
  {
  }

  lemma {:induction false} CheckKeeps(m: Buckets, key: string, t: int)
    requires UniqueKeys(m)
    ensures UniqueKeys(CheckOf(m, key, t).0) && |CheckOf(m, key, t).0| <= |m|
  {
    DeleteKeys(m, key);
    GetDelete(m, key, key);
  }

  lemma {:induction false} SuffixKeys(m: Buckets, n: nat)
    requires UniqueKeys(m) && n <= |m|
    ensures UniqueKeys(m[n..])
  {
    if n == 0 {
    } else {
      SuffixKeys(m[1..], n - 1);
      assert m[1..][n - 1..] == m[n..];
    }
  }

  lemma {:induction false} PruneKeeps(m: Buckets, t: int)
    requires UniqueKeys(m)
    ensures UniqueKeys(PruneOf(m, t)) && |PruneOf(m, t)| <= TOTP_LOCKOUT_MAX_BUCKETS
    ensures forall e :: e in PruneOf(m, t) ==> e in m
  {
    GetFilter(m, (e: Entry<string, Bucket>) => !Over(e.value, t), "");
    var live := Live(m, t);
    if |live| > TOTP_LOCKOUT_MAX_BUCKETS {
      SuffixKeys(live, |live| - TOTP_LOCKOUT_MAX_BUCKETS);
    }
  }

  lemma {:induction false} LiveIs(m: Buckets, t: int, e: Entry<string, Bucket>)
    ensures e in Live(m, t) <==> e in m && t - e.value.firstFailureAt < 900000
  {
  }

  lemma {:induction false} LiveOrder(m: Buckets, t: int, i: nat, j: nat) returns (k: nat, l: nat)
    requires i < j < |m| && !Over(m[i].value, t) && !Over(m[j].value, t)
    ensures k < l < |Live(m, t)| && Live(m, t)[k] == m[i] && Live(m, t)[l] == m[j]
  {
    var rest := Live(m[1..], t);
    assert Live(m, t) == (if Over(m[0].value, t) then [] else [m[0]]) + rest by {
      LiveStep(m, 0, t);
      assert m[0..] == m;
    }
    hide Live;
    if i > 0 {
      k, l := LiveOrder(m[1..], t, i - 1, j - 1);
      if !Over(m[0].value, t) {
        k, l := k + 1, l + 1;
      }
    } else {
      LiveIs(m[1..], t, m[j]);
      assert m[1..][j - 1] == m[j];
      var n :| 0 <= n < |rest| && rest[n] == m[j];
      k, l := 0, n + 1;
    }
  }

  /** A prune drops every lapsed bucket, and of the others only as many as exceed the cap, oldest entry first. */
  lemma {:induction false} PruneIs(m: Buckets, t: int, i: nat, j: nat)
    requires UniqueKeys(m) && i < j < |m|
    ensures forall e :: e in PruneOf(m, t) ==> e in m && t - e.value.firstFailureAt < 900000
    ensures |PruneOf(m, t)| <= 10000
    ensures |PruneOf(m, t)| < 10000 ==>
      forall e :: e in m && t - e.value.firstFailureAt < 900000 ==> e in PruneOf(m, t)
    ensures m[i] in PruneOf(m, t) && t - m[j].value.firstFailureAt < 900000 ==> m[j] in PruneOf(m, t)
  {
    var live, p := Live(m, t), PruneOf(m, t);
    var cut := |live| - |p|;
    assert p == live[cut..];
    forall e ensures e in live <==> e in m && t - e.value.firstFailureAt < 900000 {
      LiveIs(m, t, e);
    }
    PruneKeeps(m, t);
    hide Live, PruneOf, UniqueKeys;
    if m[i] in p && t - m[j].value.firstFailureAt < 900000 {
      var n :| 0 <= n < |p| && p[n] == m[i];
      assert live[cut + n] == m[i];
      LiveDistinct(m, t);
      var k, l := LiveOrder(m, t, i, j);
      assert k == cut + n;
      assert p[l - cut] == m[j];
    }
  }

  lemma {:induction false} LiveDistinct(m: Buckets, t: int)
    requires UniqueKeys(m)
    ensures forall k, l :: 0 <= k < l < |Live(m, t)| ==> Live(m, t)[k] != Live(m, t)[l]
  {
    GetFilter(m, (e: Entry<string, Bucket>) => !Over(e.value, t), "");
    var live := Live(m, t);
    forall k, l | 0 <= k < l < |live| ensures live[k] != live[l] {
      KeysApart(live, l);
    }
  }

  lemma {:induction false} RecordKeeps(m: Buckets, key: string, t: int)
    requires UniqueKeys(m)
    ensures UniqueKeys(RecordOf(m, key, t))
  {
    PruneKeeps(m, t);
    var base := if |m| >= TOTP_LOCKOUT_MAX_BUCKETS then PruneOf(m, t) else m;
    PutKeys(base, key, Bucket(1, t));
    if Get(m, key).Some? {
      PutKeys(m, key, Get(m, key).value.(failures := Get(m, key).value.failures + 1));
    }
  }

  // ----------------------------------------------------------------------- bounds

  /** No bucket holds more failures than its key allows, and the map is bounded. */
  ghost predicate Bounded(m: Buckets) {
    && UniqueKeys(m) && |m| <= TOTP_LOCKOUT_MAX_BUCKETS + 1
    && forall e :: e in m ==> 1 <= e.value.failures <= MaxFailuresFor(e.key)
  }

  /** A failure may be recorded: the bucket is absent, over, or below its maximum. */
  predicate Room(m: Buckets, key: string, t: int) {
    Get(m, key).None? || Over(Get(m, key).value, t) || Get(m, key).value.failures < MaxFailuresFor(key)
  }

  lemma {:induction false} DeleteBounded(m: Buckets, key: string)
    requires Bounded(m)
    ensures Bounded(Delete(m, key))
  {
    DeleteKeys(m, key);
    GetDelete(m, key, key);
  }

  /** An open check leaves room for one more failure, whatever the clock does before it is recorded. */
  lemma {:induction false} CheckGivesRoom(m: Buckets, key: string, t: int, later: int)
    requires Bounded(m)
    ensures Bounded(CheckOf(m, key, t).0)
    ensures CheckOf(m, key, t).1.Open? ==> Room(CheckOf(m, key, t).0, key, later)
  {
    DeleteBounded(m, key);
    GetDelete(m, key, key);
  }

  lemma {:induction false} CheckOthersRoom(m: Buckets, key: string, t: int, other: string, later: int)
    requires UniqueKeys(m) && Room(m, other, later)
    ensures Room(CheckOf(m, key, t).0, other, later)
  {
    GetDelete(m, key, other);
  }

  lemma {:induction false} PutBounded(m: Buckets, key: string, b: Bucket)
    requires UniqueKeys(m) && |m| <= TOTP_LOCKOUT_MAX_BUCKETS + (if Get(m, key).Some? then 1 else 0)
    requires forall e :: e in m ==> 1 <= e.value.failures <= MaxFailuresFor(e.key)
    requires 1 <= b.failures <= MaxFailuresFor(key)
    ensures Bounded(Put(m, key, b))
  {
    PutKeys(m, key, b);
    GetPut(m, key, b, key);
    hide Get, Put, UniqueKeys, MaxFailuresFor;
  }

  lemma {:induction false} RecordBounded(m: Buckets, key: string, t: int)
    requires Bounded(m) && Room(m, key, t)
    ensures Bounded(RecordOf(m, key, t))
  {
    hide Get, Put, UniqueKeys, PruneOf;
    PruneKeeps(m, t);
    GetIn(m, key);
    var found := Get(m, key);
    if found.None? || Over(found.value, t) {
      PutBounded(if |m| >= TOTP_LOCKOUT_MAX_BUCKETS then PruneOf(m, t) else m, key, Bucket(1, t));
    } else {
      assert Entry(key, found.value) in m;
      PutBounded(m, key, found.value.(failures := found.value.failures + 1));
    }
  }

  /** Recording one key never takes another's room: the other is untouched, or evicted. */
  lemma {:induction false} RecordOthersRoom(m: Buckets, key: string, t: int, other: string, later: int)
    requires UniqueKeys(m) && key != other && Room(m, other, later)
    ensures Room(RecordOf(m, key, t), other, later)
  {
    PruneKeeps(m, t);
    var base := if |m| >= TOTP_LOCKOUT_MAX_BUCKETS then PruneOf(m, t) else m;
    GetPut(base, key, Bucket(1, t), other);
    if Get(m, key).Some? {
      GetPut(m, key, Get(m, key).value.(failures := Get(m, key).value.failures + 1), other);
    }
    hide PruneOf, UniqueKeys;
    GetIn(base, other);
    if Get(base, other).Some? {
      GetUnique(m, Entry(other, Get(base, other).value));
    }
  }

  lemma {:induction false} LoginBounded(m: Buckets, a: Attempt)
    requires Bounded(m)
    ensures Bounded(LoginOf(m, a).0)
  {
    hide Bounded, CheckOf, RecordOf, Room, Delete;
    var key, source := LockoutKey(a), SourceKey(a);
    if a.member.None? {
      SourceIsOther(a);
      BoundedKeys(m);
      CheckGivesRoom(m, source, a.sourceCheckAt, a.sourceRecordAt);
      var (m1, sourceLock) := CheckOf(m, source, a.sourceCheckAt);
      if sourceLock.Open? {
        BoundedKeys(m1);
        CheckGivesRoom(m1, key, a.checkAt, a.recordAt);
        CheckOthersRoom(m1, key, a.checkAt, source, a.sourceRecordAt);
        var (m2, lock) := CheckOf(m1, key, a.checkAt);
        if lock.Open? {
          BoundedKeys(m2);
          RecordBounded(m2, key, a.recordAt);
          RecordOthersRoom(m2, key, a.recordAt, source, a.sourceRecordAt);
          RecordBounded(RecordOf(m2, key, a.recordAt), source, a.sourceRecordAt);
          DeleteBounded(m2, key);
          DeleteBounded(Delete(m2, key), source);
          if a.matched.Some? {
            DeleteBounded(Delete(Delete(m2, key), source), a.matched.value);
          }
        }
      }
    } else {
      CheckGivesRoom(m, key, a.checkAt, a.recordAt);
      var (m2, lock) := CheckOf(m, key, a.checkAt);
      if lock.Open? {
        RecordBounded(m2, key, a.recordAt);
        DeleteBounded(m2, key);
      }
    }
  }

  lemma {:induction false} BoundedKeys(m: Buckets)
    requires Bounded(m)
    ensures UniqueKeys(m)
  {
  }

  lemma {:induction false} SourceIsOther(a: Attempt)
    requires a.member.None?
    ensures LockoutKey(a) != SourceKey(a)
  {
    assert SourceKey(a)[0] == 'c' && CODELESS_LOCKOUT_KEY[0] == '_';
  }

  function Run(m: Buckets, attempts: seq<Attempt>): Buckets
    decreases |attempts|
  {
    if attempts == [] then m else Run(LoginOf(m, attempts[0]).0, attempts[1..])
  }

  /**
   * Whatever the clock readings, after any run of sign-ins no bucket exceeds its key's
   * maximum, and the map holds at most one bucket more than the cap.
   */
  lemma {:induction false} RunBounded(m: Buckets, attempts: seq<Attempt>)
    requires Bounded(m)
    ensures Bounded(Run(m, attempts))
    decreases |attempts|
  {
    hide Bounded, LoginOf;
    if attempts == [] {
    } else {
      LoginBounded(m, attempts[0]);
      RunBounded(LoginOf(m, attempts[0]).0, attempts[1..]);
    }
  }

  /** A bucket whose window still runs. */
  predicate Running(m: Buckets, key: string, t: int) { Get(m, key).Some? && !Over(Get(m, key).value, t) }

  lemma {:induction false} PruneSize(m: Buckets, t: int)
    ensures |PruneOf(m, t)| == Min(|Live(m, t)|, TOTP_LOCKOUT_MAX_BUCKETS)
    ensures |Live(m, t)| <= |m|
  {
  }

  /** A prune keeps only live buckets. */
  lemma {:induction false} PrunedAway(m: Buckets, key: string, t: int)
    requires UniqueKeys(m) && !Running(m, key, t)
    ensures Get(PruneOf(m, t), key).None?
  {
    PruneKeeps(m, t);
    GetFilter(m, (e: Entry<string, Bucket>) => !Over(e.value, t), key);
    var live := Live(m, t);
    GetIn(live, key);
    GetIn(PruneOf(m, t), key);
    hide Get, UniqueKeys, Over;
  }

  /**
   * Exactly when recording a failure leaves the map over its cap: the bucket is running
   * in a map already over it, or a new window opens among as many live buckets as the
   * cap.  So from a map within the cap: it is full, all its buckets are live, and the
   * key is new.
   */
  lemma {:induction false} CapPlusOne(m: Buckets, key: string, t: int)
    requires UniqueKeys(m)
    ensures |RecordOf(m, key, t)| > TOTP_LOCKOUT_MAX_BUCKETS
        <==> if Running(m, key, t) then |m| > TOTP_LOCKOUT_MAX_BUCKETS else |Live(m, t)| >= TOTP_LOCKOUT_MAX_BUCKETS
    ensures |m| <= TOTP_LOCKOUT_MAX_BUCKETS ==>
      (|RecordOf(m, key, t)| > TOTP_LOCKOUT_MAX_BUCKETS
       <==> |m| == TOTP_LOCKOUT_MAX_BUCKETS && Get(m, key).None? && forall e :: e in m ==> !Over(e.value, t))
    ensures |m| <= TOTP_LOCKOUT_MAX_BUCKETS + 1 ==> |RecordOf(m, key, t)| <= TOTP_LOCKOUT_MAX_BUCKETS + 1
  {
    RecordSize(m, key, t);
    PruneSize(m, t);
    AllLive(m, key, t);
    hide Get, UniqueKeys, RecordOf, PruneOf, Live, Over;
  }

  lemma {:induction false} RecordSize(m: Buckets, key: string, t: int)
    requires UniqueKeys(m)
    ensures Running(m, key, t) ==> |RecordOf(m, key, t)| == |m|
    ensures !Running(m, key, t) && |m| >= TOTP_LOCKOUT_MAX_BUCKETS ==> |RecordOf(m, key, t)| == |PruneOf(m, t)| + 1
    ensures !Running(m, key, t) && |m| < TOTP_LOCKOUT_MAX_BUCKETS ==> |RecordOf(m, key, t)| <= |m| + 1
  {
    hide UniqueKeys, Over, PruneOf, Put;
    if Running(m, key, t) {
      GetPut(m, key, Get(m, key).value.(failures := Get(m, key).value.failures + 1), key);
    } else {
      PrunedAway(m, key, t);
      GetPut(if |m| >= TOTP_LOCKOUT_MAX_BUCKETS then PruneOf(m, t) else m, key, Bucket(1, t), key);
    }
    hide Get;
  }

  /** Every bucket is live exactly when the sweep keeps them all; an elapsed one is not among those kept. */
  lemma {:induction false} AllLive(m: Buckets, key: string, t: int)
    ensures |Live(m, t)| == |m| <==> forall e :: e in m ==> !Over(e.value, t)
    ensures (forall e :: e in m ==> !Over(e.value, t)) ==> (Running(m, key, t) <==> Get(m, key).Some?)
  {
    var live := (e: Entry<string, Bucket>) => !Over(e.value, t);
    if forall e :: e in m ==> !Over(e.value, t) {
      FilterAll(m, live);
    }
    if |Live(m, t)| == |m| {
      FilterWhole(m, live);
    }
    GetIn(m, key);
    hide Get, Over;
  }

  // The extra bucket is reached from an empty map by one wrong code for each of enough names.

  function Letter(i: nat): char
    requires i < 26
  {
    ('a' as int + i) as char
  }

  function NthName(i: nat): string
    requires i < 26 * 26 * 26
  {
    [Letter(i % 26), Letter(i / 26 % 26), Letter(i / 676)]
  }

  lemma {:induction false} NamesDiffer(i: nat, j: nat)
    requires i < 26 * 26 * 26 && j < 26 * 26 * 26 && NthName(i) == NthName(j)
    ensures i == j
  {
    assert NthName(i)[0] == NthName(j)[0] && NthName(i)[1] == NthName(j)[1] && NthName(i)[2] == NthName(j)[2];
    assert i / 26 / 26 == i / 676 && j / 26 / 26 == j / 676;
  }

  function WrongCode(name: string): Attempt { Attempt(Some(name), "", None, 0, 0, 0, 0) }

  function WrongCodes(n: nat): seq<Attempt>
    requires n <= 26 * 26 * 26
  {
    seq(n, i requires 0 <= i < n => WrongCode(NthName(i)))
  }

  /** `n` fresh buckets, one per name. */
  ghost predicate FirstNames(m: Buckets, n: nat)
    requires n <= 26 * 26 * 26
  {
    && |m| == n && UniqueKeys(m)
    && forall e :: e in m ==> e.value == Bucket(1, 0) && exists i: nat :: i < n && e.key == NthName(i)
  }

  lemma {:induction false} NextName(m: Buckets, n: nat)
    requires n <= TOTP_LOCKOUT_MAX_BUCKETS && FirstNames(m, n)
    ensures FirstNames(LoginOf(m, WrongCode(NthName(n))).0, n + 1)
  {
    var key := NthName(n);
    GetIn(m, key);
    forall i: nat | i < n ensures NthName(i) != key {
      if NthName(i) == key {
        NamesDiffer(i, n);
      }
    }
    assert Get(m, key).None?;
    FilterAll(m, (e: Entry<string, Bucket>) => !Over(e.value, 0));
    PutKeys(m, key, Bucket(1, 0));
    GetPut(m, key, Bucket(1, 0), key);
    PutIn(m, key, Bucket(1, 0));
    hide Get, Put, UniqueKeys, NthName;
    assert LoginOf(m, WrongCode(key)).0 == Put(m, key, Bucket(1, 0));
  }

  lemma {:induction false} RunSnoc(m: Buckets, attempts: seq<Attempt>, a: Attempt)
    ensures Run(m, attempts + [a]) == LoginOf(Run(m, attempts), a).0
    decreases |attempts|
  {
    hide LoginOf;
    if attempts == [] {
      assert [] + [a] == [a] && [a][1..] == [];
    } else {
      assert (attempts + [a])[0] == attempts[0] && (attempts + [a])[1..] == attempts[1..] + [a];
      RunSnoc(LoginOf(m, attempts[0]).0, attempts[1..], a);
    }
  }

  lemma {:induction false} NamesFill(n: nat)
    requires n <= TOTP_LOCKOUT_MAX_BUCKETS + 1
    ensures FirstNames(Run([], WrongCodes(n)), n)
  {
    hide LoginOf, NthName;
    if n == 0 {
    } else {
      NamesFill(n - 1);
      NextName(Run([], WrongCodes(n - 1)), n - 1);
      assert WrongCodes(n) == WrongCodes(n - 1) + [WrongCode(NthName(n - 1))];
      RunSnoc([], WrongCodes(n - 1), WrongCode(NthName(n - 1)));
    }
  }

  /** The extra bucket is reached: one wrong code each for cap + 1 well-formed names, from an empty map. */
  lemma {:induction false} CapPlusOneReached()
    ensures |Run([], WrongCodes(TOTP_LOCKOUT_MAX_BUCKETS + 1))| == TOTP_LOCKOUT_MAX_BUCKETS + 1
    ensures forall a :: a in WrongCodes(TOTP_LOCKOUT_MAX_BUCKETS + 1) ==> a.member.Some? && NameOk(a.member.value)
  {
    NamesFill(TOTP_LOCKOUT_MAX_BUCKETS + 1);
  }

  /** A code is verified only when every bucket in the attempt's way is open, and a refusal records nothing. */
  lemma {:induction false} RefusalRecordsNothing(m: Buckets, a: Attempt)
    requires Bounded(m)
    requires var r := LoginOf(m, a).1; r.TooMany? || r.MemberNameRequired?
    ensures forall e :: e in LoginOf(m, a).0 ==> e in m
    ensures LoginOf(m, a).1.MemberNameRequired? ==> a.member.None?
  {
    hide Get, UniqueKeys, Bounded;
    DeleteIn(m, SourceKey(a));
    DeleteIn(m, LockoutKey(a));
    DeleteIn(Delete(m, SourceKey(a)), LockoutKey(a));
    hide Delete;
  }

  lemma {:induction false} CheckOther(m: Buckets, key: string, t: int, other: string)
    requires UniqueKeys(m) && other != key
    ensures Get(CheckOf(m, key, t).0, other) == Get(m, other)
  {
    GetDelete(m, key, other);
    hide Get, Delete, Over, MaxFailuresFor, UniqueKeys;
  }

  lemma {:induction false} RecordOther(m: Buckets, key: string, t: int, other: string)
    requires other != key && |m| < TOTP_LOCKOUT_MAX_BUCKETS
    ensures Get(RecordOf(m, key, t), other) == Get(m, other)
  {
    GetPut(m, key, Bucket(1, t), other);
    if Get(m, key).Some? {
      GetPut(m, key, Get(m, key).value.(failures := Get(m, key).value.failures + 1), other);
    }
    hide Get, Put, PruneOf, Over;
  }

  /** A targeted sign-in depends on, and changes, that member's bucket alone, short of a full map. */
  lemma {:induction false} TargetedIsolated(m: Buckets, a: Attempt, other: string)
    requires UniqueKeys(m) && a.member.Some? && other != a.member.value
    requires |m| < TOTP_LOCKOUT_MAX_BUCKETS
    ensures Get(LoginOf(m, a).0, other) == Get(m, other)
  {
    var key := a.member.value;
    var m2 := CheckOf(m, key, a.checkAt).0;
    CheckOther(m, key, a.checkAt, other);
    CheckKeeps(m, key, a.checkAt);
    RecordOther(m2, key, a.recordAt, other);
    GetDelete(m2, key, other);
    hide Get, Delete, UniqueKeys, CheckOf, RecordOf;
  }

  /** A success clears every bucket in its way, and for codeless sign-in the member's own too. */
  lemma {:induction false} SuccessClears(m: Buckets, a: Attempt)
    requires UniqueKeys(m) && LoginOf(m, a).1.SignedIn?
    ensures var after := LoginOf(m, a).0;
      && Get(after, LockoutKey(a)).None?
      && (a.member.None? ==> Get(after, SourceKey(a)).None? && Get(after, a.matched.value).None?)
  {
    hide Get, Put, Delete, UniqueKeys, MaxFailuresFor;
    CheckKeeps(m, SourceKey(a), a.sourceCheckAt);
    var m1 := if a.member.None? then CheckOf(m, SourceKey(a), a.sourceCheckAt).0 else m;
    CheckKeeps(m1, LockoutKey(a), a.checkAt);
    var m2 := CheckOf(m1, LockoutKey(a), a.checkAt).0;
    hide CheckOf;
    var m3 := Delete(m2, LockoutKey(a));
    DeleteKeys(m2, LockoutKey(a));
    GetDelete(m2, LockoutKey(a), LockoutKey(a));
    var m4 := Delete(m3, SourceKey(a));
    DeleteKeys(m3, SourceKey(a));
    GetDelete(m3, SourceKey(a), LockoutKey(a));
    GetDelete(m3, SourceKey(a), SourceKey(a));
    if a.member.None? {
      GetDelete(m4, a.matched.value, LockoutKey(a));
      GetDelete(m4, a.matched.value, SourceKey(a));
      GetDelete(m4, a.matched.value, a.matched.value);
    }
  }

}
