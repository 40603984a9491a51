/**
 * What one sign-in is told, and what it changes: spelled out over the buckets it meets,
 * not over the steps of the handler.
 */
module TotpVerdicts {
  import opened Prelude
  import opened OrderedMap
  import opened TotpLockout
  import MintLimiter

  /** The bucket the sign-in is counted in: the member's, or the one all codeless sign-ins share. */
  function OwnKey(a: Attempt): string { if a.member.Some? then a.member.value else "__codeless__" }

  function OwnLimit(a: Attempt): nat { if OwnKey(a) == "__codeless__" then 40 else 5 }

  /** A codeless sign-in is also counted by where it comes from. */
  function FromKey(a: Attempt): string { "codeless-src:" + a.source }

  /** The bucket holds its limit of failures, and its fifteen minutes still run. */
  predicate Full(m: Buckets, key: string, limit: nat, t: int) {
    var b := Get(m, key);
    b.Some? && b.value.failures >= limit && t - b.value.firstFailureAt < 900000
  }

  /** Full for another `w - 1` seconds, and no longer so in `w`. */
  predicate FullUntil(m: Buckets, key: string, limit: nat, t: int, w: int) {
    Full(m, key, limit, t + 1000 * (w - 1)) && !Full(m, key, limit, t + 1000 * w)
  }

  lemma {:induction false} CheckSays(m: Buckets, key: string, t: int)
    requires UniqueKeys(m)
    ensures var limit := if key == "__codeless__" then 40 else 5;
      && (CheckOf(m, key, t).1.Locked? <==> Full(m, key, limit, t))
      && (CheckOf(m, key, t).1.Locked? ==> FullUntil(m, key, limit, t, CheckOf(m, key, t).1.retryAfter))
  {
    var b := Get(m, key);
    assert MaxFailuresFor(key) == if key == "__codeless__" then 40 else 5;
    if b.Some? {
      MintLimiter.CeilIs(TOTP_LOCKOUT_WINDOW_MS - (t - b.value.firstFailureAt));
    }
    hide Get, Delete, UniqueKeys, MaxFailuresFor, MintLimiter.CeilSeconds;
  }

  /** A check leaves every bucket as it was, but for its own if that has lapsed. */
  lemma {:induction false} CheckLeaves(m: Buckets, key: string, t: int, k: string)
    requires UniqueKeys(m)
    ensures Get(CheckOf(m, key, t).0, k)
         == if k == key && Get(m, k).Some? && t - Get(m, k).value.firstFailureAt >= 900000 then None else Get(m, k)
  {
    GetDelete(m, key, k);
    hide Get, Delete, UniqueKeys, MaxFailuresFor;
  }

  lemma {:induction false} KeysDiffer(a: Attempt)
    ensures FromKey(a) != "__codeless__" && SourceKey(a) == FromKey(a) && LockoutKey(a) == OwnKey(a)
  {
    assert FromKey(a)[0] == 'c' && "__codeless__"[0] == '_';
  }

  lemma {:induction false} SameFull(m: Buckets, m': Buckets, key: string, limit: nat, t: int)
    requires Get(m, key) == Get(m', key)
    ensures Full(m, key, limit, t) == Full(m', key, limit, t)
    ensures forall w :: FullUntil(m, key, limit, t, w) == FullUntil(m', key, limit, t, w)
  {
    hide Get;
  }

  /**
   * A sign-in is refused while the bucket of its source, if codeless, or else its own is
   * full and running, whatever the code; for exactly the seconds it is told.  Otherwise the
   * code alone decides.
   */
  lemma {:induction false} LoginVerdict(m: Buckets, a: Attempt)
    requires UniqueKeys(m)
    ensures var r := LoginOf(m, a).1;
      var sourceFull := a.member.None? && Full(m, FromKey(a), 5, a.sourceCheckAt);
      var ownFull := Full(m, OwnKey(a), OwnLimit(a), a.checkAt);
      && (sourceFull ==> r.TooMany? && FullUntil(m, FromKey(a), 5, a.sourceCheckAt, r.retryAfter))
      && (!sourceFull && ownFull && a.member.None? ==>
            r.MemberNameRequired? && FullUntil(m, OwnKey(a), OwnLimit(a), a.checkAt, r.retryAfter))
      && (!sourceFull && ownFull && a.member.Some? ==>
            r.TooMany? && FullUntil(m, OwnKey(a), OwnLimit(a), a.checkAt, r.retryAfter))
      && (!sourceFull && !ownFull ==>
            r == if a.matched.Some? then SignedIn(a.matched.value) else InvalidCode)
  {
    KeysDiffer(a);
    var own, src := OwnKey(a), FromKey(a);
    CheckSays(m, src, a.sourceCheckAt);
    CheckKeeps(m, src, a.sourceCheckAt);
    CheckLeaves(m, src, a.sourceCheckAt, own);
    var m1 := if a.member.None? then CheckOf(m, src, a.sourceCheckAt).0 else m;
    CheckSays(m1, own, a.checkAt);
    SameFull(m1, m, own, OwnLimit(a), a.checkAt);
    hide CheckOf, Full, FullUntil, RecordOf, Get, Delete, UniqueKeys, OwnKey, FromKey, SourceKey, LockoutKey;
  }

  /** A code signs in exactly when it matches and no bucket in its way is full. */
  lemma {:induction false} SignsInIff(m: Buckets, a: Attempt)
    requires UniqueKeys(m)
    ensures LoginOf(m, a).1.SignedIn?
        <==> && a.matched.Some?
             && !Full(m, OwnKey(a), OwnLimit(a), a.checkAt)
             && !(a.member.None? && Full(m, FromKey(a), 5, a.sourceCheckAt))
  {
    LoginVerdict(m, a);
    hide LoginOf, Full, FullUntil, OwnKey, FromKey;
  }

  // ------------------------------------------------------------------ what it changes

  /** One more failure in a window that runs at both readings, or the first of a new one. */
  function OneMore(b: Option<Bucket>, checkAt: int, recordAt: int): Bucket {
    if b.Some? && checkAt - b.value.firstFailureAt < 900000 && recordAt - b.value.firstFailureAt < 900000
    then Bucket(b.value.failures + 1, b.value.firstFailureAt) else Bucket(1, recordAt)
  }

  lemma {:induction false} RecordLeaves(m: Buckets, key: string, t: int, k: string)
    requires |m| < TOTP_LOCKOUT_MAX_BUCKETS
    ensures |RecordOf(m, key, t)| <= |m| + 1
    ensures Get(RecordOf(m, key, t), k) == if k == key then Some(OneMore(Get(m, key), t, t)) else Get(m, k)
  {
    GetPut(m, key, Bucket(1, t), k);
    if Get(m, key).Some? {
      GetPut(m, key, Get(m, key).value.(failures := Get(m, key).value.failures + 1), k);
    }
    hide Get, Put, PruneOf;
  }

  predicate Lapsed(m: Buckets, k: string, t: int) {
    Get(m, k).Some? && t - Get(m, k).value.firstFailureAt >= 900000
  }

  /**
   * A failure counts in its own bucket; only where it opens a new one in a full map are
   * others touched, by the prune.
   */
  lemma {:induction false} RecordIs(m: Buckets, key: string, t: int, k: string)
    ensures var opens := Get(m, key).None? || Lapsed(m, key, t);
      Get(RecordOf(m, key, t), k)
      == if k == key then Some(OneMore(Get(m, key), t, t))
         else if opens && |m| >= 10000 then Get(PruneOf(m, t), k)
         else Get(m, k)
  {
    var base := if |m| >= TOTP_LOCKOUT_MAX_BUCKETS then PruneOf(m, t) else m;
    GetPut(base, key, Bucket(1, t), k);
    if Get(m, key).Some? {
      GetPut(m, key, Get(m, key).value.(failures := Get(m, key).value.failures + 1), k);
    }
    hide Get, Put, PruneOf;
  }

  /** What a bucket becomes, short of a full map: `r` is what the sign-in is told. */
  predicate Becomes(m: Buckets, a: Attempt, r: Result, k: string, after: Option<Bucket>) {
    var before, codeless := Get(m, k), a.member.None?;
    if r.SignedIn? then
      after == if k == OwnKey(a) || (codeless && (k == FromKey(a) || k == r.name)) then None else before
    else if r.InvalidCode? then
      after == if k == OwnKey(a) then Some(OneMore(before, a.checkAt, a.recordAt))
               else if codeless && k == FromKey(a) then Some(OneMore(before, a.sourceCheckAt, a.sourceRecordAt))
               else before
    else
      after == if codeless && k == FromKey(a) && Lapsed(m, k, a.sourceCheckAt) then None else before
  }

  lemma {:induction false} Checked(m: Buckets, a: Attempt, k: string) returns (m1: Buckets, m2: Buckets)
    requires UniqueKeys(m)
    ensures m1 == (if a.member.None? then CheckOf(m, FromKey(a), a.sourceCheckAt).0 else m)
    ensures m2 == CheckOf(m1, OwnKey(a), a.checkAt).0
    ensures UniqueKeys(m1) && UniqueKeys(m2) && |m1| <= |m| && |m2| <= |m1|
    ensures Get(m1, k) == if a.member.None? && k == FromKey(a) && Lapsed(m, k, a.sourceCheckAt) then None else Get(m, k)
    ensures Get(m2, k) == if k == OwnKey(a) && Lapsed(m1, k, a.checkAt) then None else Get(m1, k)
  {
    m1 := if a.member.None? then CheckOf(m, FromKey(a), a.sourceCheckAt).0 else m;
    m2 := CheckOf(m1, OwnKey(a), a.checkAt).0;
    CheckKeeps(m, FromKey(a), a.sourceCheckAt);
    CheckLeaves(m, FromKey(a), a.sourceCheckAt, k);
    CheckKeeps(m1, OwnKey(a), a.checkAt);
    CheckLeaves(m1, OwnKey(a), a.checkAt, k);
    hide CheckOf, Get, UniqueKeys, OwnKey, FromKey;
  }

  lemma {:induction false} WrongCodeEffect(m: Buckets, a: Attempt, k: string)
    requires UniqueKeys(m) && |m| + 1 < TOTP_LOCKOUT_MAX_BUCKETS && LoginOf(m, a).1.InvalidCode?
    ensures Becomes(m, a, InvalidCode, k, Get(LoginOf(m, a).0, k))
  {
    KeysDiffer(a);
    var m1, m2 := Checked(m, a, k);
    var m3 := RecordOf(m2, OwnKey(a), a.recordAt);
    RecordLeaves(m2, OwnKey(a), a.recordAt, k);
    if a.member.None? {
      RecordLeaves(m3, FromKey(a), a.sourceRecordAt, k);
    }
    hide CheckOf, RecordOf, Get, UniqueKeys, SourceKey, LockoutKey;
  }

  lemma {:induction false} SuccessEffect(m: Buckets, a: Attempt, k: string)
    requires UniqueKeys(m) && LoginOf(m, a).1.SignedIn?
    ensures Becomes(m, a, LoginOf(m, a).1, k, Get(LoginOf(m, a).0, k))
  {
    KeysDiffer(a);
    var m1, m2 := Checked(m, a, k);
    var m3 := Delete(m2, OwnKey(a));
    DeleteKeys(m2, OwnKey(a));
    GetDelete(m2, OwnKey(a), k);
    var m4 := Delete(m3, FromKey(a));
    DeleteKeys(m3, FromKey(a));
    GetDelete(m3, FromKey(a), k);
    if a.member.None? {
      GetDelete(m4, a.matched.value, k);
    }
    hide CheckOf, RecordOf, Get, Delete, UniqueKeys, SourceKey, LockoutKey;
  }

  lemma {:induction false} FullStays(m: Buckets, key: string, t: int)
    ensures CheckOf(m, key, t).1.Locked? ==> CheckOf(m, key, t).0 == m && !Lapsed(m, key, t)
  {
  }

  lemma {:induction false} RefusalEffect(m: Buckets, a: Attempt, k: string)
    requires UniqueKeys(m) && !LoginOf(m, a).1.SignedIn? && !LoginOf(m, a).1.InvalidCode?
    ensures Becomes(m, a, LoginOf(m, a).1, k, Get(LoginOf(m, a).0, k))
  {
    KeysDiffer(a);
    var m1, m2 := Checked(m, a, k);
    FullStays(m, FromKey(a), a.sourceCheckAt);
    FullStays(m1, OwnKey(a), a.checkAt);
    hide CheckOf, RecordOf, Get, Delete, UniqueKeys, Lapsed;
  }

  /**
   * Every bucket after a sign-in.  A wrong code adds one failure to the sign-in's own and,
   * codeless, its source's; a success removes those and the member's; a refusal lets the
   * source's go if it has lapsed.  All others stay.
   */
  lemma {:induction false} LoginEffect(m: Buckets, a: Attempt, k: string)
    requires UniqueKeys(m) && |m| + 1 < TOTP_LOCKOUT_MAX_BUCKETS
    ensures Becomes(m, a, LoginOf(m, a).1, k, Get(LoginOf(m, a).0, k))
  {
    hide *;
    if LoginOf(m, a).1.SignedIn? {
      SuccessEffect(m, a, k);
    } else if LoginOf(m, a).1.InvalidCode? {
      WrongCodeEffect(m, a, k);
    } else {
      RefusalEffect(m, a, k);
    }
  }
}
