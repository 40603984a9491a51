/** The enrollment store, its table updated in place. */
module EnrollmentStores {
  import opened Prelude
  import opened OrderedMap
  import opened EnrollmentModel

  datatype Minted = Minted(deviceCode: string, userCode: string, formatted: string, hash: string, expiresAt: int,
      expiresIn: int, interval: int)

  class EnrollmentStore {
    const config: Config
    var table: Table

    constructor (config: Config)
      ensures this.config == config && table == []
    {
      this.config := config;
      table := [];
    }

    /** Up to five draws of both codes; `draws` is what the random generator hands out. */
    method MintCode(draws: seq<Candidate>, now: int) returns (r: Option<Minted>)
      requires |draws| == MINT_ATTEMPTS
      modifies this
      ensures table == MintOf(config, old(table), draws, now).0
      ensures var drawn := MintOf(config, old(table), draws, now).1;
        r == if drawn.None? then None
             else Some(Minted(drawn.value.deviceCode, drawn.value.userCode, FormatUserCode(drawn.value.userCode),
                              config.hash(drawn.value.deviceCode), now + ENROLLMENT_TTL_MS, 300,
                                  DEFAULT_POLL_INTERVAL_S))
    {
      assert Tried(draws) == draws == draws[0..];
      for attempt := 0 to MINT_ATTEMPTS
        invariant table == old(table)
        invariant FirstFree(config, table, draws[attempt..]) == FirstFree(config, table, draws)
      {
        var draw := draws[attempt];
        var hash := config.hash(draw.deviceCode);
        assert draws[attempt..][1..] == draws[attempt + 1..];
        if !Collides(table, hash, draw.userCode) {
          table := Put(table, hash, NewRow(draw.userCode, now));
          return Some(Minted(draw.deviceCode, draw.userCode, FormatUserCode(draw.userCode), hash,
                             now + ENROLLMENT_TTL_MS, ENROLLMENT_TTL_MS / 1000, DEFAULT_POLL_INTERVAL_S));
        }
      }
      r := None;
    }

    method LookupByUserCode(code: string, t: int) returns (r: LookupOutcome)
      ensures r == LookupOf(table, code, t)
    {
      var found := ByCode(table, code);
      if found.None? { return LookupMissing; }
      var row := found.value;
      if row.expiresAt < t { return LookupExpired; }
      if row.status == Approved { return AlreadyApproved; }
      if row.status == Rejected { return AlreadyRejected(row.rejectReason); }
      r := LookupPending(row);
    }

    /** True exactly when a pending row held the code. */
    method ApproveCode(op: Op) returns (changed: bool)
      requires op.Approve?
      modifies this
      ensures table == Step(config, old(table), op)
      ensures changed == (Changes(old(table), op.code) > 0)
    {
      var ct := if config.cipher.Some? then config.cipher.value.encrypt(op.plaintext) else op.plaintext;
      changed := Changes(table, op.code) > 0;
      var approve := (r: Row) => r.(status := Approved, approvedBy := Some(op.actor), boundMember := Some(op.member),
                                    tokenId := Some(op.tokenId), tokenCt := Some(ct));
      DecidedExt(table, op.code, approve, (r: Row) => Grant(config, r, op));
      table := Decided(table, op.code, approve);
    }

    method RejectCode(op: Op) returns (changed: bool)
      requires op.Reject?
      modifies this
      ensures table == Step(config, old(table), op)
      ensures changed == (Changes(old(table), op.code) > 0)
    {
      changed := Changes(table, op.code) > 0;
      var reject := (r: Row) => r.(status := Rejected, approvedBy := Some(op.actor), rejectReason := op.reason);
      DecidedExt(table, op.code, reject, (r: Row) => Refuse(r, op));
      table := Decided(table, op.code, reject);
    }

    /** Resolves a poll and consumes the row on every answer but a pending one. */
    method PollByDeviceCode(deviceCode: string, t: int) returns (r: Outcome)
      modifies this
      ensures (table, r) == PollOf(config, old(table), deviceCode, t)
    {
      hide Get, Put, Delete;
      var hash := config.hash(deviceCode);
      var found := Get(table, hash);
      if found.None? { return ExpiredToken; }
      var row := found.value;
      if row.expiresAt < t {
        table := Delete(table, hash);
        return ExpiredToken;
      }
      if row.status == Rejected {
        table := Delete(table, hash);
        return AccessDenied(row.rejectReason);
      }
      if row.status == Approved {
        if row.tokenId.None? || row.tokenCt.None? || row.boundMember.None? {
          table := Delete(table, hash);
          return ExpiredToken;
        }
        var ct := row.tokenCt.value;
        var revealed := if config.cipher.Some? && Prefixed(ct) then config.cipher.value.decrypt(ct) else Plain(ct);
        if revealed.Threw? {
          PutSame(table, hash);
          return PollThrew;
        }
        if revealed.Null? {
          table := Delete(table, hash);
          return ExpiredToken;
        }
        table := Delete(table, hash);
        return ApprovedToken(revealed.text, row.tokenId.value, row.boundMember.value);
      }
      r := AuthorizationPending;
      if row.lastPolledAt.Some? && t - row.lastPolledAt.value < SLOW_DOWN_THRESHOLD_MS {
        r := SlowDown;
      }
      table := Put(table, hash, row.(lastPolledAt := Some(t)));
    }

    method PurgeExpired(t: int) returns (purged: nat)
      modifies this
      ensures table == Step(config, old(table), Purge(t))
      ensures purged == |old(table)| - |table|
      ensures forall e :: e in table <==> e in old(table) && t <= e.value.expiresAt
    {
      var kept := Filter(table, (e: Entry<string, Row>) => !(e.value.expiresAt < t));
      purged := |table| - |kept|;
      table := kept;
    }
  }

  lemma {:induction false} DecidedExt(table: Table, code: string, f: Row -> Row, g: Row -> Row)
    requires forall r: Row :: f(r) == g(r)
    ensures Decided(table, code, f) == Decided(table, code, g)
  {
    if table == [] {
    } else {
      DecidedExt(table[1..], code, f, g);
    }
  }
}
