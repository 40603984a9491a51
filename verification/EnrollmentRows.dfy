/**
 * What each enrollment operation does to the rows, field by field, and what a user
 * code looks like on the way out and on the way in.
 */
module EnrollmentRows {
  import opened Prelude
  import opened OrderedMap
  import opened EnrollmentModel
  import opened EnrollmentFlow

  // --------------------------------------------------------------------- minting

  /** One of a candidate's two codes is another row's. */
  predicate Taken(c: Config, table: Table, x: Candidate) {
    exists e :: e in table && (e.key == c.hash(x.deviceCode) || e.value.userCode == x.userCode)
  }

  lemma {:induction false} CollidesIs(c: Config, table: Table, x: Candidate)
    ensures Collides(table, c.hash(x.deviceCode), x.userCode) == Taken(c, table, x)
  {
    GetIn(table, c.hash(x.deviceCode));
    if e :| e in table && e.key == c.hash(x.deviceCode) {
      GetKey(table, e);
    }
    hide Get;
  }

  lemma {:induction false} GetKey(table: Table, e: Entry<string, Row>)
    requires e in table
    ensures Get(table, e.key).Some?
  {
    if e != table[0] && table[0].key != e.key {
      GetKey(table[1..], e);
    }
  }

  lemma {:induction false} FirstFreeIs(c: Config, table: Table, candidates: seq<Candidate>) returns (i: nat)
    ensures i <= |candidates| && forall j :: 0 <= j < i ==> Taken(c, table, candidates[j])
    ensures i == |candidates| ==> FirstFree(c, table, candidates).None?
    ensures i < |candidates| ==>
      FirstFree(c, table, candidates) == Some(candidates[i]) && !Taken(c, table, candidates[i])
  {
    i := 0;
    if candidates == [] {
    } else {
      CollidesIs(c, table, candidates[0]);
      if Taken(c, table, candidates[0]) {
        var k := FirstFreeIs(c, table, candidates[1..]);
        i := k + 1;
      }
      hide Taken, Collides;
    }
  }

  /**
   * Minting takes the first of five draws whose codes are both free, as a pending row that
   * lasts five minutes and has neither decision nor poll; without one it changes nothing.
   */
  lemma {:induction false} MintTakesFirstFree(c: Config, table: Table, candidates: seq<Candidate>, now: int)
    returns (i: nat)
    ensures i <= 5 && i <= |candidates| && forall j :: 0 <= j < i ==> Taken(c, table, candidates[j])
    ensures i == 5 || i == |candidates| ==> MintOf(c, table, candidates, now) == (table, None)
    ensures i < 5 && i < |candidates| ==>
      var (after, drawn) := MintOf(c, table, candidates, now);
      && drawn == Some(candidates[i]) && !Taken(c, table, candidates[i])
      && Get(after, c.hash(candidates[i].deviceCode))
         == Some(Row(candidates[i].userCode, now, now + 300000, Pending, None, None, None, None, None, None))
      && forall h :: h != c.hash(candidates[i].deviceCode) ==> Get(after, h) == Get(table, h)
  {
    i := FirstFreeIs(c, table, Tried(candidates));
    assert forall j :: 0 <= j < |Tried(candidates)| ==> Tried(candidates)[j] == candidates[j];
    hide Get, Put, Taken, FirstFree;
    if i < 5 && i < |candidates| {
      var hash, row := c.hash(candidates[i].deviceCode), NewRow(candidates[i].userCode, now);
      forall h ensures Get(Put(table, hash, row), h) == if h == hash then Some(row) else Get(table, h) {
        GetPut(table, hash, row, h);
      }
    }
  }

  // ------------------------------------------------------------------- decisions

  /** Deciding changes the pending row with the code and no other, and reports whether there was one. */
  lemma {:induction false} DecidedIs(table: Table, code: string, decide: Row -> Row, i: nat)
    requires i < |table|
    ensures Decided(table, code, decide)[i].key == table[i].key
    ensures Decided(table, code, decide)[i].value
         == if table[i].value.userCode == code && table[i].value.status == Pending then decide(table[i].value)
            else table[i].value
  {
    if i > 0 {
      DecidedIs(table[1..], code, decide, i - 1);
    }
  }

  /** An approval names its actor, the member, the token's id and the token, sealed; the rest of the row stays. */
  lemma {:induction false} ApprovalIs(c: Config, table: Table, op: Op, i: nat)
    requires op.Approve? && i < |table| && table[i].value.userCode == op.code && table[i].value.status == Pending
    ensures var r := table[i].value;
      && |Step(c, table, op)| == |table|
      && Step(c, table, op)[i]
         == Entry(table[i].key,
                  Row(r.userCode, r.createdAt, r.expiresAt, Approved, Some(op.actor), Some(op.member), Some(op.tokenId),
                      Some(if c.cipher.Some? then c.cipher.value.encrypt(op.plaintext) else op.plaintext),
                      r.rejectReason, r.lastPolledAt))
  {
    DecidedIs(table, op.code, (r: Row) => Grant(c, r, op), i);
    hide Decided;
  }

  /** A rejection names its actor and its reason, if any; the rest of the row stays. */
  lemma {:induction false} RejectionIs(c: Config, table: Table, op: Op, i: nat)
    requires op.Reject? && i < |table| && table[i].value.userCode == op.code && table[i].value.status == Pending
    ensures var r := table[i].value;
      && |Step(c, table, op)| == |table|
      && Step(c, table, op)[i]
         == Entry(table[i].key,
                  Row(r.userCode, r.createdAt, r.expiresAt, Rejected, Some(op.actor), r.boundMember, r.tokenId,
                      r.tokenCt, op.reason, r.lastPolledAt))
  {
    DecidedIs(table, op.code, (r: Row) => Refuse(r, op), i);
    hide Decided;
  }

  /** Rows with another code, and rows already decided, are left as they are. */
  lemma {:induction false} OthersUndecided(c: Config, table: Table, op: Op, i: nat)
    requires (op.Approve? || op.Reject?) && i < |table|
    requires table[i].value.userCode != op.code || table[i].value.status != Pending
    ensures |Step(c, table, op)| == |table| && Step(c, table, op)[i] == table[i]
  {
    if op.Approve? {
      DecidedIs(table, op.code, (r: Row) => Grant(c, r, op), i);
    } else {
      DecidedIs(table, op.code, (r: Row) => Refuse(r, op), i);
    }
    hide Decided;
  }

  /** The first timely poll after a rejection is told the reason given then, and takes the row away. */
  lemma {:induction false} RejectionIsTold(c: Config, table: Table, op: Op, deviceCode: string, t: int)
    requires Inv(table) && op.Reject?
    requires var r := Get(table, c.hash(deviceCode)); r.Some? && Decidable(r.value, op.code) && t <= r.value.expiresAt
    ensures var (after, outcome) := PollOf(c, Step(c, table, op), deviceCode, t);
      outcome == AccessDenied(op.reason) && Get(after, c.hash(deviceCode)) == None
  {
    var hash := c.hash(deviceCode);
    StepInv(c, table, op);
    RowAlone(c, table, op, hash);
    assert Get(Step(c, table, op), hash) == Some(Refuse(Get(table, hash).value, op));
    hide Get, UniqueKeys, Step, CodesUnique, Complete, Delete;
    GetDelete(Step(c, table, op), hash, hash);
  }

  /** A purge removes the rows whose time is over, and no other. */
  lemma {:induction false} PurgeIs(table: Table, t: int, e: Entry<string, Row>)
    ensures multiset(PurgeOf(table, t))[e] == if e.value.expiresAt < t then 0 else multiset(table)[e]
  {
    FilterCounts(table, (x: Entry<string, Row>) => !(x.value.expiresAt < t), e);
  }

  // ------------------------------------------------------------------ user codes

  /** Eight symbols are displayed as two groups of four, anything else as it is. */
  lemma {:induction false} DisplayedIs(code: string)
    ensures |code| == 8 ==>
      FormatUserCode(code) == [code[0], code[1], code[2], code[3], '-', code[4], code[5], code[6], code[7]]
    ensures |code| != 8 ==> FormatUserCode(code) == code
  {
  }

  lemma {:induction false} StripIs(s: string, blank: char -> bool)
    ensures Strip(s, blank) == Filter(s, (ch: char) => !blank(ch) && ch != '-')
  {
    if s == [] {
    } else {
      StripIs(s[1..], blank);
    }
  }

  /** What a user types is read without blanks and dashes, in upper case, and only as eight symbols of the alphabet. */
  lemma {:induction false} TypedIs(input: string, blank: char -> bool, upper: string -> string)
    ensures var read := upper(Filter(input, (ch: char) => !blank(ch) && ch != '-'));
      NormalizeUserCode(input, blank, upper)
      == if |read| == 8 && forall i :: 0 <= i < 8 ==> read[i] in "0123456789ABCDEFGHJKMNPQRSTVWXYZ" then Some(read)
         else None
  {
    StripIs(input, blank);
  }

  lemma {:induction false} LowBits(b: bv8)
    ensures (b & 31) as int == b as int % 32
  {
  }

  function SymbolAt(i: nat): char
    requires i < 32
  {
    USER_CODE_ALPHABET[i]
  }

  lemma {:induction false} OneSymbol(b: bv8)
    ensures UserCodeFrom([b]) == [SymbolAt(b as int % 32)]
  {
    LowBits(b);
  }

  lemma {:induction false} SymbolRises(i: nat)
    requires i < 31
    ensures SymbolAt(i) < SymbolAt(i + 1)
  {
  }

  lemma {:induction false} SymbolsRise(i: nat, j: nat)
    requires i < j < 32
    ensures SymbolAt(i) < SymbolAt(j)
  {
    SymbolRises(j - 1);
    hide SymbolAt;
    if i < j - 1 {
      SymbolsRise(i, j - 1);
    }
  }

  /** Two random bytes give the same symbol exactly when they agree modulo 32: every symbol has eight bytes of 256. */
  lemma {:induction false} SymbolsEven(a: bv8, b: bv8)
    ensures UserCodeFrom([a]) == UserCodeFrom([b]) <==> a as int % 32 == b as int % 32
  {
    hide UserCodeFrom, SymbolAt;
    var i, j := a as int % 32, b as int % 32;
    OneSymbol(a);
    OneSymbol(b);
    if i < j {
      SymbolsRise(i, j);
    } else if j < i {
      SymbolsRise(j, i);
    }
    assert [SymbolAt(i)][0] == SymbolAt(i) && [SymbolAt(j)][0] == SymbolAt(j);
  }
}
