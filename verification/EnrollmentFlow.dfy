/** What a device sees over any run: the language of its poll answers, and where its token came from. */
module EnrollmentFlow {
  import opened Prelude
  import opened OrderedMap
  import opened EnrollmentModel

  // --------------------------------------------------------------------- invariant

  ghost predicate CodesUnique(table: Table) {
    forall a, b :: a in table && b in table && a.value.userCode == b.value.userCode ==> a.key == b.key
  }

  /** An approved row carries its token and member. */
  predicate Complete(r: Row) { r.status.Approved? ==> r.boundMember.Some? && r.tokenId.Some? && r.tokenCt.Some? }

  ghost predicate Inv(table: Table) {
    && UniqueKeys(table) && CodesUnique(table)
    && forall e :: e in table ==> Complete(e.value)
  }

  // ---------------------------------------------------------- one row, on its own

  /** What an operation does to the row of one device code, looking at nothing else. */
  function RowStep(c: Config, row: Option<Row>, op: Op, hash: string): Option<Row> {
    if row.None? then None
    else match op
      case Mint(_, _) => row
      case Approve(code, _, _, _, _) => if Decidable(row.value, code) then Some(Grant(c, row.value, op)) else row
      case Reject(code, _, _) => if Decidable(row.value, code) then Some(Refuse(row.value, op)) else row
      case Poll(deviceCode, at) => if c.hash(deviceCode) == hash then PollRow(c, row.value, at).0 else row
      case Purge(cutoff) => if row.value.expiresAt < cutoff then None else row
  }

  /** No candidate the operation tries has this hash. */
  predicate MintsOther(c: Config, op: Op, hash: string) {
    op.Mint? ==> forall x :: x in Tried(op.candidates) ==> c.hash(x.deviceCode) != hash
  }

  lemma {:induction false} GetDecided(table: Table, code: string, decide: Row -> Row, hash: string)
    ensures Get(Decided(table, code, decide), hash)
         == if Get(table, hash).None? then None
            else if Decidable(Get(table, hash).value, code) then Some(decide(Get(table, hash).value))
            else Get(table, hash)
  {
    if table == [] {
    } else {
      GetDecided(table[1..], code, decide, hash);
      assert Decided(table, code, decide)[1..] == Decided(table[1..], code, decide);
    }
  }

  /** The table, seen through one device code, is that row alone. */
  lemma {:induction false} RowAlone(c: Config, table: Table, op: Op, hash: string)
    requires UniqueKeys(table) && MintsOther(c, op, hash)
    ensures Get(Step(c, table, op), hash) == RowStep(c, Get(table, hash), op, hash)
  {
    hide Get, Put, Delete, UniqueKeys, PollRow, Decided, FirstFree;
    match op
    case Mint(candidates, now) =>
      var free := FirstFree(c, table, Tried(candidates));
      if free.Some? {
        GetPut(table, c.hash(free.value.deviceCode), NewRow(free.value.userCode, now), hash);
      }
    case Approve(code, _, _, _, _) =>
      GetDecided(table, code, (r: Row) => Grant(c, r, op), hash);
    case Reject(code, _, _) =>
      GetDecided(table, code, (r: Row) => Refuse(r, op), hash);
    case Poll(deviceCode, at) =>
      var h := c.hash(deviceCode);
      if Get(table, h).Some? {
        var row := PollRow(c, Get(table, h).value, at).0;
        if row.Some? {
          GetPut(table, h, row.value, hash);
        } else {
          GetDelete(table, h, hash);
        }
      }
    case Purge(cutoff) =>
      GetFilter(table, (e: Entry<string, Row>) => !(e.value.expiresAt < cutoff), hash);
  }

  // ---------------------------------------------------------------- the table's keep

  lemma {:induction false} DecidedRows(table: Table, code: string, decide: Row -> Row, e: Entry<string, Row>)
    requires e in Decided(table, code, decide)
    ensures exists x :: x in table && x.key == e.key
                     && e.value == if Decidable(x.value, code) then decide(x.value) else x.value
  {
    if e == Decided(table, code, decide)[0] {
      assert table[0] in table;
    } else {
      assert Decided(table, code, decide)[1..] == Decided(table[1..], code, decide);
      DecidedRows(table[1..], code, decide, e);
      var x :| x in table[1..] && x.key == e.key
            && e.value == if Decidable(x.value, code) then decide(x.value) else x.value;
      assert x in table;
    }
  }

  lemma {:induction false} DecidedKeys(table: Table, code: string, decide: Row -> Row)
    requires UniqueKeys(table)
    ensures UniqueKeys(Decided(table, code, decide))
  {
    if table == [] {
    } else {
      DecidedKeys(table[1..], code, decide);
      var t := Decided(table, code, decide);
      assert t[1..] == Decided(table[1..], code, decide);
      forall e | e in t[1..] ensures e.key != t[0].key {
        DecidedRows(table[1..], code, decide, e);
      }
    }
  }

  lemma {:induction false} DecidedInv(table: Table, code: string, decide: Row -> Row)
    requires Inv(table)
    requires forall r: Row :: decide(r).userCode == r.userCode && (Complete(r) ==> Complete(decide(r)))
    ensures Inv(Decided(table, code, decide))
  {
    hide Complete, Decidable, UniqueKeys, Decided;
    var t := Decided(table, code, decide);
    DecidedKeys(table, code, decide);
    forall e | e in t ensures Complete(e.value) {
      DecidedRows(table, code, decide, e);
    }
    forall a, b | a in t && b in t && a.value.userCode == b.value.userCode ensures a.key == b.key {
      DecidedRows(table, code, decide, a);
      DecidedRows(table, code, decide, b);
    }
  }

  lemma {:induction false} StepInv(c: Config, table: Table, op: Op)
    requires Inv(table)
    ensures Inv(Step(c, table, op))
  {
    match op
    case Mint(candidates, now) =>
      var free := FirstFree(c, table, Tried(candidates));
      if free.Some? {
        PutRow(table, c.hash(free.value.deviceCode), NewRow(free.value.userCode, now));
      }
    case Approve(code, _, _, _, _) =>
      DecidedInv(table, code, (r: Row) => Grant(c, r, op));
    case Reject(code, _, _) =>
      DecidedInv(table, code, (r: Row) => Refuse(r, op));
    case Poll(deviceCode, at) =>
      var h := c.hash(deviceCode);
      if Get(table, h).Some? {
        GetIn(table, h);
        var row := PollRow(c, Get(table, h).value, at).0;
        if row.Some? {
          PutRow(table, h, row.value);
        } else {
          DeleteKeys(table, h);
        }
      }
    case Purge(cutoff) =>
      GetFilter(table, (e: Entry<string, Row>) => !(e.value.expiresAt < cutoff), "");
  }

  lemma {:induction false} PutRow(table: Table, hash: string, r: Row)
    requires Inv(table) && Complete(r)
    requires forall e :: e in table && e.value.userCode == r.userCode ==> e.key == hash
    ensures Inv(Put(table, hash, r))
  {
    hide Complete, UniqueKeys;
    PutKeys(table, hash, r);
  }

  // ----------------------------------------------------------------- poll languages

  /** A poll's time and answer. */
  datatype Answer = Answer(at: int, outcome: Outcome)

  /** The answers a run gives to polls of one device code. */
  function Answers(c: Config, table: Table, ops: seq<Op>, hash: string): seq<Answer>
    decreases |ops|
  {
    if ops == [] then []
    else
      (if ops[0].Poll? && c.hash(ops[0].deviceCode) == hash
       then [Answer(ops[0].at, PollOf(c, table, ops[0].deviceCode, ops[0].at).1)] else [])
      + Answers(c, Step(c, table, ops[0]), ops[1..], hash)
  }

  /** The same answers, computed from the one row. */
  function RowAnswers(c: Config, row: Option<Row>, ops: seq<Op>, hash: string): seq<Answer>
    decreases |ops|
  {
    if ops == [] then []
    else
      (if ops[0].Poll? && c.hash(ops[0].deviceCode) == hash
       then [Answer(ops[0].at, if row.None? then ExpiredToken else PollRow(c, row.value, ops[0].at).1)] else [])
      + RowAnswers(c, RowStep(c, row, ops[0], hash), ops[1..], hash)
  }

  predicate NeverMints(c: Config, ops: seq<Op>, hash: string) {
    forall i :: 0 <= i < |ops| ==> MintsOther(c, ops[i], hash)
  }

  lemma {:induction false} AnswersFromRow(c: Config, table: Table, ops: seq<Op>, hash: string)
    requires Inv(table) && NeverMints(c, ops, hash)
    ensures Answers(c, table, ops, hash) == RowAnswers(c, Get(table, hash), ops, hash)
    ensures Get(Run(c, table, ops), hash) == RowAfter(c, Get(table, hash), ops, hash)
    decreases |ops|
  {
    if ops == [] {
    } else {
      RowAlone(c, table, ops[0], hash);
      StepInv(c, table, ops[0]);
      hide Inv, Step, RowStep, PollRow, Get, MintsOther;
      assert forall i :: 0 <= i < |ops[1..]| ==> ops[1..][i] == ops[i + 1];
      AnswersFromRow(c, Step(c, table, ops[0]), ops[1..], hash);
    }
  }

  function RowAfter(c: Config, row: Option<Row>, ops: seq<Op>, hash: string): Option<Row>
    decreases |ops|
  {
    if ops == [] then row else RowAfter(c, RowStep(c, row, ops[0], hash), ops[1..], hash)
  }

  predicate AllExpired(answers: seq<Answer>) {
    forall i :: 0 <= i < |answers| ==> answers[i].outcome == ExpiredToken
  }

  predicate Final(o: Outcome) { o.ApprovedToken? || o.AccessDenied? }

  /** threw* expired*: once the stored token cannot be read, every poll throws until the code expires. */
  predicate ThrowsThenExpires(answers: seq<Answer>) {
    AllExpired(answers) || (answers[0].outcome.PollThrew? && ThrowsThenExpires(answers[1..]))
  }

  /** (pending | slow_down)* ((approved | denied)? | threw*) expired*, with no other answer. */
  predicate TraceLanguage(answers: seq<Answer>) {
    || ThrowsThenExpires(answers)
    || ((answers[0].outcome.AuthorizationPending? || answers[0].outcome.SlowDown?) && TraceLanguage(answers[1..]))
    || (Final(answers[0].outcome) && AllExpired(answers[1..]))
  }

  predicate NoneThrows(answers: seq<Answer>) {
    forall i :: 0 <= i < |answers| ==> !answers[i].outcome.PollThrew?
  }

  lemma {:induction false} GoneExpires(c: Config, ops: seq<Op>, hash: string)
    ensures AllExpired(RowAnswers(c, None, ops, hash))
    decreases |ops|
  {
    if ops == [] {
    } else {
      GoneExpires(c, ops[1..], hash);
    }
  }

  /** No poll throws: without a cipher nothing is decrypted, with one no token carries the wrapper's prefix. */
  predicate Readable(c: Config, op: Op) { op.Approve? && c.cipher.Some? ==> !Prefixed(op.plaintext) }

  ghost predicate Opens(c: Config, r: Row) {
    r.status.Approved? ==> r.tokenCt.Some? && Unseal(c.cipher, r.tokenCt.value).Plain?
  }

  /** Encrypting and then reading back gives the plaintext, but for an already wrapped value. */
  lemma {:induction false} SealRoundTrip(c: Config, plaintext: string)
    requires c.cipher.Some? ==> Lawful(c.cipher.value)
    ensures Unseal(c.cipher, Seal(c.cipher, plaintext))
         == if c.cipher.Some? && Prefixed(plaintext) then c.cipher.value.decrypt(plaintext) else Plain(plaintext)
  {
  }

  lemma {:induction false} RowOpens(c: Config, row: Option<Row>, op: Op, hash: string)
    requires (c.cipher.Some? ==> Lawful(c.cipher.value)) && Readable(c, op)
    requires row.Some? ==> Opens(c, row.value)
    ensures RowStep(c, row, op, hash).Some? ==> Opens(c, RowStep(c, row, op, hash).value)
  {
    if op.Approve? {
      SealRoundTrip(c, op.plaintext);
    }
  }

  /** An approved row whose stored token cannot be read. */
  predicate Unreadable(c: Config, r: Row) {
    && r.status.Approved? && r.tokenId.Some? && r.tokenCt.Some? && r.boundMember.Some?
    && Unseal(c.cipher, r.tokenCt.value).Threw?
  }

  lemma {:induction false} ConsAnswer(a: Answer, rest: seq<Answer>)
    ensures ([a] + rest)[0] == a && ([a] + rest)[1..] == rest
  {
  }

  lemma {:induction false} UnreadableLanguage(c: Config, row: Option<Row>, ops: seq<Op>, hash: string)
    requires row.Some? ==> Unreadable(c, row.value)
    ensures ThrowsThenExpires(RowAnswers(c, row, ops, hash))
    decreases |ops|
  {
    if ops == [] || row.None? {
      GoneExpires(c, ops, hash);
    } else {
      var row', rest := RowStep(c, row, ops[0], hash), ops[1..];
      UnreadableLanguage(c, row', rest, hash);
      if ops[0].Poll? && c.hash(ops[0].deviceCode) == hash {
        ConsAnswer(Answer(ops[0].at, PollRow(c, row.value, ops[0].at).1), RowAnswers(c, row', rest, hash));
        if row'.None? {
          GoneExpires(c, rest, hash);
        }
      } else {
        assert [] + RowAnswers(c, row', rest, hash) == RowAnswers(c, row', rest, hash);
      }
    }
  }

  /** A poll leaves the row waiting, unreadable, or gone. */
  lemma {:induction false} PollLeaves(c: Config, row: Row, t: int)
    ensures var (row', outcome) := PollRow(c, row, t);
      || (outcome.AuthorizationPending? || outcome.SlowDown?)
      || (row' == Some(row) && Unreadable(c, row) && outcome.PollThrew?)
      || (row'.None? && (Final(outcome) || outcome.ExpiredToken?))
  {
  }

  lemma {:induction false} RowLanguage(c: Config, row: Option<Row>, ops: seq<Op>, hash: string)
    ensures TraceLanguage(RowAnswers(c, row, ops, hash))
    decreases |ops|
  {
    if ops == [] || row.None? {
      GoneExpires(c, ops, hash);
    } else {
      var row', rest := RowStep(c, row, ops[0], hash), ops[1..];
      var answers := RowAnswers(c, row', rest, hash);
      RowLanguage(c, row', rest, hash);
      if ops[0].Poll? && c.hash(ops[0].deviceCode) == hash {
        var a := Answer(ops[0].at, PollRow(c, row.value, ops[0].at).1);
        PollLeaves(c, row.value, ops[0].at);
        ConsAnswer(a, answers);
        if row'.None? {
          GoneExpires(c, rest, hash);
        } else if a.outcome.PollThrew? {
          UnreadableLanguage(c, row', rest, hash);
        }
      } else {
        assert [] + answers == answers;
      }
    }
  }

  lemma {:induction false} RowNeverThrows(c: Config, row: Option<Row>, ops: seq<Op>, hash: string)
    requires c.cipher.Some? ==> Lawful(c.cipher.value)
    requires forall i :: 0 <= i < |ops| ==> Readable(c, ops[i])
    requires row.Some? ==> Opens(c, row.value)
    ensures NoneThrows(RowAnswers(c, row, ops, hash))
    decreases |ops|
  {
    if ops == [] || row.None? {
      GoneExpires(c, ops, hash);
    } else {
      var rest := ops[1..];
      RowOpens(c, row, ops[0], hash);
      assert forall i :: 0 <= i < |rest| ==> rest[i] == ops[i + 1];
      RowNeverThrows(c, RowStep(c, row, ops[0], hash), rest, hash);
    }
  }

  /**
   * Over any run that does not draw the same device code again, its polls answer
   * (pending | slow_down)* ((approved | denied)? | threw*) expired*: a token is delivered
   * once at most, and a token that cannot be read is never delivered at all.
   */
  lemma {:induction false} PollsFormTrace(c: Config, table: Table, ops: seq<Op>, hash: string)
    requires Inv(table) && NeverMints(c, ops, hash)
    ensures TraceLanguage(Answers(c, table, ops, hash))
  {
    hide Inv, RowStep;
    AnswersFromRow(c, table, ops, hash);
    RowLanguage(c, Get(table, hash), ops, hash);
  }

  /** No poll throws while every stored and approved token is readable. */
  lemma {:induction false} ReadableNeverThrows(c: Config, table: Table, ops: seq<Op>, hash: string)
    requires c.cipher.Some? ==> Lawful(c.cipher.value)
    requires Inv(table) && NeverMints(c, ops, hash)
    requires Get(table, hash).Some? ==> Opens(c, Get(table, hash).value)
    requires forall i :: 0 <= i < |ops| ==> Readable(c, ops[i])
    ensures NoneThrows(Answers(c, table, ops, hash))
  {
    hide Inv, Opens, RowStep, Readable;
    AnswersFromRow(c, table, ops, hash);
    RowNeverThrows(c, Get(table, hash), ops, hash);
  }

  // ------------------------------------------------------------ where a token came from

  /** The first operation that decides the row. */
  function Winner(c: Config, row: Option<Row>, ops: seq<Op>, hash: string): Option<Op>
    decreases |ops|
  {
    if ops == [] || row.None? then None
    else if (ops[0].Approve? || ops[0].Reject?) && Decidable(row.value, ops[0].code) then Some(ops[0])
    else Winner(c, RowStep(c, row, ops[0], hash), ops[1..], hash)
  }

  /** An answer is what the winning decision, if any, calls for. */
  predicate Justified(c: Config, a: Answer, winner: Option<Op>, expiresAt: int) {
    && (a.outcome.ApprovedToken? ==>
          && winner.Some? && winner.value.Approve?
          && Unseal(c.cipher, Seal(c.cipher, winner.value.plaintext)) == Plain(a.outcome.token)
          && a.outcome.tokenId == winner.value.tokenId && a.outcome.member == winner.value.member
          && a.at <= expiresAt)
    && (a.outcome.AccessDenied? ==>
          winner.Some? && winner.value.Reject? && a.outcome.reason == winner.value.reason && a.at <= expiresAt)
  }

  predicate AllJustified(c: Config, answers: seq<Answer>, winner: Option<Op>, expiresAt: int) {
    forall i :: 0 <= i < |answers| ==> Justified(c, answers[i], winner, expiresAt)
  }

  /** A decided row keeps its decision until it goes. */
  ghost predicate DecidedBy(c: Config, row: Row, winner: Op, expiresAt: int) {
    && row.expiresAt == expiresAt
    && ((winner.Approve? && row.status.Approved? && row.tokenCt == Some(Seal(c.cipher, winner.plaintext))
         && row.tokenId == Some(winner.tokenId) && row.boundMember == Some(winner.member))
        || (winner.Reject? && row.status.Rejected? && row.rejectReason == winner.reason))
  }

  lemma {:induction false} NothingJustified(c: Config, ops: seq<Op>, hash: string, winner: Option<Op>, expiresAt: int)
    ensures AllJustified(c, RowAnswers(c, None, ops, hash), winner, expiresAt)
  {
    GoneExpires(c, ops, hash);
  }

  lemma {:induction false} ConsJustified(c: Config, a: Answer, rest: seq<Answer>, winner: Option<Op>, expiresAt: int)
    requires Justified(c, a, winner, expiresAt) && AllJustified(c, rest, winner, expiresAt)
    ensures AllJustified(c, [a] + rest, winner, expiresAt)
  {
  }

  lemma {:induction false} DecidedAnswers(c: Config, row: Option<Row>, ops: seq<Op>, hash: string, winner: Op,
      expiresAt: int)
    requires row.Some? ==> DecidedBy(c, row.value, winner, expiresAt)
    ensures AllJustified(c, RowAnswers(c, row, ops, hash), Some(winner), expiresAt)
    decreases |ops|
  {
    hide AllJustified;
    if ops == [] || row.None? {
      NothingJustified(c, ops, hash, Some(winner), expiresAt);
      assert ops == [] ==> RowAnswers(c, row, ops, hash) == RowAnswers(c, None, ops, hash);
    } else {
      var row', rest := RowStep(c, row, ops[0], hash), ops[1..];
      DecidedAnswers(c, row', rest, hash, winner, expiresAt);
      if ops[0].Poll? && c.hash(ops[0].deviceCode) == hash {
        ConsJustified(c, Answer(ops[0].at, PollRow(c, row.value, ops[0].at).1), RowAnswers(c, row', rest, hash),
            Some(winner), expiresAt);
      } else {
        assert [] + RowAnswers(c, row', rest, hash) == RowAnswers(c, row', rest, hash);
      }
    }
  }

  lemma {:induction false} PendingAnswers(c: Config, row: Row, ops: seq<Op>, hash: string)
    requires row.status.Pending?
    ensures AllJustified(c, RowAnswers(c, Some(row), ops, hash), Winner(c, Some(row), ops, hash), row.expiresAt)
    decreases |ops|
  {
    hide AllJustified;
    if ops == [] {
      NothingJustified(c, ops, hash, None, row.expiresAt);
    } else {
      var row', rest := RowStep(c, Some(row), ops[0], hash), ops[1..];
      var winner := Winner(c, Some(row), ops, hash);
      if (ops[0].Approve? || ops[0].Reject?) && Decidable(row, ops[0].code) {
        DecidedAnswers(c, row', rest, hash, ops[0], row.expiresAt);
      } else if row'.Some? {
        PendingAnswers(c, row'.value, rest, hash);
      } else {
        NothingJustified(c, rest, hash, winner, row.expiresAt);
      }
      if ops[0].Poll? && c.hash(ops[0].deviceCode) == hash {
        ConsJustified(c, Answer(ops[0].at, PollRow(c, row, ops[0].at).1), RowAnswers(c, row', rest, hash), winner,
            row.expiresAt);
      } else {
        assert [] + RowAnswers(c, row', rest, hash) == RowAnswers(c, row', rest, hash);
      }
    }
  }

  /**
   * From a pending enrollment on, whatever else the store does: a token is delivered
   * only if the first decision on its user code was an approval, it is that approval's
   * token for that approval's member, and it is never delivered after expiry; a denial
   * answers only a rejection that came first.
   */
  lemma {:induction false} TokenIsFirstApproval(c: Config, table: Table, ops: seq<Op>, hash: string, i: nat)
    requires c.cipher.Some? ==> Lawful(c.cipher.value)
    requires Inv(table) && NeverMints(c, ops, hash)
    requires Get(table, hash).Some? && Get(table, hash).value.status.Pending?
    requires i < |Answers(c, table, ops, hash)|
    ensures var row, a := Get(table, hash).value, Answers(c, table, ops, hash)[i];
      var winner := Winner(c, Some(row), ops, hash);
      && (a.outcome.ApprovedToken? ==>
            && winner.Some? && winner.value.Approve? && winner.value.code == row.userCode
            && a.outcome.tokenId == winner.value.tokenId && a.outcome.member == winner.value.member
            && a.at <= row.expiresAt
            && (c.cipher.None? || !Prefixed(winner.value.plaintext) ==> a.outcome.token == winner.value.plaintext))
      && (a.outcome.AccessDenied? ==>
            winner.Some? && winner.value.Reject? && winner.value.code == row.userCode
            && a.outcome.reason == winner.value.reason)
  {
    hide Inv, NeverMints, Answers, RowAnswers, Winner;
    var row := Get(table, hash).value;
    AnswersFromRow(c, table, ops, hash);
    PendingAnswers(c, row, ops, hash);
    assert Justified(c, Answers(c, table, ops, hash)[i], Winner(c, Some(row), ops, hash), row.expiresAt);
    WinnerCode(c, row, ops, hash);
    if Winner(c, Some(row), ops, hash).Some? && Winner(c, Some(row), ops, hash).value.Approve? {
      SealRoundTrip(c, Winner(c, Some(row), ops, hash).value.plaintext);
    }
  }

  lemma {:induction false} WinnerCode(c: Config, row: Row, ops: seq<Op>, hash: string)
    ensures var w := Winner(c, Some(row), ops, hash);
      w.Some? ==> (w.value.Approve? || w.value.Reject?) && w.value.code == row.userCode && w.value in ops
    decreases |ops|
  {
    if ops != [] && !((ops[0].Approve? || ops[0].Reject?) && Decidable(row, ops[0].code)) {
      var row' := RowStep(c, Some(row), ops[0], hash);
      if row'.Some? {
        WinnerCode(c, row'.value, ops[1..], hash);
      }
    }
  }

  /** An approved, unexpired enrollment delivers on the next poll, and the row is consumed. */
  lemma {:induction false} NextPollDelivers(c: Config, table: Table, op: Op, deviceCode: string, t: int)
    requires c.cipher.Some? ==> Lawful(c.cipher.value)
    requires Inv(table) && op.Approve?
    requires var r := Get(table, c.hash(deviceCode)); r.Some? && Decidable(r.value, op.code) && t <= r.value.expiresAt
    requires c.cipher.None? || !Prefixed(op.plaintext)
    ensures var (after, outcome) := PollOf(c, Step(c, table, op), deviceCode, t);
      && outcome == ApprovedToken(op.plaintext, op.tokenId, op.member)
      && Get(after, c.hash(deviceCode)).None?
  {
    var hash := c.hash(deviceCode);
    RowAlone(c, table, op, hash);
    StepInv(c, table, op);
    SealRoundTrip(c, op.plaintext);
    hide Get, UniqueKeys, Step, CodesUnique, Complete, Delete, Seal, Unseal;
    GetDelete(Step(c, table, op), hash, hash);
  }

  /**
   * A pending code's first poll is never told to slow down; a later one is exactly when
   * it comes less than the threshold after the one before, whatever that one was told.
   */
  lemma {:induction false} SlowDownIs(c: Config, table: Table, deviceCode: string, t1: int, t2: int)
    requires var r := Get(table, c.hash(deviceCode));
      r.Some? && r.value.status.Pending? && t1 <= r.value.expiresAt && t2 <= r.value.expiresAt
    ensures var first := PollOf(c, table, deviceCode, t1);
      var second := PollOf(c, first.0, deviceCode, t2);
      && (Get(table, c.hash(deviceCode)).value.lastPolledAt.None? ==> first.1 == AuthorizationPending)
      && second.1 == (if t2 - t1 < SLOW_DOWN_THRESHOLD_MS then SlowDown else AuthorizationPending)
  {
    var hash := c.hash(deviceCode);
    GetPut(table, hash, Get(table, hash).value.(lastPolledAt := Some(t1)), hash);
    hide Get, Put, Delete;
  }

  // ----------------------------------------------------------------- decisions, minting

  lemma {:induction false} ChangesIs(table: Table, code: string)
    ensures Changes(table, code) > 0 <==> exists e :: e in table && Decidable(e.value, code)
  {
    if table == [] {
    } else {
      ChangesIs(table[1..], code);
      assert table[0] in table;
    }
  }

  lemma {:induction false} ByCodeIs(table: Table, code: string)
    ensures ByCode(table, code).Some? <==> exists e :: e in table && e.value.userCode == code
    ensures ByCode(table, code).Some? ==> exists e :: e in table && e.value == ByCode(table, code).value
    ensures ByCode(table, code).Some? ==> ByCode(table, code).value.userCode == code
  {
    if table == [] {
    } else {
      ByCodeIs(table[1..], code);
      assert table[0] in table;
    }
  }

  /**
   * A decision succeeds exactly when a pending row holds the code, expired or not:
   * it succeeds on a row that a lookup at the same time calls expired exactly when
   * the pending row's time is over.
   */
  lemma {:induction false} DecisionIgnoresExpiry(table: Table, code: string, t: int)
    requires Inv(table)
    ensures Changes(table, code) > 0 <==> ByCode(table, code).Some? && ByCode(table, code).value.status.Pending?
    ensures Changes(table, code) > 0 ==>
      && (LookupOf(table, code, t) == LookupExpired <==> ByCode(table, code).value.expiresAt < t)
      && (LookupOf(table, code, t).LookupPending? <==> t <= ByCode(table, code).value.expiresAt)
  {
    ChangesIs(table, code);
    ByCodeIs(table, code);
    hide Changes, ByCode, UniqueKeys, Complete;
    if e :| e in table && Decidable(e.value, code) {
      var x :| x in table && x.value == ByCode(table, code).value;
      GetUnique(table, e);
      GetUnique(table, x);
    }
  }

  /** A lookup describes the one row with the code: expired first, then by its decision. */
  lemma {:induction false} LookupIs(table: Table, code: string, t: int)
    requires Inv(table)
    ensures LookupOf(table, code, t) == LookupMissing <==> forall e :: e in table ==> e.value.userCode != code
    ensures forall e :: e in table && e.value.userCode == code ==>
      LookupOf(table, code, t)
      == if e.value.expiresAt < t then LookupExpired
         else if e.value.status.Pending? then LookupPending(e.value)
         else if e.value.status.Approved? then AlreadyApproved
         else AlreadyRejected(e.value.rejectReason)
  {
    ByCodeIs(table, code);
    forall e | e in table && e.value.userCode == code ensures e.value == ByCode(table, code).value {
      var x :| x in table && x.value == ByCode(table, code).value;
      assert x.value.userCode == code && x.key == e.key;
      GetUnique(table, e);
      GetUnique(table, x);
    }
    hide ByCode, UniqueKeys, Complete, CodesUnique;
  }

  /** A decision on an expired row occurs: minted at 0, decided just past its term. */
  lemma {:induction false} ExpiredDecisionOccurs(c: Config, d: Candidate)
    ensures var table := MintOf(c, [], [d], 0).0;
      Changes(table, d.userCode) == 1 && LookupOf(table, d.userCode, ENROLLMENT_TTL_MS + 1) == LookupExpired
  {
    assert Tried([d]) == [d] && FirstFree(c, [], [d]) == Some(d);
    var table := MintOf(c, [], [d], 0).0;
    assert table == [Entry(c.hash(d.deviceCode), NewRow(d.userCode, 0))] && table[1..] == [];
  }

  /** At most one row changes. */
  lemma {:induction false} OneDecision(table: Table, code: string)
    requires Inv(table)
    ensures Changes(table, code) <= 1
  {
    if table == [] {
    } else {
      assert Inv(table[1..]);
      OneDecision(table[1..], code);
      ChangesIs(table[1..], code);
      if Decidable(table[0].value, code) {
        forall e | e in table[1..] ensures !Decidable(e.value, code) {
          assert e in table && table[0] in table;
        }
      }
    }
  }

  /** Minting succeeds exactly when one of five draws is free, and leaves that row pending for the full term. */
  lemma {:induction false} MintIs(c: Config, table: Table, candidates: seq<Candidate>, now: int)
    requires Inv(table)
    ensures var (after, drawn) := MintOf(c, table, candidates, now);
      && (drawn.Some? <==> exists x :: x in Tried(candidates) && !Collides(table, c.hash(x.deviceCode), x.userCode))
      && (drawn.None? ==> after == table)
      && (drawn.Some? ==>
            && Inv(after)
            && Get(after, c.hash(drawn.value.deviceCode)) == Some(NewRow(drawn.value.userCode, now))
            && forall h :: h != c.hash(drawn.value.deviceCode) ==> Get(after, h) == Get(table, h))
  {
    var (after, drawn) := MintOf(c, table, candidates, now);
    StepInv(c, table, Mint(candidates, now));
    hide Get, Put, Inv;
    if drawn.Some? {
      forall h ensures Get(after, h) == if h == c.hash(drawn.value.deviceCode)
          then Some(NewRow(drawn.value.userCode, now)) else Get(table, h) {
        GetPut(table, c.hash(drawn.value.deviceCode), NewRow(drawn.value.userCode, now), h);
      }
    }
  }

  // -------------------------------------------------------------------- user codes

  lemma {:induction false} StripAppend(a: string, b: string, blank: char -> bool)
    ensures Strip(a + b, blank) == Strip(a, blank) + Strip(b, blank)
  {
    if a == [] {
      assert a + b == b;
    } else {
      assert (a + b)[0] == a[0] && (a + b)[1..] == a[1..] + b;
      StripAppend(a[1..], b, blank);
    }
  }

  lemma {:induction false} StripClean(s: string, blank: char -> bool)
    requires forall i :: 0 <= i < |s| ==> !blank(s[i]) && s[i] != '-'
    ensures Strip(s, blank) == s
  {
    if s == [] {
    } else {
      StripClean(s[1..], blank);
    }
  }

  /** The displayed form normalizes back to the stored code, and only canonical codes come out. */
  lemma {:induction false} CodeRoundTrip(code: string, blank: char -> bool, upper: string -> string)
    requires Canonical(code) && upper(code) == code
    requires forall ch :: ch in USER_CODE_ALPHABET ==> !blank(ch)
    ensures NormalizeUserCode(FormatUserCode(code), blank, upper) == Some(code)
    ensures NormalizeUserCode(code, blank, upper) == Some(code)
  {
    assert '-' !in USER_CODE_ALPHABET;
    var a, b := code[..4], code[4..];
    assert code == a + b && FormatUserCode(code) == a + "-" + b;
    StripClean(code, blank);
    StripClean(a, blank);
    StripClean(b, blank);
    StripAppend(a + "-", b, blank);
    StripAppend(a, "-", blank);
    assert "-"[1..] == [] && Strip("-", blank) == [];
    assert a + [] == a;
  }

  /** Every generated code is canonical. */
  lemma {:induction false} GeneratedIsCanonical(bytes: seq<bv8>)
    requires |bytes| == USER_CODE_LEN
    ensures Canonical(UserCodeFrom(bytes))
  {
    var r := UserCodeFrom(bytes);
    forall i | 0 <= i < |r| ensures r[i] in USER_CODE_ALPHABET {
      assert r[i] == USER_CODE_ALPHABET[(bytes[i] & 31) as int];
    }
  }

  // ------------------------------------------------------------------- a whole run

  lemma {:induction false} RunInv(c: Config, table: Table, ops: seq<Op>)
    requires Inv(table)
    ensures Inv(Run(c, table, ops))
    decreases |ops|
  {
    hide Inv, Step;
    if ops == [] {
    } else {
      StepInv(c, table, ops[0]);
      RunInv(c, Step(c, table, ops[0]), ops[1..]);
    }
  }

  lemma {:induction false} EmptyInv()
    ensures Inv([])
  {
  }

  /**
   * Whatever ran before on a new store, a freshly minted code is pending, and from
   * then on its answers form one trace.
   */
  lemma {:induction false} MintedCodeTrace(c: Config, before: seq<Op>, candidates: seq<Candidate>, now: int,
      ops: seq<Op>)
    requires MintOf(c, Run(c, [], before), candidates, now).1.Some?
    requires var d := MintOf(c, Run(c, [], before), candidates, now).1.value; NeverMints(c, ops, c.hash(d.deviceCode))
    ensures var (table, drawn) := MintOf(c, Run(c, [], before), candidates, now);
      && Get(table, c.hash(drawn.value.deviceCode)) == Some(NewRow(drawn.value.userCode, now))
      && TraceLanguage(Answers(c, table, ops, c.hash(drawn.value.deviceCode)))
      && ((c.cipher.Some? ==> Lawful(c.cipher.value)) && (forall i :: 0 <= i < |ops| ==> Readable(c, ops[i])) ==>
            NoneThrows(Answers(c, table, ops, c.hash(drawn.value.deviceCode))))
  {
    EmptyInv();
    RunInv(c, [], before);
    var table0 := Run(c, [], before);
    MintIs(c, table0, candidates, now);
    var (table, drawn) := MintOf(c, table0, candidates, now);
    var hash := c.hash(drawn.value.deviceCode);
    var row := NewRow(drawn.value.userCode, now);
    assert Opens(c, row);
    hide *;
    AnswersFromRow(c, table, ops, hash);
    RowLanguage(c, Some(row), ops, hash);
    if (c.cipher.Some? ==> Lawful(c.cipher.value)) && forall i :: 0 <= i < |ops| ==> Readable(c, ops[i]) {
      RowNeverThrows(c, Some(row), ops, hash);
    }
  }
}
