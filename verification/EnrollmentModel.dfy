/**
 * Enrollment by device code, after RFC 8628: pending enrollments, and what each operation of
 * the enrollment store does to them.
 */
module EnrollmentModel {
  import opened Prelude
  import opened OrderedMap

  const ENROLLMENT_TTL_MS := 300000
  const SLOW_DOWN_THRESHOLD_MS := 2500
  const DEFAULT_POLL_INTERVAL_S := 5
  const MINT_ATTEMPTS := 5
  const ENCRYPTED_FIELD_PREFIX := "enc-v1:"

  const USER_CODE_ALPHABET := "0123456789ABCDEFGHJKMNPQRSTVWXYZ"
  const USER_CODE_LEN := 8

  // -------------------------------------------------------------------- user codes

  predicate Canonical(code: string) {
    |code| == USER_CODE_LEN && forall i :: 0 <= i < |code| ==> code[i] in USER_CODE_ALPHABET
  }

  /** Spaces and hyphens dropped; `blank` says which characters the engine counts as white space. */
  function Strip(s: string, blank: char -> bool): string {
    if s == [] then []
    else (if blank(s[0]) || s[0] == '-' then [] else [s[0]]) + Strip(s[1..], blank)
  }

  function NormalizeUserCode(input: string, blank: char -> bool, upper: string -> string): Option<string> {
    var code := upper(Strip(input, blank));
    if |code| != USER_CODE_LEN then None
    else if exists i :: 0 <= i < |code| && code[i] !in USER_CODE_ALPHABET then None
    else Some(code)
  }

  function FormatUserCode(code: string): string {
    if |code| != USER_CODE_LEN then code else code[..4] + "-" + code[4..]
  }

  /** One symbol for each random byte: the alphabet has exactly 32. */
  function UserCodeFrom(bytes: seq<bv8>): (r: string)
    ensures |r| == |bytes|
  {
    seq(|bytes|, i requires 0 <= i < |bytes| => USER_CODE_ALPHABET[(bytes[i] & 31) as int])
  }

  // ------------------------------------------------------------------- field cipher

  /** Decrypting a value that looks encrypted but does not authenticate throws. */
  datatype Opened = Plain(text: string) | Null | Threw

  datatype Cipher = Cipher(encrypt: string -> string, decrypt: string -> Opened)

  predicate Prefixed(s: string) { ENCRYPTED_FIELD_PREFIX <= s }

  ghost predicate Lawful(c: Cipher) {
    && (forall p :: Prefixed(p) ==> c.encrypt(p) == p)
    && (forall p :: !Prefixed(p) ==> Prefixed(c.encrypt(p)) && c.decrypt(c.encrypt(p)) == Plain(p))
  }

  function Seal(cipher: Option<Cipher>, plaintext: string): string {
    if cipher.Some? then cipher.value.encrypt(plaintext) else plaintext
  }

  function Unseal(cipher: Option<Cipher>, ct: string): Opened {
    if cipher.Some? && Prefixed(ct) then cipher.value.decrypt(ct) else Plain(ct)
  }

  // --------------------------------------------------------------------------- rows

  datatype Status = Pending | Approved | Rejected

  datatype Row = Row(
    userCode: string,
    createdAt: int,
    expiresAt: int,
    status: Status,
    approvedBy: Option<string>,
    boundMember: Option<string>,
    tokenId: Option<string>,
    tokenCt: Option<string>,
    rejectReason: Option<string>,
    lastPolledAt: Option<int>)

  /** `pending_enrollments`, keyed by the hash of the device code. */
  type Table = seq<Entry<string, Row>>

  datatype Candidate = Candidate(deviceCode: string, userCode: string)

  datatype Outcome =
    | AuthorizationPending
    | SlowDown
    | ExpiredToken
    | AccessDenied(reason: Option<string>)
    | ApprovedToken(token: string, tokenId: string, member: string)
    | PollThrew

  datatype LookupOutcome =
    | LookupPending(row: Row)
    | LookupExpired
    | AlreadyApproved
    | AlreadyRejected(reason: Option<string>)
    | LookupMissing

  datatype Op =
    | Mint(candidates: seq<Candidate>, now: int)
    | Approve(code: string, actor: string, member: string, tokenId: string, plaintext: string)
    | Reject(code: string, actor: string, reason: Option<string>)
    | Poll(deviceCode: string, at: int)
    | Purge(cutoff: int)

  /** The device-code hash and the optional cipher a store is built with. */
  datatype Config = Config(hash: string -> string, cipher: Option<Cipher>)

  // --------------------------------------------------------------------- operations

  function NewRow(code: string, now: int): Row {
    Row(code, now, now + ENROLLMENT_TTL_MS, Pending, None, None, None, None, None, None)
  }

  predicate Collides(table: Table, hash: string, code: string) {
    Get(table, hash).Some? || exists e :: e in table && e.value.userCode == code
  }

  /** The first candidate neither of whose codes is taken. */
  function FirstFree(c: Config, table: Table, candidates: seq<Candidate>): (r: Option<Candidate>)
    ensures r.Some? ==> r.value in candidates && !Collides(table, c.hash(r.value.deviceCode), r.value.userCode)
    ensures r.None? ==> forall x :: x in candidates ==> Collides(table, c.hash(x.deviceCode), x.userCode)
  {
    if candidates == [] then None
    else if !Collides(table, c.hash(candidates[0].deviceCode), candidates[0].userCode) then Some(candidates[0])
    else FirstFree(c, table, candidates[1..])
  }

  function Tried(candidates: seq<Candidate>): seq<Candidate> { Take(candidates, MINT_ATTEMPTS) }

  function MintOf(c: Config, table: Table, candidates: seq<Candidate>, now: int): (Table, Option<Candidate>) {
    var free := FirstFree(c, table, Tried(candidates));
    if free.None? then (table, None)
    else (Put(table, c.hash(free.value.deviceCode), NewRow(free.value.userCode, now)), free)
  }

  predicate Decidable(r: Row, code: string) { r.userCode == code && r.status.Pending? }

  function Grant(c: Config, r: Row, op: Op): Row
    requires op.Approve?
  {
    r.(status := Approved, approvedBy := Some(op.actor), boundMember := Some(op.member),
       tokenId := Some(op.tokenId), tokenCt := Some(Seal(c.cipher, op.plaintext)))
  }

  function Refuse(r: Row, op: Op): Row
    requires op.Reject?
  {
    r.(status := Rejected, approvedBy := Some(op.actor), rejectReason := op.reason)
  }

  /** `UPDATE ... WHERE user_code = ? AND status = 'pending'`. */
  function Decided(table: Table, code: string, decide: Row -> Row): (r: Table)
    ensures |r| == |table|
  {
    if table == [] then []
    else [if Decidable(table[0].value, code) then Entry(table[0].key, decide(table[0].value)) else table[0]]
         + Decided(table[1..], code, decide)
  }

  /** Rows such an update changes. */
  function Changes(table: Table, code: string): nat {
    if table == [] then 0 else (if Decidable(table[0].value, code) then 1 else 0) + Changes(table[1..], code)
  }

  /** One poll of a stored row: what becomes of the row, and the answer. */
  function PollRow(c: Config, r: Row, t: int): (Option<Row>, Outcome) {
    if r.expiresAt < t then (None, ExpiredToken)
    else match r.status
      case Rejected => (None, AccessDenied(r.rejectReason))
      case Approved =>
        if r.tokenId.None? || r.tokenCt.None? || r.boundMember.None? then (None, ExpiredToken)
        else (match Unseal(c.cipher, r.tokenCt.value)
          case Threw => (Some(r), PollThrew)
          case Null => (None, ExpiredToken)
          case Plain(token) => (None, ApprovedToken(token, r.tokenId.value, r.boundMember.value)))
      case Pending =>
        (Some(r.(lastPolledAt := Some(t))),
         if r.lastPolledAt.Some? && t - r.lastPolledAt.value < SLOW_DOWN_THRESHOLD_MS then SlowDown
             else AuthorizationPending)
  }

  function PollOf(c: Config, table: Table, deviceCode: string, t: int): (Table, Outcome) {
    var hash := c.hash(deviceCode);
    var found := Get(table, hash);
    if found.None? then (table, ExpiredToken)
    else
      var (row, outcome) := PollRow(c, found.value, t);
      (if row.Some? then Put(table, hash, row.value) else Delete(table, hash), outcome)
  }

  function PurgeOf(table: Table, t: int): Table {
    Filter(table, (e: Entry<string, Row>) => !(e.value.expiresAt < t))
  }

  function Step(c: Config, table: Table, op: Op): Table {
    match op
    case Mint(candidates, now) => MintOf(c, table, candidates, now).0
    case Approve(code, _, _, _, _) => Decided(table, code, (r: Row) => Grant(c, r, op))
    case Reject(code, _, _) => Decided(table, code, (r: Row) => Refuse(r, op))
    case Poll(deviceCode, at) => PollOf(c, table, deviceCode, at).0
    case Purge(cutoff) => PurgeOf(table, cutoff)
  }

  function Run(c: Config, table: Table, ops: seq<Op>): Table
    decreases |ops|
  {
    if ops == [] then table else Run(c, Step(c, table, ops[0]), ops[1..])
  }

  /** `WHERE user_code = ?`. */
  function ByCode(table: Table, code: string): Option<Row> {
    if table == [] then None else if table[0].value.userCode == code then Some(table[0].value)
        else ByCode(table[1..], code)
  }

  function LookupOf(table: Table, code: string, t: int): LookupOutcome {
    var found := ByCode(table, code);
    if found.None? then LookupMissing
    else if found.value.expiresAt < t then LookupExpired
    else match found.value.status
      case Approved => AlreadyApproved
      case Rejected => AlreadyRejected(found.value.rejectReason)
      case Pending => LookupPending(found.value)
  }
}
