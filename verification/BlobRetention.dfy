/**
 * The raw-body store and the retention prune over the activity database: a blob
 * is stored once per content hash, several exchanges and inferences may refer to
 * it, and the prune collects a blob exactly when nothing refers to it any more.
 */
module BlobRetention {
  import opened Prelude

  type Bytes = seq<bv8>

  /** Library functions, opaque to the store; decompression may fail. */
  datatype Codec = Codec(hash: Bytes -> string, gzip: Bytes -> Bytes, gunzip: Bytes -> Option<Bytes>)

  ghost predicate Lawful(c: Codec) { forall b :: c.gunzip(c.gzip(b)) == Some(b) }

  ghost predicate CollisionFree(c: Codec) { forall a, b :: c.hash(a) == c.hash(b) ==> a == b }

  datatype Kind = Request | Response

  datatype Envelope = Envelope(
    requestId: Option<string>,
    querySource: Option<string>,
    agentName: Option<string>,
    eventTs: Option<int>)

  datatype Exchange = Exchange(id: int, member: string, kind: Kind, hash: string, bodyLength: nat, envelope: Envelope)

  datatype Inference = Inference(ts: int, requestSha: Option<string>, responseSha: Option<string>)

  /** Each table is there only if a deployment wired its store; `activity` and `telemetry` hold timestamps. */
  datatype Db = Db(
    activity: Option<seq<int>>,
    inferences: Option<seq<Inference>>,
    telemetry: Option<seq<int>>,
    exchanges: Option<seq<Exchange>>,
    blobs: Option<map<string, Bytes>>,
    nextId: int)

  datatype PruneResult = PruneResult(
    memberActivity: nat, genAiInference: nat, telemetry: nat, rawExchange: nat, rawBlob: nat, total: nat)

  datatype Patch = Patch(requestId: string, querySource: Option<string>, agentName: Option<string>)

  // ------------------------------------------------------------------- operations

  function Coalesce<T>(existing: Option<T>, patch: Option<T>): Option<T> {
    if existing.Some? then existing else patch
  }

  function Patched(e: Exchange, p: Patch): Exchange {
    e.(envelope := e.envelope.(
      requestId := Coalesce(e.envelope.requestId, Some(p.requestId)),
      querySource := Coalesce(e.envelope.querySource, p.querySource),
      agentName := Coalesce(e.envelope.agentName, p.agentName)))
  }

  /** `UPDATE ... WHERE id = ?`. */
  function AssignIn(rows: seq<Exchange>, id: int, p: Patch): (r: seq<Exchange>)
    ensures |r| == |rows|
    ensures forall i :: 0 <= i < |rows| ==> r[i] == if rows[i].id == id then Patched(rows[i], p) else rows[i]
  {
    seq(|rows|, i requires 0 <= i < |rows| => if rows[i].id == id then Patched(rows[i], p) else rows[i])
  }

  /** Insert-or-ignore on the content hash. */
  function StoreBlob(c: Codec, blobs: map<string, Bytes>, bytes: Bytes): map<string, Bytes> {
    if c.hash(bytes) in blobs then blobs else blobs[c.hash(bytes) := c.gzip(bytes)]
  }

  function GetBlob(c: Codec, db: Db, hash: string): Option<Bytes> {
    if db.blobs.None? || hash !in db.blobs.value then None
    else
      var bytes := c.gunzip(db.blobs.value[hash]);
      if bytes.Some? && c.hash(bytes.value) == hash then bytes else None
  }

  // ------------------------------------------------------------------------ prune

  /** SQL comparison: a NULL time is never older than the cutoff. */
  predicate OlderExchange(e: Exchange, cutoff: int) { e.envelope.eventTs.Some? && e.envelope.eventTs.value < cutoff }

  function KeepTimes(rows: Option<seq<int>>, cutoff: int): Option<seq<int>> {
    if rows.None? then None else Some(Filter(rows.value, (ts: int) => ts >= cutoff))
  }

  function KeepInferences(rows: Option<seq<Inference>>, cutoff: int): Option<seq<Inference>> {
    if rows.None? then None else Some(Filter(rows.value, (g: Inference) => g.ts >= cutoff))
  }

  function KeepExchanges(rows: Option<seq<Exchange>>, cutoff: int): Option<seq<Exchange>> {
    if rows.None? then None else Some(Filter(rows.value, (e: Exchange) => !OlderExchange(e, cutoff)))
  }

  predicate ByExchange(rows: Option<seq<Exchange>>, hash: string) {
    rows.Some? && exists e :: e in rows.value && e.hash == hash
  }

  predicate ByInference(rows: Option<seq<Inference>>, hash: string) {
    rows.Some? && exists g :: g in rows.value && (g.requestSha == Some(hash) || g.responseSha == Some(hash))
  }

  predicate Referenced(db: Db, hash: string) { ByExchange(db.exchanges, hash) || ByInference(db.inferences, hash) }

  /** With no referrer table at all the sweep does not run. */
  function SweptBlobs(db: Db): Option<map<string, Bytes>> {
    if db.blobs.None? || (db.exchanges.None? && db.inferences.None?) then db.blobs
    else Some(map h | h in db.blobs.value && Referenced(db, h) :: db.blobs.value[h])
  }

  function DeleteOlder(db: Db, cutoff: int): Db {
    db.(activity := KeepTimes(db.activity, cutoff), inferences := KeepInferences(db.inferences, cutoff),
        telemetry := KeepTimes(db.telemetry, cutoff), exchanges := KeepExchanges(db.exchanges, cutoff))
  }

  /** Referrers first, then the blobs nothing refers to. */
  function Pruned(db: Db, cutoff: int): Db {
    var rows := DeleteOlder(db, cutoff);
    rows.(blobs := SweptBlobs(rows))
  }

  function Rows<T>(table: Option<seq<T>>): nat { if table.Some? then |table.value| else 0 }

  function BlobRows(db: Db): nat { if db.blobs.Some? then |db.blobs.value| else 0 }

  function TotalRows(db: Db): nat {
    Rows(db.activity) + Rows(db.inferences) + Rows(db.telemetry) + Rows(db.exchanges) + BlobRows(db)
  }

  // ------------------------------------------------------------------------- class

  /** The activity database, as the raw-body store and the prune share it. */
  class ActivityDb {
    const codec: Codec
    var activity: Option<seq<int>>
    var inferences: Option<seq<Inference>>
    var telemetry: Option<seq<int>>
    var exchanges: Option<seq<Exchange>>
    var blobs: Option<map<string, Bytes>>
    var nextId: int

    function State(): Db
      reads this
    {
      Db(activity, inferences, telemetry, exchanges, blobs, nextId)
    }

    /** The raw-body store creates its own two tables; the others depend on the deployment. */
    constructor (codec: Codec, hasActivity: bool, hasInferences: bool, hasTelemetry: bool)
      ensures this.codec == codec && State() == EmptyDb(hasActivity, hasInferences, hasTelemetry)
    {
      this.codec := codec;
      activity := if hasActivity then Some([]) else None;
      inferences := if hasInferences then Some([]) else None;
      telemetry := if hasTelemetry then Some([]) else None;
      exchanges, blobs, nextId := Some([]), Some(map[]), 1;
    }

    method AppendBody(member: string, kind: Kind, bytes: Bytes, env: Envelope) returns (hash: string, id: int)
      requires exchanges.Some? && blobs.Some?
      modifies this
      ensures State() == Appended(codec, old(State()), member, kind, bytes, env)
      ensures hash == codec.hash(bytes) && id == old(nextId)
    {
      hash := codec.hash(bytes);
      var gz := codec.gzip(bytes);
      if hash !in blobs.value {
        blobs := Some(blobs.value[hash := gz]);
      }
      id := nextId;
      exchanges := Some(exchanges.value + [Exchange(id, member, kind, hash, |bytes|, env)]);
      nextId := nextId + 1;
    }

    method AssignRequestId(id: int, patch: Patch)
      requires exchanges.Some?
      modifies this
      ensures State() == Assigned(old(State()), id, patch)
    {
      exchanges := Some(AssignIn(exchanges.value, id, patch));
    }

    /** Never serves bytes that do not hash to their key. */
    method ReadBlob(hash: string) returns (r: Option<Bytes>)
      ensures r == GetBlob(codec, State(), hash)
      ensures r.Some? ==> codec.hash(r.value) == hash
    {
      if blobs.None? || hash !in blobs.value { return None; }
      var bytes := codec.gunzip(blobs.value[hash]);
      if bytes.None? { return None; }
      if codec.hash(bytes.value) != hash { return None; }
      r := bytes;
    }

    /** Deletes the blobs nothing refers to; each clause is added only for a table that exists. */
    method SweepOrphans() returns (gone: nat)
      modifies this`blobs
      ensures blobs == SweptBlobs(old(State()))
      ensures gone == BlobRows(old(State())) - BlobRows(State())
    {
      gone := 0;
      if blobs.None? || (exchanges.None? && inferences.None?) { return; }
      var kept := map h | h in blobs.value
        && !((exchanges.None? || !ByExchange(exchanges, h)) && (inferences.None? || !ByInference(inferences, h)))
        :: blobs.value[h];
      assert kept == SweptBlobs(State()).value;
      MapShrinks(blobs.value, kept);
      gone := |blobs.value| - |kept|;
      blobs := Some(kept);
    }

    /** The reported counts are the real size differences. */
    method PruneActivityDb(cutoff: int) returns (r: PruneResult)
      modifies this
      ensures State() == Pruned(old(State()), cutoff)
      ensures r.memberActivity == Rows(old(activity)) - Rows(activity)
      ensures r.genAiInference == Rows(old(inferences)) - Rows(inferences)
      ensures r.telemetry == Rows(old(telemetry)) - Rows(telemetry)
      ensures r.rawExchange == Rows(old(exchanges)) - Rows(exchanges)
      ensures r.rawBlob == BlobRows(old(State())) - BlobRows(State())
      ensures r.total == TotalRows(old(State())) - TotalRows(State())
    {
      var activityGone := Rows(activity) - Rows(KeepTimes(activity, cutoff));
      activity := KeepTimes(activity, cutoff);
      var inferencesGone := Rows(inferences) - Rows(KeepInferences(inferences, cutoff));
      inferences := KeepInferences(inferences, cutoff);
      var telemetryGone := Rows(telemetry) - Rows(KeepTimes(telemetry, cutoff));
      telemetry := KeepTimes(telemetry, cutoff);
      var exchangesGone := Rows(exchanges) - Rows(KeepExchanges(exchanges, cutoff));
      exchanges := KeepExchanges(exchanges, cutoff);
      assert State() == DeleteOlder(old(State()), cutoff);
      hide KeepTimes, KeepInferences, KeepExchanges, SweptBlobs;
      var blobsGone := SweepOrphans();
      r := PruneResult(activityGone, inferencesGone, telemetryGone, exchangesGone, blobsGone,
                       activityGone + inferencesGone + telemetryGone + exchangesGone + blobsGone);
    }
  }

  lemma {:induction false} MapShrinks<K, V>(m: map<K, V>, n: map<K, V>)
    requires n.Keys <= m.Keys
    ensures |n| <= |m|
  {
    SetShrinks(n.Keys, m.Keys);
    assert |n| == |n.Keys| && |m| == |m.Keys|;
  }

  lemma {:induction false} SetShrinks<T>(a: set<T>, b: set<T>)
    requires a <= b
    ensures |a| <= |b|
  {
    assert b == a + (b - a);
  }

  // ------------------------------------------------------------------ transitions

  function EmptyDb(hasActivity: bool, hasInferences: bool, hasTelemetry: bool): Db {
    Db(if hasActivity then Some([]) else None, if hasInferences then Some([]) else None,
       if hasTelemetry then Some([]) else None, Some([]), Some(map[]), 1)
  }

  function Appended(c: Codec, db: Db, member: string, kind: Kind, bytes: Bytes, env: Envelope): Db
    requires db.exchanges.Some? && db.blobs.Some?
  {
    db.(blobs := Some(StoreBlob(c, db.blobs.value, bytes)),
        exchanges := Some(db.exchanges.value + [Exchange(db.nextId, member, kind, c.hash(bytes), |bytes|, env)]),
        nextId := db.nextId + 1)
  }

  function Assigned(db: Db, id: int, p: Patch): Db
    requires db.exchanges.Some?
  {
    db.(exchanges := Some(AssignIn(db.exchanges.value, id, p)))
  }

  /** Another store of the same database writes a row. */
  function Inferred(db: Db, g: Inference): Db {
    if db.inferences.None? then db else db.(inferences := Some(db.inferences.value + [g]))
  }

  // --------------------------------------------------------------------- prune laws

  /**
   * Nothing unreferenced survives a prune, when some referrer table exists; without one,
   * nothing is swept.  The referring exchanges that stay are the recent ones and those
   * with no event time.
   */
  lemma {:induction false} NoOrphans(db: Db, cutoff: int)
    ensures var db' := Pruned(db, cutoff);
      && (db.blobs.Some? && (db.exchanges.Some? || db.inferences.Some?) ==>
            db'.blobs.Some? && forall h :: h in db'.blobs.value <==> h in db.blobs.value && Referenced(db', h))
      && (db.exchanges.None? && db.inferences.None? ==> db'.blobs == db.blobs)
      && (db.blobs.Some? ==> db'.blobs.Some? && forall h :: h in db'.blobs.value ==>
            h in db.blobs.value && db'.blobs.value[h] == db.blobs.value[h])
      && (db.exchanges.Some? ==> db'.exchanges.Some? && forall e :: e in db'.exchanges.value <==>
            e in db.exchanges.value && (e.envelope.eventTs.None? || e.envelope.eventTs.value >= cutoff))
  {
    var rows := DeleteOlder(db, cutoff);
    assert forall h :: Referenced(rows, h) == Referenced(Pruned(db, cutoff), h);
  }

  /** A prune takes what is older than the cutoff from every table that is there, and leaves the rest. */
  lemma {:induction false} AgedRowsGo(db: Db, cutoff: int, ts: int, g: Inference, e: Exchange)
    ensures var db' := Pruned(db, cutoff);
      && (db.activity.None? <==> db'.activity.None?) && (db.telemetry.None? <==> db'.telemetry.None?)
      && (db.inferences.None? <==> db'.inferences.None?) && (db.exchanges.None? <==> db'.exchanges.None?)
      && (db.activity.Some? ==>
            multiset(db'.activity.value)[ts] == if ts < cutoff then 0 else multiset(db.activity.value)[ts])
      && (db.telemetry.Some? ==>
            multiset(db'.telemetry.value)[ts] == if ts < cutoff then 0 else multiset(db.telemetry.value)[ts])
      && (db.inferences.Some? ==>
            multiset(db'.inferences.value)[g] == if g.ts < cutoff then 0 else multiset(db.inferences.value)[g])
      && (db.exchanges.Some? ==>
            multiset(db'.exchanges.value)[e]
            == if e.envelope.eventTs.Some? && e.envelope.eventTs.value < cutoff then 0
               else multiset(db.exchanges.value)[e])
  {
    if db.activity.Some? {
      FilterCounts(db.activity.value, (ts: int) => ts >= cutoff, ts);
    }
    if db.telemetry.Some? {
      FilterCounts(db.telemetry.value, (ts: int) => ts >= cutoff, ts);
    }
    if db.inferences.Some? {
      FilterCounts(db.inferences.value, (g: Inference) => g.ts >= cutoff, g);
    }
    if db.exchanges.Some? {
      FilterCounts(db.exchanges.value, (e: Exchange) => !OlderExchange(e, cutoff), e);
    }
    hide SweptBlobs, Filter;
  }

  lemma {:induction false} KeepTwiceTimes(rows: Option<seq<int>>, c1: int, c2: int)
    ensures KeepTimes(KeepTimes(rows, c1), c2) == KeepTimes(rows, Max(c1, c2))
  {
    if rows.Some? {
      FilterFilter(rows.value, (ts: int) => ts >= c1, (ts: int) => ts >= c2, (ts: int) => ts >= Max(c1, c2));
    }
  }

  lemma {:induction false} KeepTwiceInferences(rows: Option<seq<Inference>>, c1: int, c2: int)
    ensures KeepInferences(KeepInferences(rows, c1), c2) == KeepInferences(rows, Max(c1, c2))
  {
    if rows.Some? {
      FilterFilter(rows.value, (g: Inference) => g.ts >= c1, (g: Inference) => g.ts >= c2,
                   (g: Inference) => g.ts >= Max(c1, c2));
    }
  }

  lemma {:induction false} KeepTwiceExchanges(rows: Option<seq<Exchange>>, c1: int, c2: int)
    ensures KeepExchanges(KeepExchanges(rows, c1), c2) == KeepExchanges(rows, Max(c1, c2))
  {
    if rows.Some? {
      FilterFilter(rows.value, (e: Exchange) => !OlderExchange(e, c1), (e: Exchange) => !OlderExchange(e, c2),
                   (e: Exchange) => !OlderExchange(e, Max(c1, c2)));
    }
  }

  /** Deleting more rows can only unreference more blobs. */
  lemma {:induction false} ReferencedShrinks(db: Db, cutoff: int, h: string)
    ensures Referenced(DeleteOlder(db, cutoff), h) ==> Referenced(db, h)
  {
  }

  /** Two prunes are one at the later cutoff: the same rows, the same blobs. */
  lemma {:induction false} PruneTwice(db: Db, c1: int, c2: int)
    ensures Pruned(Pruned(db, c1), c2) == Pruned(db, Max(c1, c2))
  {
    var one, two, max := DeleteOlder(db, c1), DeleteOlder(Pruned(db, c1), c2), DeleteOlder(db, Max(c1, c2));
    KeepTwiceTimes(db.activity, c1, c2);
    KeepTwiceTimes(db.telemetry, c1, c2);
    KeepTwiceInferences(db.inferences, c1, c2);
    KeepTwiceExchanges(db.exchanges, c1, c2);
    assert DeleteOlder(one, c2) == max;
    assert two == max.(blobs := SweptBlobs(one));
    forall h ensures Referenced(max, h) ==> Referenced(one, h) {
      ReferencedShrinks(one, c2, h);
    }
    assert forall h :: Referenced(two, h) == Referenced(max, h);
    hide KeepTimes, KeepInferences, KeepExchanges, Referenced;
    if db.blobs.Some? && (db.exchanges.Some? || db.inferences.Some?) {
      assert max.exchanges.Some? || max.inferences.Some?;
    }
    SweptEqual(two, max, one);
  }

  lemma {:induction false} SweptEqual(two: Db, max: Db, one: Db)
    requires two == max.(blobs := SweptBlobs(one)) && max.blobs == one.blobs
    requires (one.exchanges.None? <==> max.exchanges.None?) && (one.inferences.None? <==> max.inferences.None?)
    requires forall h :: Referenced(two, h) == Referenced(max, h)
    requires forall h :: Referenced(max, h) ==> Referenced(one, h)
    ensures SweptBlobs(two) == SweptBlobs(max)
  {
    hide Referenced;
    if max.blobs.Some? && !(max.exchanges.None? && max.inferences.None?) {
      var a, b := SweptBlobs(two).value, SweptBlobs(max).value;
      assert forall h :: h in a <==> h in b;
      assert forall h :: h in a ==> a[h] == b[h];
      assert a == b;
    }
  }

  // --------------------------------------------------------------------------- runs

  datatype Op =
    | AppendOp(member: string, kind: Kind, bytes: Bytes, env: Envelope)
    | AssignOp(id: int, patch: Patch)
    | InferOp(inference: Inference)
    | PruneOp(cutoff: int)

  /** The database, and the bytes every exchange was captured with. */
  datatype Store = Store(db: Db, bodies: map<int, Bytes>)

  predicate HasTables(db: Db) { db.exchanges.Some? && db.blobs.Some? }

  function Step(c: Codec, s: Store, op: Op): (t: Store)
    requires HasTables(s.db)
    ensures HasTables(t.db)
  {
    match op
    case AppendOp(member, kind, bytes, env) =>
      Store(Appended(c, s.db, member, kind, bytes, env), s.bodies[s.db.nextId := bytes])
    case AssignOp(id, patch) => s.(db := Assigned(s.db, id, patch))
    case InferOp(g) => s.(db := Inferred(s.db, g))
    case PruneOp(cutoff) => s.(db := Pruned(s.db, cutoff))
  }

  function Run(c: Codec, s: Store, ops: seq<Op>): (t: Store)
    requires HasTables(s.db)
    ensures HasTables(t.db)
    decreases |ops|
  {
    if ops == [] then s else Run(c, Step(c, s, ops[0]), ops[1..])
  }

  predicate Backed(c: Codec, s: Store, e: Exchange)
    requires s.db.blobs.Some?
  {
    && e.hash in s.db.blobs.value
    && e.id < s.db.nextId && e.id in s.bodies
    && e.hash == c.hash(s.bodies[e.id]) && e.bodyLength == |s.bodies[e.id]|
  }

  predicate Addressed(c: Codec, blobs: map<string, Bytes>, h: string)
    requires h in blobs
  {
    c.gunzip(blobs[h]).Some? && c.hash(c.gunzip(blobs[h]).value) == h
  }

  /** Every exchange has its blob, and every blob decompresses to bytes that hash to its key. */
  ghost predicate Inv(c: Codec, s: Store) {
    && HasTables(s.db)
    && (forall e :: e in s.db.exchanges.value ==> Backed(c, s, e))
    && (forall h :: h in s.db.blobs.value ==> Addressed(c, s.db.blobs.value, h))
  }

  lemma {:induction false} StepInv(c: Codec, s: Store, op: Op)
    requires Lawful(c) && Inv(c, s)
    ensures Inv(c, Step(c, s, op))
  {
    var t := Step(c, s, op);
    match op
    case AppendOp(member, kind, bytes, env) =>
      var added := Exchange(s.db.nextId, member, kind, c.hash(bytes), |bytes|, env);
      assert c.gunzip(c.gzip(bytes)) == Some(bytes);
      forall e | e in t.db.exchanges.value ensures Backed(c, t, e) {
        if e != added {
          assert e in s.db.exchanges.value && Backed(c, s, e);
        }
      }
      assert forall h :: h in s.db.blobs.value ==> Addressed(c, s.db.blobs.value, h);
    case AssignOp(id, patch) =>
      forall e | e in t.db.exchanges.value ensures Backed(c, t, e) {
        var i :| 0 <= i < |t.db.exchanges.value| && t.db.exchanges.value[i] == e;
        assert Backed(c, s, s.db.exchanges.value[i]);
      }
    case InferOp(g) =>
    case PruneOp(cutoff) =>
      NoOrphans(s.db, cutoff);
      forall e | e in t.db.exchanges.value ensures Backed(c, t, e) {
        assert e in s.db.exchanges.value && Backed(c, s, e);
        assert ByExchange(t.db.exchanges, e.hash);
      }
      forall h | h in t.db.blobs.value ensures Addressed(c, t.db.blobs.value, h) {
        assert Addressed(c, s.db.blobs.value, h);
      }
  }

  lemma {:induction false} RunInv(c: Codec, s: Store, ops: seq<Op>)
    requires Lawful(c) && Inv(c, s)
    ensures Inv(c, Run(c, s, ops))
    decreases |ops|
  {
    assert HasTables(s.db);
    hide Inv, Step;
    if ops == [] {
    } else {
      StepInv(c, s, ops[0]);
      RunInv(c, Step(c, s, ops[0]), ops[1..]);
    }
  }

  /**
   * Over any interleaving, a retained exchange's body can be read back: the bytes
   * hash to its key, and with a collision-free hash they are the bytes captured.
   */
  lemma {:induction false} RetainedBodiesReadBack(c: Codec, hasActivity: bool, hasInferences: bool,
      hasTelemetry: bool, ops: seq<Op>, e: Exchange)
    requires Lawful(c)
    requires var s := Run(c, Store(EmptyDb(hasActivity, hasInferences, hasTelemetry), map[]), ops);
      e in s.db.exchanges.value
    ensures var s := Run(c, Store(EmptyDb(hasActivity, hasInferences, hasTelemetry), map[]), ops);
      var r := GetBlob(c, s.db, e.hash);
      && e.id in s.bodies && e.bodyLength == |s.bodies[e.id]|
      && r.Some? && c.hash(r.value) == e.hash
      && (CollisionFree(c) ==> r == Some(s.bodies[e.id]))
  {
    var start := Store(EmptyDb(hasActivity, hasInferences, hasTelemetry), map[]);
    assert Inv(c, start);
    RunInv(c, start, ops);
    hide Run;
    var s := Run(c, start, ops);
    assert Backed(c, s, e) && Addressed(c, s.db.blobs.value, e.hash);
  }

  /** A blob that a retained inference refers to, and that was there before the prune, is there after. */
  lemma {:induction false} InferenceKeepsBlob(db: Db, cutoff: int, g: Inference, h: string)
    requires db.blobs.Some? && h in db.blobs.value && db.inferences.Some? && g in db.inferences.value
    requires g.ts >= cutoff && (g.requestSha == Some(h) || g.responseSha == Some(h))
    ensures Pruned(db, cutoff).blobs.Some? && h in Pruned(db, cutoff).blobs.value
  {
    NoOrphans(db, cutoff);
    assert g in KeepInferences(db.inferences, cutoff).value;
    assert ByInference(Pruned(db, cutoff).inferences, h);
  }

  /**
   * A capture adds one exchange that says who sent what and how long it was, and leaves
   * every blob that was there alone: equal content is stored once, and new content reads
   * back as it was captured.
   */
  lemma {:induction false} CaptureIs(c: Codec, db: Db, member: string, kind: Kind, bytes: Bytes, env: Envelope,
      h: string)
    requires Lawful(c) && HasTables(db)
    ensures var db', n := Appended(c, db, member, kind, bytes, env), |db.exchanges.value|;
      && HasTables(db') && |db'.exchanges.value| == n + 1 && db'.exchanges.value[..n] == db.exchanges.value
      && var e := db'.exchanges.value[n];
        && (e.id, e.member, e.kind, e.hash) == (db.nextId, member, kind, c.hash(bytes))
        && e.bodyLength == |bytes| && e.envelope == env && db'.nextId == db.nextId + 1
        && (h in db'.blobs.value <==> h in db.blobs.value || h == e.hash)
        && (h in db.blobs.value ==> db'.blobs.value[h] == db.blobs.value[h])
        && (e.hash !in db.blobs.value ==> GetBlob(c, db', e.hash) == Some(bytes))
        && (db'.activity, db'.inferences, db'.telemetry) == (db.activity, db.inferences, db.telemetry)
  {
    assert c.gunzip(c.gzip(bytes)) == Some(bytes);
  }

  /** What a read serves hashes to its key; it serves nothing when the blob is missing, broken or other than its key. */
  lemma {:induction false} ReadIs(c: Codec, db: Db, hash: string)
    ensures GetBlob(c, db, hash).Some?
        <==> && db.blobs.Some? && hash in db.blobs.value && c.gunzip(db.blobs.value[hash]).Some?
             && c.hash(c.gunzip(db.blobs.value[hash]).value) == hash
    ensures GetBlob(c, db, hash).Some? ==> GetBlob(c, db, hash) == c.gunzip(db.blobs.value[hash])
  {
  }

  // --------------------------------------------------------------------- fill-once

  /** An assignment fills exactly the empty fields the patch has, in the rows with its id, and moves nothing. */
  lemma {:induction false} AssignFills(rows: seq<Exchange>, id: int, p: Patch, i: nat)
    requires i < |rows|
    ensures var e, e' := rows[i], AssignIn(rows, id, p)[i];
      && |AssignIn(rows, id, p)| == |rows|
      && (e.id != id ==> e' == e)
      && (e.id == id ==>
            && (e.id, e.member, e.kind, e.hash, e.bodyLength) == (e'.id, e'.member, e'.kind, e'.hash, e'.bodyLength)
            && e'.envelope.eventTs == e.envelope.eventTs
            && (e.envelope.requestId.Some? ==> e'.envelope.requestId == e.envelope.requestId)
            && (e.envelope.requestId.None? ==> e'.envelope.requestId == Some(p.requestId))
            && (e.envelope.querySource.Some? ==> e'.envelope.querySource == e.envelope.querySource)
            && (e.envelope.querySource.None? ==> e'.envelope.querySource == p.querySource)
            && (e.envelope.agentName.Some? ==> e'.envelope.agentName == e.envelope.agentName)
            && (e.envelope.agentName.None? ==> e'.envelope.agentName == p.agentName))
  {
  }

  /** Fields a request id patch may fill: a filled one keeps its value, and nothing else changes. */
  predicate Refines(a: Exchange, b: Exchange) {
    && a.id == b.id && a.member == b.member && a.kind == b.kind && a.hash == b.hash && a.bodyLength == b.bodyLength
    && a.envelope.eventTs == b.envelope.eventTs
    && (a.envelope.requestId.Some? ==> b.envelope.requestId == a.envelope.requestId)
    && (a.envelope.querySource.Some? ==> b.envelope.querySource == a.envelope.querySource)
    && (a.envelope.agentName.Some? ==> b.envelope.agentName == a.envelope.agentName)
  }

  ghost predicate Descends(rows: seq<Exchange>, rows': seq<Exchange>, nextId: int) {
    forall b :: b in rows' ==> b.id >= nextId || exists a :: a in rows && Refines(a, b)
  }

  lemma {:induction false} StepFillsOnce(c: Codec, s: Store, op: Op)
    requires HasTables(s.db)
    ensures Descends(s.db.exchanges.value, Step(c, s, op).db.exchanges.value, s.db.nextId)
    ensures Step(c, s, op).db.nextId >= s.db.nextId
  {
    var t := Step(c, s, op);
    forall b | b in t.db.exchanges.value && b.id < s.db.nextId
      ensures exists a :: a in s.db.exchanges.value && Refines(a, b)
    {
      if op.AssignOp? {
        var i :| 0 <= i < |t.db.exchanges.value| && t.db.exchanges.value[i] == b;
        assert Refines(s.db.exchanges.value[i], b);
      } else {
        assert b in s.db.exchanges.value && Refines(b, b);
      }
    }
  }

  /** Whatever runs in between, a row that is still there only ever had empty fields filled in. */
  lemma {:induction false} RunFillsOnce(c: Codec, s: Store, ops: seq<Op>)
    requires HasTables(s.db)
    ensures Descends(s.db.exchanges.value, Run(c, s, ops).db.exchanges.value, s.db.nextId)
    decreases |ops|
  {
    hide Step;
    if ops == [] {
      assert forall a :: Refines(a, a);
    } else {
      var t := Step(c, s, ops[0]);
      StepFillsOnce(c, s, ops[0]);
      RunFillsOnce(c, t, ops[1..]);
      var rows, mid, last := s.db.exchanges.value, t.db.exchanges.value, Run(c, s, ops).db.exchanges.value;
      forall b | b in last && b.id < s.db.nextId ensures exists a :: a in rows && Refines(a, b) {
        var m :| m in mid && Refines(m, b);
        var a :| a in rows && Refines(a, m);
        assert Refines(a, b);
      }
    }
  }
}
