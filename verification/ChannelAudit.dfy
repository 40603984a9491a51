/** What every run of channel operations keeps: above all, that the audit log replays to the tables. */
module ChannelAudit {
  import opened Prelude
  import opened OrderedMap
  import opened ChannelModel

  // ------------------------------------------------------------------------ replay

  /** A channel as its audit entries tell it. */
  datatype View = View(slug: string, description: string, archivedAt: Option<int>, members: map<string, Membership>)

  function Apply(v: Option<View>, e: AuditEntry): Option<View> {
    if e.action.CreateAction? then
      Some(View(e.action.slug, e.action.description, None, map[e.actor := Membership(Member, e.at)]))
    else if v.None? then None
    else
      match e.action
      case RenameAction(_, to) => Some(v.value.(slug := to))
      case DescribeAction(_, after) => Some(v.value.(description := after))
      case MemberAddAction(name, role) => Some(v.value.(members := v.value.members[name := Membership(role, e.at)]))
      case MemberRoleAction(name, _, role) => Some(v.value.(members := v.value.members[name := Membership(role, e.at)]))
      case MemberRemoveAction(name, _) => Some(v.value.(members := v.value.members - {name}))
      case ArchiveAction(_) => Some(v.value.(archivedAt := Some(e.at)))
  }

  function Replay(entries: seq<AuditEntry>): Option<View> {
    if entries == [] then None else Apply(Replay(entries[..|entries| - 1]), entries[|entries| - 1])
  }

  /** `listAudit`: a channel's entries, oldest first. */
  function AuditOf(audit: seq<AuditEntry>, id: string): seq<AuditEntry> {
    Filter(audit, (e: AuditEntry) => e.channel == id)
  }

  function InView(v: View, name: string): Option<Membership> {
    if name in v.members then Some(v.members[name]) else None
  }

  ghost predicate Shows(v: View, db: Db, id: string, c: Channel) {
    && v.slug == c.slug && v.description == c.description && v.archivedAt == c.archivedAt
    && forall name :: InView(v, name) == Get(db.members, MemberKey(id, name))
  }

  /** A channel's log replays to its row and its members; an id with no row has neither log nor members. */
  ghost predicate Replays(db: Db, id: string) {
    var log := AuditOf(db.audit, id);
    match Get(db.channels, id)
    case None => log == [] && forall name :: Get(db.members, MemberKey(id, name)).None?
    case Some(c) => Replay(log).Some? && Shows(Replay(log).value, db, id, c)
  }

  // --------------------------------------------------------------------- invariant

  ghost predicate SlugsUnique(channels: seq<Entry<string, Channel>>) {
    forall a, b :: a in channels && b in channels && Active(a.value) && Active(b.value) && a.value.slug == b.value.slug
      ==> a.key == b.key
  }

  ghost predicate GeneralOnly(channels: seq<Entry<string, Channel>>) {
    forall e :: e in channels && e.key != GENERAL_CHANNEL_ID ==> e.value.slug != GENERAL_CHANNEL_SLUG
  }

  ghost predicate Tables(db: Db) {
    && UniqueKeys(db.channels) && UniqueKeys(db.members)
    && SlugsUnique(db.channels) && GeneralOnly(db.channels)
  }

  ghost predicate Inv(db: Db) {
    Tables(db) && forall id :: id != GENERAL_CHANNEL_ID ==> Replays(db, id)
  }

  // ------------------------------------------------------------------------- tables

  lemma {:induction false} HeldByOther(channels: seq<Entry<string, Channel>>, slug: string, id: string,
      e: Entry<string, Channel>)
    requires !SlugHeld(channels, slug, id) && e in channels && e.value.slug == slug && Active(e.value)
    ensures e.key == id
  {
  }

  /** Writing a row the index admits keeps active slugs unique. */
  lemma {:induction false} PutSlugs(channels: seq<Entry<string, Channel>>, id: string, c: Channel)
    requires UniqueKeys(channels) && SlugsUnique(channels) && GeneralOnly(channels)
    requires Active(c) ==> !SlugHeld(channels, c.slug, id)
    requires id != GENERAL_CHANNEL_ID ==> c.slug != GENERAL_CHANNEL_SLUG
    ensures UniqueKeys(Put(channels, id, c)) && SlugsUnique(Put(channels, id, c)) && GeneralOnly(Put(channels, id, c))
  {
    PutKeys(channels, id, c);
    var t := Put(channels, id, c);
    forall a, b | a in t && b in t && Active(a.value) && Active(b.value) && a.value.slug == b.value.slug
      ensures a.key == b.key
    {
      if a == Entry(id, c) && b != a {
        HeldByOther(channels, c.slug, id, b);
      } else if b == Entry(id, c) && b != a {
        HeldByOther(channels, c.slug, id, a);
      }
    }
  }

  lemma {:induction false} StepTables(db: Db, op: Op)
    requires Tables(db)
    ensures Tables(Step(db, op).0)
  {
    hide UniqueKeys, SlugsUnique, GeneralOnly, ValidSlug, BySlug, SlugHeld, Get, Put, Delete;
    match op
    case Create(slug, description, creator, id, now) =>
      if Step(db, op).1.Done? {
        var c := Channel(slug, description, creator, now, None);
        PutSlugs(db.channels, id, c);
        PutKeys(db.members, MemberKey(id, creator), Membership(Member, now));
      }
    case Update(id, newSlug, newDescription, actor, now) =>
      if Step(db, op).1.Done? {
        var c := Get(db.channels, id).value;
        var d := Step(db, op).1.channel.value;
        GetIn(db.channels, id);
        RowSlug(db.channels, id, c);
        if c != d {
          PutSlugs(db.channels, id, d);
        }
      }
    case Archive(id, actor, now) =>
      if Step(db, op).1.Done? {
        var c := Get(db.channels, id).value;
        GetIn(db.channels, id);
        RowSlug(db.channels, id, c);
        PutSlugs(db.channels, id, c.(archivedAt := Some(now)));
      }
    case AddMember(id, name, role, actor, now) =>
      DeleteKeys(db.members, MemberKey(id, name));
      PutKeys(Delete(db.members, MemberKey(id, name)), MemberKey(id, name), Membership(role, now));
    case RemoveMember(id, name, actor, now) =>
      DeleteKeys(db.members, MemberKey(id, name));
  }

  lemma {:induction false} RowSlug(channels: seq<Entry<string, Channel>>, id: string, c: Channel)
    requires GeneralOnly(channels) && Entry(id, c) in channels
    ensures id != GENERAL_CHANNEL_ID ==> c.slug != GENERAL_CHANNEL_SLUG
  {
  }

  // ------------------------------------------------------------------ replay, by step

  lemma {:induction false} AuditSnoc(audit: seq<AuditEntry>, e: AuditEntry, id: string)
    ensures AuditOf(audit + [e], id) == AuditOf(audit, id) + if e.channel == id then [e] else []
  {
    FilterAppend(audit, [e], (x: AuditEntry) => x.channel == id);
    assert [e][1..] == [];
  }

  lemma {:induction false} ReplaySnoc(entries: seq<AuditEntry>, e: AuditEntry)
    ensures Replay(entries + [e]) == Apply(Replay(entries), e)
  {
    assert (entries + [e])[..|entries|] == entries;
  }

  function Target(op: Op): string { op.id }

  /** Another channel's row, members and log are not touched. */
  lemma {:induction false} OthersKept(db: Db, op: Op, other: string)
    requires UniqueKeys(db.members) && other != Target(op)
    ensures var db' := Step(db, op).0;
      && Get(db'.channels, other) == Get(db.channels, other)
      && AuditOf(db'.audit, other) == AuditOf(db.audit, other)
      && forall name :: Get(db'.members, MemberKey(other, name)) == Get(db.members, MemberKey(other, name))
  {
    hide UniqueKeys, ValidSlug, BySlug, SlugHeld, Get, Put, Delete, AuditOf;
    var id, db' := op.id, Step(db, op).0;
    forall e: AuditEntry | e.channel == id ensures AuditOf(db.audit + [e], other) == AuditOf(db.audit, other) {
      AuditSnoc(db.audit, e, other);
    }
    match op
    case Create(slug, description, creator, _, now) =>
      GetPut(db.channels, id, Channel(slug, description, creator, now, None), other);
      forall name ensures Get(db'.members, MemberKey(other, name)) == Get(db.members, MemberKey(other, name)) {
        GetPut(db.members, MemberKey(id, creator), Membership(Member, now), MemberKey(other, name));
      }
    case Update(_, newSlug, newDescription, actor, now) =>
      if Step(db, op).1.Done? {
        var c, d := Get(db.channels, id).value, Step(db, op).1.channel.value;
        GetPut(db.channels, id, d, other);
        UpdateAudit(db.audit, c, d, id, actor, now, other);
      }
    case Archive(_, actor, now) =>
      if Get(db.channels, id).Some? {
        GetPut(db.channels, id, Get(db.channels, id).value.(archivedAt := Some(now)), other);
      }
    case AddMember(_, name, role, actor, now) =>
      forall n ensures Get(db'.members, MemberKey(other, n)) == Get(db.members, MemberKey(other, n)) {
        Reseated(db.members, MemberKey(id, name), Membership(role, now), MemberKey(other, n));
      }
    case RemoveMember(_, name, actor, now) =>
      forall n ensures Get(db'.members, MemberKey(other, n)) == Get(db.members, MemberKey(other, n)) {
        GetDelete(db.members, MemberKey(id, name), MemberKey(other, n));
      }
  }

  lemma {:induction false} Reseated(members: seq<Entry<MemberKey, Membership>>, k: MemberKey, m: Membership,
      k': MemberKey)
    requires UniqueKeys(members)
    ensures Get(Put(Delete(members, k), k, m), k') == if k == k' then Some(m) else Get(members, k')
  {
    GetDelete(members, k, k');
    GetPut(Delete(members, k), k, m, k');
  }

  lemma {:induction false} UpdateAudit(audit: seq<AuditEntry>, c: Channel, d: Channel, id: string, actor: string,
      now: int, other: string)
    ensures AuditOf(audit + UpdateEntries(c, d, id, actor, now), other)
         == AuditOf(audit, other) + if id == other then UpdateEntries(c, d, id, actor, now) else []
  {
    hide AuditOf;
    var rename := AuditEntry(id, actor, RenameAction(c.slug, d.slug), now);
    var describe := AuditEntry(id, actor, DescribeAction(c.description, d.description), now);
    AuditSnoc(audit, rename, other);
    AuditSnoc(audit, describe, other);
    AuditSnoc(audit + [rename], describe, other);
    assert audit + [rename] + [describe] == audit + ([rename] + [describe]);
    var more := UpdateEntries(c, d, id, actor, now);
    if c.slug != d.slug && c.description != d.description {
      assert more == [rename] + [describe];
    } else if c.slug != d.slug {
      assert more == [rename];
    } else if c.description != d.description {
      assert more == [describe];
    } else {
      assert more == [] && audit + more == audit;
    }
    var log := AuditOf(audit, other);
    assert log + [] == log && log + [rename] + [describe] == log + ([rename] + [describe]);
  }

  // ------------------------------------------------- replay of the channel operated on

  /** One more entry, and tables that show what it says. */
  lemma {:induction false} ReplaysAfter(db: Db, db': Db, id: string, e: AuditEntry, c: Channel)
    requires db'.audit == db.audit + [e] && e.channel == id && Get(db'.channels, id) == Some(c)
    requires var v := Apply(Replay(AuditOf(db.audit, id)), e); v.Some? && Shows(v.value, db', id, c)
    ensures Replays(db', id)
  {
    hide Get, AuditOf, Replay, Apply, Shows;
    AuditSnoc(db.audit, e, id);
    ReplaySnoc(AuditOf(db.audit, id), e);
  }

  lemma {:induction false} CreateReplays(db: Db, op: Op)
    requires op.Create? && Replays(db, op.id)
    ensures Replays(Step(db, op).0, op.id)
  {
    var id, creator, now, db' := op.id, op.creator, op.now, Step(db, op).0;
    hide ValidSlug, BySlug, SlugHeld, Get, Put, AuditOf, Replay;
    if Step(db, op).1.Done? {
      var c, e := Step(db, op).1.channel.value, db'.audit[|db.audit|];
      var v := View(op.slug, op.description, None, map[creator := Membership(Member, now)]);
      assert Apply(Replay(AuditOf(db.audit, id)), e) == Some(v);
      GetPut(db.channels, id, c, id);
      forall name ensures InView(v, name) == Get(db'.members, MemberKey(id, name)) {
        GetPut(db.members, MemberKey(id, creator), Membership(Member, now), MemberKey(id, name));
      }
      ReplaysAfter(db, db', id, e, c);
    }
  }

  lemma {:induction false} UpdateReplays(db: Db, op: Op)
    requires op.Update? && Replays(db, op.id)
    ensures Replays(Step(db, op).0, op.id)
  {
    var id := op.id;
    hide ValidSlug, BySlug, SlugHeld, Get, Put, AuditOf, Replay;
    if Step(db, op).1.Done? {
      var c, d := Get(db.channels, id).value, Step(db, op).1.channel.value;
      var log := AuditOf(db.audit, id);
      UpdateAudit(db.audit, c, d, id, op.actor, op.now, id);
      GetPut(db.channels, id, d, id);
      var rename := AuditEntry(id, op.actor, RenameAction(c.slug, d.slug), op.now);
      var describe := AuditEntry(id, op.actor, DescribeAction(c.description, d.description), op.now);
      ReplaySnoc(log, rename);
      ReplaySnoc(log, describe);
      ReplaySnoc(log + [rename], describe);
      assert log + [rename] + [describe] == log + ([rename] + [describe]);
      assert [] + [describe] == [describe] && [rename] + [] == [rename];
    }
  }

  lemma {:induction false} ArchiveReplays(db: Db, op: Op)
    requires op.Archive? && Replays(db, op.id)
    ensures Replays(Step(db, op).0, op.id)
  {
    var id := op.id;
    hide Get, Put, AuditOf, Replay;
    if Step(db, op).1.Done? && Active(Get(db.channels, id).value) {
      var c := Get(db.channels, id).value.(archivedAt := Some(op.now));
      var e := AuditEntry(id, op.actor, ArchiveAction(c.slug), op.now);
      AuditSnoc(db.audit, e, id);
      ReplaySnoc(AuditOf(db.audit, id), e);
      GetPut(db.channels, id, c, id);
    }
  }

  lemma {:induction false} AddMemberReplays(db: Db, op: Op)
    requires op.AddMember? && UniqueKeys(db.members) && Replays(db, op.id)
    ensures Replays(Step(db, op).0, op.id)
  {
    hide UniqueKeys, Get, Put, Delete, AuditOf, Replay, Shows;
    var id, name, db' := op.id, op.name, Step(db, op).0;
    if id != GENERAL_CHANNEL_ID && Step(db, op).1.Done? {
      var c, e := Get(db.channels, id).value, db'.audit[|db.audit|];
      SeatShown(Replay(AuditOf(db.audit, id)).value, db, db', id, c, name, Membership(op.role, op.now));
      ReplaysAfter(db, db', id, e, c);
    }
  }

  lemma {:induction false} SeatShown(v: View, db: Db, db': Db, id: string, c: Channel, name: string, m: Membership)
    requires UniqueKeys(db.members) && Shows(v, db, id, c)
    requires db'.members == Put(Delete(db.members, MemberKey(id, name)), MemberKey(id, name), m)
    ensures Shows(v.(members := v.members[name := m]), db', id, c)
  {
    hide UniqueKeys, Get, Put, Delete;
    var w := v.(members := v.members[name := m]);
    forall n ensures InView(w, n) == Get(db'.members, MemberKey(id, n)) {
      Reseated(db.members, MemberKey(id, name), m, MemberKey(id, n));
      assert InView(v, n) == Get(db.members, MemberKey(id, n));
    }
  }

  lemma {:induction false} RemoveMemberReplays(db: Db, op: Op)
    requires op.RemoveMember? && UniqueKeys(db.members) && Replays(db, op.id)
    ensures Replays(Step(db, op).0, op.id)
  {
    var id, name := op.id, op.name;
    hide UniqueKeys, Get, Put, Delete, AuditOf, Replay;
    if Step(db, op).1.Done? {
      var e := AuditEntry(id, op.actor, MemberRemoveAction(name, Get(db.members, MemberKey(id, name)).value.role),
          op.now);
      var log := AuditOf(db.audit, id);
      AuditSnoc(db.audit, e, id);
      ReplaySnoc(log, e);
      assert AuditOf(Step(db, op).0.audit, id) == log + [e];
      forall n ensures InView(Replay(log + [e]).value, n) == Get(Step(db, op).0.members, MemberKey(id, n)) {
        GetDelete(db.members, MemberKey(id, name), MemberKey(id, n));
        assert InView(Replay(log).value, n) == Get(db.members, MemberKey(id, n));
      }
    }
  }

  /** Every operation keeps the invariant, and one that fails changes nothing. */
  lemma {:induction false} StepInv(db: Db, op: Op)
    requires Inv(db)
    ensures Inv(Step(db, op).0)
    ensures Step(db, op).1.Failed? ==> Step(db, op).0 == db
  {
    FailureChangesNothing(db, op);
    StepTables(db, op);
    hide Replays, Step;
    forall id | id != GENERAL_CHANNEL_ID ensures Replays(Step(db, op).0, id) {
      if id == op.id {
        match op
        case Create(_, _, _, _, _) => CreateReplays(db, op);
        case Update(_, _, _, _, _) => UpdateReplays(db, op);
        case Archive(_, _, _) => ArchiveReplays(db, op);
        case AddMember(_, _, _, _, _) => AddMemberReplays(db, op);
        case RemoveMember(_, _, _, _) => RemoveMemberReplays(db, op);
      } else {
        OtherReplays(db, op, id);
      }
    }
  }

  lemma {:induction false} OtherReplays(db: Db, op: Op, id: string)
    requires UniqueKeys(db.members) && Replays(db, id) && id != op.id
    ensures Replays(Step(db, op).0, id)
  {
    OthersKept(db, op, id);
    hide Step, UniqueKeys, Get, AuditOf, Replay;
  }

  lemma {:induction false} RunInv(db: Db, ops: seq<Op>)
    requires Inv(db)
    ensures Inv(Run(db, ops))
    decreases |ops|
  {
    hide Inv, Step;
    if ops == [] {
    } else {
      StepInv(db, ops[0]);
      RunInv(Step(db, ops[0]).0, ops[1..]);
    }
  }

  lemma {:induction false} SeededInv(now: int)
    ensures Inv(Seeded(now))
  {
    var channels := Seeded(now).channels;
    assert channels[1..] == [];
    forall id | id != GENERAL_CHANNEL_ID ensures Replays(Seeded(now), id) {
      assert Get(channels, id) == Get(channels[1..], id) == None;
      assert AuditOf([], id) == [];
    }
  }

  // ------------------------------------------------------------------- main results

  /**
   * In every reachable state a channel's audit log, folded from the start, is exactly
   * its row and its member map; an id that was never created has no log and no members.
   */
  lemma {:induction false} AuditReplays(now: int, ops: seq<Op>, id: string)
    requires id != GENERAL_CHANNEL_ID
    ensures Replays(Run(Seeded(now), ops), id)
  {
    hide Run, Replays;
    SeededInv(now);
    RunInv(Seeded(now), ops);
  }

  /** At most one active channel holds a slug, and none but general holds general's. */
  lemma {:induction false} OneActivePerSlug(now: int, ops: seq<Op>)
    ensures SlugsUnique(Run(Seeded(now), ops).channels) && GeneralOnly(Run(Seeded(now), ops).channels)
  {
    hide Run, Replays, SlugsUnique, GeneralOnly;
    SeededInv(now);
    RunInv(Seeded(now), ops);
  }

  lemma {:induction false} FailureChangesNothing(db: Db, op: Op)
    ensures Step(db, op).1.Failed? ==> Step(db, op).0 == db
  {
    hide ValidSlug, BySlug, SlugHeld, Get, Put, Delete;
  }

  /** No operation touches general's row, and none gives it members or a log. */
  lemma {:induction false} GeneralKept(db: Db, ops: seq<Op>, name: string)
    requires UniqueKeys(db.members) && Get(db.channels, GENERAL_CHANNEL_ID).Some?
    ensures Get(Run(db, ops).channels, GENERAL_CHANNEL_ID) == Get(db.channels, GENERAL_CHANNEL_ID)
    ensures AuditOf(Run(db, ops).audit, GENERAL_CHANNEL_ID) == AuditOf(db.audit, GENERAL_CHANNEL_ID)
    ensures Get(Run(db, ops).members, MemberKey(GENERAL_CHANNEL_ID, name))
         == Get(db.members, MemberKey(GENERAL_CHANNEL_ID, name))
    decreases |ops|
  {
    hide Get, Put, Delete, AuditOf, UniqueKeys, BySlug, SlugHeld, ValidSlug;
    if ops == [] {
    } else {
      var db' := Step(db, ops[0]).0;
      if ops[0].id == GENERAL_CHANNEL_ID {
        assert db' == db;
      } else {
        OthersKept(db, ops[0], GENERAL_CHANNEL_ID);
        StepMembers(db, ops[0]);
      }
      hide Step;
      GeneralKept(db', ops[1..], name);
    }
  }

  lemma {:induction false} StepMembers(db: Db, op: Op)
    requires UniqueKeys(db.members)
    ensures UniqueKeys(Step(db, op).0.members)
  {
    hide UniqueKeys, Get, Put, Delete, BySlug, SlugHeld, ValidSlug;
    match op
    case Create(_, _, creator, id, now) =>
      PutKeys(db.members, MemberKey(id, creator), Membership(Member, now));
    case AddMember(id, name, role, _, now) =>
      DeleteKeys(db.members, MemberKey(id, name));
      PutKeys(Delete(db.members, MemberKey(id, name)), MemberKey(id, name), Membership(role, now));
    case RemoveMember(id, name, _, _) =>
      DeleteKeys(db.members, MemberKey(id, name));
    case _ =>
  }

  // ---------------------------------------------------------------------------- slugs

  /** The grammar as documented: letters, digits and dashes, no dash at either end, no two together. */
  ghost predicate SlugGrammar(s: string) {
    && (forall i :: 0 <= i < |s| ==> Alnum(s[i]) || s[i] == '-')
    && s != [] && s[0] != '-' && s[|s| - 1] != '-'
    && (forall i :: 0 <= i < |s| - 1 ==> !(s[i] == '-' && s[i + 1] == '-'))
  }

  lemma {:induction false} TailGrammar(s: string)
    ensures MatchTail(s) <==>
      && s != [] && s[|s| - 1] != '-'
      && (forall i :: 0 <= i < |s| ==> Alnum(s[i]) || s[i] == '-')
      && (forall i :: 0 <= i < |s| - 1 ==> !(s[i] == '-' && s[i + 1] == '-'))
  {
    if |s| > 1 {
      var t := s[1..];
      TailGrammar(t);
      assert forall i :: 0 <= i < |t| ==> t[i] == s[i + 1];
      assert forall i :: 0 < i < |s| ==> s[i] == t[i - 1];
    }
  }

  /** The pattern accepts exactly the documented grammar. */
  lemma {:induction false} PatternIsGrammar(s: string)
    ensures SlugPattern(s) <==> SlugGrammar(s)
  {
    if |s| >= 2 {
      var t := s[1..];
      TailGrammar(t);
      hide MatchTail;
      assert forall i :: 0 <= i < |t| ==> t[i] == s[i + 1];
      assert forall i :: 0 < i < |s| ==> s[i] == t[i - 1];
    }
  }

  lemma {:induction false} BySlugIs(channels: seq<Entry<string, Channel>>, slug: string)
    ensures var r := BySlug(channels, slug);
      && (r.Some? ==> r.value in channels && r.value.value.slug == slug)
      && (r.None? ==> forall e :: e in channels ==> e.value.slug != slug)
  {
    if channels == [] {
    } else {
      BySlugIs(channels[1..], slug);
    }
  }

  /**
   * A second active channel with a slug is always refused, but as `slug_taken` only
   * when the first row with that slug is the active one: an older archived row hides
   * it from the check, and the index refuses the insert instead.
   */
  lemma {:induction false} DuplicateRefused(db: Db, slug: string, description: string, creator: string, id: string,
      now: int)
    requires ValidSlug(slug) && slug != GENERAL_CHANNEL_SLUG
    requires Get(db.channels, id).None? && SlugHeld(db.channels, slug, id)
    ensures var reply := CreateOf(db, slug, description, creator, id, now).1;
      && reply.Failed? && reply.error in {SlugTaken, Constraint}
      && BySlug(db.channels, slug).Some?
      && (reply.error == SlugTaken <==> Active(BySlug(db.channels, slug).value.value))
  {
    hide ValidSlug;
    BySlugIs(db.channels, slug);
  }

  lemma {:induction false} FirstOfSlug(channels: seq<Entry<string, Channel>>, slug: string, id: string)
    requires SlugsUnique(channels) && SlugHeld(channels, slug, id)
    ensures BySlug(channels, slug).Some?
    ensures Active(BySlug(channels, slug).value.value) ==> BySlug(channels, slug).value.key != id
  {
    BySlugIs(channels, slug);
    hide BySlug;
  }

  /** The same of a rename onto a slug another active channel holds. */
  lemma {:induction false} DuplicateRenameRefused(db: Db, id: string, slug: string, newDescription: Option<string>,
      actor: string, now: int)
    requires Tables(db) && id != GENERAL_CHANNEL_ID && ValidSlug(slug) && slug != GENERAL_CHANNEL_SLUG
    requires Get(db.channels, id).Some? && Active(Get(db.channels, id).value) && SlugHeld(db.channels, slug, id)
    ensures var reply := UpdateOf(db, id, Some(slug), newDescription, actor, now).1;
      && reply.Failed? && reply.error in {SlugTaken, Constraint}
      && BySlug(db.channels, slug).Some?
      && (reply.error == SlugTaken <==> Active(BySlug(db.channels, slug).value.value))
  {
    FirstOfSlug(db.channels, slug, id);
    GetIn(db.channels, id);
    NotOwnSlug(db.channels, slug, id, Get(db.channels, id).value);
    hide ValidSlug, BySlug, SlugHeld, Get, SlugsUnique, GeneralOnly, UniqueKeys;
  }

  /** A slug another active channel holds is not the channel's own. */
  lemma {:induction false} NotOwnSlug(channels: seq<Entry<string, Channel>>, slug: string, id: string, c: Channel)
    requires SlugsUnique(channels) && SlugHeld(channels, slug, id) && Entry(id, c) in channels && Active(c)
    ensures c.slug != slug
  {
  }

  /** Such a state is reachable: create, archive, create again; the next create is refused by the index. */
  lemma {:induction false} ArchivedRowHidesDuplicate()
    ensures var db := Run(Seeded(0), [Create("ops", "", "ann", "c1", 1), Archive("c1", "ann", 2),
                                      Create("ops", "", "bob", "c2", 3)]);
      CreateOf(db, "ops", "", "cat", "c3", 4).1 == Failed(Constraint)
  {
    var ops := [Create("ops", "", "ann", "c1", 1), Archive("c1", "ann", 2), Create("ops", "", "bob", "c2", 3)];
    OpsIsSlug();
    hide ValidSlug;
    var db0 := Seeded(0);
    var db1 := CreateOf(db0, "ops", "", "ann", "c1", 1).0;
    FirstCreate();
    var db2 := ArchiveOf(db1, "c1", "ann", 2).0;
    ThenArchive(db1);
    var db3 := CreateOf(db2, "ops", "", "bob", "c2", 3).0;
    ThenAgain(db2);
    assert ops[1..][0] == ops[1] && ops[1..][1..] == ops[2..] && ops[2..][0] == ops[2] && ops[2..][1..] == [];
    assert Run(db0, ops) == Run(db1, ops[1..]) == Run(db2, ops[2..]) == Run(db3, []) == db3 by {
      hide CreateOf, ArchiveOf;
    }
  }

  lemma {:induction false} OpsIsSlug()
    ensures ValidSlug("ops")
  {
    assert "ops"[1..] == "ps" && "ps"[1..] == "s";
  }

  function SeedRow(): Entry<string, Channel> {
    Entry(GENERAL_CHANNEL_ID, Channel(GENERAL_CHANNEL_SLUG, "", SYSTEM_ACTOR, 0, None))
  }

  function ArchivedOps(): Entry<string, Channel> { Entry("c1", Channel("ops", "", "ann", 1, Some(2))) }

  lemma {:induction false} FirstCreate()
    ensures CreateOf(Seeded(0), "ops", "", "ann", "c1", 1).0.channels
         == [SeedRow(), Entry("c1", Channel("ops", "", "ann", 1, None))]
  {
    OpsIsSlug();
    hide ValidSlug;
    assert Seeded(0).channels == [SeedRow()] && [SeedRow()][1..] == [];
  }

  lemma {:induction false} ThenArchive(db: Db)
    requires db.channels == [SeedRow(), Entry("c1", Channel("ops", "", "ann", 1, None))]
    ensures ArchiveOf(db, "c1", "ann", 2).0.channels == [SeedRow(), ArchivedOps()]
  {
    var last := Entry("c1", Channel("ops", "", "ann", 1, None));
    assert db.channels[1..] == [last] && [last][1..] == [];
    assert Get([last], "c1") == Some(last.value) && Get(db.channels, "c1") == Some(last.value);
    assert Put([last], "c1", ArchivedOps().value) == [ArchivedOps()];
  }

  lemma {:induction false} ThenAgain(db: Db)
    requires db.channels == [SeedRow(), ArchivedOps()]
    ensures CreateOf(CreateOf(db, "ops", "", "bob", "c2", 3).0, "ops", "", "cat", "c3", 4).1 == Failed(Constraint)
  {
    OpsIsSlug();
    hide ValidSlug;
    var c2 := Channel("ops", "", "bob", 3, None);
    assert db.channels[1..] == [ArchivedOps()] && [ArchivedOps()][1..] == [];
    BySlugSecond(db.channels);
    assert Get([ArchivedOps()], "c2").None? && Get(db.channels, "c2").None?;
    var db' := CreateOf(db, "ops", "", "bob", "c2", 3).0;
    assert Put([ArchivedOps()], "c2", c2) == [ArchivedOps(), Entry("c2", c2)];
    assert db'.channels == [SeedRow(), ArchivedOps(), Entry("c2", c2)];
    BySlugSecond(db'.channels);
    assert Entry("c2", c2) in db'.channels;
  }

  lemma {:induction false} BySlugSecond(channels: seq<Entry<string, Channel>>)
    requires |channels| >= 2 && channels[0] == SeedRow() && channels[1] == ArchivedOps()
    ensures BySlug(channels, "ops") == Some(ArchivedOps())
  {
    assert channels[1..][0] == ArchivedOps();
  }

  /** And of a rename: with one more channel, renaming it onto the slug is refused by the index. */
  lemma {:induction false} ArchivedRowHidesRename()
    ensures var db := Run(Seeded(0), [Create("ops", "", "ann", "c1", 1), Archive("c1", "ann", 2),
                                      Create("ops", "", "bob", "c2", 3), Create("dev", "", "cat", "c3", 4)]);
      UpdateOf(db, "c3", Some("ops"), None, "cat", 5).1 == Failed(Constraint)
  {
    var ops := [Create("ops", "", "ann", "c1", 1), Archive("c1", "ann", 2),
                Create("ops", "", "bob", "c2", 3), Create("dev", "", "cat", "c3", 4)];
    var db0 := Seeded(0);
    var db1 := CreateOf(db0, "ops", "", "ann", "c1", 1).0;
    var db2 := ArchiveOf(db1, "c1", "ann", 2).0;
    var db3 := CreateOf(db2, "ops", "", "bob", "c2", 3).0;
    var db4 := CreateOf(db3, "dev", "", "cat", "c3", 4).0;
    FirstCreate();
    ThenArchive(db1);
    ThenSecond(db2);
    ThenThird(db3);
    ThenRename(db4);
    assert ops[1..][0] == ops[1] && ops[1..][1..] == ops[2..] && ops[2..][0] == ops[2] && ops[2..][1..] == ops[3..];
    assert ops[3..][0] == ops[3] && ops[3..][1..] == [];
    hide CreateOf, ArchiveOf, UpdateOf;
    assert Run(db0, ops) == Run(db1, ops[1..]) == Run(db2, ops[2..]);
    assert Run(db2, ops[2..]) == Run(db3, ops[3..]) == Run(db4, []) == db4;
  }

  function SecondOps(): Entry<string, Channel> { Entry("c2", Channel("ops", "", "bob", 3, None)) }

  function ThirdDev(): Entry<string, Channel> { Entry("c3", Channel("dev", "", "cat", 4, None)) }

  lemma {:induction false} ThenSecond(db: Db)
    requires db.channels == [SeedRow(), ArchivedOps()]
    ensures CreateOf(db, "ops", "", "bob", "c2", 3).0.channels == [SeedRow(), ArchivedOps(), SecondOps()]
  {
    OpsIsSlug();
    hide ValidSlug;
    assert db.channels[1..] == [ArchivedOps()] && [ArchivedOps()][1..] == [];
    BySlugSecond(db.channels);
    assert Get([ArchivedOps()], "c2").None? && Get(db.channels, "c2").None?;
    assert Put([ArchivedOps()], "c2", SecondOps().value) == [ArchivedOps(), SecondOps()];
  }

  lemma {:induction false} DevIsSlug()
    ensures ValidSlug("dev") && "dev" != "ops" && "dev" != GENERAL_CHANNEL_SLUG
  {
    assert "dev"[1..] == "ev" && "ev"[1..] == "v" && "dev"[0] != "ops"[0];
  }

  lemma {:induction false} ThenThird(db: Db)
    requires db.channels == [SeedRow(), ArchivedOps(), SecondOps()]
    ensures CreateOf(db, "dev", "", "cat", "c3", 4).0.channels == [SeedRow(), ArchivedOps(), SecondOps(), ThirdDev()]
  {
    DevIsSlug();
    hide ValidSlug;
    var tail := [ArchivedOps(), SecondOps()];
    assert db.channels[1..] == tail && tail[1..] == [SecondOps()] && [SecondOps()][1..] == [];
    BySlugIs(db.channels, "dev");
    assert Get([SecondOps()], "c3").None? && Get(tail, "c3").None? && Get(db.channels, "c3").None?;
    assert Put([SecondOps()], "c3", ThirdDev().value) == [SecondOps(), ThirdDev()];
    assert Put(tail, "c3", ThirdDev().value) == [ArchivedOps(), SecondOps(), ThirdDev()];
    hide BySlug;
  }

  lemma {:induction false} ThenRename(db: Db)
    requires db.channels == [SeedRow(), ArchivedOps(), SecondOps(), ThirdDev()]
    ensures UpdateOf(db, "c3", Some("ops"), None, "cat", 5).1 == Failed(Constraint)
  {
    OpsIsSlug();
    DevIsSlug();
    hide ValidSlug;
    var t1, t2 := [ArchivedOps(), SecondOps(), ThirdDev()], [SecondOps(), ThirdDev()];
    assert db.channels[1..] == t1 && t1[1..] == t2 && t2[1..] == [ThirdDev()];
    assert Get([ThirdDev()], "c3") == Some(ThirdDev().value) && Get(t2, "c3") == Some(ThirdDev().value);
    assert Get(t1, "c3") == Some(ThirdDev().value) && Get(db.channels, "c3") == Some(ThirdDev().value);
    BySlugSecond(db.channels);
    assert db.channels[2] == SecondOps() && SecondOps() in db.channels && SecondOps().key[1] != "c3"[1];
    hide Get, BySlug;
  }

  /** Adding a member who is already there is not a no-op: it is logged, and `joinedAt` becomes the new time. */
  lemma {:induction false} ReAddIsLogged(db: Db, id: string, name: string, role: Role, actor: string, now: int)
    requires Tables(db) && IsMember(db, id, name)
    ensures var db' := AddMemberOf(db, id, name, role, actor, now).0;
      db' == db <==> id == GENERAL_CHANNEL_ID || Get(db.channels, id).None? || !Active(Get(db.channels, id).value)
    ensures AddMemberOf(db, id, name, role, actor, now).0 != db ==>
      Get(AddMemberOf(db, id, name, role, actor, now).0.members, MemberKey(id, name)) == Some(Membership(role, now))
  {
    hide Get, Put, Delete, UniqueKeys, SlugsUnique, GeneralOnly;
    Reseated(db.members, MemberKey(id, name), Membership(role, now), MemberKey(id, name));
  }

  /** It occurs: the creator, added again a moment later, gets a new join time and a log entry. */
  lemma {:induction false} ReAddOccurs()
    ensures var db := CreateOf(Seeded(0), "ops", "", "ann", "c1", 1).0;
      var db' := AddMemberOf(db, "c1", "ann", Member, "ann", 2).0;
      && Get(db.members, MemberKey("c1", "ann")) == Some(Membership(Member, 1))
      && Get(db'.members, MemberKey("c1", "ann")) == Some(Membership(Member, 2))
      && |db'.audit| == |db.audit| + 1
  {
    FirstCreate();
    var db := CreateOf(Seeded(0), "ops", "", "ann", "c1", 1).0;
    assert db.members == [Entry(MemberKey("c1", "ann"), Membership(Member, 1))] by { CreatedMembers(); }
    assert db.members[1..] == [] && Delete(db.members, MemberKey("c1", "ann")) == [];
    var row := Entry("c1", Channel("ops", "", "ann", 1, None));
    assert db.channels[1..] == [row];
    assert Get([row], "c1") == Some(row.value) && Get(db.channels, "c1") == Some(row.value);
    hide CreateOf;
  }

  lemma {:induction false} CreatedMembers()
    ensures CreateOf(Seeded(0), "ops", "", "ann", "c1", 1).0.members
         == [Entry(MemberKey("c1", "ann"), Membership(Member, 1))]
  {
    OpsIsSlug();
    hide ValidSlug;
    assert Seeded(0).channels == [SeedRow()] && [SeedRow()][1..] == [];
  }

  // ----------------------------------------------------------------------- membership

  lemma {:induction false} MemberRowIn(db: Db, id: string, e: Entry<MemberKey, Membership>)
    ensures e in MemberRows(db, id) <==> e in db.members && e.key.channel == id
  {
    var mine := Filter(db.members, (e: Entry<MemberKey, Membership>) => e.key.channel == id);
    SortPermutes(mine, (a: Entry<MemberKey, Membership>, b: Entry<MemberKey, Membership>) => Before(a, b));
    hide StableSort;
    assert e in MemberRows(db, id) <==> e in multiset(MemberRows(db, id));
    assert e in mine <==> e in multiset(mine);
  }

  lemma {:induction false} NamedRow(rows: seq<Entry<MemberKey, Membership>>, name: string)
    ensures name in Names(rows) <==> exists e :: e in rows && e.key.name == name
  {
    if i :| 0 <= i < |rows| && Names(rows)[i] == name {
      assert rows[i] in rows;
    }
    if e :| e in rows && e.key.name == name {
      var i :| 0 <= i < |rows| && rows[i] == e;
      assert Names(rows)[i] == name;
    }
  }

  /** The fan-out list, the membership test and the role agree; general is everyone. */
  lemma {:induction false} RecipientsAreMembers(db: Db, id: string, name: string)
    requires UniqueKeys(db.members)
    ensures RecipientNames(db, id).None? <==> id == GENERAL_CHANNEL_ID
    ensures RecipientNames(db, id).Some? ==> (name in RecipientNames(db, id).value <==> IsMember(db, id, name))
    ensures IsMember(db, id, name) <==> RoleOf(db, id, name).Some?
  {
    hide MemberRows, Get, UniqueKeys, Names;
    if id != GENERAL_CHANNEL_ID {
      var rows, key := MemberRows(db, id), MemberKey(id, name);
      NamedRow(rows, name);
      GetIn(db.members, key);
      if IsMember(db, id, name) {
        MemberRowIn(db, id, Entry(key, Get(db.members, key).value));
      }
      if e :| e in rows && e.key.name == name {
        MemberRowIn(db, id, e);
        GetUnique(db.members, e);
      }
    }
  }

  /** Admins come first, then the longest-standing. */
  lemma {:induction false} RecipientsInOrder(db: Db, id: string, i: nat, j: nat)
    requires i < j < |MemberRows(db, id)|
    ensures var a, b := MemberRows(db, id)[i].value, MemberRows(db, id)[j].value;
      (a.role.Admin? && b.role.Member?) || (a.role == b.role && a.joinedAt <= b.joinedAt)
  {
    SortSorts(Filter(db.members, (e: Entry<MemberKey, Membership>) => e.key.channel == id),
              (a: Entry<MemberKey, Membership>, b: Entry<MemberKey, Membership>) => Before(a, b));
  }

  /** A member sees exactly the active channels that count the member in. */
  lemma {:induction false} ListedWhereMember(db: Db, name: string, e: Entry<string, Channel>)
    ensures e in ListForMember(db, name) <==> e in db.channels && Active(e.value) && IsMember(db, e.key, name)
  {
    var s := Filter(db.channels, (e: Entry<string, Channel>) => Active(e.value) && IsMember(db, e.key, name));
    var newer := (a: Entry<string, Channel>, b: Entry<string, Channel>) => a.value.createdAt > b.value.createdAt;
    SortPermutes(s, newer);
    var sorted := StableSort(s, newer);
    hide StableSort;
    assert e in sorted <==> e in multiset(sorted);
    assert e in s <==> e in multiset(s);
  }

  /** ... newest first. */
  lemma {:induction false} ListedNewestFirst(db: Db, name: string, i: nat, j: nat)
    requires i < j < |ListForMember(db, name)|
    ensures ListForMember(db, name)[i].value.createdAt >= ListForMember(db, name)[j].value.createdAt
  {
    SortSorts(Filter(db.channels, (e: Entry<string, Channel>) => Active(e.value) && IsMember(db, e.key, name)),
              (a: Entry<string, Channel>, b: Entry<string, Channel>) => a.value.createdAt > b.value.createdAt);
  }
}
