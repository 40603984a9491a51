/** Channels: the tables, and what each operation of the channel store does to them. */
module ChannelModel {
  import opened Prelude
  import opened OrderedMap

  const GENERAL_CHANNEL_ID := "general"
  const GENERAL_CHANNEL_SLUG := "general"
  const SYSTEM_ACTOR := "__system__"
  const SLUG_MAX := 32

  datatype Role = Admin | Member

  datatype Channel = Channel(slug: string, description: string, createdBy: string, createdAt: int,
      archivedAt: Option<int>)

  datatype MemberKey = MemberKey(channel: string, name: string)
  datatype Membership = Membership(role: Role, joinedAt: int)

  datatype Action =
    | CreateAction(slug: string, description: string)
    | RenameAction(from: string, to: string)
    | DescribeAction(before: string, after: string)
    | MemberAddAction(added: string, role: Role)
    | MemberRoleAction(changed: string, prior: Role, next: Role)
    | MemberRemoveAction(removed: string, last: Role)
    | ArchiveAction(archived: string)

  datatype AuditEntry = AuditEntry(channel: string, actor: string, action: Action, at: int)

  /** Tables in rowid order; the two primary keys are the map keys. */
  datatype Db = Db(
    channels: seq<Entry<string, Channel>>,
    members: seq<Entry<MemberKey, Membership>>,
    audit: seq<AuditEntry>)

  /** `Constraint` is the raw error a violated unique index throws. */
  datatype Error = NotFound | InvalidInput | SlugTaken | NotMember | Reserved | Archived | Constraint

  datatype Reply = Done(channel: Option<Channel>) | Failed(error: Error)

  datatype Op =
    | Create(slug: string, description: string, creator: string, id: string, now: int)
    | Update(id: string, newSlug: Option<string>, newDescription: Option<string>, actor: string, now: int)
    | Archive(id: string, actor: string, now: int)
    | AddMember(id: string, name: string, role: Role, actor: string, now: int)
    | RemoveMember(id: string, name: string, actor: string, now: int)

  // ------------------------------------------------------------------------- slugs

  predicate Alnum(c: char) { 'a' <= c <= 'z' || '0' <= c <= '9' }

  /** The pattern's tail: one-character items, a dash only if no dash follows it, then a closing alphanumeric. */
  predicate MatchTail(s: string) {
    && s != []
    && if |s| == 1 then Alnum(s[0])
       else (Alnum(s[0]) || (s[0] == '-' && s[1] != '-')) && MatchTail(s[1..])
  }

  predicate SlugPattern(s: string) {
    || (|s| >= 2 && Alnum(s[0]) && MatchTail(s[1..]))
    || (|s| == 1 && Alnum(s[0]))
  }

  predicate ValidSlug(s: string) { s != [] && |s| <= SLUG_MAX && SlugPattern(s) }

  // ---------------------------------------------------------------------- lookups

  predicate Active(c: Channel) { c.archivedAt.None? }

  /** `WHERE slug = ?` with `.get()`: the first row, archived or not. */
  function BySlug(channels: seq<Entry<string, Channel>>, slug: string): Option<Entry<string, Channel>> {
    if channels == [] then None
    else if channels[0].value.slug == slug then Some(channels[0])
    else BySlug(channels[1..], slug)
  }

  /** The partial unique index would refuse this slug for a row other than `id`. */
  predicate SlugHeld(channels: seq<Entry<string, Channel>>, slug: string, id: string) {
    exists e :: e in channels && e.key != id && e.value.slug == slug && Active(e.value)
  }

  function RoleOf(db: Db, id: string, name: string): Option<Role> {
    if id == GENERAL_CHANNEL_ID then Some(Member)
    else if Get(db.members, MemberKey(id, name)).Some? then Some(Get(db.members, MemberKey(id, name)).value.role)
    else None
  }

  predicate IsMember(db: Db, id: string, name: string) {
    id == GENERAL_CHANNEL_ID || Get(db.members, MemberKey(id, name)).Some?
  }

  // -------------------------------------------------------------------- operations

  function CreateOf(db: Db, slug: string, description: string, creator: string, id: string, now: int): (Db, Reply) {
    var existing := BySlug(db.channels, slug);
    if !ValidSlug(slug) then (db, Failed(InvalidInput))
    else if slug == GENERAL_CHANNEL_SLUG then (db, Failed(Reserved))
    else if existing.Some? && Active(existing.value.value) then (db, Failed(SlugTaken))
    else if Get(db.channels, id).Some? || SlugHeld(db.channels, slug, id) then (db, Failed(Constraint))
    else
      var c := Channel(slug, description, creator, now, None);
      (Db(Put(db.channels, id, c),
          Put(db.members, MemberKey(id, creator), Membership(Member, now)),
          db.audit + [AuditEntry(id, creator, CreateAction(slug, description), now)]), Done(Some(c)))
  }

  function UpdateEntries(c: Channel, d: Channel, id: string, actor: string, now: int): seq<AuditEntry> {
    (if c.slug != d.slug then [AuditEntry(id, actor, RenameAction(c.slug, d.slug), now)] else [])
    + (if c.description != d.description then [AuditEntry(id, actor, DescribeAction(c.description, d.description),
        now)] else [])
  }

  function UpdateOf(db: Db, id: string, newSlug: Option<string>, newDescription: Option<string>, actor: string,
      now: int): (Db, Reply) {
    var found := Get(db.channels, id);
    if newSlug.Some? && !ValidSlug(newSlug.value) then (db, Failed(InvalidInput))
    else if id == GENERAL_CHANNEL_ID || newSlug == Some(GENERAL_CHANNEL_SLUG) then (db, Failed(Reserved))
    else if found.None? then (db, Failed(NotFound))
    else if !Active(found.value) then (db, Failed(Archived))
    else
      var c := found.value;
      var d := c.(slug := if newSlug.Some? then newSlug.value else c.slug,
                  description := if newDescription.Some? then newDescription.value else c.description);
      var collide := BySlug(db.channels, d.slug);
      if c == d then (db, Done(Some(c)))
      else if collide.Some? && collide.value.key != id && Active(collide.value.value) then (db, Failed(SlugTaken))
      else if SlugHeld(db.channels, d.slug, id) then (db, Failed(Constraint))
      else (db.(channels := Put(db.channels, id, d), audit := db.audit + UpdateEntries(c, d, id, actor, now)),
          Done(Some(d)))
  }

  function ArchiveOf(db: Db, id: string, actor: string, now: int): (Db, Reply) {
    var found := Get(db.channels, id);
    if id == GENERAL_CHANNEL_ID then (db, Failed(Reserved))
    else if found.None? then (db, Failed(NotFound))
    else if !Active(found.value) then (db, Done(found))
    else
      var c := found.value.(archivedAt := Some(now));
      (db.(channels := Put(db.channels, id, c),
           audit := db.audit + [AuditEntry(id, actor, ArchiveAction(c.slug), now)]), Done(Some(c)))
  }

  /** An existing row is deleted first, so a role change also resets `joinedAt`. */
  function AddMemberOf(db: Db, id: string, name: string, role: Role, actor: string, now: int): (Db, Reply) {
    var found := Get(db.channels, id);
    var prior := RoleOf(db, id, name);
    if id == GENERAL_CHANNEL_ID then (db, Done(None))
    else if found.None? then (db, Failed(NotFound))
    else if !Active(found.value) then (db, Failed(Archived))
    else
      var action := if prior.None? then MemberAddAction(name, role) else MemberRoleAction(name, prior.value, role);
      (db.(members := Put(Delete(db.members, MemberKey(id, name)), MemberKey(id, name), Membership(role, now)),
           audit := db.audit + [AuditEntry(id, actor, action, now)]), Done(None))
  }

  function RemoveMemberOf(db: Db, id: string, name: string, actor: string, now: int): (Db, Reply) {
    var member := Get(db.members, MemberKey(id, name));
    if id == GENERAL_CHANNEL_ID then (db, Failed(Reserved))
    else if Get(db.channels, id).None? then (db, Failed(NotFound))
    else if member.None? then (db, Failed(NotMember))
    else
      (db.(members := Delete(db.members, MemberKey(id, name)),
           audit := db.audit + [AuditEntry(id, actor, MemberRemoveAction(name, member.value.role), now)]), Done(None))
  }

  function Step(db: Db, op: Op): (Db, Reply) {
    match op
    case Create(slug, description, creator, id, now) => CreateOf(db, slug, description, creator, id, now)
    case Update(id, newSlug, newDescription, actor, now) => UpdateOf(db, id, newSlug, newDescription, actor, now)
    case Archive(id, actor, now) => ArchiveOf(db, id, actor, now)
    case AddMember(id, name, role, actor, now) => AddMemberOf(db, id, name, role, actor, now)
    case RemoveMember(id, name, actor, now) => RemoveMemberOf(db, id, name, actor, now)
  }

  function Run(db: Db, ops: seq<Op>): Db
    decreases |ops|
  {
    if ops == [] then db else Run(Step(db, ops[0]).0, ops[1..])
  }

  /** What `ensureGeneral` leaves in a new database. */
  function Seeded(now: int): Db {
    Db([Entry(GENERAL_CHANNEL_ID, Channel(GENERAL_CHANNEL_SLUG, "", SYSTEM_ACTOR, now, None))], [], [])
  }

  // ----------------------------------------------------------------------- listings

  predicate Before(a: Entry<MemberKey, Membership>, b: Entry<MemberKey, Membership>) {
    || (a.value.role.Admin? && b.value.role.Member?)
    || (a.value.role == b.value.role && a.value.joinedAt < b.value.joinedAt)
  }

  function MemberRows(db: Db, id: string): seq<Entry<MemberKey, Membership>> {
    StableSort(Filter(db.members, (e: Entry<MemberKey, Membership>) => e.key.channel == id),
               (a: Entry<MemberKey, Membership>, b: Entry<MemberKey, Membership>) => Before(a, b))
  }

  function Names(rows: seq<Entry<MemberKey, Membership>>): (r: seq<string>)
    ensures |r| == |rows|
    ensures forall i :: 0 <= i < |rows| ==> r[i] == rows[i].key.name
  {
    if rows == [] then [] else [rows[0].key.name] + Names(rows[1..])
  }

  /** `None` means everyone. */
  function RecipientNames(db: Db, id: string): Option<seq<string>> {
    if id == GENERAL_CHANNEL_ID then None else Some(Names(MemberRows(db, id)))
  }

  /** Active channels the member belongs to, newest first. */
  function ListForMember(db: Db, name: string): seq<Entry<string, Channel>> {
    StableSort(Filter(db.channels, (e: Entry<string, Channel>) => Active(e.value) && IsMember(db, e.key, name)),
               (a: Entry<string, Channel>, b: Entry<string, Channel>) => a.value.createdAt > b.value.createdAt)
  }
}
