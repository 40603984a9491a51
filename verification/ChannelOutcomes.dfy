/**
 * What each operation of the channel store answers and changes, spelled out over single
 * rows: every refusal with its cause, and on success the one row written and the entries
 * logged, by whom and when.
 */
module ChannelOutcomes {
  import opened Prelude
  import opened OrderedMap
  import opened ChannelModel
  import opened ChannelAudit

  ghost predicate Acceptable(slug: string) { SlugGrammar(slug) && |slug| <= 32 }

  /** Some other channel that is not archived has the slug. */
  ghost predicate Taken(db: Db, slug: string, id: string) {
    exists e :: e in db.channels && e.key != id && e.value.slug == slug && e.value.archivedAt == None
  }

  /** Channel rows other than `id`'s are as they were. */
  ghost predicate OtherChannelsKept(db: Db, db': Db, id: string) {
    forall k :: k != id ==> Get(db'.channels, k) == Get(db.channels, k)
  }

  ghost predicate OtherSeatsKept(db: Db, db': Db, seat: MemberKey) {
    forall k :: k != seat ==> Get(db'.members, k) == Get(db.members, k)
  }

  lemma {:induction false} SlugIs(slug: string)
    ensures ValidSlug(slug) <==> Acceptable(slug)
  {
    PatternIsGrammar(slug);
    hide SlugPattern;
  }

  lemma {:induction false} PutKeepsOthers(db: Db, id: string, c: Channel)
    ensures Get(Put(db.channels, id, c), id) == Some(c)
    ensures forall k :: k != id ==> Get(Put(db.channels, id, c), k) == Get(db.channels, k)
  {
    forall k ensures Get(Put(db.channels, id, c), k) == if k == id then Some(c) else Get(db.channels, k) {
      GetPut(db.channels, id, c, k);
    }
  }

  /** The check by the first row and the index together refuse exactly the slugs some other active channel has. */
  lemma {:induction false} FirstRow(db: Db, slug: string, id: string)
    requires Tables(db)
    ensures Taken(db, slug, id) <==> SlugHeld(db.channels, slug, id)
    ensures var first := BySlug(db.channels, slug);
      first.Some? && first.value.key != id && Active(first.value.value) ==> Taken(db, slug, id)
    ensures Get(db.channels, id).None? ==> forall e :: e in db.channels ==> e.key != id
  {
    BySlugIs(db.channels, slug);
    GetIn(db.channels, id);
    hide BySlug, Get;
  }

  lemma {:induction false} CreateIs(db: Db, slug: string, description: string, creator: string, id: string, now: int)
    requires Tables(db)
    ensures var (db', reply) := CreateOf(db, slug, description, creator, id, now);
      && (reply == Failed(InvalidInput) <==> !Acceptable(slug))
      && (reply == Failed(Reserved) <==> Acceptable(slug) && slug == "general")
      && (reply.Done? <==> Acceptable(slug) && slug != "general" && !Taken(db, slug, id) && Get(db.channels, id).None?)
      && (reply.Failed? ==> db' == db && reply.error in {InvalidInput, Reserved, SlugTaken, Constraint})
      && (reply.Done? ==>
            && reply.channel == Some(Channel(slug, description, creator, now, None))
            && Get(db'.channels, id) == reply.channel && OtherChannelsKept(db, db', id)
            && Get(db'.members, MemberKey(id, creator)) == Some(Membership(Member, now))
            && OtherSeatsKept(db, db', MemberKey(id, creator))
            && db'.audit == db.audit + [AuditEntry(id, creator, CreateAction(slug, description), now)])
  {
    SlugIs(slug);
    FirstRow(db, slug, id);
    BySlugIs(db.channels, slug);
    PutKeepsOthers(db, id, Channel(slug, description, creator, now, None));
    SeatPut(db.members, MemberKey(id, creator), Membership(Member, now));
    hide ValidSlug, SlugGrammar, BySlug, Get, Put, Tables, SlugHeld;
  }

  lemma {:induction false} SeatPut(members: seq<Entry<MemberKey, Membership>>, seat: MemberKey, m: Membership)
    ensures forall k :: Get(Put(members, seat, m), k) == if k == seat then Some(m) else Get(members, k)
  {
    forall k ensures Get(Put(members, seat, m), k) == if k == seat then Some(m) else Get(members, k) {
      GetPut(members, seat, m, k);
    }
  }

  lemma {:induction false} UpdateIs(db: Db, id: string, newSlug: Option<string>, newDescription: Option<string>,
      actor: string, now: int)
    requires Tables(db)
    ensures var (db', reply) := UpdateOf(db, id, newSlug, newDescription, actor, now);
      var found := Get(db.channels, id);
      var bad := newSlug.Some? && !Acceptable(newSlug.value);
      var reserved := id == "general" || newSlug == Some("general");
      && (reply == Failed(InvalidInput) <==> bad)
      && (reply == Failed(Reserved) <==> !bad && reserved)
      && (reply == Failed(NotFound) <==> !bad && !reserved && found.None?)
      && (reply == Failed(Archived) <==> !bad && !reserved && found.Some? && found.value.archivedAt.Some?)
      && (reply.Failed? ==> db' == db)
      && (!bad && !reserved && found.Some? && found.value.archivedAt.None? ==>
            var c := found.value;
            var d := Channel(
              slug := if newSlug.Some? then newSlug.value else c.slug,
              description := if newDescription.Some? then newDescription.value else c.description,
              createdBy := c.createdBy, createdAt := c.createdAt, archivedAt := None);
            && (reply.Done? <==> !Taken(db, d.slug, id))
            && (reply.Failed? ==> reply.error in {SlugTaken, Constraint})
            && (reply.Done? ==>
                  && reply.channel == Some(d) && Get(db'.channels, id) == Some(d) && OtherChannelsKept(db, db', id)
                  && db'.members == db.members
                  && db'.audit == db.audit
                       + (if c.slug != d.slug then [AuditEntry(id, actor, RenameAction(c.slug, d.slug), now)] else [])
                       + (if c.description != d.description then
                            [AuditEntry(id, actor, DescribeAction(c.description, d.description), now)] else [])))
  {
    var found := Get(db.channels, id);
    if newSlug.Some? {
      SlugIs(newSlug.value);
    }
    if found.Some? {
      var c := found.value;
      var d := c.(slug := if newSlug.Some? then newSlug.value else c.slug,
                  description := if newDescription.Some? then newDescription.value else c.description);
      FirstRow(db, d.slug, id);
      PutKeepsOthers(db, id, d);
      if c == d && Active(c) {
        OwnSlugFree(db, id, c);
      }
      Reassoc(db.audit, UpdateEntries(c, d, id, actor, now), c, d, id, actor, now);
    }
    hide ValidSlug, SlugGrammar, BySlug, Get, Put, Tables, SlugHeld, Taken, UpdateEntries;
  }

  /** An unchanged channel's slug is nobody else's. */
  lemma {:induction false} OwnSlugFree(db: Db, id: string, c: Channel)
    requires Tables(db) && Get(db.channels, id) == Some(c) && Active(c)
    ensures !Taken(db, c.slug, id)
  {
    GetIn(db.channels, id);
    hide Get, UniqueKeys;
  }

  lemma {:induction false} Reassoc(audit: seq<AuditEntry>, entries: seq<AuditEntry>, c: Channel, d: Channel, id: string,
      actor: string, now: int)
    requires entries == UpdateEntries(c, d, id, actor, now)
    ensures audit + entries == audit
      + (if c.slug != d.slug then [AuditEntry(id, actor, RenameAction(c.slug, d.slug), now)] else [])
      + (if c.description != d.description then
           [AuditEntry(id, actor, DescribeAction(c.description, d.description), now)] else [])
    ensures c == d ==> entries == [] && audit + entries == audit
  {
  }

  lemma {:induction false} ArchiveIs(db: Db, id: string, actor: string, now: int)
    ensures var (db', reply) := ArchiveOf(db, id, actor, now);
      var found := Get(db.channels, id);
      && (reply == Failed(Reserved) <==> id == "general")
      && (reply == Failed(NotFound) <==> id != "general" && found.None?)
      && (reply.Failed? ==> db' == db && reply.error in {Reserved, NotFound})
      && (reply.Done? && found.value.archivedAt.Some? ==> db' == db && reply.channel == found)
      && (reply.Done? && found.value.archivedAt.None? ==>
            var c := found.value;
            && reply.channel == Some(Channel(c.slug, c.description, c.createdBy, c.createdAt, Some(now)))
            && Get(db'.channels, id) == reply.channel && OtherChannelsKept(db, db', id)
            && db'.members == db.members
            && db'.audit == db.audit + [AuditEntry(id, actor, ArchiveAction(c.slug), now)])
  {
    if Get(db.channels, id).Some? {
      PutKeepsOthers(db, id, Get(db.channels, id).value.(archivedAt := Some(now)));
    }
    hide Get, Put;
  }

  lemma {:induction false} AddMemberIs(db: Db, id: string, name: string, role: Role, actor: string, now: int)
    requires Tables(db)
    ensures var (db', reply) := AddMemberOf(db, id, name, role, actor, now);
      var found, seat := Get(db.channels, id), MemberKey(id, name);
      && (reply == Failed(NotFound) <==> id != "general" && found.None?)
      && (reply == Failed(Archived) <==> id != "general" && found.Some? && found.value.archivedAt.Some?)
      && (reply.Failed? ==> db' == db && reply.error in {NotFound, Archived})
      && (id == "general" ==> reply == Done(None) && db' == db)
      && (id != "general" && reply.Done? ==>
            && db'.channels == db.channels
            && Get(db'.members, seat) == Some(Membership(role, now)) && OtherSeatsKept(db, db', seat)
            && db'.audit == db.audit
                 + [AuditEntry(id, actor,
                      if Get(db.members, seat).None? then MemberAddAction(name, role)
                      else MemberRoleAction(name, Get(db.members, seat).value.role, role), now)])
  {
    var seat := MemberKey(id, name);
    forall k ensures Get(Put(Delete(db.members, seat), seat, Membership(role, now)), k)
                  == if k == seat then Some(Membership(role, now)) else Get(db.members, k) {
      Reseated(db.members, seat, Membership(role, now), k);
    }
    hide Get, Put, Delete, Tables;
  }

  lemma {:induction false} RemoveMemberIs(db: Db, id: string, name: string, actor: string, now: int)
    requires Tables(db)
    ensures var (db', reply) := RemoveMemberOf(db, id, name, actor, now);
      var found, seat := Get(db.channels, id), MemberKey(id, name);
      && (reply == Failed(Reserved) <==> id == "general")
      && (reply == Failed(NotFound) <==> id != "general" && found.None?)
      && (reply == Failed(NotMember) <==> id != "general" && found.Some? && Get(db.members, seat).None?)
      && (reply.Failed? ==> db' == db && reply.error in {Reserved, NotFound, NotMember})
      && (reply.Done? ==>
            && db'.channels == db.channels
            && Get(db'.members, seat) == None && OtherSeatsKept(db, db', seat)
            && db'.audit == db.audit
                 + [AuditEntry(id, actor, MemberRemoveAction(name, Get(db.members, seat).value.role), now)])
  {
    var seat := MemberKey(id, name);
    forall k ensures Get(Delete(db.members, seat), k) == if k == seat then None else Get(db.members, k) {
      GetDelete(db.members, seat, k);
    }
    hide Get, Delete, Tables;
  }
}
