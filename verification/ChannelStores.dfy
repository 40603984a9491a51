/** The channel store, its three tables updated in place inside each transaction. */
module ChannelStores {
  import opened Prelude
  import opened OrderedMap
  import opened ChannelModel

  class ChannelStore {
    var channels: seq<Entry<string, Channel>>
    var members: seq<Entry<MemberKey, Membership>>
    var audit: seq<AuditEntry>

    function State(): Db
      reads this
    {
      Db(channels, members, audit)
    }

    /** A new database is seeded with general. */
    constructor (now: int)
      ensures State() == Seeded(now)
    {
      channels := [Entry(GENERAL_CHANNEL_ID, Channel(GENERAL_CHANNEL_SLUG, "", SYSTEM_ACTOR, now, None))];
      members, audit := [], [];
    }

    method Audit(id: string, actor: string, action: Action, at: int)
      modifies this`audit
      ensures audit == old(audit) + [AuditEntry(id, actor, action, at)]
    {
      audit := audit + [AuditEntry(id, actor, action, at)];
    }

    method CreateChannel(slug: string, description: string, creator: string, id: string, now: int) returns (r: Reply)
      modifies this
      ensures (State(), r) == CreateOf(old(State()), slug, description, creator, id, now)
    {
      hide ValidSlug, BySlug, SlugHeld, Get, Put;
      if !ValidSlug(slug) { return Failed(InvalidInput); }
      if slug == GENERAL_CHANNEL_SLUG { return Failed(Reserved); }
      var existing := BySlug(channels, slug);
      if existing.Some? && Active(existing.value.value) { return Failed(SlugTaken); }
      // The insert violates the primary key or the active-slug index: rolled back.
      if Get(channels, id).Some? || SlugHeld(channels, slug, id) { return Failed(Constraint); }
      var created := Channel(slug, description, creator, now, None);
      channels := Put(channels, id, created);
      members := Put(members, MemberKey(id, creator), Membership(Member, now));
      Audit(id, creator, CreateAction(slug, description), now);
      r := Done(Some(created));
    }

    method UpdateChannel(id: string, newSlug: Option<string>, newDescription: Option<string>, actor: string, now: int)
      returns (r: Reply)
      modifies this
      ensures (State(), r) == UpdateOf(old(State()), id, newSlug, newDescription, actor, now)
    {
      hide ValidSlug, BySlug, SlugHeld, Get, Put;
      if newSlug.Some? && !ValidSlug(newSlug.value) { return Failed(InvalidInput); }
      if id == GENERAL_CHANNEL_ID { return Failed(Reserved); }
      if newSlug == Some(GENERAL_CHANNEL_SLUG) { return Failed(Reserved); }
      var found := Get(channels, id);
      if found.None? { return Failed(NotFound); }
      var channel := found.value;
      if !Active(channel) { return Failed(Archived); }
      var nextSlug := if newSlug.Some? then newSlug.value else channel.slug;
      var nextDescription := if newDescription.Some? then newDescription.value else channel.description;
      if channel.slug == nextSlug && channel.description == nextDescription { return Done(Some(channel)); }
      var collide := BySlug(channels, nextSlug);
      if collide.Some? && collide.value.key != id && Active(collide.value.value) { return Failed(SlugTaken); }
      if SlugHeld(channels, nextSlug, id) { return Failed(Constraint); }
      var updated := channel.(slug := nextSlug, description := nextDescription);
      channels := Put(channels, id, updated);
      ghost var before := audit;
      if channel.slug != nextSlug {
        Audit(id, actor, RenameAction(channel.slug, nextSlug), now);
      }
      if channel.description != nextDescription {
        Audit(id, actor, DescribeAction(channel.description, nextDescription), now);
      }
      assert audit == before + UpdateEntries(channel, updated, id, actor, now);
      r := Done(Some(updated));
    }

    method ArchiveChannel(id: string, actor: string, now: int) returns (r: Reply)
      modifies this
      ensures (State(), r) == ArchiveOf(old(State()), id, actor, now)
    {
      if id == GENERAL_CHANNEL_ID { return Failed(Reserved); }
      var found := Get(channels, id);
      if found.None? { return Failed(NotFound); }
      var channel := found.value;
      if !Active(channel) { return Done(Some(channel)); }
      channels := Put(channels, id, channel.(archivedAt := Some(now)));
      Audit(id, actor, ArchiveAction(channel.slug), now);
      r := Done(Some(channel.(archivedAt := Some(now))));
    }

    method AddChannelMember(id: string, name: string, role: Role, actor: string, now: int) returns (r: Reply)
      modifies this
      ensures (State(), r) == AddMemberOf(old(State()), id, name, role, actor, now)
    {
      hide Get, Put, Delete;
      if id == GENERAL_CHANNEL_ID { return Done(None); }
      var found := Get(channels, id);
      if found.None? { return Failed(NotFound); }
      if !Active(found.value) { return Failed(Archived); }
      var prior := RoleOf(State(), id, name);
      if prior.Some? {
        members := Delete(members, MemberKey(id, name));
      } else {
        NothingToDelete(members, MemberKey(id, name));
      }
      members := Put(members, MemberKey(id, name), Membership(role, now));
      Audit(id, actor, if prior.None? then MemberAddAction(name, role) else MemberRoleAction(name, prior.value,
          role), now);
      r := Done(None);
    }

    method RemoveChannelMember(id: string, name: string, actor: string, now: int) returns (r: Reply)
      modifies this
      ensures (State(), r) == RemoveMemberOf(old(State()), id, name, actor, now)
    {
      if id == GENERAL_CHANNEL_ID { return Failed(Reserved); }
      if Get(channels, id).None? { return Failed(NotFound); }
      var member := Get(members, MemberKey(id, name));
      if member.None? { return Failed(NotMember); }
      members := Delete(members, MemberKey(id, name));
      Audit(id, actor, MemberRemoveAction(name, member.value.role), now);
      r := Done(None);
    }
  }

}
