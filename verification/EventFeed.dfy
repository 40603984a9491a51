/**
 * The event log: who a stored message is visible to, and the newest-first query
 * over the in-memory log.
 */
module EventFeed {
  import opened Prelude

  /** `thread` and `kind` are the tags in a message's data; `None` when absent or not a string. */
  datatype Message = Message(
    id: string,
    ts: int,
    to: Option<string>,
    from: Option<string>,
    body: string,
    thread: Option<string>,
    kind: Option<string>)

  datatype StoredEvent = StoredEvent(message: Message, recipients: Option<seq<string>>)

  const GENERAL_CHANNEL_ID := "general"
  const CHANNEL_THREAD_PREFIX := "chan:"
  const SECRET_THREAD_PREFIX := "secret:"
  const SCOPED_PREFIXES := ["secret:", "obj:", "tool:", "variable:", "hook:"]
  const SCOPED_UNTHREADED_KINDS := {"instructions", "context_control"}

  const DEFAULT_QUERY_LIMIT := 100
  const MAX_QUERY_LIMIT := 1000

  // ------------------------------------------------------------------ thread tags

  function ChannelThreadTag(channel: string): string { CHANNEL_THREAD_PREFIX + channel }

  /** A tag that addresses fewer than everyone. */
  predicate IsScopedThreadTag(tag: Option<string>) {
    && tag.Some?
    && ((exists i :: 0 <= i < |SCOPED_PREFIXES| && SCOPED_PREFIXES[i] <= tag.value)
        || (CHANNEL_THREAD_PREFIX <= tag.value && tag.value != ChannelThreadTag(GENERAL_CHANNEL_ID)))
  }

  predicate IsSecretThread(m: Message) { m.thread.Some? && SECRET_THREAD_PREFIX <= m.thread.value }

  /** A message that looks scoped by its tag or kind, whatever audience its row holds. */
  predicate IsLegacyScopedEvent(m: Message) {
    IsScopedThreadTag(m.thread) || (m.kind.Some? && m.kind.value in SCOPED_UNTHREADED_KINDS)
  }

  // ------------------------------------------------------------------- visibility

  predicate FeedVisibleTo(m: Message, recipients: Option<seq<string>>, viewer: string) {
    if IsSecretThread(m) then false
    else if m.to.Some? && m.from != Some(viewer) && m.to != Some(viewer) then false
    else if m.from == Some(viewer) then true
    else if recipients.Some? then viewer in recipients.value
    else if m.to.Some? then m.to == Some(viewer)
    else !IsLegacyScopedEvent(m)
  }

  predicate MatchesChannel(m: Message, channel: string) {
    if m.thread.Some? && m.thread.value != "" then m.thread.value == ChannelThreadTag(channel)
    else channel == GENERAL_CHANNEL_ID && m.to.None?
  }

  predicate MatchesViewer(m: Message, recipients: Option<seq<string>>, viewer: string, other: Option<string>) {
    if other.Some? then
      && m.to.Some?
      && ((m.from == Some(viewer) && m.to == other) || (m.from == other && m.to == Some(viewer)))
    else FeedVisibleTo(m, recipients, viewer)
  }

  /** `limit` is `None` when undefined or not finite. */
  datatype FeedQuery = FeedQuery(
    viewer: string,
    other: Option<string>,
    channel: Option<string>,
    limit: Option<real>,
    before: Option<int>)

  predicate Asked(q: FeedQuery, e: StoredEvent) {
    && (q.before.Some? ==> e.message.ts < q.before.value)
    && if q.channel.Some? then MatchesChannel(e.message, q.channel.value)
       else MatchesViewer(e.message, e.recipients, q.viewer, q.other)
  }

  function ClampQueryLimit(raw: Option<real>): int {
    if raw.None? || raw.value <= 0.0 then DEFAULT_QUERY_LIMIT else Min(raw.value.Floor, MAX_QUERY_LIMIT)
  }

  /** Rows a query may return: a fraction in (0, 1) floors to 0 and still lets one row through. */
  function FeedPageSize(raw: Option<real>): (n: nat)
    ensures 1 <= n <= MAX_QUERY_LIMIT
    ensures raw.Some? && 1.0 <= raw.value <= MAX_QUERY_LIMIT as real ==> n as real <= raw.value < n as real + 1.0
  {
    Max(1, ClampQueryLimit(raw))
  }

  function Messages(events: seq<StoredEvent>): (r: seq<Message>)
    ensures |r| == |events|
    ensures forall i :: 0 <= i < |events| ==> r[i] == events[i].message
  {
    if events == [] then [] else [events[0].message] + Messages(events[1..])
  }

  class InMemoryEventLog {
    var stored: seq<StoredEvent>

    constructor ()
      ensures stored == []
    {
      stored := [];
    }

    method Append(message: Message, recipients: Option<seq<string>>)
      modifies this
      ensures stored == old(stored) + [StoredEvent(message, recipients)]
    {
      stored := stored + [StoredEvent(message, recipients)];
    }

    /** Newest first, stopping when the page is full. */
    method Query(q: FeedQuery) returns (messages: seq<Message>)
      ensures messages == Messages(Take(LastFirst(stored, (e: StoredEvent) => Asked(q, e)), FeedPageSize(q.limit)))
    {
      var hits := WalkBack(stored, (e: StoredEvent) => Asked(q, e), ClampQueryLimit(q.limit));
      messages := Messages(hits);
    }
  }

  // ----------------------------------------------------------------- narrowed views

  /** The direct-message view of two members is exactly what passed between them, the same from either end. */
  lemma {:induction false} DirectViewIs(m: Message, recipients: Option<seq<string>>, viewer: string, other: string)
    ensures MatchesViewer(m, recipients, viewer, Some(other))
        <==> m.from.Some? && m.to.Some? && {m.from.value, m.to.value} == {viewer, other}
    ensures MatchesViewer(m, recipients, viewer, Some(other)) == MatchesViewer(m, recipients, other, Some(viewer))
  {
    if m.from.Some? && m.to.Some? && {m.from.value, m.to.value} == {viewer, other} {
      assert m.from.value in {viewer, other} && m.to.value in {viewer, other};
      assert viewer in {m.from.value, m.to.value} && other in {m.from.value, m.to.value};
    }
  }

  /** The direct-message view shows nothing the default feed hides, secrets aside. */
  lemma {:induction false} NarrowedWithinFeed(m: Message, viewer: string, other: string)
    requires MatchesViewer(m, None, viewer, Some(other)) && !IsSecretThread(m)
    ensures FeedVisibleTo(m, None, viewer)
  {
  }

  /** The one channel a message belongs to, read off its tag; a broadcast without a tag is general's. */
  function ChannelOf(m: Message): Option<string> {
    if m.thread.Some? && m.thread.value != "" then
      if CHANNEL_THREAD_PREFIX <= m.thread.value then Some(m.thread.value[|CHANNEL_THREAD_PREFIX|..]) else None
    else if m.to.None? then Some(GENERAL_CHANNEL_ID)
    else None
  }

  /** A channel's view shows exactly the messages of that channel, so each message is in one view at most. */
  lemma {:induction false} ChannelViewIs(m: Message, channel: string)
    ensures MatchesChannel(m, channel) <==> ChannelOf(m) == Some(channel)
  {
    if m.thread.Some? && m.thread.value != "" {
      assert ChannelThreadTag(channel)[|CHANNEL_THREAD_PREFIX|..] == channel;
      if CHANNEL_THREAD_PREFIX <= m.thread.value {
        assert m.thread.value == CHANNEL_THREAD_PREFIX + m.thread.value[|CHANNEL_THREAD_PREFIX|..];
      }
    }
  }

  /** Channel views do not overlap. */
  lemma {:induction false} OneChannelPerMessage(m: Message, a: string, b: string)
    requires MatchesChannel(m, a) && MatchesChannel(m, b)
    ensures a == b
  {
    ChannelViewIs(m, a);
    ChannelViewIs(m, b);
  }

  /**
   * What a query returns rows of: a channel, or else the direct view if one is named, or
   * else the feed; always older than its cursor.
   */
  lemma {:induction false} AskedIs(q: FeedQuery, e: StoredEvent)
    ensures Asked(q, e)
        <==> && (q.before.None? || e.message.ts < q.before.value)
             && (q.channel.Some? ==> ChannelOf(e.message) == q.channel)
             && (q.channel.None? && q.other.Some? ==>
                   && e.message.from.Some? && e.message.to.Some?
                   && {e.message.from.value, e.message.to.value} == {q.viewer, q.other.value})
             && (q.channel.None? && q.other.None? ==> FeedVisibleTo(e.message, e.recipients, q.viewer))
  {
    if q.channel.Some? {
      ChannelViewIs(e.message, q.channel.value);
    } else if q.other.Some? {
      DirectViewIs(e.message, e.recipients, q.viewer, q.other.value);
    }
    hide MatchesChannel, MatchesViewer, ChannelOf, FeedVisibleTo;
  }

  /**
   * A query returns the messages it asks for, last logged first, each once, up to its page
   * size: `at` says where they stood, and any it passed over stood before all of them.
   */
  lemma {:induction false} QueryIs(stored: seq<StoredEvent>, q: FeedQuery) returns (at: seq<nat>)
    ensures var n := FeedPageSize(q.limit);
      var out := Messages(Take(LastFirst(stored, (e: StoredEvent) => Asked(q, e)), n));
      && |out| == |at| <= n
      && (forall i :: 0 <= i < |at| ==> at[i] < |stored| && out[i] == stored[at[i]].message && Asked(q, stored[at[i]]))
      && (forall i, j :: 0 <= i < j < |at| ==> at[i] > at[j])
      && (forall k :: 0 <= k < |stored| && Asked(q, stored[k]) && k !in at ==>
            |at| == n && forall i :: 0 <= i < |at| ==> at[i] > k)
  {
    var n := FeedPageSize(q.limit);
    var all := WalkPlaces(stored, (e: StoredEvent) => Asked(q, e));
    at := Take(all, n);
    hide Asked, LastFirst, FeedPageSize;
    forall i | 0 <= i < |at| ensures Asked(q, stored[at[i]]) {
      assert all[i] in all;
    }
    forall k | 0 <= k < |stored| && Asked(q, stored[k]) && k !in at
      ensures |at| == n && forall i :: 0 <= i < |at| ==> at[i] > k {
      var j := TakeMisses(all, n, k);
    }
  }

  /**
   * The rules of the feed: no secrets; an address reaches its ends; an audience itself and
   * the sender; what has neither reaches everyone, unless it looks scoped.
   */
  lemma {:induction false} FeedRules(m: Message, recipients: Option<seq<string>>, viewer: string)
    ensures IsSecretThread(m) ==> !FeedVisibleTo(m, recipients, viewer)
    ensures !IsSecretThread(m) && m.from == Some(viewer) ==> FeedVisibleTo(m, recipients, viewer)
    ensures !IsSecretThread(m) && m.from != Some(viewer) ==>
      (FeedVisibleTo(m, recipients, viewer)
       <==> && (m.to.None? || m.to == Some(viewer))
            && (recipients.Some? ==> viewer in recipients.value)
            && (recipients.None? && m.to.None? ==> !IsLegacyScopedEvent(m)))
  {
    hide IsSecretThread, IsLegacyScopedEvent;
  }

  /** A tag looks scoped if it starts like one of the five kinds of thread, or is another channel's than general's. */
  lemma {:induction false} ScopedTagIs(tag: string)
    ensures IsScopedThreadTag(Some(tag))
        <==> || "secret:" <= tag || "obj:" <= tag || "tool:" <= tag || "variable:" <= tag || "hook:" <= tag
             || ("chan:" <= tag && tag != "chan:general")
    ensures !IsScopedThreadTag(None)
  {
    assert SCOPED_PREFIXES[0] == "secret:" && SCOPED_PREFIXES[1] == "obj:" && SCOPED_PREFIXES[2] == "tool:";
    assert SCOPED_PREFIXES[3] == "variable:" && SCOPED_PREFIXES[4] == "hook:";
    assert ChannelThreadTag(GENERAL_CHANNEL_ID) == "chan:general";
  }

  /** A message looks scoped by its tag, or by one of the two kinds sent without one. */
  lemma {:induction false} LooksScopedIs(m: Message)
    ensures IsLegacyScopedEvent(m)
        <==> || (m.thread.Some? && IsScopedThreadTag(m.thread))
             || m.kind == Some("instructions") || m.kind == Some("context_control")
    ensures IsSecretThread(m) <==> m.thread.Some? && "secret:" <= m.thread.value
  {
  }

  /** A usable limit is rounded down and capped at 1000; an absent or useless one means 100; a fraction, one row. */
  lemma {:induction false} PageSizeIs(raw: Option<real>)
    ensures raw.None? || raw.value <= 0.0 ==> FeedPageSize(raw) == 100
    ensures raw.Some? && 0.0 < raw.value < 1.0 ==> FeedPageSize(raw) == 1
    ensures raw.Some? && raw.value >= 1000.0 ==> FeedPageSize(raw) == 1000
    ensures raw.Some? && 1.0 <= raw.value <= 1000.0 ==>
      FeedPageSize(raw) as real <= raw.value < FeedPageSize(raw) as real + 1.0
  {
  }
}
