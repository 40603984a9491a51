/**
 * Live fan-out and the durable feed: whoever a push reaches live is whoever the
 * feed later shows it to, except where it provably is not.
 */
module Brokers {
  import opened Prelude
  import opened EventFeed

  datatype Payload = Payload(to: Option<string>, body: string, thread: Option<string>, kind: Option<string>)
  datatype Context = Context(from: Option<string>, recipients: Option<seq<string>>)

  datatype PushError = CredentialShapedBody | InvalidRecipient
  datatype PushResult = Pushed(message: Message, fanout: set<string>, targets: nat) | Refused(error: PushError)

  // ---------------------------------------------------------------- specification

  /** The sender, unless absent or empty: an empty name is falsy. */
  function Sender(from: Option<string>): set<string> {
    if from.Some? && from.value != "" then {from.value} else {}
  }

  function SetOf(s: seq<string>): set<string> { set x | x in s }

  /** The members a push reaches live: always registered ones. */
  function Fanout(registry: set<string>, to: Option<string>, c: Context): set<string> {
    if to.Some? then ({to.value} + Sender(c.from)) * registry
    else if c.recipients.Some? then (SetOf(c.recipients.value) + Sender(c.from)) * registry
    else registry
  }

  /** The audience recorded with the row. */
  function Audience(to: Option<string>, c: Context): Option<seq<string>> {
    if to.None? && c.recipients.Some? then
      Some(Dedup(c.recipients.value + if c.from.Some? && c.from.value != "" then [c.from.value] else []))
    else None
  }

  function MakeMessage(p: Payload, c: Context, id: string, ts: int): Message {
    Message(id, ts, p.to, c.from, p.body, p.thread, p.kind)
  }

  function Targets(registry: set<string>, to: Option<string>, c: Context): nat {
    if to.Some? then (if to.value in registry then 1 else 0)
    else if c.recipients.Some? then |c.recipients.value|
    else |registry|
  }

  function PushOutcome(bearer: string -> bool, registry: set<string>, p: Payload, c: Context, id: string,
      ts: int): PushResult {
    if bearer(p.body) then Refused(CredentialShapedBody)
    else if p.to.Some? && !NameOk(p.to.value) then Refused(InvalidRecipient)
    else Pushed(MakeMessage(p, c, id, ts), Fanout(registry, p.to, c), Targets(registry, p.to, c))
  }

  // ------------------------------------------------------------------------- class

  class Broker {
    var registry: set<string>
    const eventLog: InMemoryEventLog
    const containsBearerToken: string -> bool

    constructor (eventLog: InMemoryEventLog, containsBearerToken: string -> bool)
      ensures registry == {} && this.eventLog == eventLog && this.containsBearerToken == containsBearerToken
    {
      registry := {};
      this.eventLog := eventLog;
      this.containsBearerToken := containsBearerToken;
    }

    method Register(name: string)
      modifies this`registry
      ensures registry == old(registry) + {name}
      ensures State(registry, eventLog.stored)
           == Step(containsBearerToken, old(State(registry, eventLog.stored)), RegisterOp(name))
    {
      registry := registry + {name};
    }

    /** A refused push leaves the log alone; an accepted one is logged before it is delivered. */
    method Push(p: Payload, c: Context, id: string, ts: int) returns (r: PushResult)
      modifies eventLog
      ensures r == PushOutcome(containsBearerToken, registry, p, c, id, ts)
      ensures r.Refused? ==> eventLog.stored == old(eventLog.stored)
      ensures r.Pushed? ==> eventLog.stored == old(eventLog.stored) + [StoredEvent(r.message, Audience(p.to, c))]
      ensures State(registry, eventLog.stored)
           == Step(containsBearerToken, old(State(registry, eventLog.stored)), PushOp(p, c, id, ts))
    {
      if containsBearerToken(p.body) { return Refused(CredentialShapedBody); }
      if p.to.Some? && !NameOk(p.to.value) { return Refused(InvalidRecipient); }
      var message := MakeMessage(p, c, id, ts);
      eventLog.Append(message, Audience(p.to, c));
      var recipients := {};
      var targets: nat;
      if p.to.Some? {
        if p.to.value in registry { recipients := recipients + {p.to.value}; }
        if c.from.Some? && c.from.value != "" && c.from != p.to && c.from.value in registry {
          recipients := recipients + {c.from.value};
        }
        targets := if p.to.value in registry then 1 else 0;
      } else if c.recipients.Some? {
        var names := c.recipients.value;
        for i := 0 to |names|
          invariant recipients == SetOf(names[..i]) * registry
        {
          assert names[..i + 1] == names[..i] + [names[i]];
          if names[i] in registry { recipients := recipients + {names[i]}; }
        }
        assert names[..|names|] == names;
        if c.from.Some? && c.from.value != "" && c.from.value in registry {
          recipients := recipients + {c.from.value};
        }
        targets := |names|;
      } else {
        recipients := registry;
        targets := |registry|;
      }
      assert recipients == Fanout(registry, p.to, c);
      r := Pushed(message, recipients, targets);
    }
  }

  // ----------------------------------------------------- where the two views agree

  /** The push is meant for this member, by its address, its list or its sender; one with neither is for everyone. */
  predicate MeantFor(m: Message, c: Context, viewer: string) {
    || (viewer != "" && m.from == Some(viewer))
    || (if m.to.Some? then m.to == Some(viewer) else c.recipients.Some? ==> viewer in c.recipients.value)
  }

  /** A secret lifecycle event reaches whom it is meant for live, but no feed. */
  predicate SecretDelivery(m: Message, c: Context, viewer: string) { IsSecretThread(m) && MeantFor(m, c, viewer) }

  /** A broadcast that looks scoped but carries no list reaches everyone live and only its sender's feed. */
  predicate UnlistedScoped(m: Message, c: Context, viewer: string) {
    !IsSecretThread(m) && m.to.None? && c.recipients.None? && IsLegacyScopedEvent(m) && m.from != Some(viewer)
  }

  /** The empty name is a sender the fan-out drops and the feed keeps. */
  predicate EmptySender(m: Message, c: Context, viewer: string) {
    && !IsSecretThread(m) && viewer == "" && m.from == Some("")
    && (m.to.Some? || (c.recipients.Some? && "" !in c.recipients.value))
  }

  predicate Differs(m: Message, c: Context, viewer: string) {
    SecretDelivery(m, c, viewer) || UnlistedScoped(m, c, viewer) || EmptySender(m, c, viewer)
  }

  lemma {:induction false} FanoutIs(registry: set<string>, to: Option<string>, c: Context, name: string)
    ensures name in Fanout(registry, to, c)
        <==> name in registry
             && (|| (name != "" && c.from == Some(name)) || to == Some(name)
                 || (to.None? && (c.recipients.None? || name in c.recipients.value)))
  {
  }

  lemma {:induction false} AudienceIs(to: Option<string>, c: Context, name: string)
    ensures Audience(to, c).Some? <==> to.None? && c.recipients.Some?
    ensures Audience(to, c).Some? ==>
      && (name in Audience(to, c).value <==> name in c.recipients.value || (name != "" && c.from == Some(name)))
      && forall i, j :: 0 <= i < j < |Audience(to, c).value| ==> Audience(to, c).value[i] != Audience(to, c).value[j]
  {
    hide Dedup;
  }

  /**
   * A push is refused for a credential-shaped body, or else for a malformed address.  An
   * accepted one keeps what it was given; live it reaches the registered among its address
   * or list and its sender, or everyone registered when it has neither; the row records the
   * list with its sender, each once; and it counts an address only if registered, but every
   * name of a list, and all when it has neither.
   */
  lemma {:induction false} PushIs(bearer: string -> bool, registry: set<string>, p: Payload, c: Context, id: string,
      ts: int, name: string)
    ensures var r := PushOutcome(bearer, registry, p, c, id, ts);
      && (bearer(p.body) ==> r == Refused(CredentialShapedBody))
      && (!bearer(p.body) && p.to.Some? && !NameOk(p.to.value) ==> r == Refused(InvalidRecipient))
      && (r.Pushed? <==> !bearer(p.body) && (p.to.Some? ==> NameOk(p.to.value)))
      && (r.Pushed? ==>
            && r.message == Message(id, ts, p.to, c.from, p.body, p.thread, p.kind)
            && (name in r.fanout
                <==> name in registry
                     && (|| (name != "" && c.from == Some(name)) || p.to == Some(name)
                         || (p.to.None? && (c.recipients.None? || name in c.recipients.value))))
            && r.targets == (if p.to.Some? then One(p.to.value in registry)
                             else if c.recipients.Some? then |c.recipients.value| else |registry|))
    ensures var a := Audience(p.to, c);
      && (a.Some? <==> p.to.None? && c.recipients.Some?)
      && (a.Some? ==>
            && (name in a.value <==> name in c.recipients.value || (name != "" && c.from == Some(name)))
            && forall i, j :: 0 <= i < j < |a.value| ==> a.value[i] != a.value[j])
  {
    FanoutIs(registry, p.to, c, name);
    AudienceIs(p.to, c, name);
    hide Fanout, Audience, NameOk;
  }

  /** For a registered viewer, live delivery and the durable feed differ in exactly those cases. */
  lemma {:induction false} FeedAgrees(registry: set<string>, p: Payload, c: Context, id: string, ts: int,
      viewer: string)
    requires viewer in registry && (p.to.Some? ==> NameOk(p.to.value))
    ensures var m := MakeMessage(p, c, id, ts);
      (viewer in Fanout(registry, p.to, c) <==> FeedVisibleTo(m, Audience(p.to, c), viewer))
      <==> !Differs(m, c, viewer)
  {
    hide IsSecretThread, IsLegacyScopedEvent, Dedup;
  }

  /** Each of the three cases occurs. */
  lemma {:induction false} EachCaseOccurs(id: string, ts: int)
    ensures var c, p := Context(None, Some(["ann"])), Payload(None, "", Some(SECRET_THREAD_PREFIX), None);
      "ann" in Fanout({"ann"}, p.to, c) && !FeedVisibleTo(MakeMessage(p, c, id, ts), Audience(p.to, c), "ann")
    ensures var c, p := Context(Some("bob"), None), Payload(None, "", None, Some("instructions"));
      "ann" in Fanout({"ann"}, p.to, c) && !FeedVisibleTo(MakeMessage(p, c, id, ts), Audience(p.to, c), "ann")
    ensures var c, p := Context(Some(""), None), Payload(Some("ann"), "", None, None);
      "" !in Fanout({""}, p.to, c) && FeedVisibleTo(MakeMessage(p, c, id, ts), Audience(p.to, c), "")
  {
    assert "ann" in ["ann"] && |"bob"| != |""| && "bob"[0] != "ann"[0];
  }

  // -------------------------------------------------------------------------- runs

  datatype Op = RegisterOp(name: string) | PushOp(payload: Payload, context: Context, id: string, ts: int)

  datatype State = State(registry: set<string>, log: seq<StoredEvent>)

  function Outcome(bearer: string -> bool, s: State, op: Op): PushResult
    requires op.PushOp?
  {
    PushOutcome(bearer, s.registry, op.payload, op.context, op.id, op.ts)
  }

  predicate Accepted(bearer: string -> bool, s: State, op: Op) { op.PushOp? && Outcome(bearer, s, op).Pushed? }

  function Step(bearer: string -> bool, s: State, op: Op): State {
    if op.RegisterOp? then s.(registry := s.registry + {op.name})
    else if Accepted(bearer, s, op) then
      s.(log := s.log + [StoredEvent(Outcome(bearer, s, op).message, Audience(op.payload.to, op.context))])
    else s
  }

  function Run(bearer: string -> bool, s: State, ops: seq<Op>): State
    decreases |ops|
  {
    if ops == [] then s else Run(bearer, Step(bearer, s, ops[0]), ops[1..])
  }

  predicate Reached(bearer: string -> bool, s: State, op: Op, viewer: string) {
    Accepted(bearer, s, op) && viewer in Outcome(bearer, s, op).fanout
  }

  /** The messages whose live fan-out contained the viewer, oldest first. */
  function Delivered(bearer: string -> bool, s: State, ops: seq<Op>, viewer: string): seq<Message>
    decreases |ops|
  {
    if ops == [] then []
    else
      (if Reached(bearer, s, ops[0], viewer) then [Outcome(bearer, s, ops[0]).message] else [])
      + Delivered(bearer, Step(bearer, s, ops[0]), ops[1..], viewer)
  }

  /** No accepted push of the run falls in a case where the views differ. */
  predicate NoneDiffers(bearer: string -> bool, s: State, ops: seq<Op>, viewer: string)
    decreases |ops|
  {
    ops == []
    || ((Accepted(bearer, s, ops[0]) ==>
           !Differs(Outcome(bearer, s, ops[0]).message, ops[0].context, viewer))
        && NoneDiffers(bearer, Step(bearer, s, ops[0]), ops[1..], viewer))
  }

  function SeenBy(viewer: string): StoredEvent -> bool {
    (e: StoredEvent) => FeedVisibleTo(e.message, e.recipients, viewer)
  }

  lemma {:induction false} MessagesAppend(a: seq<StoredEvent>, b: seq<StoredEvent>)
    ensures Messages(a + b) == Messages(a) + Messages(b)
  {
    if a == [] {
      assert a + b == b;
    } else {
      assert (a + b)[0] == a[0] && (a + b)[1..] == a[1..] + b;
      MessagesAppend(a[1..], b);
    }
  }

  lemma {:induction false} SeenOne(e: StoredEvent, viewer: string)
    ensures Filter([e], SeenBy(viewer)) == if FeedVisibleTo(e.message, e.recipients, viewer) then [e] else []
  {
    assert [e][1..] == [];
  }

  /** An accepted push the feed shows: it reached the viewer, or else the two views differ on it, and not both. */
  predicate Shows(bearer: string -> bool, s: State, op: Op, viewer: string) {
    && Accepted(bearer, s, op)
    && (Reached(bearer, s, op, viewer) != Differs(Outcome(bearer, s, op).message, op.context, viewer))
  }

  function Shown(bearer: string -> bool, s: State, ops: seq<Op>, viewer: string): seq<Message>
    decreases |ops|
  {
    if ops == [] then []
    else
      (if Shows(bearer, s, ops[0], viewer) then [Outcome(bearer, s, ops[0]).message] else [])
      + Shown(bearer, Step(bearer, s, ops[0]), ops[1..], viewer)
  }

  lemma {:induction false} ShownIsDelivered(bearer: string -> bool, s: State, ops: seq<Op>, viewer: string)
    requires NoneDiffers(bearer, s, ops, viewer)
    ensures Shown(bearer, s, ops, viewer) == Delivered(bearer, s, ops, viewer)
    decreases |ops|
  {
    hide Differs, Accepted, Step;
    if ops == [] {
    } else {
      ShownIsDelivered(bearer, Step(bearer, s, ops[0]), ops[1..], viewer);
    }
  }

  lemma {:induction false} StepSeen(bearer: string -> bool, s: State, op: Op, viewer: string)
    requires viewer in s.registry
    ensures viewer in Step(bearer, s, op).registry
    ensures Messages(Filter(Step(bearer, s, op).log, SeenBy(viewer)))
         == Messages(Filter(s.log, SeenBy(viewer)))
          + if Shows(bearer, s, op, viewer) then [Outcome(bearer, s, op).message] else []
  {
    hide Differs, Fanout, Audience, FeedVisibleTo, NameOk;
    if Accepted(bearer, s, op) {
      var p, c := op.payload, op.context;
      var e := StoredEvent(Outcome(bearer, s, op).message, Audience(p.to, c));
      FeedAgrees(s.registry, p, c, op.id, op.ts, viewer);
      FilterAppend(s.log, [e], SeenBy(viewer));
      SeenOne(e, viewer);
      MessagesAppend(Filter(s.log, SeenBy(viewer)), Filter([e], SeenBy(viewer)));
    }
  }

  lemma {:induction false} RunUnfolds(bearer: string -> bool, s: State, ops: seq<Op>, viewer: string)
    ensures ops == [] ==> Run(bearer, s, ops) == s && Shown(bearer, s, ops, viewer) == []
    ensures ops != [] ==>
      && Run(bearer, s, ops) == Run(bearer, Step(bearer, s, ops[0]), ops[1..])
      && Shown(bearer, s, ops, viewer)
         == (if Shows(bearer, s, ops[0], viewer) then [Outcome(bearer, s, ops[0]).message] else [])
          + Shown(bearer, Step(bearer, s, ops[0]), ops[1..], viewer)
  {
    hide Step, Shows, Outcome;
  }

  lemma {:induction false} RunSeen(bearer: string -> bool, s: State, ops: seq<Op>, viewer: string)
    requires viewer in s.registry
    ensures Messages(Filter(Run(bearer, s, ops).log, SeenBy(viewer)))
         == Messages(Filter(s.log, SeenBy(viewer))) + Shown(bearer, s, ops, viewer)
    decreases |ops|
  {
    RunUnfolds(bearer, s, ops, viewer);
    hide *;
    if ops == [] {
    } else {
      StepSeen(bearer, s, ops[0], viewer);
      RunSeen(bearer, Step(bearer, s, ops[0]), ops[1..], viewer);
    }
  }

  lemma {:induction false} FilterSnoc<T(!new)>(s: seq<T>, x: T, p: T -> bool)
    ensures Filter(s + [x], p) == Filter(s, p) + if p(x) then [x] else []
  {
    FilterAppend(s, [x], p);
    assert [x][1..] == [];
  }

  lemma {:induction false} ReversedSnoc<T>(s: seq<T>, x: T)
    ensures Reversed(s + [x]) == [x] + Reversed(s)
  {
  }

  lemma {:induction false} FilterReversed<T(!new)>(s: seq<T>, p: T -> bool)
    ensures LastFirst(s, p) == Reversed(Filter(s, p))
  {
    if s == [] {
    } else {
      hide *;
      var init, x := s[..|s| - 1], s[|s| - 1];
      assert s == init + [x] && s[..|s| - 1 + 1] == s;
      FilterReversed(init, p);
      FilterSnoc(init, x, p);
      LastFirstStep(s, p, |s| - 1);
      ReversedSnoc(Filter(init, p), x);
      assert Filter(init, p) + [] == Filter(init, p);
    }
  }

  lemma {:induction false} TakeMessages(events: seq<StoredEvent>, n: nat)
    ensures Messages(Take(Reversed(events), n)) == Take(Reversed(Messages(events)), n)
  {
    hide Messages, Reversed;
    var a, b := Messages(Take(Reversed(events), n)), Take(Reversed(Messages(events)), n);
    forall i | 0 <= i < |a| ensures a[i] == b[i] {
      assert Take(Reversed(events), n)[i] == Reversed(events)[i] == events[|events| - 1 - i];
    }
  }

  /** The unnarrowed feed, as the query computes it. */
  function Feed(log: seq<StoredEvent>, viewer: string, limit: Option<real>): seq<Message> {
    Messages(Take(LastFirst(log, (e: StoredEvent) => Asked(FeedQuery(viewer, None, None, limit, None), e)),
                  FeedPageSize(limit)))
  }

  lemma {:induction false} FeedIsSeen(log: seq<StoredEvent>, viewer: string, limit: Option<real>)
    ensures Feed(log, viewer, limit) == Take(Reversed(Messages(Filter(log, SeenBy(viewer)))), FeedPageSize(limit))
  {
    hide FeedVisibleTo, FeedPageSize, Take, Reversed, Messages;
    var asked := (e: StoredEvent) => Asked(FeedQuery(viewer, None, None, limit, None), e);
    FilterReversed(log, asked);
    FilterExt(log, asked, SeenBy(viewer));
    TakeMessages(Filter(log, SeenBy(viewer)), FeedPageSize(limit));
  }

  lemma {:induction false} NothingSeen(viewer: string)
    ensures Messages(Filter([], SeenBy(viewer))) == []
  {
  }

  /**
   * Over any run, for a viewer registered throughout, the unnarrowed feed is the
   * accepted pushes that reached the viewer live, but for those on which the views
   * differ, newest first and up to the limit.
   */
  lemma {:induction false} FeedIsShown(bearer: string -> bool, registry: set<string>, ops: seq<Op>, viewer: string,
      limit: Option<real>)
    requires viewer in registry
    ensures Feed(Run(bearer, State(registry, []), ops).log, viewer, limit)
         == Take(Reversed(Shown(bearer, State(registry, []), ops, viewer)), FeedPageSize(limit))
  {
    hide *;
    var s := State(registry, []);
    var shown, log := Shown(bearer, s, ops, viewer), Run(bearer, s, ops).log;
    RunSeen(bearer, s, ops, viewer);
    NothingSeen(viewer);
    assert Messages(Filter(log, SeenBy(viewer))) == [] + shown == shown;
    FeedIsSeen(log, viewer, limit);
  }

  /** When no push of the run falls in a differing case, the feed is exactly the live deliveries. */
  lemma {:induction false} FeedIsFanout(bearer: string -> bool, registry: set<string>, ops: seq<Op>,
      viewer: string, limit: Option<real>)
    requires viewer in registry && NoneDiffers(bearer, State(registry, []), ops, viewer)
    ensures Feed(Run(bearer, State(registry, []), ops).log, viewer, limit)
         == Take(Reversed(Delivered(bearer, State(registry, []), ops, viewer)), FeedPageSize(limit))
  {
    hide *;
    FeedIsShown(bearer, registry, ops, viewer, limit);
    ShownIsDelivered(bearer, State(registry, []), ops, viewer);
  }
}
