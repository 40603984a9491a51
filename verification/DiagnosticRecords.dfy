/**
 * Who a diagnostic is recorded for: each distinct member it names, once; nobody in
 * particular when it names none, or more than the bound allows.
 */
module DiagnosticRecords {
  import opened Prelude
  import opened DiagnosticModel
  import opened DiagnosticLedger
  import opened DiagnosticCoverage
  import opened DiagnosticAnswers
  import opened DiagnosticHealth

  function NamesIn(members: seq<string>): set<string> { set m | m in members }

  /** The member column of the rows a record writes. */
  predicate Concerns(members: seq<string>, m: string) {
    if members != [] && |NamesIn(members)| <= 256 then m in members else m == ""
  }

  lemma {:induction false} DistinctSize(xs: seq<string>)
    requires forall i, j :: 0 <= i < j < |xs| ==> xs[i] != xs[j]
    ensures |NamesIn(xs)| == |xs|
  {
    if xs == [] {
    } else {
      var init, x := xs[..|xs| - 1], xs[|xs| - 1];
      DistinctSize(init);
      assert x !in NamesIn(init);
      assert NamesIn(xs) == NamesIn(init) + {x};
    }
  }

  lemma {:induction false} DedupSize(members: seq<string>)
    ensures |Dedup(members)| == |NamesIn(members)|
  {
    hide Dedup;
    assert forall x :: x in Dedup(members) <==> x in members;
    DistinctSize(Dedup(members));
    assert NamesIn(Dedup(members)) == NamesIn(members);
  }

  /** The names of the inserted rows, each of them once. */
  function RowNames(members: seq<string>): seq<string> {
    if Attributed(members) != [] then Attributed(members) else [UNATTRIBUTED]
  }

  lemma {:induction false} RowNamesAre(members: seq<string>)
    ensures forall m :: m in RowNames(members) <==> Concerns(members, m)
    ensures forall i, j :: 0 <= i < j < |RowNames(members)| ==> RowNames(members)[i] != RowNames(members)[j]
  {
    hide Dedup;
    DedupSize(members);
    if members != [] {
      assert members[0] in members && members[0] in Dedup(members);
    }
    assert Dedup(members) != [] ==> Dedup(members)[0] in Dedup(members);
  }

  lemma {:induction false} EventsWeigh(cause: Cause, names: seq<string>, t: int, m: string)
    requires forall i, j :: 0 <= i < j < |names| ==> names[i] != names[j]
    ensures Weigh(EventOccs(EventsFor(cause, names, t)), Is(cause, m)) == One(m in names)
    ensures forall o :: o in EventOccs(EventsFor(cause, names, t)) ==> o.cause == cause && o.ts == t
  {
    if names == [] {
    } else {
      EventsWeigh(cause, names[1..], t, m);
      assert EventsFor(cause, names, t)[1..] == EventsFor(cause, names[1..], t);
      assert names == [names[0]] + names[1..];
    }
  }

  lemma {:induction false} NothingRecorded(t: int, units: seq<Unit>)
    requires forall u :: u in units ==> !u.InsertUnit?
    ensures Recorded(At(t, units)) == []
  {
    if units == [] {
    } else {
      assert At(t, units)[1..] == At(t, units[1..]);
      assert units[0] in units;
      NothingRecorded(t, units[1..]);
    }
  }

  lemma {:induction false} RowNamesUnfold(members: seq<string>)
    ensures RowNames(members) == if Attributed(members) != [] then Attributed(members) else [UNATTRIBUTED]
  {
  }

  lemma {:induction false} EventsUnfold(cause: Cause, names: seq<string>, t: int, steps: seq<Step>)
    requires steps != [] && steps[0] == Step(t, InsertUnit(cause, names)) && Recorded(steps[1..]) == []
    ensures Recorded(steps) == EventOccs(EventsFor(cause, names, t))
  {
    hide EventOccs, EventsFor;
    assert EventOccs(EventsFor(cause, names, t)) + [] == EventOccs(EventsFor(cause, names, t));
  }

  lemma {:induction false} RecordInserts(cause: Cause, members: seq<string>, t: int)
    ensures var steps := At(t, RecordUnits(cause, members));
      && OwnFacts(steps)
      && Recorded(steps) == EventOccs(EventsFor(cause, RowNames(members), t))
  {
    hide Dedup, RowNames;
    var ins := InsertUnit(cause, RowNames(members));
    var size := |Dedup(members)|;
    var facts: seq<Unit> := if size > MAX_FANOUT then [FactUnit(FANOUT_TRUNCATED, size)] else [];
    var rest := facts + CAPS;
    assert RecordUnits(cause, members) == [ins] + rest by { RowNamesUnfold(members); }
    hide RecordUnits;
    assert At(t, [ins] + rest)[1..] == At(t, rest);
    NothingRecorded(t, rest);
    EventsUnfold(cause, RowNames(members), t, At(t, [ins] + rest));
  }

  /**
   * A completed record writes one occurrence for each distinct name, if there are at most
   * 256, and otherwise, or for no name, exactly one for nobody in particular; all of them
   * at its time.
   */
  lemma {:induction false} RecordWritesFor(c: Config, s: State, t: int, cause: Cause, members: seq<string>, m: string)
    requires cause !in RETENTION
    ensures var h := History(c, s, At(t, UnitsOf(Emit(cause, members))));
      && Weigh(h, Is(cause, m)) == One(Concerns(members, m))
      && forall o :: o in h && o.cause == cause ==> o.ts == t
  {
    var steps := At(t, RecordUnits(cause, members));
    RowNamesAre(members);
    RecordInserts(cause, members, t);
    hide RowNames, Concerns, RecordUnits, Recorded;
    EventsWeigh(cause, RowNames(members), t, m);
    HistoryIsRecorded(c, s, steps, cause, m);
    WrittenAt(c, s, steps, t);
  }

  /** Whatever a run writes is written at one of its times. */
  lemma {:induction false} WrittenAt(c: Config, s: State, steps: seq<Step>, t: int)
    requires forall i :: 0 <= i < |steps| ==> steps[i].t == t
    ensures forall o :: o in History(c, s, steps) ==> o.ts == t
    decreases |steps|
  {
    if steps == [] {
    } else {
      WrittenAt(c, Apply(c, s, steps[0]), steps[1..], t);
      forall o | o in Added(c, s, steps[0]) ensures o.ts == t {
        if steps[0].u.InsertUnit? {
          OccTime(steps[0].u.cause, steps[0].u.members, t, o);
        }
      }
      hide Added, Apply;
    }
  }

  lemma {:induction false} OccTime(cause: Cause, names: seq<string>, t: int, o: Occ)
    requires o in EventOccs(EventsFor(cause, names, t))
    ensures o.ts == t
  {
    if o in EventOccs(EventsFor(cause, names[1..], t)) {
      OccTime(cause, names[1..], t, o);
    } else {
      assert EventsFor(cause, names, t)[1..] == EventsFor(cause, names[1..], t);
    }
  }

  /** What the units of a list record under refusals. */
  function RefusedIn(units: seq<Unit>): nat {
    if units == [] then 0
    else (if units[0].FactUnit? && units[0].fact == FANOUT_TRUNCATED then units[0].n else 0) + RefusedIn(units[1..])
  }

  lemma {:induction false} UnitRefuses(c: Config, s: State, t: int, u: Unit)
    ensures Weigh(Added(c, s, Step(t, u)), IsRefusalFact)
         == if u.FactUnit? && u.fact == FANOUT_TRUNCATED then u.n else 0
  {
    var added := Added(c, s, Step(t, u));
    if u.FactUnit? {
      assert added[1..] == [];
    } else {
      forall o | o in added ensures !IsRefusalFact(o) {
        if u.InsertUnit? {
          EventOccsIn(EventsFor(u.cause, u.members, t), o);
        }
      }
      hide Added;
      WeighNone(added, IsRefusalFact);
    }
  }

  lemma {:induction false} HistoryRefuses(c: Config, s: State, t: int, units: seq<Unit>)
    ensures Weigh(History(c, s, At(t, units)), IsRefusalFact) == RefusedIn(units)
    decreases |units|
  {
    if units == [] {
    } else {
      hide Added, Apply;
      var s1 := Apply(c, s, Step(t, units[0]));
      assert At(t, units)[1..] == At(t, units[1..]);
      HistoryRefuses(c, s1, t, units[1..]);
      UnitRefuses(c, s, t, units[0]);
      WeighAppend(Added(c, s, Step(t, units[0])), History(c, s1, At(t, units[1..])), IsRefusalFact);
    }
  }

  lemma {:induction false} RefusedAppend(a: seq<Unit>, b: seq<Unit>)
    ensures RefusedIn(a + b) == RefusedIn(a) + RefusedIn(b)
  {
    if a == [] {
      assert a + b == b;
    } else {
      assert (a + b)[0] == a[0] && (a + b)[1..] == a[1..] + b;
      RefusedAppend(a[1..], b);
    }
  }

  lemma {:induction false} OneRefused(u: Unit)
    ensures RefusedIn([u]) == if u.FactUnit? && u.fact == FANOUT_TRUNCATED then u.n else 0
    ensures RefusedIn([]) == 0 && RefusedIn(CAPS) == 0
  {
    assert [u][1..] == [];
    assert CAPS[1..] == [CapBucketUnit, CapStateUnit] && CAPS[1..][1..] == [CapStateUnit];
  }

  /** A refused affected set leaves its size behind, and a set within the bound leaves nothing. */
  lemma {:induction false} RefusalCounts(c: Config, s: State, t: int, cause: Cause, members: seq<string>)
    ensures Weigh(History(c, s, At(t, UnitsOf(Emit(cause, members)))), IsRefusalFact)
         == if |NamesIn(members)| > 256 then |NamesIn(members)| else 0
  {
    var ins := [InsertUnit(cause, RowNames(members))];
    var facts := if |Dedup(members)| > MAX_FANOUT then [FactUnit(FANOUT_TRUNCATED, |Dedup(members)|)] else [];
    assert RecordUnits(cause, members) == ins + facts + CAPS;
    OneRefused(ins[0]);
    if facts != [] {
      OneRefused(facts[0]);
    }
    hide RecordUnits, Dedup, RefusedIn, RowNames;
    HistoryRefuses(c, s, t, RecordUnits(cause, members));
    RefusedAppend(ins + facts, CAPS);
    RefusedAppend(ins, facts);
    DedupSize(members);
  }

  /**
   * Short of a state eviction, a recorded incident leaves exactly the members it concerns
   * unresolved besides those that already were, and nobody's first instant moves; any
   * other cause leaves unresolved state alone.
   */
  lemma {:induction false} RecordUnresolves(c: Config, s: State, t: int, cause: Cause, members: seq<string>,
      cause': Cause, m: string)
    requires !Record(c, s, t, cause, members).stateEvicted
    ensures var before := Lookup(s.unresolved, cause', m);
      Lookup(Record(c, s, t, cause, members).unresolved, cause', m)
      == if before.Some? then before
         else if cause' == cause && cause in INCIDENTS && Concerns(members, m) then Some(t) else None
  {
    RecordIs(c, s, t, cause, members);
    RowNamesAre(members);
    var w := Written(s, t, cause, members);
    CapsKeepUnresolved(c, w, t);
    LookupUpsertAll(s.unresolved, cause, RowNames(members), t, cause', m);
    assert w.unresolved == if cause in INCIDENTS then UpsertAll(s.unresolved, cause, RowNames(members), t)
                           else s.unresolved;
    hide *;
  }

  lemma {:induction false} CapsKeepUnresolved(c: Config, s: State, t: int)
    requires !EnforceCaps(c, s, t).stateEvicted
    ensures EnforceCaps(c, s, t).unresolved == s.unresolved
  {
    hide FoldBucket, TakeOldest, DropOldest, MaxKey;
  }

  /** A recovery clears the one incident of its cause and member, if it is open, and touches nothing else. */
  lemma {:induction false} RecoverResolves(c: Config, s: State, t: int, cause: Cause, member: string, cause': Cause,
      m: string)
    ensures var s' := Run(c, s, At(t, UnitsOf(Recover(cause, member))));
      && Lookup(s'.unresolved, cause', m) == (if cause' == cause && m == member then None
                                              else Lookup(s.unresolved, cause', m))
      && s' == s.(unresolved := s'.unresolved)
  {
    var steps := At(t, UnitsOf(Recover(cause, member)));
    assert steps == [Step(t, ClearUnit(cause, member))] && steps[1..] == [];
    assert Run(c, s, steps) == ClearState(s, cause, member);
    LookupFilter(s.unresolved, cause, member, cause', m);
    hide Run, Lookup, Filter;
  }
}
