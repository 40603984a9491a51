/**
 * Bounded-parallel fan-out as an interleaved step system.
 *
 * Runners share one `next` index.  A runner fetches the next item and hands it
 * to the worker, or finishes when none is left; a worker settles by returning
 * or by throwing, which `onError` absorbs.  Steps of different runners
 * interleave arbitrarily; one step is the code between two awaits.
 */
module BoundedParallel {
  import opened Prelude

  /** A JavaScript number. */
  datatype Number = NaN | NegInf | PosInf | Finite(r: real)

  datatype Runner = Fetching | Working(item: nat) | Finished

  datatype State = State(
    n: nat,
    /** False on the fast path, where every item has a runner of its own. */
    pooled: bool,
    next: nat,
    runners: seq<Runner>,
    /** Items given to the worker, in order. */
    handed: seq<nat>,
    succeeded: seq<nat>,
    /** Items given to `onError`, in order. */
    failed: seq<nat>)

  /** `Math.max(1, Math.floor(x))` for a finite x. */
  function Limit(x: real): (l: nat)
    ensures l >= 1 && (x < 2.0 ==> l == 1) && (x >= 1.0 ==> l as real <= x < l as real + 1.0)
  {
    if x.Floor < 1 then 1 else x.Floor
  }

  function UpTo(k: nat): (s: seq<nat>)
    ensures |s| == k && forall i :: 0 <= i < k ==> s[i] == i
  {
    if k == 0 then [] else UpTo(k - 1) + [k - 1]
  }

  function Pool(n: nat, size: nat): State {
    State(n, true, 0, seq(size, _ => Fetching), [], [], [])
  }

  function AllAtOnce(n: nat): State {
    State(n, false, n, seq(n, i requires 0 <= i < n => Working(i)), UpTo(n), [], [])
  }

  /** `NaN >= n` and `0 < NaN` are both false: no fast path and no runners. */
  function Start(n: nat, concurrency: Number): State {
    if n == 0 then Pool(0, 0)
    else match concurrency
      case NaN => Pool(n, 0)
      case PosInf => AllAtOnce(n)
      case NegInf => if 1 >= n then AllAtOnce(n) else Pool(n, 1)
      case Finite(x) => if Limit(x) >= n then AllAtOnce(n) else Pool(n, Limit(x))
  }

  datatype Action = Fetch(runner: nat) | Settle(runner: nat, ok: bool)

  predicate Enabled(s: State, a: Action) {
    && a.runner < |s.runners|
    && (a.Fetch? ==> s.runners[a.runner].Fetching?)
    && (a.Settle? ==> s.runners[a.runner].Working?)
  }

  function Next(s: State, a: Action): State
    requires Enabled(s, a)
  {
    match a
    case Fetch(r) =>
      var index := s.next;
      if index >= s.n then s.(next := index + 1, runners := s.runners[r := Finished])
      else s.(next := index + 1, runners := s.runners[r := Working(index)], handed := s.handed + [index])
    case Settle(r, ok) =>
      var item := s.runners[r].item;
      var s1 := s.(runners := s.runners[r := if s.pooled then Fetching else Finished]);
      if ok then s1.(succeeded := s.succeeded + [item]) else s1.(failed := s.failed + [item])
  }

  /** `s` is reached from `s0` by performing `actions` in order. */
  ghost predicate Reaches(s0: State, actions: seq<Action>, s: State)
    decreases |actions|
  {
    if actions == [] then s == s0
    else Enabled(s0, actions[0]) && Reaches(Next(s0, actions[0]), actions[1..], s)
  }

  // ----------------------------------------------------------------- invariants

  function Occurs(s: seq<nat>, x: nat): nat {
    if s == [] then 0 else One(s[0] == x) + Occurs(s[1..], x)
  }

  function HeldBy(rs: seq<Runner>, x: nat): nat {
    if rs == [] then 0 else One(rs[0] == Working(x)) + HeldBy(rs[1..], x)
  }

  function InFlight(rs: seq<Runner>): (k: nat)
    ensures k <= |rs|
  {
    if rs == [] then 0 else One(rs[0].Working?) + InFlight(rs[1..])
  }

  lemma {:induction false} HeldUpdate(rs: seq<Runner>, r: nat, v: Runner, x: nat)
    requires r < |rs|
    ensures HeldBy(rs[r := v], x) + One(rs[r] == Working(x)) == HeldBy(rs, x) + One(v == Working(x))
  {
    if r == 0 {
      assert rs[r := v][1..] == rs[1..];
    } else {
      HeldUpdate(rs[1..], r - 1, v, x);
      assert rs[r := v][1..] == rs[1..][r - 1 := v];
    }
  }

  lemma {:induction false} OccursSnoc(s: seq<nat>, y: nat, x: nat)
    ensures Occurs(s + [y], x) == Occurs(s, x) + One(y == x)
  {
    if s == [] {
      assert s + [y] == [y] && [y][1..] == [];
    } else {
      assert (s + [y])[0] == s[0] && (s + [y])[1..] == s[1..] + [y];
      OccursSnoc(s[1..], y, x);
    }
  }

  /** Items below `next` were handed out in order, and each is in flight, done or failed: exactly one, once. */
  ghost predicate Inv(s: State, x: nat) {
    && s.handed == UpTo(if s.next < s.n then s.next else s.n)
    && HeldBy(s.runners, x) + Occurs(s.succeeded, x) + Occurs(s.failed, x) == One(x < s.next && x < s.n)
    && (!s.pooled ==> s.next >= s.n && forall r :: 0 <= r < |s.runners| ==> !s.runners[r].Fetching?)
  }

  lemma {:induction false} NoneHeld(rs: seq<Runner>, x: nat)
    requires forall r :: 0 <= r < |rs| ==> rs[r] != Working(x)
    ensures HeldBy(rs, x) == 0
  {
    if rs == [] {
    } else {
      NoneHeld(rs[1..], x);
    }
  }

  lemma {:induction false} HeldOnce(rs: seq<Runner>, x: nat, at: nat)
    requires forall r :: 0 <= r < |rs| ==> (rs[r] == Working(x) <==> r == at)
    ensures HeldBy(rs, x) == One(at < |rs|)
  {
    if rs == [] {
    } else {
      if at == 0 {
        NoneHeld(rs[1..], x);
      } else {
        forall r | 0 <= r < |rs[1..]| ensures rs[1..][r] == Working(x) <==> r == at - 1 {
          assert rs[1..][r] == rs[r + 1];
        }
        HeldOnce(rs[1..], x, at - 1);
      }
    }
  }

  lemma {:induction false} StartInv(n: nat, concurrency: Number, x: nat)
    ensures Inv(Start(n, concurrency), x)
  {
    var s := Start(n, concurrency);
    if s.pooled {
      NoneHeld(s.runners, x);
      assert UpTo(0) == [];
    } else {
      HeldOnce(s.runners, x, x);
    }
  }

  lemma {:induction false} NextInv(s: State, a: Action, x: nat)
    requires Inv(s, x) && Enabled(s, a)
    ensures Inv(Next(s, a), x)
  {
    var r := a.runner;
    match a
    case Fetch(_) =>
      HeldUpdate(s.runners, r, if s.next >= s.n then Finished else Working(s.next), x);
    case Settle(_, ok) =>
      HeldUpdate(s.runners, r, if s.pooled then Fetching else Finished, x);
      OccursSnoc(s.succeeded, s.runners[r].item, x);
      OccursSnoc(s.failed, s.runners[r].item, x);
  }

  lemma {:induction false} ReachesInv(s0: State, actions: seq<Action>, s: State, x: nat)
    requires Inv(s0, x) && Reaches(s0, actions, s)
    ensures Inv(s, x)
    ensures s.n == s0.n && s.pooled == s0.pooled && |s.runners| == |s0.runners|
    decreases |actions|
  {
    if actions == [] {
    } else {
      NextInv(s0, actions[0], x);
      ReachesInv(Next(s0, actions[0]), actions[1..], s, x);
    }
  }

  // --------------------------------------------------------------- main results

  /** In every interleaving each item is handed to the worker at most once, in order. */
  lemma {:induction false} HandedInOrder(n: nat, concurrency: Number, actions: seq<Action>, s: State)
    requires Reaches(Start(n, concurrency), actions, s)
    ensures exists k: nat :: k <= n && s.handed == UpTo(k)
  {
    assert Start(n, concurrency).n == n;
    hide Reaches, Start, HeldBy, Occurs, UpTo;
    StartInv(n, concurrency, 0);
    ReachesInv(Start(n, concurrency), actions, s, 0);
    var k: nat := if s.next < s.n then s.next else s.n;
    assert k <= n && s.handed == UpTo(k);
  }

  /** A handed item is in flight on one runner, or settled once: returned, or reported to `onError`. */
  lemma {:induction false} EachItemOnce(n: nat, concurrency: Number, actions: seq<Action>, s: State, x: nat)
    requires Reaches(Start(n, concurrency), actions, s)
    ensures HeldBy(s.runners, x) + Occurs(s.succeeded, x) + Occurs(s.failed, x) == One(x in s.handed)
  {
    StartInv(n, concurrency, x);
    ReachesInv(Start(n, concurrency), actions, s, x);
    if x < |s.handed| {
      assert s.handed[x] == x;
    }
  }

  /** Settlements of a run with this outcome, by the item the settling runner held just before. */
  function Settlements(s: State, actions: seq<Action>, x: nat, ok: bool): nat
    decreases |actions|
  {
    if actions == [] || !Enabled(s, actions[0]) then 0
    else
      var a := actions[0];
      One(a.Settle? && a.ok == ok && s.runners[a.runner] == Working(x)) + Settlements(Next(s, a), actions[1..], x, ok)
  }

  lemma {:induction false} NextOutcome(s: State, a: Action, x: nat)
    requires Enabled(s, a)
    ensures Occurs(Next(s, a).succeeded, x)
         == Occurs(s.succeeded, x) + One(a.Settle? && a.ok && s.runners[a.runner] == Working(x))
    ensures Occurs(Next(s, a).failed, x)
         == Occurs(s.failed, x) + One(a.Settle? && !a.ok && s.runners[a.runner] == Working(x))
  {
    if a.Settle? {
      OccursSnoc(s.succeeded, s.runners[a.runner].item, x);
      OccursSnoc(s.failed, s.runners[a.runner].item, x);
    }
  }

  lemma {:induction false} OutcomesCounted(s0: State, actions: seq<Action>, s: State, x: nat)
    requires Reaches(s0, actions, s)
    ensures Occurs(s.succeeded, x) == Occurs(s0.succeeded, x) + Settlements(s0, actions, x, true)
    ensures Occurs(s.failed, x) == Occurs(s0.failed, x) + Settlements(s0, actions, x, false)
    decreases |actions|
  {
    if actions == [] {
    } else {
      NextOutcome(s0, actions[0], x);
      OutcomesCounted(Next(s0, actions[0]), actions[1..], s, x);
    }
  }

  lemma {:induction false} OccursIn(s: seq<nat>, x: nat)
    ensures Occurs(s, x) > 0 <==> x in s
  {
    if s == [] {
    } else {
      OccursIn(s[1..], x);
      assert x in s <==> x == s[0] || x in s[1..];
    }
  }

  /** An item is reported to `onError`, once, exactly when its worker threw, and returned exactly when it did not. */
  lemma {:induction false} OutcomesAre(n: nat, concurrency: Number, actions: seq<Action>, s: State, x: nat)
    requires Reaches(Start(n, concurrency), actions, s)
    ensures Occurs(s.failed, x) == Settlements(Start(n, concurrency), actions, x, false) <= 1
    ensures Occurs(s.succeeded, x) == Settlements(Start(n, concurrency), actions, x, true) <= 1
    ensures x in s.failed <==> Settlements(Start(n, concurrency), actions, x, false) == 1
    ensures x in s.succeeded <==> Settlements(Start(n, concurrency), actions, x, true) == 1
    ensures !(x in s.failed && x in s.succeeded)
  {
    var s0 := Start(n, concurrency);
    assert s0.succeeded == [] && s0.failed == [];
    OutcomesCounted(s0, actions, s, x);
    EachItemOnce(n, concurrency, actions, s, x);
    OccursIn(s.failed, x);
    OccursIn(s.succeeded, x);
    hide Start, Reaches, Settlements, HeldBy;
  }

  /** `Math.max(1, Math.floor(concurrency))` of `n` items: no more runners than items, and none at all for NaN. */
  function MostInFlight(n: nat, concurrency: Number): nat {
    match concurrency
    case NaN => 0
    case NegInf => if n < 1 then n else 1
    case PosInf => n
    case Finite(x) => if n < Limit(x) then n else Limit(x)
  }

  /** At most max(1, floor(concurrency)) items are in flight, whatever number the concurrency is. */
  lemma {:induction false} InFlightBounded(n: nat, concurrency: Number, actions: seq<Action>, s: State)
    requires Reaches(Start(n, concurrency), actions, s)
    ensures InFlight(s.runners) <= MostInFlight(n, concurrency)
  {
    StartInv(n, concurrency, 0);
    ReachesInv(Start(n, concurrency), actions, s, 0);
  }

  lemma {:induction false} AllWorking(rs: seq<Runner>)
    requires forall r :: 0 <= r < |rs| ==> rs[r].Working?
    ensures InFlight(rs) == |rs|
  {
    if rs == [] {
    } else {
      AllWorking(rs[1..]);
    }
  }

  /** A pool whose first `k` runners have fetched. */
  function Fetched(n: nat, size: nat, k: nat): State
    requires k <= size && k <= n
  {
    State(n, true, k, seq(size, i requires 0 <= i < size => if i < k then Working(i) else Fetching), UpTo(k), [], [])
  }

  function Fetches(k: nat): seq<Action> { seq(k, i requires 0 <= i < k => Fetch(i)) }

  lemma {:induction false} ReachesSnoc(s0: State, actions: seq<Action>, s: State, a: Action)
    requires Reaches(s0, actions, s) && Enabled(s, a)
    ensures Reaches(s0, actions + [a], Next(s, a))
    decreases |actions|
  {
    if actions == [] {
      assert [] + [a] == [a] && [a][1..] == [];
    } else {
      assert (actions + [a])[0] == actions[0] && (actions + [a])[1..] == actions[1..] + [a];
      ReachesSnoc(Next(s0, actions[0]), actions[1..], s, a);
    }
  }

  lemma {:induction false} PoolFetches(n: nat, size: nat, k: nat)
    requires k <= size && k <= n
    ensures Reaches(Pool(n, size), Fetches(k), Fetched(n, size, k))
  {
    if k == 0 {
      assert Pool(n, size).runners == Fetched(n, size, 0).runners;
    } else {
      PoolFetches(n, size, k - 1);
      ReachesSnoc(Pool(n, size), Fetches(k - 1), Fetched(n, size, k - 1), Fetch(k - 1));
      assert Fetches(k) == Fetches(k - 1) + [Fetch(k - 1)];
      assert Next(Fetched(n, size, k - 1), Fetch(k - 1)).runners == Fetched(n, size, k).runners;
    }
  }

  lemma {:induction false} FetchedAll(n: nat, size: nat)
    requires size <= n
    ensures InFlight(Fetched(n, size, size).runners) == size
  {
    AllWorking(Fetched(n, size, size).runners);
  }

  /** The bound is reached, by some run, for every number of items and every concurrency. */
  lemma {:induction false} InFlightReached(n: nat, concurrency: Number) returns (actions: seq<Action>, s: State)
    ensures Reaches(Start(n, concurrency), actions, s) && InFlight(s.runners) == MostInFlight(n, concurrency)
  {
    var start := Start(n, concurrency);
    if start.pooled {
      var size := |start.runners|;
      actions, s := Fetches(size), Fetched(n, size, size);
      PoolFetches(n, size, size);
      FetchedAll(n, size);
    } else {
      actions, s := [], start;
      AllWorking(start.runners);
    }
  }

  /** `Promise.all` resolves: every runner is done. */
  ghost predicate Done(s: State) { forall r :: 0 <= r < |s.runners| ==> s.runners[r].Finished? }

  ghost predicate FinishedPastEnd(s: State) {
    s.pooled && (exists r :: 0 <= r < |s.runners| && s.runners[r].Finished?) ==> s.next > s.n
  }

  lemma {:induction false} ReachesPastEnd(s0: State, actions: seq<Action>, s: State)
    requires FinishedPastEnd(s0) && Reaches(s0, actions, s)
    ensures FinishedPastEnd(s)
    decreases |actions|
  {
    if actions == [] {
    } else {
      ReachesPastEnd(Next(s0, actions[0]), actions[1..], s);
    }
  }

  /** A run that is done has moved `next` past every item, unless it never had a runner. */
  lemma {:induction false} DonePastEnd(n: nat, concurrency: Number, actions: seq<Action>, s: State)
    requires Reaches(Start(n, concurrency), actions, s) && Done(s)
    ensures if concurrency.NaN? && n > 0 then s == Start(n, concurrency) else s.next >= n
  {
    var s0 := Start(n, concurrency);
    StartInv(n, concurrency, 0);
    ReachesInv(s0, actions, s, 0);
    ReachesPastEnd(s0, actions, s);
    if concurrency.NaN? && n > 0 {
      assert actions == [];
    } else if s.pooled && n > 0 {
      assert s.runners[0].Finished?;
    }
  }

  /**
   * When all runners have finished every item was handed out and settled exactly
   * once, failures included; the one exception is a NaN concurrency, which
   * starts no runner and silently resolves with nothing done.
   */
  lemma {:induction false} DoneMeansAll(n: nat, concurrency: Number, actions: seq<Action>, s: State, x: nat)
    requires Reaches(Start(n, concurrency), actions, s) && Done(s)
    ensures s.handed == UpTo(n) <==> !(concurrency.NaN? && n > 0)
    ensures !(concurrency.NaN? && n > 0) ==> Occurs(s.succeeded, x) + Occurs(s.failed, x) == One(x < n)
  {
    DonePastEnd(n, concurrency, actions, s);
    StartInv(n, concurrency, x);
    hide Reaches, UpTo, HeldBy, Occurs;
    ReachesInv(Start(n, concurrency), actions, s, x);
    NoneHeld(s.runners, x);
  }

  /** The exception occurs: with a NaN concurrency the empty run is already done, and nothing was handed out. */
  lemma {:induction false} NaNDoesNothing(n: nat)
    requires n > 0
    ensures var s := Start(n, NaN);
      Reaches(s, [], s) && Done(s) && s.handed == [] && s.handed != UpTo(n)
  {
  }

  /** Until every runner is done, some runner can take a step: a failure never blocks the rest. */
  lemma {:induction false} NeverStuck(s: State)
    requires !Done(s)
    ensures exists a :: Enabled(s, a)
  {
    var r: nat :| r < |s.runners| && !s.runners[r].Finished?;
    assert Enabled(s, if s.runners[r].Fetching? then Fetch(r) else Settle(r, true));
  }

  function Effort(rs: seq<Runner>): nat {
    if rs == [] then 0
    else (match rs[0] case Fetching => 1 case Working(_) => 2 case Finished => 0) + Effort(rs[1..])
  }

  function Remaining(s: State): nat {
    2 * (if s.next < s.n then s.n - s.next else 0) + Effort(s.runners)
  }

  lemma {:induction false} EffortUpdate(rs: seq<Runner>, r: nat, v: Runner)
    requires r < |rs|
    ensures Effort(rs[r := v]) + Effort([rs[r]]) == Effort(rs) + Effort([v])
  {
    assert Effort([rs[r]][1..]) == 0 && Effort([v][1..]) == 0;
    if r == 0 {
      assert rs[r := v][1..] == rs[1..];
    } else {
      EffortUpdate(rs[1..], r - 1, v);
      assert rs[r := v][1..] == rs[1..][r - 1 := v];
    }
  }

  /** Every step makes progress, so no run is longer than its starting measure. */
  lemma {:induction false} RunsTerminate(s0: State, actions: seq<Action>, s: State)
    requires Reaches(s0, actions, s)
    ensures |actions| + Remaining(s) <= Remaining(s0)
    decreases |actions|
  {
    if actions == [] {
    } else {
      var a := actions[0];
      var s1 := Next(s0, a);
      EffortUpdate(s0.runners, a.runner, s1.runners[a.runner]);
      assert s1.runners == s0.runners[a.runner := s1.runners[a.runner]];
      assert [s0.runners[a.runner]][1..] == [] && [s1.runners[a.runner]][1..] == [];
      RunsTerminate(s1, actions[1..], s);
    }
  }
}
