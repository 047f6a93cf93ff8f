/** Every interleaving of managers has a history in which each operation takes place at once
    (pkg/manager/manager.go). */
module ManagerHistory {
  import opened Base
  import DaemonRefs
  import opened Managers
  import opened ManagerRuns

  /** An operation, and whether the store can be written when it tries. */
  datatype Op = AddOp(d: ConfigState, io: bool) | UpdateOp(d: ConfigState, io: bool) | DeleteOp(id: string, io: bool)

  type Driver = DaemonRefs.Driver
  type Daemons = map<string, ConfigState>

  /** An operation at once: the stored daemons after it, and whether it succeeds.  The cache plays no part. */
  ghost function Whole(daemons: Daemons, op: Op): (Daemons, bool) {
    match op
    case AddOp(d, io) => if d.id !in daemons && io then (daemons[d.id := d], true) else (daemons, false)
    case UpdateOp(d, io) => if d.id in daemons && io then (daemons[d.id := d], true) else (daemons, false)
    case DeleteOp(id, io) => if io then (daemons - {id}, true) else (daemons, false)
  }

  /** That is what the methods of a manager promise when its cache indexes the store. */
  lemma WholeIsTheMethod(daemons: Daemons, m: Driver, d: ConfigState, io: bool, owner: string -> Driver)
    requires Owned(daemons, owner) && owner(d.id) == m
    ensures var cache := IdsOf(daemons, m);
            && (Whole(daemons, AddOp(d, io)).1 <==> d.id !in cache && d.id !in daemons && io)
            && (Whole(daemons, UpdateOp(d, io)).1 <==> d.id in cache && io)
  {
  }

  /** What a step of `m` from `phase` to `after` decides: an operation, and whether it succeeds.  One that
      the cache refuses would be refused by a store that can be written. */
  ghost function Decided(phase: Phase, a: Action, after: Phase): Option<(Op, bool)> {
    match a
    case BeginAdd(d) => if after == Resting then Some((AddOp(d, true), false)) else None
    case BeginUpdate(d) => if after == Resting then Some((UpdateOp(d, true), false)) else None
    case Store(io) =>
      (match phase
       case Adding(d) => Some((AddOp(d, io), after == Written(d)))
       case Updating(d) => Some((UpdateOp(d, io), after == Written(d)))
       case Deleting(id) => Some((DeleteOp(id, io), after == Erased(id)))
       case _ => None)
    case _ => None
  }

  ghost predicate IsWhole(was: Daemons, now: Daemons, decided: Option<(Op, bool)>) {
    match decided
    case None => now == was
    case Some((op, ok)) => (now, ok) == Whole(was, op)
  }

  lemma StepIsWhole(s: State, m: Driver, a: Action, owner: string -> Driver)
    requires Inv(s, owner) && Step(s, m, a, owner).Some?
    ensures var t := Step(s, m, a, owner).value;
            m in t.desks && IsWhole(s.daemons, t.daemons, Decided(s.desks[m].phase, a, t.desks[m].phase))
  {
    assert DeskOk(s.daemons, m, s.desks[m], owner);
  }

  /** The operations of a run in the order in which they are decided, with their results. */
  ghost function History(s: State, run: Run, owner: string -> Driver): seq<(Op, bool)> {
    if run == [] then []
    else
      var n := |run| - 1;
      var (m, a) := run[n];
      var before, after := Exec(s, run[..n], owner), Exec(s, run, owner);
      var decided :=
        if before.Some? && after.Some? && m in before.value.desks && m in after.value.desks
        then Decided(before.value.desks[m].phase, a, after.value.desks[m].phase)
        else None;
      History(s, run[..n], owner) + if decided.Some? then [decided.value] else []
  }

  /** The stored daemons after these operations one by one; None when one would have another result. */
  ghost function Replay(daemons: Daemons, ops: seq<(Op, bool)>): Option<Daemons> {
    if ops == [] then Some(daemons)
    else
      var before := Replay(daemons, ops[..|ops| - 1]);
      var (op, ok) := ops[|ops| - 1];
      if before.None? || Whole(before.value, op).1 != ok then None else Some(Whole(before.value, op).0)
  }

  /** However the steps of the managers interleave, store failures included, the store ends up as if each
      operation had happened at once, in the order in which they were decided, with the same results. */
  lemma {:induction false} RunsAreAtomic(s: State, run: Run, owner: string -> Driver)
    requires Inv(s, owner) && Exec(s, run, owner).Some?
    ensures Replay(s.daemons, History(s, run, owner)) == Some(Exec(s, run, owner).value.daemons)
  {
    if run != [] {
      var n := |run| - 1;
      RunsAreAtomic(s, run[..n], owner);
      RunKeepsInv(s, run[..n], owner);
      StepIsWhole(Exec(s, run[..n], owner).value, run[n].0, run[n].1, owner);
      var past, all := History(s, run[..n], owner), History(s, run, owner);
      assert all == past || all[..|all| - 1] == past;
    }
  }

  // ---- Operations end ----

  /** How many steps the operation in progress may still take. */
  ghost function Left(phase: Phase): nat {
    match phase
    case Resting => 0
    case Written(_) => 1
    case Erased(_) => 1
    case _ => 2
  }

  ghost predicate Begins(a: Action) {
    a.BeginAdd? || a.BeginUpdate? || a.BeginDelete?
  }

  /** A manager at rest takes any operation on its own daemons; one at work goes on without waiting for the
      others and comes to rest in at most two more steps; nobody else moves it. */
  lemma OperationsEnd(s: State, m: Driver, a: Action, owner: string -> Driver)
    requires m in s.desks
    ensures Step(s, m, a, owner).Some? <==>
              var phase := s.desks[m].phase;
              match a
              case BeginAdd(d) => phase == Resting && d.driver == m == owner(d.id)
              case BeginUpdate(d) => phase == Resting && d.driver == m == owner(d.id)
              case BeginDelete(id) => phase == Resting && owner(id) == m
              case Store(_) => Left(phase) == 2
              case Index => Left(phase) == 1
    ensures Step(s, m, a, owner).Some? ==>
              var t := Step(s, m, a, owner).value;
              && t.desks.Keys == s.desks.Keys
              && (forall u :: u in s.desks && u != m ==> t.desks[u] == s.desks[u])
              && (Begins(a) || Left(t.desks[m].phase) < Left(s.desks[m].phase))
  {
  }

  /** An addition of what is cached and an update of what is not are over at once, without the store. */
  lemma CacheAnswers(s: State, m: Driver, d: ConfigState, owner: string -> Driver)
    requires m in s.desks && s.desks[m].phase == Resting && d.driver == m == owner(d.id)
    ensures Step(s, m, BeginAdd(d), owner) == Some(s) <==> d.id in s.desks[m].cache
    ensures Step(s, m, BeginUpdate(d), owner) == Some(s) <==> d.id !in s.desks[m].cache
  {
    assert s.desks[m := s.desks[m]] == s.desks;
  }

  lemma {:induction false} Extended(s: State, run: Run, m: Driver, a: Action, owner: string -> Driver)
    ensures Exec(s, [], owner) == Some(s)
    ensures Exec(s, run, owner).Some? ==>
              Exec(s, run + [(m, a)], owner) == Step(Exec(s, run, owner).value, m, a, owner)
  {
    assert (run + [(m, a)])[..|run|] == run;
  }

  /** Whatever the others are at, a manager can bring its operation to an end by itself. */
  lemma {:induction false} ComesToRest(s: State, run: Run, m: Driver, io: bool, owner: string -> Driver)
    returns (more: Run)
    requires Exec(s, run, owner).Some? && m in Exec(s, run, owner).value.desks
    ensures |more| <= Left(Exec(s, run, owner).value.desks[m].phase)
    ensures forall i :: 0 <= i < |more| ==> more[i] == (m, Store(io)) || more[i] == (m, Index)
    ensures Exec(s, run + more, owner).Some? && m in Exec(s, run + more, owner).value.desks
    ensures Exec(s, run + more, owner).value.desks[m].phase == Resting
    decreases Left(Exec(s, run, owner).value.desks[m].phase)
  {
    var t := Exec(s, run, owner).value;
    if t.desks[m].phase == Resting {
      more := [];
      assert run + [] == run;
    } else {
      var a := if Left(t.desks[m].phase) == 2 then Store(io) else Index;
      OperationsEnd(t, m, a, owner);
      Extended(s, run, m, a, owner);
      var rest := ComesToRest(s, run + [(m, a)], m, io, owner);
      more := [(m, a)] + rest;
      assert run + more == run + [(m, a)] + rest;
    }
  }

  ghost function Begun(run: Run): nat {
    if run == [] then 0 else Begun(run[..|run| - 1]) + if Begins(run[|run| - 1].1) then 1 else 0
  }

  /** The managers whose operation has not been decided. */
  ghost function Undecided(desks: map<Driver, Desk>): set<Driver> {
    set m | m in desks && Left(desks[m].phase) == 2
  }

  ghost function One(b: bool): nat {
    if b then 1 else 0
  }

  lemma OneElement<T>(a: set<T>, b: set<T>, m: T)
    requires forall u :: u != m ==> (u in a <==> u in b)
    ensures |a| + One(m in b) == |b| + One(m in a)
  {
    var c := a - {m};
    assert c == b - {m};
    assert m in a ==> a == c + {m};
    assert m in b ==> b == c + {m};
  }

  lemma OneDesk(was: map<Driver, Desk>, now: map<Driver, Desk>, m: Driver)
    requires m in was && now.Keys == was.Keys && forall u :: u in was && u != m ==> now[u] == was[u]
    ensures |Undecided(now)| + One(Left(was[m].phase) == 2) == |Undecided(was)| + One(Left(now[m].phase) == 2)
  {
    OneElement(Undecided(now), Undecided(was), m);
  }

  lemma DeskDecides(s: State, m: Driver, a: Action, owner: string -> Driver)
    requires m in s.desks && Step(s, m, a, owner).Some?
    ensures m in Step(s, m, a, owner).value.desks
    ensures var p, q := s.desks[m].phase, Step(s, m, a, owner).value.desks[m].phase;
            One(Left(q) == 2) + One(Decided(p, a, q).Some?) == One(Left(p) == 2) + One(Begins(a))
  {
  }

  lemma StepDecides(s: State, m: Driver, a: Action, t: State, owner: string -> Driver)
    requires m in s.desks && Step(s, m, a, owner) == Some(t)
    ensures m in t.desks
    ensures |Undecided(t.desks)| + One(Decided(s.desks[m].phase, a, t.desks[m].phase).Some?)
         == |Undecided(s.desks)| + One(Begins(a))
  {
    OperationsEnd(s, m, a, owner);
    DeskDecides(s, m, a, owner);
    OneDesk(s.desks, t.desks, m);
  }

  /** Every operation begun is decided exactly once, or about to be. */
  lemma {:induction false} EachDecidedOnce(s: State, run: Run, owner: string -> Driver)
    requires Exec(s, run, owner).Some?
    ensures |History(s, run, owner)| + |Undecided(Exec(s, run, owner).value.desks)|
         == Begun(run) + |Undecided(s.desks)|
  {
    if run != [] {
      var n := |run| - 1;
      EachDecidedOnce(s, run[..n], owner);
      StepDecides(Exec(s, run[..n], owner).value, run[n].0, run[n].1, Exec(s, run, owner).value, owner);
    }
  }
}
