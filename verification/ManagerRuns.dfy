/** Managers over one store at work at the same time (pkg/manager/manager.go).  Each manager has its own
    lock, so its operations follow one another, but the operations of different managers interleave between
    the look into the cache, the store transaction and the update of the cache. */
module ManagerRuns {
  import opened Base
  import opened DaemonRefs
  import opened Managers

  /** Where the operation that holds a manager's lock stands. */
  datatype Phase =
    | Resting
    | Adding(d: ConfigState)    // not cached
    | Updating(d: ConfigState)  // cached
    | Deleting(id: string)
    | Written(d: ConfigState)   // in the store, not yet in the cache
    | Erased(id: string)        // no longer in the store, still in the cache

  datatype Desk = Desk(cache: set<string>, phase: Phase)

  /** Managers have distinct drivers, so they go by these. */
  datatype State = State(daemons: map<string, ConfigState>, desks: map<Driver, Desk>)

  datatype Action =
    | BeginAdd(d: ConfigState)
    | BeginUpdate(d: ConfigState)
    | BeginDelete(id: string)
    | Store(io: bool)  // the transaction, which may fail
    | Index            // the update of the cache, which releases the lock

  /** The next state; None when manager `m` cannot take the step.  Daemon IDs are generated, so each
      belongs to one driver for good, and a manager is handed daemons of its own. */
  function Step(s: State, m: Driver, a: Action, owner: string -> Driver): Option<State> {
    if m !in s.desks then None
    else
      var Desk(cache, phase) := s.desks[m];
      match a
      case BeginAdd(d) =>
        if phase != Resting || d.driver != m || owner(d.id) != m then None
        else Some(At(s, m, if d.id in cache then Resting else Adding(d)))
      case BeginUpdate(d) =>
        if phase != Resting || d.driver != m || owner(d.id) != m then None
        else Some(At(s, m, if d.id in cache then Updating(d) else Resting))
      case BeginDelete(id) =>
        if phase != Resting || owner(id) != m then None else Some(At(s, m, Deleting(id)))
      case Store(io) =>
        (match phase
         case Adding(d) =>
           if d.id in s.daemons || !io then Some(At(s, m, Resting))
           else Some(At(s, m, Written(d)).(daemons := s.daemons[d.id := d]))
         case Updating(d) =>
           if d.id !in s.daemons || !io then Some(At(s, m, Resting))
           else Some(At(s, m, Written(d)).(daemons := s.daemons[d.id := d]))
         case Deleting(id) =>
           if !io then Some(At(s, m, Resting)) else Some(At(s, m, Erased(id)).(daemons := s.daemons - {id}))
         case _ => None)
      case Index =>
        (match phase
         case Written(d) => Some(s.(desks := s.desks[m := Desk(cache + {d.id}, Resting)]))
         case Erased(id) => Some(s.(desks := s.desks[m := Desk(cache - {id}, Resting)]))
         case _ => None)
  }

  function At(s: State, m: Driver, phase: Phase): State
    requires m in s.desks
  {
    s.(desks := s.desks[m := s.desks[m].(phase := phase)])
  }

  /** Who does what, in order */
  type Run = seq<(Driver, Action)>

  function Exec(s: State, run: Run, owner: string -> Driver): Option<State> {
    if run == [] then Some(s)
    else
      var n := |run| - 1;
      var before := Exec(s, run[..n], owner);
      if before.None? then None else Step(before.value, run[n].0, run[n].1, owner)
  }

  /** What the cache will be once the operation in progress has indexed. */
  function Expected(desk: Desk): set<string> {
    match desk.phase
    case Written(d) => desk.cache + {d.id}
    case Erased(id) => desk.cache - {id}
    case _ => desk.cache
  }

  ghost predicate DeskOk(daemons: map<string, ConfigState>, m: Driver, desk: Desk, owner: string -> Driver) {
    Expected(desk) == IdsOf(daemons, m) && Own(desk.phase, m, owner)
  }

  ghost predicate Owned(daemons: map<string, ConfigState>, owner: string -> Driver) {
    forall id :: id in daemons ==> daemons[id].driver == owner(id)
  }

  ghost predicate Inv(s: State, owner: string -> Driver) {
    && Owned(s.daemons, owner)
    && (forall m :: m in s.desks ==> DeskOk(s.daemons, m, s.desks[m], owner))
  }

  predicate Own(phase: Phase, m: Driver, owner: string -> Driver) {
    match phase
    case Resting => true
    case Deleting(id) => owner(id) == m
    case Erased(id) => owner(id) == m
    case Adding(d) => d.driver == m == owner(d.id)
    case Updating(d) => d.driver == m == owner(d.id)
    case Written(d) => d.driver == m == owner(d.id)
  }

  /** A step that changes one desk only. */
  lemma DeskKeepsInv(s: State, m: Driver, desk: Desk, owner: string -> Driver)
    requires Inv(s, owner) && DeskOk(s.daemons, m, desk, owner)
    ensures Inv(s.(desks := s.desks[m := desk]), owner)
  {
  }

  lemma WriteIds(daemons: map<string, ConfigState>, d: ConfigState, owner: string -> Driver, u: Driver)
    requires Owned(daemons, owner) && d.driver == owner(d.id)
    ensures IdsOf(daemons[d.id := d], u) == if u == d.driver then IdsOf(daemons, u) + {d.id} else IdsOf(daemons, u)
  {
  }

  lemma EraseIds(daemons: map<string, ConfigState>, id: string, owner: string -> Driver, u: Driver)
    requires Owned(daemons, owner)
    ensures IdsOf(daemons - {id}, u) == if u == owner(id) then IdsOf(daemons, u) - {id} else IdsOf(daemons, u)
  {
  }

  lemma WriteKeepsInv(s: State, m: Driver, d: ConfigState, owner: string -> Driver)
    requires Inv(s, owner) && m in s.desks && d.driver == m == owner(d.id)
    requires s.desks[m].phase.Adding? || s.desks[m].phase.Updating?
    ensures Inv(At(s, m, Written(d)).(daemons := s.daemons[d.id := d]), owner)
  {
    var t := At(s, m, Written(d)).(daemons := s.daemons[d.id := d]);
    forall u | u in t.desks ensures DeskOk(t.daemons, u, t.desks[u], owner) {
      assert DeskOk(s.daemons, u, s.desks[u], owner);
      WriteIds(s.daemons, d, owner, u);
    }
  }

  lemma EraseKeepsInv(s: State, m: Driver, id: string, owner: string -> Driver)
    requires Inv(s, owner) && m in s.desks && owner(id) == m && s.desks[m].phase.Deleting?
    ensures Inv(At(s, m, Erased(id)).(daemons := s.daemons - {id}), owner)
  {
    var t := At(s, m, Erased(id)).(daemons := s.daemons - {id});
    forall u | u in t.desks ensures DeskOk(t.daemons, u, t.desks[u], owner) {
      assert DeskOk(s.daemons, u, s.desks[u], owner);
      EraseIds(s.daemons, id, owner, u);
    }
  }

  lemma StepKeepsInv(s: State, m: Driver, a: Action, owner: string -> Driver)
    requires Inv(s, owner) && Step(s, m, a, owner).Some?
    ensures Inv(Step(s, m, a, owner).value, owner)
  {
    var desk, t := s.desks[m], Step(s, m, a, owner).value;
    assert DeskOk(s.daemons, m, desk, owner);
    if a.Store? && t.desks[m].phase.Written? {
      WriteKeepsInv(s, m, t.desks[m].phase.d, owner);
    } else if a.Store? && t.desks[m].phase.Erased? {
      EraseKeepsInv(s, m, t.desks[m].phase.id, owner);
    } else {
      DeskKeepsInv(s, m, t.desks[m], owner);
    }
  }

  lemma {:induction false} RunKeepsInv(s: State, run: Run, owner: string -> Driver)
    requires Inv(s, owner) && Exec(s, run, owner).Some?
    ensures Inv(Exec(s, run, owner).value, owner)
  {
    if run != [] {
      var n := |run| - 1;
      RunKeepsInv(s, run[..n], owner);
      StepKeepsInv(Exec(s, run[..n], owner).value, run[n].0, run[n].1, owner);
    }
  }

  /** All managers at rest with caches that index the store, as after recovery. */
  ghost predicate InStep(s: State) {
    forall m :: m in s.desks ==> s.desks[m].phase == Resting && s.desks[m].cache == IdsOf(s.daemons, m)
  }

  /** In every interleaving, store failures included, a manager at rest has exactly the stored daemons of
      its driver in its cache, and one at work differs by the daemon it is working on. */
  lemma {:induction false} CachesIndexTheStore(s: State, run: Run, owner: string -> Driver, m: Driver)
    requires InStep(s) && Owned(s.daemons, owner)
    requires Exec(s, run, owner).Some? && m in Exec(s, run, owner).value.desks
    ensures var t := Exec(s, run, owner).value;
            var desk := t.desks[m];
            && (!desk.phase.Written? && !desk.phase.Erased? ==> desk.cache == IdsOf(t.daemons, m))
            && (desk.phase.Written? ==> desk.cache + {desk.phase.d.id} == IdsOf(t.daemons, m))
            && (desk.phase.Erased? ==> desk.cache - {desk.phase.id} == IdsOf(t.daemons, m))
  {
    RunKeepsInv(s, run, owner);
    assert DeskOk(Exec(s, run, owner).value.daemons, m, Exec(s, run, owner).value.desks[m], owner);
  }
}
