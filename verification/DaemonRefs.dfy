/** Reference counts of nydusd daemons (pkg/daemon/daemon.go) and the decisions that rest on them
    (TryRetainSharedDaemon, TryStopSharedDaemon and Umount in pkg/filesystem/fs.go, DestroyDaemon in
    pkg/manager/manager.go). */
module DaemonRefs {

  type int32 = n: int | -0x8000_0000 <= n < 0x8000_0000

  /** atomic.AddInt32 with 1 and with -1: both wrap around. */
  function Inc(n: int32): int32 {
    if n == 0x7FFF_FFFF then -0x8000_0000 else n + 1
  }

  function Dec(n: int32): int32 {
    if n == -0x8000_0000 then 0x7FFF_FFFF else n - 1
  }

  // ---- The counter over every run ----

  /** A daemon's bookkeeping: the instances it serves, its counter, and how often it was retained as
      the shared daemon. */
  datatype Book = Book(instances: set<string>, ref: int32, retained: nat)

  const EMPTY := Book({}, 0, 0)

  /** The counter is the number of instances plus the retentions. */
  ghost predicate Accounted(b: Book) {
    b.ref == |b.instances| + b.retained
  }

  /** Clone is the hot upgrade: from here on the books are those of the fresh copy. */
  datatype Op = Add(id: string) | Remove(id: string) | Retain | Clone

  /** A fresh daemon after CloneRafsInstances: the source's instances and positive references, and no
      retention of its own. */
  function CloneOf(b: Book): Book {
    Book(b.instances, if b.ref > 0 then b.ref else 0, 0)
  }

  function Step(b: Book, op: Op): Book {
    match op
    case Add(id) => Book(b.instances + {id}, Inc(b.ref), b.retained)
    case Remove(id) => Book(b.instances - {id}, Dec(b.ref), b.retained)
    case Retain => Book(b.instances, Inc(b.ref), b.retained + 1)
    case Clone => CloneOf(b)
  }

  function Run(b: Book, ops: seq<Op>): Book {
    if ops == [] then b else Step(Run(b, ops[..|ops| - 1]), ops[|ops| - 1])
  }

  /** How far one operation moves the counter away from the instance count: adding an instance that is
      already there counts twice, removing one that is not there is counted all the same, and a clone
      takes over the references of retentions it does not have and drops negative ones. */
  function Drift(b: Book, op: Op): int {
    match op
    case Add(id) => if id in b.instances then 1 else 0
    case Remove(id) => if id in b.instances then 0 else -1
    case Retain => 0
    case Clone => b.retained - if b.ref < 0 then b.ref else 0
  }

  function TotalDrift(b: Book, ops: seq<Op>): int {
    if ops == [] then 0
    else TotalDrift(b, ops[..|ops| - 1]) + Drift(Run(b, ops[..|ops| - 1]), ops[|ops| - 1])
  }

  const TURN := 0x1_0000_0000

  /** For every run, guarded or not, the counter is the instance count, plus the retentions, plus the
      accumulated drift, up to whole turns of the 32-bit counter. */
  lemma {:induction false} RefAccounts(ops: seq<Op>) returns (turns: int)
    ensures var b := Run(EMPTY, ops);
            b.ref == |b.instances| + b.retained + TotalDrift(EMPTY, ops) + turns * TURN
  {
    if ops == [] {
      turns := 0;
    } else {
      var before, op := ops[..|ops| - 1], ops[|ops| - 1];
      turns := RefAccounts(before);
      var b := Run(EMPTY, before);
      match op {
        case Add(id) =>
          assert id in b.instances ==> b.instances + {id} == b.instances;
          if b.ref == 0x7FFF_FFFF { turns := turns - 1; }
        case Remove(id) =>
          assert id !in b.instances ==> b.instances - {id} == b.instances;
          if b.ref == -0x8000_0000 { turns := turns + 1; }
        case Retain =>
          if b.ref == 0x7FFF_FFFF { turns := turns - 1; }
        case Clone =>
      }
    }
  }

  /** Only absent instances are added, only present ones removed and only daemons that are not retained
      cloned. */
  ghost predicate Guarded(ops: seq<Op>) {
    forall i :: 0 <= i < |ops| ==> Drift(Run(EMPTY, ops[..i]), ops[i]) == 0
  }

  lemma {:induction false} GuardedHasNoDrift(ops: seq<Op>)
    requires Guarded(ops)
    ensures TotalDrift(EMPTY, ops) == 0
  {
    if ops != [] {
      var before := ops[..|ops| - 1];
      assert forall i :: 0 <= i < |before| ==> before[..i] == ops[..i];
      GuardedHasNoDrift(before);
    }
  }

  /** Umount destroys at zero, TryStopSharedDaemon at one: after a guarded run both tests are true
      exactly of a daemon that serves no instance and is not (respectively once) retained. */
  lemma {:induction false} GuardedRunsDestroyOnlyIdle(ops: seq<Op>)
    requires Guarded(ops) && |Run(EMPTY, ops).instances| + Run(EMPTY, ops).retained < 0x8000_0000
    ensures var b := Run(EMPTY, ops);
            && b.ref == |b.instances| + b.retained
            && (b.ref == 0 <==> b.instances == {} && b.retained == 0)
            && (b.retained >= 1 ==> (b.ref == 1 <==> b.instances == {} && b.retained == 1))
  {
    var turns := RefAccounts(ops);
    GuardedHasNoDrift(ops);
    assert turns == 0;
  }

  /** The counter tells the truth exactly when the run's double adds and absent removes cancel. */
  lemma {:induction false} RefExactIffNoDrift(ops: seq<Op>)
    requires |Run(EMPTY, ops).instances| + Run(EMPTY, ops).retained < 0x8000_0000
    requires -TURN < TotalDrift(EMPTY, ops) < TURN
    ensures var b := Run(EMPTY, ops);
            b.ref == |b.instances| + b.retained <==> TotalDrift(EMPTY, ops) == 0
  {
    var turns := RefAccounts(ops);
    var n: int, d := |Run(EMPTY, ops).instances| + Run(EMPTY, ops).retained, TotalDrift(EMPTY, ops);
    WholeTurns(Run(EMPTY, ops).ref, n, d, turns);
  }

  lemma WholeTurns(ref: int32, n: int, d: int, turns: int)
    requires 0 <= n < 0x8000_0000 && -TURN < d < TURN && ref == n + d + turns * TURN
    ensures ref == n <==> d == 0
  {
    if turns >= 1 {
      assert turns * TURN >= TURN;
    } else if turns <= -1 {
      assert turns * TURN <= -TURN;
    }
  }

  // ---- Upgrades ----

  /** Instances are added when absent and removed when present; upgrades come at any time. */
  ghost predicate Tidy(ops: seq<Op>) {
    forall i :: 0 <= i < |ops| && !ops[i].Clone? ==> Drift(Run(EMPTY, ops[..i]), ops[i]) == 0
  }

  /** The retentions that upgrades left without a holder. */
  function Lost(b: Book, ops: seq<Op>): nat {
    if ops == [] then 0
    else
      var before := ops[..|ops| - 1];
      Lost(b, before) + if ops[|ops| - 1].Clone? then Run(b, before).retained else 0
  }

  /** Retentions and lost retentions together never outgrow half a turn. */
  ghost predicate Small(ops: seq<Op>) {
    forall i :: 0 <= i <= |ops| ==>
      |Run(EMPTY, ops[..i]).instances| + Run(EMPTY, ops[..i]).retained + Lost(EMPTY, ops[..i]) < 0x8000_0000
  }

  lemma {:induction false} TidyRef(ops: seq<Op>)
    requires Tidy(ops) && Small(ops)
    ensures var b := Run(EMPTY, ops);
            b.ref == |b.instances| + b.retained + Lost(EMPTY, ops)
  {
    assert ops[..|ops|] == ops;
    if ops != [] {
      var before, op := ops[..|ops| - 1], ops[|ops| - 1];
      assert forall i :: 0 <= i <= |before| ==> before[..i] == ops[..i];
      assert forall i :: 0 <= i < |before| ==> before[i] == ops[i];
      TidyRef(before);
      assert !op.Clone? ==> Drift(Run(EMPTY, ops[..|before|]), ops[|before|]) == 0;
      TidyStep(Run(EMPTY, before), op, Lost(EMPTY, before));
    }
  }

  lemma TidyStep(b: Book, op: Op, lost: nat)
    requires b.ref == |b.instances| + b.retained + lost && (op.Clone? || Drift(b, op) == 0)
    requires |Step(b, op).instances| + Step(b, op).retained + lost < 0x8000_0000
    ensures var c := Step(b, op);
            c.ref == |c.instances| + c.retained + lost + if op.Clone? then b.retained else 0
  {
    match op
    case Add(id) => assert |b.instances + {id}| == |b.instances| + 1;
    case Remove(id) => assert |b.instances - {id}| == |b.instances| - 1;
    case _ =>
  }

  /** With tidy mounts and unmounts the counter is right exactly when every upgrade found its daemon
      unretained; and then, as without upgrades, zero and one mean an idle daemon. */
  lemma {:induction false} UpgradesExactIffUnretained(ops: seq<Op>)
    requires Tidy(ops) && Small(ops)
    ensures var b := Run(EMPTY, ops);
            && (Accounted(b) <==> UpgradesUnretained(ops))
            && (Accounted(b) ==> (b.ref == 0 <==> b.instances == {} && b.retained == 0))
            && (Accounted(b) && b.retained >= 1 ==> (b.ref == 1 <==> b.instances == {} && b.retained == 1))
  {
    TidyRef(ops);
    LostIff(ops);
  }

  /** Every upgrade in the run found its daemon unretained. */
  ghost predicate UpgradesUnretained(ops: seq<Op>) {
    forall i :: 0 <= i < |ops| && ops[i].Clone? ==> Run(EMPTY, ops[..i]).retained == 0
  }

  lemma {:induction false} UnretainedLast(ops: seq<Op>, n: nat)
    requires |ops| == n + 1
    ensures UpgradesUnretained(ops) <==>
            UpgradesUnretained(ops[..n]) && (ops[n].Clone? ==> Run(EMPTY, ops[..n]).retained == 0)
  {
    var before := ops[..n];
    assert forall i :: 0 <= i < n ==> before[..i] == ops[..i] && before[i] == ops[i];
  }

  lemma {:induction false} LostIff(ops: seq<Op>)
    ensures Lost(EMPTY, ops) == 0 <==> UpgradesUnretained(ops)
  {
    if ops != [] {
      var n := |ops| - 1;
      LostIff(ops[..n]);
      UnretainedLast(ops, n);
    }
  }

  /** A fresh clone of an accounted daemon is accounted exactly when the daemon was not retained. */
  lemma CloneAccountedIff(b: Book)
    requires Accounted(b)
    ensures Accounted(CloneOf(b)) <==> b.retained == 0
  {
  }

  /** An upgrade while the slot still holds the old object: TryRetainSharedDaemon keeps the slot, and the
      clone has a reference that nothing holds. */
  lemma UpgradeLeaksARetention(a: string)
    ensures var book := Run(EMPTY, [Retain, Add(a), Clone]);
            book.ref == 2 && book.instances == {a} && book.retained == 0
  {
    var ops := [Retain, Add(a), Clone];
    assert ops[..2][..1] == ops[..1] && ops[..1][..0] == [];
    assert Run(EMPTY, ops[..1]) == Book({}, 1, 1);
    assert Run(EMPTY, ops[..2]) == Book({a}, 2, 1);
  }

  /** Umount never drops its entry from the global cache, so a snapshot can be unmounted twice.  The
      second time takes a reference that belongs to another instance, and the shared daemon looks idle
      while it still serves that one. */
  lemma DoubleUmountLosesAReference(a: string, b: string)
    requires a != b
    ensures var book := Run(EMPTY, [Retain, Add(a), Add(b), Remove(a), Remove(a)]);
            book.ref == 1 && book.retained == 1 && book.instances == {b}
  {
    var ops := [Retain, Add(a), Add(b), Remove(a), Remove(a)];
    assert ops[..4][..3] == ops[..3] && ops[..3][..2] == ops[..2] && ops[..2][..1] == ops[..1] && ops[..1][..0] == [];
    assert Run(EMPTY, ops[..1]) == Book({}, 1, 1);
    assert Run(EMPTY, ops[..2]) == Book({a}, 2, 1);
    assert Run(EMPTY, ops[..3]) == Book({a, b}, 3, 1);
    assert Run(EMPTY, ops[..4]) == Book({b}, 2, 1);
  }

  // ---- The objects ----

  datatype Driver = Fscache | Fusedev | Blockdev | Nodev | Proxy

  datatype Rafs = Rafs(snapshotId: string, daemonId: string)

  class Daemon {
    const id: string
    const driver: Driver
    const mountpoint: string
    /** RafsCache, by snapshot ID */
    var instances: map<string, Rafs>
    var ref: int32
    ghost var retained: nat

    ghost function View(): Book
      reads this
    {
      Book(instances.Keys, ref, retained)
    }

    constructor (id: string, driver: Driver, mountpoint: string)
      ensures View() == EMPTY && this.id == id && this.driver == driver && this.mountpoint == mountpoint
    {
      this.id, this.driver, this.mountpoint := id, driver, mountpoint;
      instances, ref, retained := map[], 0, 0;
    }

    method IncRef()
      modifies this`ref
      ensures ref == Inc(old(ref))
    {
      ref := Inc(ref);
    }

    method DecRef()
      modifies this`ref
      ensures ref == Dec(old(ref))
    {
      ref := Dec(ref);
    }

    method AddRafsInstance(r: Rafs)
      modifies this`instances, this`ref
      ensures instances == old(instances)[r.snapshotId := r.(daemonId := id)]
      ensures View() == Step(old(View()), Add(r.snapshotId))
    {
      instances := instances[r.snapshotId := r.(daemonId := id)];
      IncRef();
    }

    method RemoveRafsInstance(snapshotId: string)
      modifies this`instances, this`ref
      ensures instances == old(instances) - {snapshotId}
      ensures View() == Step(old(View()), Remove(snapshotId))
    {
      instances := instances - {snapshotId};
      DecRef();
    }

    /** The hot-upgrade copy: the instances are replaced, the references added one by one. */
    method CloneRafsInstances(src: Daemon)
      requires src != this
      modifies this`instances, this`ref
      ensures instances == src.instances
      ensures src.ref <= 0 ==> ref == old(ref)
      ensures src.ref > 0 && old(ref) + src.ref < 0x8000_0000 ==> ref == old(ref) + src.ref
      ensures old(ref) == 0 && retained == 0 ==> View() == CloneOf(src.View())
    {
      instances := src.instances;
      var n: int := src.ref;
      while n > 0
        invariant instances == src.instances
        invariant src.ref <= 0 ==> n == src.ref && ref == old(ref)
        invariant src.ref > 0 ==> 0 <= n <= src.ref
        invariant src.ref > 0 && old(ref) + src.ref < 0x8000_0000 ==> ref == old(ref) + (src.ref - n)
      {
        IncRef();
        n := n - 1;
      }
    }
  }

  /** Manager.DestroyDaemon: nothing happens unless the record leaves the store first; then the
      instances nobody unmounted are dropped. */
  method DestroyDaemon(d: Daemon, recordDeleted: bool) returns (ok: bool)
    modifies d`instances, d`ref
    ensures ok == recordDeleted
    ensures ok ==> d.instances == map[]
    ensures !ok ==> d.View() == old(d.View())
  {
    if !recordDeleted {
      return false;
    }
    var left := d.instances.Keys;
    while left != {}
      invariant d.instances.Keys == left
    {
      var id :| id in left;
      d.RemoveRafsInstance(id);
      left := left - {id};
    }
    ok := true;
  }

  class Filesystem {
    const rootMountpoint: string
    const managers: set<Driver>
    var fscacheShared: Daemon?
    var fusedevShared: Daemon?

    ghost predicate Valid()
      reads this
    {
      && (fscacheShared != null ==> fscacheShared.driver == Fscache)
      && (fusedevShared != null ==> fusedevShared.driver == Fusedev)
    }

    constructor (rootMountpoint: string, managers: set<Driver>)
      ensures Valid() && fscacheShared == null && fusedevShared == null
      ensures this.rootMountpoint == rootMountpoint && this.managers == managers
    {
      this.rootMountpoint, this.managers := rootMountpoint, managers;
      fscacheShared, fusedevShared := null, null;
    }

    /** TryRetainSharedDaemon: a daemon is retained at most once, and only into an empty slot. */
    method TryRetainSharedDaemon(d: Daemon) returns (kept: bool)
      requires Valid()
      modifies this, d`ref, d`retained
      ensures Valid() && d.instances == old(d.instances)
      ensures kept <==> (d.driver == Fscache && old(fscacheShared) == null)
                        || (d.driver == Fusedev && old(fusedevShared) == null && d.mountpoint == rootMountpoint)
      ensures d.View() == if kept then Step(old(d.View()), Retain) else old(d.View())
      ensures fscacheShared == (if kept && d.driver == Fscache then d else old(fscacheShared))
      ensures fusedevShared == (if kept && d.driver == Fusedev then d else old(fusedevShared))
    {
      kept := false;
      match d.driver
      case Fscache =>
        if fscacheShared == null {
          fscacheShared := d;
          d.IncRef();
          d.retained := d.retained + 1;
          kept := true;
        }
      case Fusedev =>
        if fusedevShared == null && d.mountpoint == rootMountpoint {
          fusedevShared := d;
          d.IncRef();
          d.retained := d.retained + 1;
          kept := true;
        }
      case _ =>
    }

    /** The bookkeeping of an upgrade: a copy takes over and tries to become the shared daemon.  An occupied
        slot keeps the old object, so the copy of a retained daemon stays unretained. */
    method Upgrade(d: Daemon) returns (n: Daemon)
      requires Valid()
      modifies this
      ensures Valid() && fresh(n) && n.id == d.id && n.driver == d.driver && n.mountpoint == d.mountpoint
      ensures n.instances == d.instances
      ensures var kept := (d.driver == Fscache && old(fscacheShared) == null)
                          || (d.driver == Fusedev && old(fusedevShared) == null && d.mountpoint == rootMountpoint);
              && n.View() == (if kept then Step(CloneOf(d.View()), Retain) else CloneOf(d.View()))
              && fscacheShared == (if kept && d.driver == Fscache then n else old(fscacheShared))
              && fusedevShared == (if kept && d.driver == Fusedev then n else old(fusedevShared))
    {
      n := new Daemon(d.id, d.driver, d.mountpoint);
      n.CloneRafsInstances(d);
      var kept := TryRetainSharedDaemon(n);
    }

    /** TryStopSharedDaemon for one driver's slot: the daemon goes only at reference one, and so, when
        its books are accounted for, only when it serves nothing. */
    method TryStop(d: Daemon, recordDeleted: bool) returns (stopped: bool)
      modifies d`instances, d`ref
      ensures stopped <==> old(d.ref) == 1 && d.driver in managers && recordDeleted
      ensures !stopped ==> d.View() == old(d.View())
      ensures stopped && old(Accounted(d.View())) && d.retained >= 1 ==> old(d.instances) == map[]
    {
      stopped := false;
      if d.ref == 1 && d.driver in managers {
        stopped := DestroyDaemon(d, recordDeleted);
      }
    }

    method TryStopSharedDaemon(fusedevDeleted: bool, fscacheDeleted: bool)
      requires Valid()
      modifies this`fscacheShared, this`fusedevShared, fscacheShared, fusedevShared
      ensures Valid()
      ensures fusedevShared == null <==>
              (old(fusedevShared) == null || (old(fusedevShared.ref) == 1 && Fusedev in managers && fusedevDeleted))
      ensures fscacheShared == null <==>
              (old(fscacheShared) == null || (old(fscacheShared.ref) == 1 && Fscache in managers && fscacheDeleted))
      ensures fusedevShared != null ==>
                fusedevShared == old(fusedevShared) && fusedevShared.View() == old(fusedevShared.View())
      ensures fscacheShared != null ==>
                fscacheShared == old(fscacheShared) && fscacheShared.View() == old(fscacheShared.View())
    {
      if fusedevShared != null {
        var stopped := TryStop(fusedevShared, fusedevDeleted);
        if stopped { fusedevShared := null; }
      }
      if fscacheShared != null {
        var stopped := TryStop(fscacheShared, fscacheDeleted);
        if stopped { fscacheShared := null; }
      }
    }

    /** The daemon part of Umount: the reference is dropped first; the store record, the mount and, at
        reference zero, the daemon follow, each only when the step before succeeded. */
    method Umount(d: Daemon, snapshotId: string, storeOk: bool, umountOk: bool, recordDeleted: bool)
      returns (ok: bool, destroyed: bool)
      modifies d`instances, d`ref
      ensures destroyed <==> storeOk && umountOk && Dec(old(d.ref)) == 0 && recordDeleted
      ensures ok <==> storeOk && umountOk && (Dec(old(d.ref)) == 0 ==> recordDeleted)
      ensures !destroyed ==> d.View() == Step(old(d.View()), Remove(snapshotId))
      ensures destroyed && old(Accounted(d.View())) && snapshotId in old(d.instances) ==>
              old(d.instances).Keys == {snapshotId} && d.retained == 0
    {
      d.RemoveRafsInstance(snapshotId);
      ok, destroyed := false, false;
      if !storeOk || !umountOk {
        return;
      }
      ghost var left := old(d.instances).Keys - {snapshotId};
      assert snapshotId in old(d.instances) ==> |left| == |old(d.instances).Keys| - 1;
      if d.ref == 0 {
        destroyed := DestroyDaemon(d, recordDeleted);
        return destroyed, destroyed;
      }
      ok := true;
    }
  }
}
