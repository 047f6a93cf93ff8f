/** The snapshot directory protocol of snapshot/snapshot.go.

    Create, Commit, Remove and Cleanup run concurrently over one metadata store and one directory
    of snapshot directories.  The store admits one write transaction at a time; directories are
    created, renamed and scanned inside a transaction, but the directories a scan found orphaned
    are deleted after that transaction has ended.  Every call is split into its atomic steps and a
    run is any interleaving of the steps of any number of calls. */
module Snapshots {
  import opened Base

  /** Snapshot keys; only equality matters, so they are numbered. */
  type Key = nat

  /** Entries of the snapshots directory: a snapshot ID, or a MkdirTemp "new-*" name. */
  datatype Name = Snap(id: nat) | Temp(tag: nat)

  /** Where a call stands between two of its atomic steps. */
  datatype Thread =
    | Idle
    | CreateBegun(key: Key)
    | CreatePrepared(key: Key, td: nat)
    | CreateAllocated(key: Key, td: nat, id: nat)
    | CreateRenamed(key: Key, id: nat)
    | RemoveBegun(key: Key)
    | RemoveDropped(key: Key)
    | RemoveScanned(key: Key, removals: seq<Name>)
    | CleanupBegun
    | CleanupScanned(removals: seq<Name>)
    | Deleting(removals: seq<Name>)

  /** `rows` and `next` are the committed metadata: snapshot ID by key, and the next value of the
      bucket sequence (a rolled-back transaction gives its number back).  `temps` are the temporary
      names ever handed out, `writer` the thread that holds the write transaction. */
  datatype State = State(rows: map<Key, nat>, next: nat, dirs: set<Name>, temps: set<nat>,
                         writer: Option<nat>, threads: map<nat, Thread>)

  datatype Action =
    // createSnapshotWithRecovery and createPlaceholderSnapshot
    | BeginCreate(key: Key)
    | Prepare(tag: nat)
    | Allocate
    | Rename
    | CommitCreate
    | AbortCreate(renameTried: bool)  // deferred directory cleanup, then rollback
    | AbortLeavingTemp                // rollback only: the placeholder's failed rename
    | AbortForRecovery                // rollback first, then remove the temporary directory
    // Commit: renames the key of a row, keeps its ID
    | CommitSnapshot(key: Key, name: Key)
    // Remove
    | BeginRemove(key: Key)
    | DropRow
    | ScanForRemove(listing: seq<Name>)
    | CommitRemove
    // Cleanup
    | BeginCleanup
    | ScanForCleanup(listing: seq<Name>)
    | EndScan
    // shared
    | Rollback
    | DeleteNext(ok: bool)
    | Return

  function At(s: State, t: nat): Thread {
    if t in s.threads then s.threads[t] else Idle
  }

  /** The IDs of the rows visible in a transaction that has dropped `gone`. */
  function LiveNames(rows: map<Key, nat>, gone: set<Key>): set<Name> {
    set k | k in rows && k !in gone :: Snap(rows[k])
  }

  /** getCleanupDirectories: the listed directories that no row names. */
  function Orphans(listing: seq<Name>, live: set<Name>): (r: seq<Name>)
    ensures forall n :: n in r <==> n in listing && n !in live
  {
    if listing == [] then []
    else
      var n := listing[|listing| - 1];
      Orphans(listing[..|listing| - 1], live) + if n in live then [] else [n]
  }

  /** The loop of getCleanupDirectories. */
  method GetCleanupDirectories(listing: seq<Name>, live: set<Name>) returns (cleanup: seq<Name>)
    ensures cleanup == Orphans(listing, live)
  {
    cleanup := [];
    for i := 0 to |listing|
      invariant cleanup == Orphans(listing[..i], live)
    {
      assert listing[..i + 1][..i] == listing[..i];
      if listing[i] !in live {
        cleanup := cleanup + [listing[i]];
      }
    }
    assert listing[..|listing|] == listing;
  }

  function Move(s: State, t: nat, th: Thread): State {
    s.(threads := s.threads[t := th])
  }

  function Release(s: State, t: nat, th: Thread): State {
    Move(s, t, th).(writer := None)
  }

  ghost predicate Lists(listing: seq<Name>, dirs: set<Name>) {
    forall n :: n in listing <==> n in dirs
  }

  /** One atomic step of thread `t`; None when the step is not enabled. */
  ghost function Step(s: State, t: nat, a: Action): Option<State> {
    var th := At(s, t);
    match a
    case BeginCreate(key) =>
      if th.Idle? && s.writer.None? then Some(Move(s, t, CreateBegun(key)).(writer := Some(t))) else None
    case Prepare(tag) =>
      if th.CreateBegun? && tag !in s.temps
      then Some(Move(s, t, CreatePrepared(th.key, tag)).(dirs := s.dirs + {Temp(tag)}, temps := s.temps + {tag}))
      else None
    case Allocate =>
      if th.CreatePrepared? && th.key !in s.rows then Some(Move(s, t, CreateAllocated(th.key, th.td, s.next))) else None
    case Rename =>
      // os.Rename refuses to replace an existing directory
      if th.CreateAllocated? && Temp(th.td) in s.dirs && Snap(th.id) !in s.dirs
      then Some(Move(s, t, CreateRenamed(th.key, th.id)).(dirs := s.dirs - {Temp(th.td)} + {Snap(th.id)}))
      else None
    case CommitCreate =>
      if th.CreateRenamed? then Some(Release(s, t, Idle).(rows := s.rows[th.key := th.id], next := th.id + 1)) else None
    case AbortCreate(renameTried) =>
      if th.CreateBegun? then Some(Release(s, t, Idle))
      else if th.CreatePrepared? then Some(Release(s, t, Idle).(dirs := s.dirs - {Temp(th.td)}))
      else if th.CreateAllocated? then
        Some(Release(s, t, Idle).(dirs := s.dirs - {Temp(th.td)} - (if renameTried then {Snap(th.id)} else {})))
      else if th.CreateRenamed? then Some(Release(s, t, Idle).(dirs := s.dirs - {Snap(th.id)}))
      else None
    case AbortLeavingTemp =>
      if th.CreateAllocated? then Some(Release(s, t, Idle)) else None
    case AbortForRecovery =>
      if th.CreatePrepared? then Some(Release(s, t, Deleting([Temp(th.td)]))) else None
    case CommitSnapshot(key, name) =>
      if th.Idle? && s.writer.None? && key in s.rows && name !in s.rows
      then Some(s.(rows := (s.rows - {key})[name := s.rows[key]])) else None
    case BeginRemove(key) =>
      if th.Idle? && s.writer.None? then Some(Move(s, t, RemoveBegun(key)).(writer := Some(t))) else None
    case DropRow =>
      if th.RemoveBegun? && th.key in s.rows then Some(Move(s, t, RemoveDropped(th.key))) else None
    case ScanForRemove(listing) =>
      if th.RemoveDropped? && Lists(listing, s.dirs)
      then Some(Move(s, t, RemoveScanned(th.key, Orphans(listing, LiveNames(s.rows, {th.key}))))) else None
    case CommitRemove =>
      if th.RemoveDropped? then Some(Release(s, t, Idle).(rows := s.rows - {th.key}))
      else if th.RemoveScanned? then Some(Release(s, t, Deleting(th.removals)).(rows := s.rows - {th.key}))
      else None
    case BeginCleanup =>
      if th.Idle? && s.writer.None? then Some(Move(s, t, CleanupBegun).(writer := Some(t))) else None
    case ScanForCleanup(listing) =>
      if th.CleanupBegun? && Lists(listing, s.dirs)
      then Some(Move(s, t, CleanupScanned(Orphans(listing, LiveNames(s.rows, {}))))) else None
    case EndScan =>
      if th.CleanupScanned? then Some(Release(s, t, Deleting(th.removals))) else None
    case Rollback =>
      if th.RemoveBegun? || th.RemoveDropped? || th.RemoveScanned? || th.CleanupBegun? || th.CleanupScanned?
      then Some(Release(s, t, Idle)) else None
    case DeleteNext(ok) =>
      if th.Deleting? && th.removals != []
      then Some(Move(s, t, Deleting(th.removals[1..])).(dirs := s.dirs - (if ok then {th.removals[0]} else {})))
      else None
    case Return =>
      if th.Deleting? && th.removals == [] then Some(Move(s, t, Idle)) else None
  }

  /** A run: which thread takes which step, in order. */
  type Run = seq<(nat, Action)>

  ghost function Exec(s: State, run: Run): Option<State>
    decreases |run|
  {
    if run == [] then Some(s)
    else
      var r := Step(s, run[0].0, run[0].1);
      if r.None? then None else Exec(r.value, run[1..])
  }

  // ---- Safety ----

  /** Every committed snapshot has its directory. */
  ghost predicate RowsKept(s: State) {
    forall k :: k in s.rows ==> Snap(s.rows[k]) in s.dirs
  }

  /** The temporary directory of every Create in progress is still there. */
  ghost predicate TempsKept(s: State) {
    forall t :: (At(s, t).CreatePrepared? || At(s, t).CreateAllocated?) ==> Temp(At(s, t).td) in s.dirs
  }

  ghost predicate RowsInOrder(s: State) {
    && (forall k :: k in s.rows ==> s.rows[k] < s.next)
    && (forall k, l :: k in s.rows && l in s.rows && s.rows[k] == s.rows[l] ==> k == l)
  }

  /** No numbered directory at or above the ID counter. */
  ghost predicate BelowCounter(s: State) {
    forall i: nat :: Snap(i) in s.dirs ==> i < s.next
  }

  /** No call in progress; every row has a directory; the counter is above every row. */
  ghost predicate Quiescent(s: State) {
    && s.writer.None?
    && (forall t :: At(s, t).Idle?)
    && RowsInOrder(s)
    && RowsKept(s)
    && (forall g :: Temp(g) in s.dirs ==> g in s.temps)
  }

  /** A directory that may be deleted now and forever: it is not, and never becomes, a snapshot's. */
  ghost predicate Dead(s: State, gone: set<Key>, n: Name) {
    match n
    case Snap(i) => i < s.next && forall k :: k in s.rows && k !in gone ==> s.rows[k] != i
    case Temp(g) =>
      && g in s.temps
      && forall t :: (At(s, t).CreatePrepared? || At(s, t).CreateAllocated?) ==> At(s, t).td != g
  }

  ghost predicate AllDead(s: State, gone: set<Key>, removals: seq<Name>) {
    forall n :: n in removals ==> Dead(s, gone, n)
  }

  ghost predicate ThreadInv(s: State, t: nat) {
    match At(s, t)
    case Idle => true
    case CreateBegun(_) => s.writer == Some(t)
    case CreatePrepared(_, td) => s.writer == Some(t) && td in s.temps
    case CreateAllocated(key, td, id) => s.writer == Some(t) && td in s.temps && id == s.next && key !in s.rows
    case CreateRenamed(key, id) => s.writer == Some(t) && id == s.next && key !in s.rows && Snap(id) in s.dirs
    case RemoveBegun(_) => s.writer == Some(t)
    case RemoveDropped(key) => s.writer == Some(t) && key in s.rows
    case RemoveScanned(key, removals) => s.writer == Some(t) && key in s.rows && AllDead(s, {key}, removals)
    case CleanupBegun => s.writer == Some(t)
    case CleanupScanned(removals) => s.writer == Some(t) && AllDead(s, {}, removals)
    case Deleting(removals) => AllDead(s, {}, removals)
  }

  ghost predicate NumberedInOrder(s: State) {
    forall i: nat :: Snap(i) in s.dirs ==>
      i < s.next || (i == s.next && s.writer.Some? && At(s, s.writer.value).CreateRenamed?)
  }

  ghost predicate Inv(s: State) {
    && RowsInOrder(s)
    && RowsKept(s)
    && TempsKept(s)
    && NumberedInOrder(s)
    && (forall g :: Temp(g) in s.dirs ==> g in s.temps)
    && (forall t :: ThreadInv(s, t))
  }

  /** What is dead stays dead, whichever thread takes the next step. */
  lemma DeadStaysDead(s: State, t: nat, a: Action, n: Name)
    requires Inv(s) && Step(s, t, a).Some? && Dead(s, {}, n)
    ensures Dead(Step(s, t, a).value, {}, n)
  {
    var s' := Step(s, t, a).value;
    assert ThreadInv(s, t);
    match n
    case Snap(i) =>
      assert forall k :: k in s'.rows ==> (k in s.rows && s'.rows[k] == s.rows[k]) || s'.rows[k] == s.next
                                          || (a.CommitSnapshot? && k == a.name && s'.rows[k] == s.rows[a.key]);
    case Temp(g) =>
      forall u | At(s', u).CreatePrepared? || At(s', u).CreateAllocated?
        ensures At(s', u).td != g
      {
        assert u != t ==> At(s', u) == At(s, u);
      }
  }

  lemma OnlyWriterCreates(s: State)
    requires Inv(s)
    ensures forall u: nat :: At(s, u).CreatePrepared? || At(s, u).CreateAllocated? ==> s.writer == Some(u)
  {
    forall u: nat
      ensures At(s, u).CreatePrepared? || At(s, u).CreateAllocated? ==> s.writer == Some(u)
    {
      assert ThreadInv(s, u);
    }
  }

  /** What a scan inside the write transaction finds orphaned is dead. */
  lemma OrphanIsDead(s: State, t: nat, gone: set<Key>, n: Name)
    requires Inv(s) && s.writer == Some(t)
    requires !At(s, t).CreatePrepared? && !At(s, t).CreateAllocated? && !At(s, t).CreateRenamed?
    requires n in s.dirs && n !in LiveNames(s.rows, gone)
    ensures Dead(s, gone, n)
  {
    OnlyWriterCreates(s);
    assert forall k :: k in s.rows && k !in gone ==> Snap(s.rows[k]) in LiveNames(s.rows, gone);
  }

  /** What a thread holds after its own step is in order; its removal list is dead. */
  lemma OwnRemovalsDead(s: State, t: nat, a: Action)
    requires Inv(s) && Step(s, t, a).Some?
    ensures ThreadInv(Step(s, t, a).value, t)
  {
    assert ThreadInv(s, t);
    match a
    case ScanForRemove(_) => OwnScanForRemove(s, t, a);
    case ScanForCleanup(_) => OwnScanForCleanup(s, t, a);
    case CommitRemove => OwnCommitRemove(s, t);
    case EndScan => OwnEndScan(s, t);
    case DeleteNext(_) => OwnDeleteNext(s, t, a);
    case AbortForRecovery => OwnAbortForRecovery(s, t);
    case _ =>
  }

  lemma OwnScanForRemove(s: State, t: nat, a: Action)
    requires a.ScanForRemove? && Inv(s) && Step(s, t, a).Some?
    ensures ThreadInv(Step(s, t, a).value, t)
  {
    var s', key := Step(s, t, a).value, At(s, t).key;
    assert ThreadInv(s, t);
    forall n | n in At(s', t).removals ensures Dead(s', {key}, n) {
      OrphanIsDead(s, t, {key}, n);
      SameDead(s, s', {key}, {key}, n);
    }
  }

  lemma OwnScanForCleanup(s: State, t: nat, a: Action)
    requires a.ScanForCleanup? && Inv(s) && Step(s, t, a).Some?
    ensures ThreadInv(Step(s, t, a).value, t)
  {
    var s' := Step(s, t, a).value;
    assert ThreadInv(s, t);
    forall n | n in At(s', t).removals ensures Dead(s', {}, n) {
      OrphanIsDead(s, t, {}, n);
      SameDead(s, s', {}, {}, n);
    }
  }

  lemma OwnCommitRemove(s: State, t: nat)
    requires Inv(s) && Step(s, t, CommitRemove).Some?
    ensures ThreadInv(Step(s, t, CommitRemove).value, t)
  {
    var s' := Step(s, t, CommitRemove).value;
    assert ThreadInv(s, t);
    if At(s, t).RemoveScanned? {
      forall n | n in At(s', t).removals ensures Dead(s', {}, n) {
        SameDead(s, s', {At(s, t).key}, {}, n);
      }
    }
  }

  lemma OwnEndScan(s: State, t: nat)
    requires Inv(s) && Step(s, t, EndScan).Some?
    ensures ThreadInv(Step(s, t, EndScan).value, t)
  {
    var s' := Step(s, t, EndScan).value;
    assert ThreadInv(s, t);
    forall n | n in At(s', t).removals ensures Dead(s', {}, n) {
      SameDead(s, s', {}, {}, n);
    }
  }

  lemma OwnDeleteNext(s: State, t: nat, a: Action)
    requires a.DeleteNext? && Inv(s) && Step(s, t, a).Some?
    ensures ThreadInv(Step(s, t, a).value, t)
  {
    assert ThreadInv(s, t);
    forall n | n in At(s, t).removals ensures Dead(Step(s, t, a).value, {}, n) {
      DeadStaysDead(s, t, a, n);
    }
  }

  lemma OwnAbortForRecovery(s: State, t: nat)
    requires Inv(s) && Step(s, t, AbortForRecovery).Some?
    ensures ThreadInv(Step(s, t, AbortForRecovery).value, t)
  {
    var s' := Step(s, t, AbortForRecovery).value;
    assert ThreadInv(s, t);
    OnlyWriterCreates(s);
    assert forall u: nat :: u != t ==> At(s', u) == At(s, u);
  }

  lemma SameDead(s: State, s': State, gone: set<Key>, gone': set<Key>, n: Name)
    requires Dead(s, gone, n) && s'.next == s.next && s'.temps == s.temps
    requires forall k :: k in s'.rows && k !in gone' ==> k in s.rows && k !in gone && s'.rows[k] == s.rows[k]
    requires forall u :: At(s', u).CreatePrepared? || At(s', u).CreateAllocated? ==> At(s', u) == At(s, u)
    ensures Dead(s', gone', n)
  {
  }

  lemma OtherThreadKept(s: State, t: nat, a: Action, u: nat)
    requires Inv(s) && Step(s, t, a).Some? && u != t
    ensures ThreadInv(Step(s, t, a).value, u)
  {
    var s' := Step(s, t, a).value;
    assert ThreadInv(s, t) && ThreadInv(s, u);
    assert At(s', u) == At(s, u);
    if At(s, u).Deleting? || At(s, u).CleanupScanned? {
      forall n | n in At(s, u).removals
        ensures Dead(s', {}, n)
      {
        DeadStaysDead(s, t, a, n);
      }
    } else if At(s, u).RemoveScanned? {
      forall n | n in At(s, u).removals
        ensures Dead(s', {At(s, u).key}, n)
      {
        SameDead(s, s', {At(s, u).key}, {At(s, u).key}, n);
      }
    } else if At(s, u).CreateRenamed? && a.DeleteNext? {
      assert Dead(s, {}, At(s, t).removals[0]);
    }
  }

  /** A deletion takes neither a row's directory nor the directory a Create is filling. */
  lemma DeletionSpares(s: State, t: nat, a: Action)
    requires Inv(s) && Step(s, t, a).Some?
    ensures RowsKept(Step(s, t, a).value) && TempsKept(Step(s, t, a).value)
  {
    var s' := Step(s, t, a).value;
    assert ThreadInv(s, t);
    if a.DeleteNext? {
      assert Dead(s, {}, At(s, t).removals[0]);
    }
    forall u | At(s', u).CreatePrepared? || At(s', u).CreateAllocated?
      ensures Temp(At(s', u).td) in s'.dirs
    {
      assert ThreadInv(s, u);
      assert u != t ==> At(s', u) == At(s, u);
    }
  }

  /** Numbers are handed out in order and directories stay below them. */
  lemma StepKeepsOrder(s: State, t: nat, a: Action)
    requires Inv(s) && Step(s, t, a).Some?
    ensures var s' := Step(s, t, a).value;
            RowsInOrder(s') && NumberedInOrder(s') && forall g :: Temp(g) in s'.dirs ==> g in s'.temps
  {
    assert ThreadInv(s, t);
  }

  lemma StepKeepsInv(s: State, t: nat, a: Action)
    requires Inv(s) && Step(s, t, a).Some?
    ensures Inv(Step(s, t, a).value)
  {
    StepKeepsOrder(s, t, a);
    DeletionSpares(s, t, a);
    forall u
      ensures ThreadInv(Step(s, t, a).value, u)
    {
      if u == t { OwnRemovalsDead(s, t, a); } else { OtherThreadKept(s, t, a, u); }
    }
  }

  lemma {:induction false} RunKeepsInv(s: State, run: Run)
    requires Inv(s) && Exec(s, run).Some?
    ensures Inv(Exec(s, run).value)
    decreases |run|
  {
    if run != [] {
      StepKeepsInv(s, run[0].0, run[0].1);
      RunKeepsInv(Step(s, run[0].0, run[0].1).value, run[1..]);
    }
  }

  /** Safety of every interleaving: no run from a quiescent store whose numbered directories all lie
      below the ID counter deletes the directory of a committed snapshot, or the directory a Create
      is still filling. */
  lemma {:induction false} EveryRunKeepsSnapshots(s: State, run: Run)
    requires Quiescent(s) && BelowCounter(s) && Exec(s, run).Some?
    ensures RowsKept(Exec(s, run).value) && TempsKept(Exec(s, run).value)
  {
    assert forall t: nat :: ThreadInv(s, t);
    RunKeepsInv(s, run);
  }

  /** No pending deletion ever names a snapshot committed now or at any later point of the run. */
  lemma {:induction false} PendingDeletionsNeverLive(s: State, before: Run, after: Run, t: nat, n: Name)
    requires Quiescent(s) && BelowCounter(s)
    requires Exec(s, before).Some? && Exec(Exec(s, before).value, after).Some?
    requires At(Exec(s, before).value, t).Deleting? && n in At(Exec(s, before).value, t).removals
    ensures n !in LiveNames(Exec(Exec(s, before).value, after).value.rows, {})
  {
    var m := Exec(s, before).value;
    assert forall t: nat :: ThreadInv(s, t);
    RunKeepsInv(s, before);
    assert ThreadInv(m, t);
    RunKeepsDead(m, after, n);
  }

  lemma {:induction false} RunKeepsDead(s: State, run: Run, n: Name)
    requires Inv(s) && Exec(s, run).Some? && Dead(s, {}, n)
    ensures Dead(Exec(s, run).value, {}, n)
    decreases |run|
  {
    if run != [] {
      StepKeepsInv(s, run[0].0, run[0].1);
      DeadStaysDead(s, run[0].0, run[0].1, n);
      RunKeepsDead(Step(s, run[0].0, run[0].1).value, run[1..], n);
    }
  }

  // ---- The condition is exact ----

  ghost predicate SafeForever(s: State) {
    forall run: Run :: Exec(s, run).Some? ==> RowsKept(Exec(s, run).value)
  }

  /** A quiescent store is safe under every run exactly when no numbered directory has reached the
      ID counter.  A crash between os.Rename and the commit leaves such a directory behind. */
  lemma SafeExactlyBelowCounter(s: State)
    requires Quiescent(s)
    ensures SafeForever(s) <==> BelowCounter(s)
  {
    if BelowCounter(s) {
      forall run: Run | Exec(s, run).Some?
        ensures RowsKept(Exec(s, run).value)
      {
        EveryRunKeepsSnapshots(s, run);
      }
    } else {
      var i: nat :| Snap(i) in s.dirs && i >= s.next;
      var run := LosingRun(s, i);
    }
  }

  /** A crash between the rename and the commit of a Create: the calls are gone, the directory at the
      counter stays, and the store is no longer safe. */
  lemma CrashLeavesOrphan(s: State, t: nat)
    requires Inv(s) && At(s, t).CreateRenamed?
    ensures var crashed := s.(writer := None, threads := map[]);
            Quiescent(crashed) && !BelowCounter(crashed) && !SafeForever(crashed)
  {
    var crashed := s.(writer := None, threads := map[]);
    assert ThreadInv(s, t);
    assert Snap(s.next) in crashed.dirs;
    SafeExactlyBelowCounter(crashed);
  }

  lemma {:induction false} ExecAppend(s: State, a: Run, b: Run)
    requires Exec(s, a).Some?
    ensures Exec(s, a + b) == Exec(Exec(s, a).value, b)
    decreases |a|
  {
    if a == [] {
      assert a + b == b;
    } else {
      assert (a + b)[1..] == a[1..] + b;
      ExecAppend(Step(s, a[0].0, a[0].1).value, a[1..], b);
    }
  }

  /** Cleanup scans and ends its transaction; Create reaches the orphan's number; Cleanup deletes. */
  lemma {:induction false} LosingRun(s: State, i: nat) returns (run: Run)
    requires Quiescent(s) && Snap(i) in s.dirs && i >= s.next
    ensures Exec(s, run).Some? && !RowsKept(Exec(s, run).value)
  {
    var listing := SomeListing(s.dirs);
    var scan: Run := [(0, BeginCleanup), (0, ScanForCleanup(listing)), (0, EndScan)];
    var s1 := Move(s, 0, CleanupBegun).(writer := Some(0));
    var found := Orphans(listing, LiveNames(s.rows, {}));
    assert Snap(i) in found;
    var s2 := Move(s1, 0, CleanupScanned(found));
    var s3 := Release(s2, 0, Deleting(found));
    ExecThree(s, scan, s1, s2, s3);
    assert At(s3, 1) == At(s, 1);
    var create := CreateUpTo(s3, i);
    ExecAppend(s, scan, create);
    var s4 := Exec(s3, create).value;
    var delete := DeleteAll(s4, 0, found);
    ExecAppend(s, scan + create, delete);
    run := scan + create + delete;
    var k :| k in s4.rows && s4.rows[k] == i;
    assert Snap(Exec(s, run).value.rows[k]) !in Exec(s, run).value.dirs;
  }

  lemma {:induction false} ExecThree(s: State, run: Run, s1: State, s2: State, s3: State)
    requires |run| == 3
    requires Step(s, run[0].0, run[0].1) == Some(s1) && Step(s1, run[1].0, run[1].1) == Some(s2)
    requires Step(s2, run[2].0, run[2].1) == Some(s3)
    ensures Exec(s, run) == Some(s3)
  {
    assert Exec(s3, run[1..][1..][1..]) == Some(s3);
    assert Exec(s2, run[1..][1..]) == Some(s3);
    assert Exec(s1, run[1..]) == Some(s3);
  }

  lemma {:induction false} SomeListing(dirs: set<Name>) returns (listing: seq<Name>)
    ensures Lists(listing, dirs)
    decreases |dirs|
  {
    if dirs == {} {
      listing := [];
    } else {
      var n :| n in dirs;
      var rest := SomeListing(dirs - {n});
      listing := [n] + rest;
    }
  }

  lemma {:induction false} SomeFresh(used: set<nat>) returns (n: nat)
    ensures forall x :: x in used ==> x < n
    decreases |used|
  {
    if used == {} {
      n := 0;
    } else {
      var x :| x in used;
      var m := SomeFresh(used - {x});
      n := if m > x then m else x + 1;
      assert forall y :: y in used ==> y == x || y in used - {x};
    }
  }

  /** Thread 1 can create one snapshot, whatever lies in the way, without touching thread 0. */
  lemma {:induction false} CreateOne(s: State) returns (run: Run)
    requires s.writer.None? && At(s, 1).Idle?
    ensures Exec(s, run).Some?
    ensures var s' := Exec(s, run).value;
            && s'.writer.None? && At(s', 1).Idle? && At(s', 0) == At(s, 0) && s'.next == s.next + 1
            && (forall k :: k in s.rows ==> k in s'.rows && s'.rows[k] == s.rows[k])
            && (exists k :: k in s'.rows && s'.rows[k] == s.next)
  {
    var key := SomeFresh(s.rows.Keys);
    var tag := SomeFresh(s.temps);
    var a := CreateFrom(s, key, tag);
    if Snap(s.next) in s.dirs {
      // the first attempt fails to rename and its deferred cleanup clears the way
      var s0 := Exec(s, a).value;
      var abort: Run := [(1, AbortCreate(true))];
      var s1 := Release(s0, 1, Idle).(dirs := s0.dirs - {Temp(tag)} - {Snap(s.next)});
      assert Exec(s1, abort[1..]) == Some(s1);
      assert Exec(s0, abort) == Some(s1);
      ExecAppend(s, a, abort);
      var b := CreateFrom(s1, key, tag + 1);
      ExecAppend(s, a + abort, b);
      var finish := FinishCreate(Exec(s1, b).value, key, tag + 1);
      ExecAppend(s, a + abort + b, finish);
      run := a + abort + b + finish;
    } else {
      var finish := FinishCreate(Exec(s, a).value, key, tag);
      ExecAppend(s, a, finish);
      run := a + finish;
    }
    assert Exec(s, run).value.rows[key] == s.next;
  }

  lemma {:induction false} CreateFrom(s: State, key: Key, tag: nat) returns (run: Run)
    requires s.writer.None? && At(s, 1).Idle? && key !in s.rows && tag !in s.temps
    ensures Exec(s, run) == Some(Move(s, 1, CreateAllocated(key, tag, s.next))
                                 .(writer := Some(1), dirs := s.dirs + {Temp(tag)}, temps := s.temps + {tag}))
  {
    var s1 := Move(s, 1, CreateBegun(key)).(writer := Some(1));
    var s2 := Move(s1, 1, CreatePrepared(key, tag)).(dirs := s1.dirs + {Temp(tag)}, temps := s1.temps + {tag});
    var s3 := Move(s2, 1, CreateAllocated(key, tag, s2.next));
    run := [(1, BeginCreate(key)), (1, Prepare(tag)), (1, Allocate)];
    ExecThree(s, run, s1, s2, s3);
    assert s.threads[1 := CreateBegun(key)][1 := CreatePrepared(key, tag)][1 := CreateAllocated(key, tag, s.next)]
        == s.threads[1 := CreateAllocated(key, tag, s.next)];
  }

  lemma {:induction false} FinishCreate(s: State, key: Key, tag: nat) returns (run: Run)
    requires At(s, 1) == CreateAllocated(key, tag, s.next) && Temp(tag) in s.dirs && Snap(s.next) !in s.dirs
    ensures Exec(s, run).Some?
    ensures var s' := Exec(s, run).value;
            && s'.rows == s.rows[key := s.next] && s'.next == s.next + 1 && s'.writer.None?
            && At(s', 1).Idle? && At(s', 0) == At(s, 0)
  {
    var s1 := Move(s, 1, CreateRenamed(key, s.next)).(dirs := s.dirs - {Temp(tag)} + {Snap(s.next)});
    var s2 := Release(s1, 1, Idle).(rows := s1.rows[key := s.next], next := s.next + 1);
    run := [(1, Rename), (1, CommitCreate)];
    assert Exec(s2, run[1..][1..]) == Some(s2);
    assert Exec(s1, run[1..]) == Some(s2);
  }

  lemma {:induction false} CreateUpTo(s: State, i: nat) returns (run: Run)
    requires s.writer.None? && At(s, 1).Idle? && i >= s.next
    ensures Exec(s, run).Some? && At(Exec(s, run).value, 0) == At(s, 0)
    ensures exists k :: k in Exec(s, run).value.rows && Exec(s, run).value.rows[k] == i
    ensures forall k :: k in s.rows ==> k in Exec(s, run).value.rows && Exec(s, run).value.rows[k] == s.rows[k]
    decreases i - s.next
  {
    run := CreateOne(s);
    if s.next < i {
      var rest := CreateUpTo(Exec(s, run).value, i);
      ExecAppend(s, run, rest);
      run := run + rest;
    }
  }

  lemma {:induction false} DeleteAll(s: State, t: nat, removals: seq<Name>) returns (run: Run)
    requires At(s, t) == Deleting(removals)
    ensures Exec(s, run) == Some(Move(s, t, Deleting([])).(dirs := s.dirs - set n | n in removals))
    ensures forall i :: 0 <= i < |run| ==> run[i] == (t, DeleteNext(true))
    decreases |removals|
  {
    if removals == [] {
      run := [];
      assert s.threads[t := Deleting([])] == s.threads;
      assert s.dirs - (set n: Name | n in removals) == s.dirs;
    } else {
      var s1 := Move(s, t, Deleting(removals[1..])).(dirs := s.dirs - {removals[0]});
      var rest := DeleteAll(s1, t, removals[1..]);
      run := [(t, DeleteNext(true))] + rest;
      assert run[1..] == rest;
      assert Exec(s, run) == Exec(s1, rest);
      assert s1.threads[t := Deleting([])] == s.threads[t := Deleting([])];
      assert s1.dirs - (set n | n in removals[1..]) == s.dirs - (set n | n in removals);
    }
  }

  // ---- Cleanup cleans up ----

  /** A Cleanup that nobody disturbs and whose deletions succeed: its steps, in order. */
  ghost predicate Undisturbed(run: Run, t: nat) {
    && (forall i :: 0 <= i < |run| ==> run[i].0 == t)
    && (forall i :: 0 <= i < |run| ==>
          || run[i].1.BeginCleanup? || run[i].1.ScanForCleanup? || run[i].1.EndScan?
          || run[i].1 == DeleteNext(true) || run[i].1.Return?)
  }

  /** From a quiescent store an undisturbed Cleanup leaves exactly the directories of the rows. */
  lemma {:induction false} CleanupLeavesTheRows(s: State, t: nat, listing: seq<Name>) returns (run: Run)
    requires Quiescent(s) && Lists(listing, s.dirs)
    ensures Undisturbed(run, t) && Exec(s, run).Some?
    ensures Exec(s, run).value.dirs == LiveNames(s.rows, {})
    ensures Exec(s, run).value.rows == s.rows && Exec(s, run).value.writer.None? && At(Exec(s, run).value, t).Idle?
  {
    var found := Orphans(listing, LiveNames(s.rows, {}));
    var scan := CleanupScan(s, t, listing, found);
    var s3 := Exec(s, scan).value;
    var delete := DeleteAll(s3, t, found);
    ExecAppend(s, scan, delete);
    var s4 := Exec(s3, delete).value;
    var back: Run := [(t, Return)];
    assert Exec(s4, back) == Some(Move(s4, t, Idle)) by {
      assert Exec(Move(s4, t, Idle), back[1..]) == Some(Move(s4, t, Idle));
    }
    ExecAppend(s, scan + delete, back);
    run := scan + delete + back;
    OrphansGone(s, listing, found);
  }

  lemma {:induction false} CleanupScan(s: State, t: nat, listing: seq<Name>, found: seq<Name>) returns (run: Run)
    requires Quiescent(s) && Lists(listing, s.dirs) && found == Orphans(listing, LiveNames(s.rows, {}))
    ensures Undisturbed(run, t)
    ensures Exec(s, run) == Some(Release(s, t, Deleting(found)))
  {
    run := [(t, BeginCleanup), (t, ScanForCleanup(listing)), (t, EndScan)];
    var s1 := Move(s, t, CleanupBegun).(writer := Some(t));
    var s2 := Move(s1, t, CleanupScanned(found));
    var s3 := Release(s2, t, Deleting(found));
    ExecThree(s, run, s1, s2, s3);
    assert s.threads[t := CleanupBegun][t := CleanupScanned(found)][t := Deleting(found)]
        == s.threads[t := Deleting(found)];
  }

  lemma {:induction false} OrphansGone(s: State, listing: seq<Name>, found: seq<Name>)
    requires RowsKept(s) && Lists(listing, s.dirs) && found == Orphans(listing, LiveNames(s.rows, {}))
    ensures s.dirs - (set n | n in found) == LiveNames(s.rows, {})
  {
  }
}
