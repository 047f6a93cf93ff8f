/** Managers over one persistent store (pkg/manager/manager.go, pkg/manager/daemon_cache.go and
    pkg/store/database.go): the daemon cache as a write-through index of the stored daemons, and its
    recovery together with the reference counts after a restart. */
module Managers {
  import opened DaemonRefs

  /** What is persisted of a daemon; `config` stands for the fields nobody branches on. */
  datatype ConfigState = ConfigState(id: string, driver: Driver, config: int)

  /** A persisted RAFS instance */
  datatype Instance = Instance(snapshotId: string, daemonId: string, driver: Driver, seqNo: nat)

  datatype Result = Ok | AlreadyExists | NotFound | StoreError

  /** The bbolt buckets; every operation is one transaction, `io` false when it cannot be written. */
  class Database {
    var daemons: map<string, ConfigState>
    var instances: map<string, Instance>
    var sequence: nat

    constructor ()
      ensures daemons == map[] && instances == map[] && sequence == 0
    {
      daemons, instances, sequence := map[], map[], 0;
    }

    ghost predicate Keyed()
      reads this
    {
      && (forall id :: id in daemons ==> daemons[id].id == id)
      && (forall s :: s in instances ==> instances[s].snapshotId == s)
    }

    method SaveDaemon(d: ConfigState, io: bool) returns (r: Result)
      modifies this`daemons
      ensures r == if d.id in old(daemons) then AlreadyExists else if io then Ok else StoreError
      ensures daemons == if r == Ok then old(daemons)[d.id := d] else old(daemons)
    {
      if d.id in daemons { return AlreadyExists; }
      if !io { return StoreError; }
      daemons := daemons[d.id := d];
      r := Ok;
    }

    method UpdateDaemon(d: ConfigState, io: bool) returns (r: Result)
      modifies this`daemons
      ensures r == if d.id !in old(daemons) then NotFound else if io then Ok else StoreError
      ensures daemons == if r == Ok then old(daemons)[d.id := d] else old(daemons)
    {
      if d.id !in daemons { return NotFound; }
      if !io { return StoreError; }
      daemons := daemons[d.id := d];
      r := Ok;
    }

    method DeleteDaemon(id: string, io: bool) returns (r: Result)
      modifies this`daemons
      ensures r == if io then Ok else StoreError
      ensures daemons == if r == Ok then old(daemons) - {id} else old(daemons)
    {
      if !io { return StoreError; }
      daemons := daemons - {id};
      r := Ok;
    }

    /** NextInstanceSeq followed by AddRafsInstance, each with its own transaction. */
    method AddRafsInstance(r: Instance, seqIo: bool, io: bool) returns (res: Result)
      modifies this`instances, this`sequence
      ensures sequence == if seqIo then old(sequence) + 1 else old(sequence)
      ensures res == if seqIo && r.snapshotId !in old(instances) && io then Ok else StoreError
      ensures instances == if res == Ok then old(instances)[r.snapshotId := r.(seqNo := sequence)] else old(instances)
    {
      if !seqIo { return StoreError; }
      sequence := sequence + 1;
      if r.snapshotId in instances || !io { return StoreError; }
      instances := instances[r.snapshotId := r.(seqNo := sequence)];
      res := Ok;
    }

    method DeleteRafsInstance(snapshotId: string, io: bool) returns (res: Result)
      modifies this`instances
      ensures res == if io then Ok else StoreError
      ensures instances == if res == Ok then old(instances) - {snapshotId} else old(instances)
    {
      if !io { return StoreError; }
      instances := instances - {snapshotId};
      res := Ok;
    }
  }

  /** The IDs of the stored daemons of one driver */
  function IdsOf(daemons: map<string, ConfigState>, driver: Driver): set<string> {
    set id | id in daemons && daemons[id].driver == driver
  }

  /** What asking a stored daemon for its state turns up during recovery. */
  datatype Probe = SetupFails | Died | NotRunning | Running | RunningNoCgroup

  class Manager {
    const driver: Driver
    const store: Database
    /** daemonCache */
    var cache: map<string, ConfigState>

    constructor (store: Database, driver: Driver)
      ensures this.store == store && this.driver == driver && cache == map[]
    {
      this.store, this.driver := store, driver;
      cache := map[];
    }

    /** The cache indexes exactly the stored daemons of this manager's driver. */
    ghost predicate Mirrors()
      reads this, store
    {
      cache.Keys == IdsOf(store.daemons, driver)
    }

    /** The family survives exactly when the daemon handed over is of the manager's own driver. */
    method AddDaemon(d: ConfigState, io: bool, ghost peers: set<Manager>) returns (r: Result)
      requires Family(store, peers) && this in peers
      modifies this`cache, store`daemons
      ensures Family(store, peers) <==> r != Ok || d.driver == driver
      ensures r == Ok <==> d.id !in old(cache) && d.id !in old(store.daemons) && io
      ensures store.daemons == if r == Ok then old(store.daemons)[d.id := d] else old(store.daemons)
      ensures cache == if r == Ok then old(cache)[d.id := d] else old(cache)
    {
      if d.id in cache { return AlreadyExists; }
      r := store.SaveDaemon(d, io);
      if r != Ok { return; }
      cache := cache[d.id := d];
      assert d.driver != driver ==> d.id in cache && d.id !in IdsOf(store.daemons, driver);
    }

    method UpdateDaemon(d: ConfigState, io: bool, ghost peers: set<Manager>) returns (r: Result)
      requires Family(store, peers) && this in peers
      modifies this`cache, store`daemons
      ensures Family(store, peers) <==> r != Ok || d.driver == driver
      ensures r == Ok <==> d.id in old(cache) && io
      ensures store.daemons == if r == Ok then old(store.daemons)[d.id := d] else old(store.daemons)
      ensures cache == if r == Ok then old(cache)[d.id := d] else old(cache)
    {
      if d.id !in cache { return NotFound; }
      r := store.UpdateDaemon(d, io);
      if r != Ok { return; }
      cache := cache[d.id := d];
      assert d.driver != driver ==> d.id in cache && d.id !in IdsOf(store.daemons, driver);
    }

    /** The family survives exactly when no other manager has the daemon. */
    method DeleteDaemon(id: string, io: bool, ghost peers: set<Manager>) returns (r: Result)
      requires Family(store, peers) && this in peers
      modifies this`cache, store`daemons
      ensures Family(store, peers) <==> r != Ok || forall p :: p in peers && p != this ==> id !in old(p.cache)
      ensures r == Ok <==> io
      ensures store.daemons == if r == Ok then old(store.daemons) - {id} else old(store.daemons)
      ensures cache == if r == Ok then old(cache) - {id} else old(cache)
    {
      r := store.DeleteDaemon(id, io);
      if r != Ok { return; }
      cache := cache - {id};
      assert forall p :: p in peers && p != this ==> (p.Mirrors() <==> id !in p.cache);
    }

    /** recoverDaemons: walk the stored daemons in key order, index those of this driver and hand out a
        fresh daemon object to `recovering` or `live` as the probe tells.  A failing step ends the walk. */
    method RecoverDaemons(order: seq<string>, probe: string -> Probe, rec: map<string, Book>, up: map<string, Book>)
      returns (ok: bool, recovering: map<string, Book>, live: map<string, Book>)
      requires store.Keyed() && Enumerates(order, store.daemons.Keys)
      modifies this`cache
      ensures ok <==> Harmless(IdsOf(store.daemons, driver), probe)
      ensures ok ==> cache.Keys == old(cache.Keys) + IdsOf(store.daemons, driver)
      ensures ok ==> Sorted(rec, up, recovering, live, IdsOf(store.daemons, driver), probe)
    {
      recovering, live := rec, up;
      var daemons := store.daemons;
      for i := 0 to |order|
        invariant Harmless(Walked(daemons, driver, order[..i]), probe)
        invariant cache.Keys == old(cache.Keys) + Walked(daemons, driver, order[..i])
        invariant Sorted(rec, up, recovering, live, Walked(daemons, driver, order[..i]), probe)
      {
        var id := order[i];
        WalkOne(daemons, driver, order, i);
        if daemons[id].driver == driver {
          cache := cache[id := daemons[id]];
          if Fatal(probe(id)) {
            assert id in IdsOf(daemons, driver);
            return false, recovering, live;
          }
          SortOne(rec, up, recovering, live, Walked(daemons, driver, order[..i]), probe, id);
          if probe(id) == Died {
            recovering := recovering[id := EMPTY];
          } else if probe(id) == Running {
            live := live[id := EMPTY];
          }
        }
      }
      assert order[..|order|] == order;
      assert Walked(daemons, driver, order) == IdsOf(daemons, driver);
      ok := true;
    }

    /** recoverRafsInstances: each stored instance of this driver is added to the recovering and the
        live daemon it names. */
    method RecoverInstances(order: seq<string>, rec: map<string, Book>, up: map<string, Book>)
      returns (recovering: map<string, Book>, live: map<string, Book>)
      requires store.Keyed() && Enumerates(order, store.instances.Keys)
      ensures Attached(rec, recovering, store.instances, store.instances.Keys, driver)
      ensures Attached(up, live, store.instances, store.instances.Keys, driver)
    {
      recovering, live := rec, up;
      ghost var seen: set<string> := {};
      AttachedNone(rec, store.instances, driver);
      AttachedNone(up, store.instances, driver);
      for i := 0 to |order|
        invariant seen == set s | s in order[..i]
        invariant Attached(rec, recovering, store.instances, seen, driver)
        invariant Attached(up, live, store.instances, seen, driver)
      {
        var s := order[i];
        assert order[..i + 1] == order[..i] + [s];
        assert s !in seen;
        var r := store.instances[s];
        AttachOne(rec, recovering, store.instances, seen, driver, s);
        AttachOne(up, live, store.instances, seen, driver, s);
        if Hit(r, driver) {
          recovering := Attach(recovering, r);
          live := Attach(live, r);
        }
        seen := seen + {s};
      }
      assert order[..|order|] == order;
      assert seen == store.instances.Keys;
    }

    /** Recover: from an empty cache a successful restart restores the index, and every daemon found dead
        or running owns exactly the stored instances that name it, with one reference for each. */
    method Recover(order: seq<string>, instanceOrder: seq<string>, probe: string -> Probe,
                   rec: map<string, Book>, up: map<string, Book>)
      returns (ok: bool, recovering: map<string, Book>, live: map<string, Book>)
      requires store.Keyed() && Enumerates(order, store.daemons.Keys) && Enumerates(instanceOrder, store.instances.Keys)
      modifies this`cache
      ensures ok <==> Harmless(IdsOf(store.daemons, driver), probe)
      ensures ok && old(cache) == map[] ==> Mirrors()
      ensures ok ==> forall id :: id in IdsOf(store.daemons, driver) && probe(id) == Died ==>
                && id in recovering
                && Gained(EMPTY, recovering[id], Naming(store.instances, store.instances.Keys, driver, id))
      ensures ok ==> forall id :: id in IdsOf(store.daemons, driver) && probe(id) == Running ==>
                && id in live
                && Gained(EMPTY, live[id], Naming(store.instances, store.instances.Keys, driver, id))
    {
      ok, recovering, live := RecoverDaemons(order, probe, rec, up);
      if ok {
        recovering, live := RecoverInstances(instanceOrder, recovering, live);
      }
    }
  }

  /** A walk over a bucket: every key once. */
  ghost predicate Enumerates(order: seq<string>, keys: set<string>) {
    && (forall id :: id in order <==> id in keys)
    && (forall i, j :: 0 <= i < j < |order| ==> order[i] != order[j])
  }

  /** Recovery gives up: no supervisor or configuration, or no cgroup for a running daemon. */
  predicate Fatal(p: Probe) {
    p == SetupFails || p == RunningNoCgroup
  }

  ghost predicate Harmless(ids: set<string>, probe: string -> Probe) {
    forall id :: id in ids ==> probe(id) != SetupFails && probe(id) != RunningNoCgroup
  }

  function Walked(daemons: map<string, ConfigState>, driver: Driver, order: seq<string>): set<string> {
    set id | id in order && id in daemons && daemons[id].driver == driver
  }

  lemma WalkOne(daemons: map<string, ConfigState>, driver: Driver, order: seq<string>, i: nat)
    requires i < |order| && order[i] in daemons
    ensures var w := Walked(daemons, driver, order[..i]);
            Walked(daemons, driver, order[..i + 1])
            == if daemons[order[i]].driver == driver then w + {order[i]} else w
  {
    assert order[..i + 1] == order[..i] + [order[i]];
  }

  function Probed(ids: set<string>, probe: string -> Probe, p: Probe): set<string> {
    set id | id in ids && probe(id) == p
  }

  /** `now` is `was` with fresh daemons for `ids`. */
  ghost predicate Added(was: map<string, Book>, now: map<string, Book>, ids: set<string>) {
    && now.Keys == was.Keys + ids
    && (forall id :: id in now ==> now[id] == if id in ids then EMPTY else was[id])
  }

  /** The daemons that died are recovering, those running are live, each with empty books. */
  ghost predicate Sorted(rec: map<string, Book>, up: map<string, Book>, recovering: map<string, Book>,
                         live: map<string, Book>, ids: set<string>, probe: string -> Probe) {
    && Added(rec, recovering, Probed(ids, probe, Died))
    && Added(up, live, Probed(ids, probe, Running))
  }

  lemma SortOne(rec: map<string, Book>, up: map<string, Book>, recovering: map<string, Book>, live: map<string, Book>,
                ids: set<string>, probe: string -> Probe, id: string)
    requires Sorted(rec, up, recovering, live, ids, probe)
    ensures Sorted(rec, up, if probe(id) == Died then recovering[id := EMPTY] else recovering,
                   if probe(id) == Running then live[id := EMPTY] else live, ids + {id}, probe)
  {
    forall p
      ensures Probed(ids + {id}, probe, p) == Probed(ids, probe, p) + if probe(id) == p then {id} else {}
    {
    }
  }

  function Attach(books: map<string, Book>, r: Instance): map<string, Book> {
    if r.daemonId in books then books[r.daemonId := Step(books[r.daemonId], Add(r.snapshotId))] else books
  }

  /** The instances among `seen` that name daemon `id`, of a driver that has daemons. */
  function Naming(instances: map<string, Instance>, seen: set<string>, driver: Driver, id: string): set<string> {
    set s | s in seen && s in instances && instances[s].daemonId == id && instances[s].driver == driver
            && (driver == Fscache || driver == Fusedev)
  }

  /** A fresh daemon has gained exactly the instances naming it, one reference each. */
  ghost predicate Gained(was: Book, now: Book, naming: set<string>) {
    && (was == EMPTY && |naming| < 0x8000_0000 ==> now == Book(naming, |naming|, 0))
    && (naming == {} ==> now == was)
  }

  ghost predicate Attached(was: map<string, Book>, now: map<string, Book>, instances: map<string, Instance>,
                           seen: set<string>, driver: Driver) {
    && now.Keys == was.Keys
    && (forall id :: id in now ==> Gained(was[id], now[id], Naming(instances, seen, driver, id)))
  }

  lemma AttachedNone(was: map<string, Book>, instances: map<string, Instance>, driver: Driver)
    ensures Attached(was, was, instances, {}, driver)
  {
    forall id ensures Naming(instances, {}, driver, id) == {} {}
  }

  lemma GainOne(was: Book, now: Book, naming: set<string>, s: string)
    requires Gained(was, now, naming) && s !in naming
    ensures Gained(was, Step(now, Add(s)), naming + {s})
  {
    assert |naming + {s}| == |naming| + 1;
  }

  predicate Hit(r: Instance, driver: Driver) {
    r.driver == driver && (r.driver == Fscache || r.driver == Fusedev)
  }

  lemma NamingOne(instances: map<string, Instance>, seen: set<string>, driver: Driver, s: string, id: string)
    requires s in instances && s !in seen
    ensures var naming := Naming(instances, seen, driver, id);
            && s !in naming
            && Naming(instances, seen + {s}, driver, id)
               == if Hit(instances[s], driver) && instances[s].daemonId == id then naming + {s} else naming
  {
  }

  lemma AttachOne(was: map<string, Book>, now: map<string, Book>, instances: map<string, Instance>, seen: set<string>,
                  driver: Driver, s: string)
    requires Attached(was, now, instances, seen, driver) && s in instances && s !in seen && instances[s].snapshotId == s
    ensures var r := instances[s];
            Attached(was, if Hit(r, driver) then Attach(now, r) else now, instances, seen + {s}, driver)
  {
    var r := instances[s];
    var next := if Hit(r, driver) then Attach(now, r) else now;
    forall id | id in now
      ensures Gained(was[id], next[id], Naming(instances, seen + {s}, driver, id))
    {
      NamingOne(instances, seen, driver, s, id);
      if Hit(r, driver) && r.daemonId == id {
        GainOne(was[id], now[id], Naming(instances, seen, driver, id), s);
      }
    }
  }

  /** Managers of distinct drivers over one store, every cache in step with it. */
  ghost predicate Family(store: Database, peers: set<Manager>)
    reads store, peers
  {
    && store.Keyed()
    && (forall m :: m in peers ==> m.store == store && m.Mirrors())
    && (forall m, n :: m in peers && n in peers && m != n ==> m.driver != n.driver)
  }
}
