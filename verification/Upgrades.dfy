/** Hot upgrades of a daemon (upgradeNydusDaemon in pkg/system/system.go and DoDaemonUpgrade in
    pkg/manager/daemon_event.go) together with the mounts and unmounts of pkg/filesystem/fs.go.

    One daemon has one object after another.  Mounts of a shared daemon go to the object in the file
    system's slot, unmounts to the object in the manager's cache; an upgrade replaces the latter only, and
    lets the nydusd of the former exit.  A mount that nydusd does not take is counted all the same, since
    Mount drops the error, but nothing is served for it. */
module Upgrades {
  import opened Base
  import opened DaemonRefs
  import opened Managers

  /** `objs` are the books of the daemon's objects, the last one being the manager's; `slot` is the
      retained object.  `entries` are the snapshots whose Mount returned and that are not unmounted yet,
      `served` those among them that nydusd took, `ever` all since the last restart.  `alive` says that
      nobody destroyed the daemon. */
  datatype Fleet = Fleet(shared: bool, slot: Option<nat>, objs: seq<Book>, entries: set<string>, served: set<string>,
                         ever: set<string>, alive: bool)

  function Start(shared: bool): Fleet {
    Fleet(shared, None, [EMPTY], {}, {}, {}, true)
  }

  datatype Act =
    | Keep                           // TryRetainSharedDaemon of the manager's object
    | Mount(id: string, ok: bool)    // `ok`: the nydusd of the object that is asked would take it
    | Umount(id: string, ok: bool)   // `ok`: nydusd agrees
    | Upgrade
    | Restart                        // of the snapshotter: one object, with the persisted instances
    | Stop                           // TryStopSharedDaemon

  /** Fewer mounts between two restarts than the 32-bit counter can count. */
  const MAX_MOUNTS := 0x7FFF_0000

  function Serving(s: Fleet): int {
    |s.objs| - 1
  }

  /** With `lenient`, nydusd may agree to unmount what it does not serve.  What it serves it unmounts. */
  predicate Enabled(s: Fleet, a: Act, lenient: bool) {
    && s.alive && s.objs != [] && (s.slot.Some? ==> s.slot.value < |s.objs|)
    && match a
       case Keep => s.shared
       case Mount(id, _) => id !in s.ever && |s.ever| < MAX_MOUNTS && (s.shared ==> s.slot.Some?)
       case Umount(id, ok) =>
         id in s.entries && (id in s.served ==> ok) && (id !in s.served && s.shared && !lenient ==> !ok)
       case Restart => |s.served| <= MAX_MOUNTS
       case _ => true
  }

  function Retained(s: Fleet): Fleet
    requires s.objs != []
  {
    if s.shared && s.slot.None?
    then s.(slot := Some(Serving(s)), objs := s.objs[Serving(s) := Step(s.objs[Serving(s)], Retain)])
    else s
  }

  /** The object a mount goes to. */
  function Target(s: Fleet): int {
    if s.shared && s.slot.Some? then s.slot.value else Serving(s)
  }

  function Next(s: Fleet, a: Act, lenient: bool): Fleet
    requires Enabled(s, a, lenient)
  {
    match a
    case Keep => Retained(s)
    case Mount(id, ok) =>
      var to := Target(s);
      s.(objs := s.objs[to := Step(s.objs[to], Add(id))], entries := s.entries + {id}, ever := s.ever + {id},
         served := if ok && to == Serving(s) then s.served + {id} else s.served)
    case Umount(id, ok) =>
      var book := Step(s.objs[Serving(s)], Remove(id));
      s.(objs := s.objs[Serving(s) := book], entries := s.entries - {id}, served := s.served - {id},
         alive := !(ok && book.ref == 0))
    case Upgrade => Retained(s.(objs := s.objs + [CloneOf(s.objs[Serving(s)])]))
    case Restart => Fleet(s.shared, None, [Book(s.served, |s.served|, 0)], s.served, s.served, s.served, true)
    case Stop => if s.slot.Some? && s.objs[s.slot.value].ref == 1 then s.(alive := false) else s
  }

  /** The books after a restart are those that recovery builds from the persisted instances. */
  lemma RestartIsRecovery(s: Fleet, lenient: bool, instances: map<string, Instance>, driver: Driver, id: string,
                          book: Book)
    requires Enabled(s, Restart, lenient) && Naming(instances, instances.Keys, driver, id) == s.served
    ensures Gained(EMPTY, book, Naming(instances, instances.Keys, driver, id))
            <==> [book] == Next(s, Restart, lenient).objs
  {
  }

  /** A run in which no upgrade finds the slot occupied. */
  function Exec(s: Fleet, acts: seq<Act>, lenient: bool): Option<Fleet>
    decreases |acts|
  {
    if acts == [] then Some(s)
    else if !Enabled(s, acts[0], lenient) || (acts[0].Upgrade? && s.slot.Some?) then None
    else Exec(Next(s, acts[0], lenient), acts[1..], lenient)
  }

  // ---- Safety ----

  /** The daemon is not destroyed while it serves a snapshot. */
  predicate Safe(s: Fleet) {
    s.alive || s.served == {}
  }

  /** The slot is empty or holds the manager's object, whose books are exact. */
  ghost predicate Inv(s: Fleet) {
    && s.alive && s.objs != [] && s.served <= s.entries <= s.ever && |s.ever| <= MAX_MOUNTS && |s.entries| <= |s.ever|
    && (s.slot.Some? ==> s.shared && s.slot.value == Serving(s))
    && var kept := if s.slot.Some? then 1 else 0;
       s.objs[Serving(s)] == Book(s.entries, |s.entries| + kept, kept)
  }

  lemma NextKeepsInv(s: Fleet, a: Act, lenient: bool)
    requires Inv(s) && Enabled(s, a, lenient) && !(a.Upgrade? && s.slot.Some?)
    ensures var t := Next(s, a, lenient);
            Safe(t) && (t.alive ==> Inv(t))
  {
    match a
    case Mount(id, ok) => MountKeepsInv(s, id, ok, lenient);
    case Umount(id, ok) => UmountKeepsInv(s, id, ok, lenient);
    case Restart => SubsetSize(s.served, s.ever);
    case Stop => assert |s.entries| == 0 ==> s.entries == {};
    case _ =>
  }

  lemma MountKeepsInv(s: Fleet, id: string, ok: bool, lenient: bool)
    requires Inv(s) && Enabled(s, Mount(id, ok), lenient)
    ensures Inv(Next(s, Mount(id, ok), lenient))
  {
    assert |s.entries + {id}| == |s.entries| + 1 && |s.ever + {id}| == |s.ever| + 1;
  }

  lemma UmountKeepsInv(s: Fleet, id: string, ok: bool, lenient: bool)
    requires Inv(s) && Enabled(s, Umount(id, ok), lenient)
    ensures var t := Next(s, Umount(id, ok), lenient);
            Safe(t) && (t.alive ==> Inv(t))
  {
    assert |s.entries - {id}| == |s.entries| - 1;
  }

  lemma {:induction false} SubsetSize(a: set<string>, b: set<string>)
    requires a <= b
    ensures |a| <= |b|
  {
    if a != {} {
      var x :| x in a;
      SubsetSize(a - {x}, b - {x});
    }
  }

  lemma {:induction false} ExecSafe(s: Fleet, acts: seq<Act>, lenient: bool)
    requires Inv(s) && Exec(s, acts, lenient).Some?
    ensures Safe(Exec(s, acts, lenient).value)
    decreases |acts|
  {
    if acts != [] {
      var t := Next(s, acts[0], lenient);
      NextKeepsInv(s, acts[0], lenient);
      if t.alive {
        ExecSafe(t, acts[1..], lenient);
      }
    }
  }

  /** From the first start on, in every run of retentions, mounts that nydusd takes or not, unmounts,
      restarts and stops whose upgrades find the slot empty, the daemon is destroyed only when it serves
      nothing. */
  lemma {:induction false} RunsWithUpgradesAreSafe(shared: bool, acts: seq<Act>, lenient: bool)
    requires Exec(Start(shared), acts, lenient).Some?
    ensures Safe(Exec(Start(shared), acts, lenient).value)
  {
    ExecSafe(Start(shared), acts, lenient);
  }

  /** What a run may do next: upgrade with an empty slot, restart, stop, retain, unmount what is served, and
      mount what is new, through the slot if the daemon is shared. */
  ghost predicate Possible(s: Fleet, a: Act) {
    match a
    case Keep => s.shared
    case Mount(id, _) => id !in s.ever && |s.ever| < MAX_MOUNTS && (s.shared ==> s.slot.Some?)
    case Umount(id, ok) => id in s.served && ok
    case Upgrade => s.slot.None?
    case _ => true
  }

  lemma {:induction false} RunsGoOn(s: Fleet, a: Act, rest: seq<Act>, lenient: bool)
    requires Inv(s) && Possible(s, a)
    ensures Enabled(s, a, lenient) && Exec(s, [a] + rest, lenient) == Exec(Next(s, a, lenient), rest, lenient)
  {
    SubsetSize(s.served, s.ever);
    assert ([a] + rest)[1..] == rest;
  }

  /** When a step destroys the daemon, in terms of the snapshots alone: the last one of an unretained daemon
      is unmounted, or a retained one is stopped that has none. */
  lemma DestroyedIff(s: Fleet, a: Act, lenient: bool)
    requires Inv(s) && Enabled(s, a, lenient) && !(a.Upgrade? && s.slot.Some?)
    ensures !Next(s, a, lenient).alive <==>
            || (a.Umount? && a.ok && s.entries == {a.id} && s.slot.None?)
            || (a.Stop? && s.slot.Some? && s.entries == {})
  {
    if a.Umount? {
      assert |s.entries - {a.id}| == |s.entries| - 1;
      assert s.entries - {a.id} == {} <==> s.entries == {a.id};
    }
  }

  /** The last that happened to `id` is a mount that nydusd took. */
  ghost predicate StillMounted(acts: seq<Act>, id: string) {
    exists i :: 0 <= i < |acts| && acts[i] == Mount(id, true) && NoUmount(acts[i + 1..], id)
  }

  ghost predicate NoUmount(acts: seq<Act>, id: string) {
    forall i :: 0 <= i < |acts| ==> !(acts[i].Umount? && acts[i].id == id)
  }

  lemma ServedNext(s: Fleet, a: Act, lenient: bool, id: string)
    requires Inv(s) && Enabled(s, a, lenient)
    ensures id in Next(s, a, lenient).served <==>
            a == Mount(id, true) || (id in s.served && !(a.Umount? && a.id == id))
  {
  }

  lemma MountedSteps(acts: seq<Act>, id: string)
    requires acts != []
    ensures NoUmount(acts, id) <==> !(acts[0].Umount? && acts[0].id == id) && NoUmount(acts[1..], id)
    ensures StillMounted(acts, id) <==>
            (acts[0] == Mount(id, true) && NoUmount(acts[1..], id)) || StillMounted(acts[1..], id)
  {
    var rest := acts[1..];
    assert forall i :: 0 <= i < |rest| ==> rest[i] == acts[i + 1] && rest[i + 1..] == acts[i + 2..];
    if i :| 0 <= i < |acts| && acts[i] == Mount(id, true) && NoUmount(acts[i + 1..], id) {
      assert i > 0 ==> rest[i - 1] == Mount(id, true) && NoUmount(rest[i..], id);
    }
    if i :| 0 <= i < |rest| && rest[i] == Mount(id, true) && NoUmount(rest[i + 1..], id) {
      assert acts[i + 1] == Mount(id, true) && NoUmount(acts[i + 2..], id);
    }
  }

  /** What is served after such a run: what nydusd took and nobody has unmounted since, restarts and
      upgrades notwithstanding. */
  lemma {:induction false} ServedAfter(s: Fleet, acts: seq<Act>, lenient: bool, id: string)
    requires Inv(s) && Exec(s, acts, lenient).Some?
    ensures id in Exec(s, acts, lenient).value.served <==>
            StillMounted(acts, id) || (id in s.served && NoUmount(acts, id))
    decreases |acts|
  {
    if acts != [] {
      var t := Next(s, acts[0], lenient);
      NextKeepsInv(s, acts[0], lenient);
      ServedNext(s, acts[0], lenient, id);
      MountedSteps(acts, id);
      if t.alive {
        ServedAfter(t, acts[1..], lenient, id);
      }
    }
  }

  // ---- Upgrades of a retained daemon ----

  ghost predicate SafeForever(s: Fleet, lenient: bool) {
    forall acts: seq<Act> :: Exec(s, acts, lenient).Some? ==> Safe(Exec(s, acts, lenient).value)
  }

  /** An upgrade left the slot with an older object. */
  ghost predicate Stale(s: Fleet) {
    s.alive && s.shared && s.slot.Some? && s.slot.value < Serving(s)
  }

  /** Nothing is served, or one snapshot that only its own unmount can destroy the daemon of. */
  ghost predicate Harmless(s: Fleet, lenient: bool) {
    && Stale(s) && |s.ever| <= MAX_MOUNTS && s.served <= s.ever
    && (s.served == {}
        || (!lenient && |s.served| == 1 && 2 <= s.objs[s.slot.value].ref <= |s.ever| + 1))
  }

  lemma HarmlessStays(s: Fleet, a: Act, lenient: bool)
    requires Harmless(s, lenient) && Enabled(s, a, lenient) && !a.Upgrade?
    ensures var t := Next(s, a, lenient);
            Safe(t) && (t.alive ==> Harmless(t, lenient) || Inv(t))
  {
    match a
    case Mount(id, ok) => StaleMount(s, id, ok, lenient);
    case Umount(id, ok) => HarmlessUmount(s, id, ok, lenient);
    case Restart => HarmlessRestart(s, lenient);
    case _ =>
  }

  /** A mount through the old object leaves the manager's object and what is served alone. */
  lemma StaleMount(s: Fleet, id: string, ok: bool, lenient: bool)
    requires Stale(s) && Enabled(s, Mount(id, ok), lenient)
    ensures var t := Next(s, Mount(id, ok), lenient);
            && Stale(t) && t.slot == s.slot && |t.objs| == |s.objs| && t.objs[Serving(t)] == s.objs[Serving(s)]
            && t.objs[t.slot.value].ref == Inc(s.objs[s.slot.value].ref)
            && t.served == s.served && t.entries == s.entries + {id} && t.ever == s.ever + {id}
            && |t.ever| == |s.ever| + 1
  {
  }

  lemma HarmlessUmount(s: Fleet, id: string, ok: bool, lenient: bool)
    requires Harmless(s, lenient) && Enabled(s, Umount(id, ok), lenient)
    ensures var t := Next(s, Umount(id, ok), lenient);
            Safe(t) && (t.alive ==> Harmless(t, lenient))
  {
    if id in s.served {
      assert |s.served - {id}| == |s.served| - 1;
      assert s.served - {id} == {};
    } else {
      assert s.served - {id} == s.served;
    }
  }

  lemma HarmlessRestart(s: Fleet, lenient: bool)
    requires Harmless(s, lenient) && Enabled(s, Restart, lenient)
    ensures Inv(Next(s, Restart, lenient))
  {
    SubsetSize(s.served, s.ever);
  }

  lemma {:induction false} HarmlessSafe(s: Fleet, acts: seq<Act>, lenient: bool)
    requires Harmless(s, lenient) && Exec(s, acts, lenient).Some?
    ensures Safe(Exec(s, acts, lenient).value)
    decreases |acts|
  {
    if acts != [] {
      var t := Next(s, acts[0], lenient);
      HarmlessStays(s, acts[0], lenient);
      if t.alive {
        if Harmless(t, lenient) {
          HarmlessSafe(t, acts[1..], lenient);
        } else {
          ExecSafe(t, acts[1..], lenient);
        }
      }
    }
  }

  /** After an upgrade every run is safe exactly when the slot was empty or the daemon served nothing; and,
      if nydusd refuses to unmount what it does not serve, also when it served one snapshot. */
  lemma UpgradeSafeIff(s: Fleet, lenient: bool)
    requires Inv(s) && |s.ever| + 2 <= MAX_MOUNTS
    ensures SafeForever(Next(s, Upgrade, lenient), lenient) <==>
            s.slot.None? || s.served == {} || (!lenient && |s.served| == 1)
  {
    var t := Next(s, Upgrade, lenient);
    if s.slot.None? {
      NextKeepsInv(s, Upgrade, lenient);
      forall acts: seq<Act> | Exec(t, acts, lenient).Some? ensures Safe(Exec(t, acts, lenient).value) {
        ExecSafe(t, acts, lenient);
      }
    } else if s.served == {} || (!lenient && |s.served| == 1) {
      SubsetSize(s.served, s.entries);
      forall acts: seq<Act> | Exec(t, acts, lenient).Some? ensures Safe(Exec(t, acts, lenient).value) {
        HarmlessSafe(t, acts, lenient);
      }
    } else {
      var acts := KillingRun(t, lenient);
    }
  }

  /** What the upgrade of a retained daemon leaves: the clone has one reference too many. */
  ghost predicate Leaky(s: Fleet) {
    && Stale(s) && s.served <= s.entries <= s.ever && |s.ever| + 2 <= MAX_MOUNTS && |s.entries| <= |s.ever|
    && s.objs[Serving(s)].ref == |s.entries| + 1
  }

  lemma {:induction false} Then(s: Fleet, a: Act, rest: seq<Act>, lenient: bool)
    requires Enabled(s, a, lenient) && !a.Upgrade?
    ensures Exec(s, [a] + rest, lenient) == Exec(Next(s, a, lenient), rest, lenient)
  {
    assert ([a] + rest)[1..] == rest;
  }

  lemma {:induction false} ExecAppend(s: Fleet, a: seq<Act>, b: seq<Act>, lenient: bool)
    requires Exec(s, a, lenient).Some?
    ensures Exec(s, a + b, lenient) == Exec(Exec(s, a, lenient).value, b, lenient)
    decreases |a|
  {
    if a == [] {
      assert a + b == b;
    } else {
      assert (a + b)[1..] == a[1..] + b;
      ExecAppend(Next(s, a[0], lenient), a[1..], b, lenient);
    }
  }

  /** Everything but the served snapshots `keep` can be unmounted. */
  lemma {:induction false} UmountDownTo(s: Fleet, keep: set<string>, lenient: bool) returns (acts: seq<Act>)
    requires Leaky(s) && keep != {} && keep <= s.served
    ensures Exec(s, acts, lenient).Some?
    ensures var t := Exec(s, acts, lenient).value;
            Leaky(t) && t.served == t.entries == keep && t.ever == s.ever
    decreases |s.entries|
  {
    if s.entries == keep {
      acts := [];
    } else {
      assert exists id :: id in s.entries && id !in keep by {
        assert !(s.entries <= keep);
      }
      var id :| id in s.entries && id !in keep;
      var a := Umount(id, id in s.served);
      var t := Next(s, a, lenient);
      assert |s.entries - {id}| == |s.entries| - 1;
      assert |s.entries - {id}| > 0;
      var rest := UmountDownTo(t, keep, lenient);
      acts := [a] + rest;
      Then(s, a, rest, lenient);
    }
  }

  lemma {:induction false} FreshId(used: set<string>) returns (id: string)
    ensures forall x :: x in used ==> |x| < |id|
    decreases |used|
  {
    if used == {} {
      id := "";
    } else {
      var x :| x in used;
      var other := FreshId(used - {x});
      id := if |x| < |other| then other else x + "+";
      assert forall y :: y in used ==> y == x || y in used - {x};
    }
  }

  /** The unmount of what is not served takes a reference of the manager's object all the same. */
  lemma StaleUmount(s: Fleet, id: string, ok: bool, lenient: bool)
    requires Stale(s) && Enabled(s, Umount(id, ok), lenient) && id !in s.served
    ensures var t := Next(s, Umount(id, ok), lenient);
            && t.slot == s.slot && |t.objs| == |s.objs| && t.objs[Serving(t)].ref == Dec(s.objs[Serving(s)].ref)
            && t.served == s.served && t.entries == s.entries - {id} && t.ever == s.ever && t.shared == s.shared
            && t.alive == !(ok && t.objs[Serving(t)].ref == 0)
  {
  }

  lemma {:induction false} MountTwo(s: Fleet, f: string, g: string, lenient: bool) returns (acts: seq<Act>)
    requires Stale(s) && f !in s.ever && g !in s.ever && f != g && |s.ever| + 2 <= MAX_MOUNTS
    ensures Exec(s, acts, lenient).Some?
    ensures var t := Exec(s, acts, lenient).value;
            && Stale(t) && t.slot == s.slot && |t.objs| == |s.objs| && t.objs[Serving(t)] == s.objs[Serving(s)]
            && t.served == s.served && t.entries == s.entries + {f, g}
  {
    StaleMount(s, f, true, lenient);
    var s1 := Next(s, Mount(f, true), lenient);
    StaleMount(s1, g, true, lenient);
    Then(s1, Mount(g, true), [], lenient);
    Then(s, Mount(f, true), [Mount(g, true)] + [], lenient);
    acts := [Mount(f, true)] + ([Mount(g, true)] + []);
  }

  lemma {:induction false} UmountTwo(s: Fleet, f: string, g: string, lenient: bool, ok: bool) returns (acts: seq<Act>)
    requires Stale(s) && {f, g} <= s.entries && f != g && f !in s.served && g !in s.served
    requires (ok ==> lenient) && 2 <= s.objs[Serving(s)].ref
    ensures Exec(s, acts, lenient).Some?
    ensures var t := Exec(s, acts, lenient).value;
            && t.served == s.served && t.entries == s.entries - {f, g} && t.slot == s.slot && |t.objs| == |s.objs|
            && t.objs[Serving(t)].ref == s.objs[Serving(s)].ref - 2
            && t.alive == !(ok && t.objs[Serving(t)].ref == 0)
  {
    StaleUmount(s, f, ok, lenient);
    var s1 := Next(s, Umount(f, ok), lenient);
    StaleUmount(s1, g, ok, lenient);
    Then(s1, Umount(g, ok), [], lenient);
    Then(s, Umount(f, ok), [Umount(g, ok)] + [], lenient);
    acts := [Umount(f, ok)] + ([Umount(g, ok)] + []);
  }

  /** Two mounts through the old object are counted there and unmounted from the clone, which loses two
      references of snapshots it serves. */
  lemma {:induction false} TakeTwo(s: Fleet, lenient: bool, ok: bool) returns (acts: seq<Act>)
    requires Leaky(s) && s.served == s.entries && |s.entries| >= 1 && (ok ==> lenient)
    ensures Exec(s, acts, lenient).Some?
    ensures var t := Exec(s, acts, lenient).value;
            && t.served == t.entries == s.served && t.slot == s.slot && |t.objs| == |s.objs|
            && t.objs[Serving(t)].ref == |s.entries| - 1
            && t.alive == !(ok && |s.entries| == 1)
  {
    var f := FreshId(s.ever);
    var g := FreshId(s.ever + {f});
    assert f !in s.ever && g !in s.ever && g != f;
    var mounts := MountTwo(s, f, g, lenient);
    var m := Exec(s, mounts, lenient).value;
    var umounts := UmountTwo(m, f, g, lenient, ok);
    ExecAppend(s, mounts, umounts, lenient);
    acts := mounts + umounts;
    assert s.entries + {f, g} - {f, g} == s.entries;
  }

  /** A run that destroys the daemon while it serves a snapshot mounted before the upgrade. */
  lemma {:induction false} KillingRun(s: Fleet, lenient: bool) returns (acts: seq<Act>)
    requires Leaky(s) && s.served != {} && (lenient || |s.served| > 1)
    ensures Exec(s, acts, lenient).Some? && !Safe(Exec(s, acts, lenient).value)
  {
    var y :| y in s.served;
    if lenient {
      var down := UmountDownTo(s, {y}, lenient);
      var t := Exec(s, down, lenient).value;
      var two := TakeTwo(t, lenient, true);
      ExecAppend(s, down, two, lenient);
      acts := down + two;
    } else {
      var x := AnotherOne(s.served, y);
      var down := UmountDownTo(s, {x, y}, lenient);
      var t := Exec(s, down, lenient).value;
      var two := TakeTwo(t, lenient, false);
      ExecAppend(s, down, two, lenient);
      var u := Exec(t, two, lenient).value;
      assert |{x, y}| == 2;
      Then(u, Umount(x, true), [], lenient);
      ExecAppend(s, down + two, [Umount(x, true)] + [], lenient);
      acts := down + two + ([Umount(x, true)] + []);
      assert y in Exec(s, acts, lenient).value.served;
    }
  }

  lemma AnotherOne(s: set<string>, y: string) returns (x: string)
    requires y in s && |s| > 1
    ensures x in s && x != y
  {
    assert |s - {y}| == |s| - 1;
    x :| x in s - {y};
  }
}
