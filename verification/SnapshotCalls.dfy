/** What the calls of the snapshot directory protocol achieve: their effect on the rows and the counter in
    every interleaving, and on the directories when nobody else is at work (snapshot/snapshot.go). */
module SnapshotCalls {
  import opened Base
  import opened Snapshots

  // ---- Transactions are isolated ----

  datatype Kind = Creating | Removing | Cleaning | Outside

  /** Which transaction a thread is in. */
  function KindOf(th: Thread): Kind {
    match th
    case Idle => Outside
    case Deleting(_) => Outside
    case CleanupBegun => Cleaning
    case CleanupScanned(_) => Cleaning
    case RemoveBegun(_) => Removing
    case RemoveDropped(_) => Removing
    case RemoveScanned(_, _) => Removing
    case _ => Creating
  }

  function KeyOf(th: Thread): Option<Key> {
    if KindOf(th) == Creating || KindOf(th) == Removing then Some(th.key) else None
  }

  /** The steps that end a transaction. */
  predicate Ends(a: Action) {
    || a.CommitCreate? || a.AbortCreate? || a.AbortLeavingTemp? || a.AbortForRecovery?
    || a.CommitRemove? || a.EndScan? || a.Rollback?
  }

  /** While `t` holds the transaction, no other thread changes rows, counter or `t`. */
  lemma OthersWait(s: State, t: nat, u: nat, a: Action)
    requires Inv(s) && s.writer == Some(t) && u != t && Step(s, u, a).Some?
    ensures var r := Step(s, u, a).value;
            r.rows == s.rows && r.next == s.next && r.writer == s.writer && At(r, t) == At(s, t)
  {
    assert ThreadInv(s, u);
  }

  /** Nor does `t` itself, until it ends the transaction. */
  lemma OwnStep(s: State, t: nat, a: Action)
    requires s.writer == Some(t) && KindOf(At(s, t)) != Outside && Step(s, t, a).Some? && !Ends(a)
    ensures var r := Step(s, t, a).value;
            && r.rows == s.rows && r.next == s.next && r.writer == s.writer
            && KindOf(At(r, t)) == KindOf(At(s, t)) && KeyOf(At(r, t)) == KeyOf(At(s, t))
  {
  }

  ghost predicate Steady(run: Run, t: nat) {
    forall i :: 0 <= i < |run| && run[i].0 == t ==> !Ends(run[i].1)
  }

  lemma {:induction false} Isolated(s: State, run: Run, t: nat)
    requires Inv(s) && s.writer == Some(t) && KindOf(At(s, t)) != Outside && Steady(run, t) && Exec(s, run).Some?
    ensures var r := Exec(s, run).value;
            && Inv(r) && r.rows == s.rows && r.next == s.next && r.writer == s.writer
            && KindOf(At(r, t)) == KindOf(At(s, t)) && KeyOf(At(r, t)) == KeyOf(At(s, t))
    decreases |run|
  {
    if run != [] {
      var (u, a) := run[0];
      StepKeepsInv(s, u, a);
      if u == t { OwnStep(s, t, a); } else { OthersWait(s, t, u, a); }
      Isolated(Step(s, u, a).value, run[1..], t);
    }
  }

  // ---- The effect of a call in every interleaving ----

  /** A call of `t` from its first to its last step, with whatever other threads do in between. */
  ghost function Call(t: nat, first: Action, mid: Run, last: Action): Run {
    [(t, first)] + (mid + [(t, last)])
  }

  /** The state in which the last step is taken. */
  lemma {:induction false} BeforeLast(s: State, t: nat, first: Action, mid: Run, last: Action) returns (m: State)
    requires Inv(s) && (first.BeginCreate? || first.BeginRemove? || first.BeginCleanup?) && Steady(mid, t)
    requires Exec(s, Call(t, first, mid, last)).Some?
    ensures Inv(m) && m.rows == s.rows && m.next == s.next && m.writer == Some(t)
    ensures Step(m, t, last).Some? && Exec(s, Call(t, first, mid, last)) == Step(m, t, last)
    ensures KindOf(At(m, t))
         == if first.BeginCreate? then Creating else if first.BeginRemove? then Removing else Cleaning
    ensures !first.BeginCleanup? ==> KeyOf(At(m, t)) == Some(first.key)
  {
    var run := Call(t, first, mid, last);
    var s1 := Step(s, t, first).value;
    assert run[1..] == mid + [(t, last)];
    StepKeepsInv(s, t, first);
    if Exec(s1, mid).None? {
      StuckStays(s1, mid, [(t, last)]);
    }
    ExecAppend(s1, mid, [(t, last)]);
    Isolated(s1, mid, t);
    m := Exec(s1, mid).value;
    assert [(t, last)][1..] == [];
  }

  lemma {:induction false} StuckStays(s: State, a: Run, b: Run)
    requires Exec(s, a).None?
    ensures Exec(s, a + b).None?
    decreases |a|
  {
    assert (a + b)[0] == a[0] && (a + b)[1..] == a[1..] + b;
    if Step(s, a[0].0, a[0].1).Some? {
      StuckStays(Step(s, a[0].0, a[0].1).value, a[1..], b);
    }
  }

  /** A Remove that commits has removed its key and nothing else. */
  lemma {:induction false} RemoveRemoves(s: State, t: nat, key: Key, mid: Run)
    requires Inv(s) && Steady(mid, t) && Exec(s, Call(t, BeginRemove(key), mid, CommitRemove)).Some?
    ensures var r := Exec(s, Call(t, BeginRemove(key), mid, CommitRemove)).value;
            key in s.rows && r.rows == s.rows - {key} && r.next == s.next && r.writer.None?
  {
    var m := BeforeLast(s, t, BeginRemove(key), mid, CommitRemove);
    assert ThreadInv(m, t);
  }

  /** A Create that commits has added its key, under the number the counter stood at, and nothing else; the
      directory is there. */
  lemma {:induction false} CreateCreates(s: State, t: nat, key: Key, mid: Run)
    requires Inv(s) && Steady(mid, t) && Exec(s, Call(t, BeginCreate(key), mid, CommitCreate)).Some?
    ensures var r := Exec(s, Call(t, BeginCreate(key), mid, CommitCreate)).value;
            && key !in s.rows && r.rows == s.rows[key := s.next] && r.next == s.next + 1 && r.writer.None?
            && Snap(s.next) in r.dirs
  {
    var m := BeforeLast(s, t, BeginCreate(key), mid, CommitCreate);
    assert ThreadInv(m, t);
  }

  /** A call that ends otherwise has changed neither rows nor counter. */
  lemma {:induction false} OtherEndsChangeNothing(s: State, t: nat, first: Action, mid: Run, last: Action)
    requires Inv(s) && (first.BeginCreate? || first.BeginRemove? || first.BeginCleanup?) && Steady(mid, t)
    requires Ends(last) && !last.CommitCreate? && !last.CommitRemove?
    requires Exec(s, Call(t, first, mid, last)).Some?
    ensures var r := Exec(s, Call(t, first, mid, last)).value;
            r.rows == s.rows && r.next == s.next && r.writer.None?
  {
    var m := BeforeLast(s, t, first, mid, last);
  }

  /** Commit gives the snapshot its new key: the ID stays, the old key goes, all else is as before. */
  lemma CommitRenames(s: State, t: nat, key: Key, name: Key)
    ensures Step(s, t, CommitSnapshot(key, name)).Some? <==>
            At(s, t).Idle? && s.writer.None? && key in s.rows && name !in s.rows
    ensures Step(s, t, CommitSnapshot(key, name)).Some? ==>
              var r := Step(s, t, CommitSnapshot(key, name)).value;
              && name in r.rows && r.rows[name] == s.rows[key] && key !in r.rows
              && (forall k :: k != key && k != name ==>
                    (k in r.rows <==> k in s.rows) && (k in s.rows ==> r.rows[k] == s.rows[k]))
              && r.dirs == s.dirs && r.next == s.next && r.writer.None?
  {
  }

  /** Whoever holds the transaction can give up at any point, which ends it. */
  lemma CanGiveUp(s: State, t: nat, tried: bool)
    ensures KindOf(At(s, t)) == Creating <==> Step(s, t, AbortCreate(tried)).Some?
    ensures KindOf(At(s, t)) == Removing || KindOf(At(s, t)) == Cleaning <==> Step(s, t, Rollback).Some?
    ensures forall a :: (a == AbortCreate(tried) || a == Rollback) && Step(s, t, a).Some? ==>
              var r := Step(s, t, a).value;
              At(r, t).Idle? && r.writer.None? && r.rows == s.rows && r.next == s.next
  {
  }

  /** A deletion list is gone through to its end, and only then the call returns. */
  lemma CanGoOn(s: State, t: nat, ok: bool)
    ensures Step(s, t, DeleteNext(ok)).Some? <==> At(s, t).Deleting? && At(s, t).removals != []
    ensures Step(s, t, Return).Some? <==> At(s, t) == Deleting([])
  {
  }

  /** The rename of a Create needs its source and a free target; in the states of a safe store it has both. */
  lemma RenamePossible(s: State, t: nat)
    requires At(s, t).CreateAllocated?
    ensures Step(s, t, Rename).Some? <==> Temp(At(s, t).td) in s.dirs && Snap(At(s, t).id) !in s.dirs
    ensures Inv(s) ==> Step(s, t, Rename).Some?
  {
    if Inv(s) {
      assert ThreadInv(s, t);
    }
  }

  // ---- The effect of a call that nobody disturbs ----

  ghost predicate Alone(run: Run, t: nat) {
    forall i :: 0 <= i < |run| ==> run[i].0 == t
  }

  lemma {:induction false} Then(s: State, t: nat, a: Action, rest: Run)
    requires Step(s, t, a).Some?
    ensures Exec(s, [(t, a)] + rest) == Exec(Step(s, t, a).value, rest)
  {
    assert ([(t, a)] + rest)[1..] == rest;
  }

  /** An asynchronous Remove: the row goes, the directory waits for the next Cleanup. */
  lemma {:induction false} RemoveLater(s: State, t: nat, key: Key) returns (run: Run)
    requires s.writer.None? && At(s, t).Idle? && key in s.rows
    ensures Alone(run, t) && Exec(s, run).Some?
    ensures var r := Exec(s, run).value;
            r.rows == s.rows - {key} && r.dirs == s.dirs && r.next == s.next && r.writer.None? && At(r, t).Idle?
  {
    run := [(t, BeginRemove(key)), (t, DropRow), (t, CommitRemove)];
    var s1 := Move(s, t, RemoveBegun(key)).(writer := Some(t));
    var s2 := Move(s1, t, RemoveDropped(key));
    var s3 := Release(s2, t, Idle).(rows := s.rows - {key});
    ExecThree(s, run, s1, s2, s3);
  }

  /** The state and the run up to the scan of a synchronous Remove. */
  lemma {:induction false} RemoveScan(s: State, t: nat, key: Key, listing: seq<Name>) returns (run: Run, m: State)
    requires s.writer.None? && At(s, t).Idle? && key in s.rows && Lists(listing, s.dirs)
    ensures Alone(run, t) && Exec(s, run) == Some(m)
    ensures At(m, t) == RemoveScanned(key, Orphans(listing, LiveNames(s.rows, {key})))
    ensures m.rows == s.rows && m.dirs == s.dirs && m.next == s.next
  {
    run := [(t, BeginRemove(key)), (t, DropRow), (t, ScanForRemove(listing))];
    var s1 := Move(s, t, RemoveBegun(key)).(writer := Some(t));
    var s2 := Move(s1, t, RemoveDropped(key));
    m := Move(s2, t, RemoveScanned(key, Orphans(listing, LiveNames(s.rows, {key}))));
    ExecThree(s, run, s1, s2, m);
  }

  /** Deleting what is on the list, and returning. */
  lemma {:induction false} DeleteAndReturn(s: State, t: nat, removals: seq<Name>) returns (run: Run)
    requires At(s, t) == Deleting(removals)
    ensures Alone(run, t) && Exec(s, run) == Some(Move(s, t, Idle).(dirs := s.dirs - set n | n in removals))
  {
    var delete := DeleteAll(s, t, removals);
    var d := Exec(s, delete).value;
    Then(d, t, Return, []);
    ExecAppend(s, delete, [(t, Return)] + []);
    run := delete + ([(t, Return)] + []);
    assert s.threads[t := Deleting([])][t := Idle] == s.threads[t := Idle];
  }

  /** `n` is on the list and its deletion succeeds. */
  ghost predicate Deleted(removals: seq<Name>, ok: seq<bool>, n: Name) {
    exists i :: 0 <= i < |removals| && i < |ok| && removals[i] == n && ok[i]
  }

  lemma DeletedFirst(removals: seq<Name>, ok: seq<bool>, n: Name)
    requires removals != [] && |ok| == |removals|
    ensures Deleted(removals, ok, n) <==> (ok[0] && removals[0] == n) || Deleted(removals[1..], ok[1..], n)
  {
    if i :| 0 <= i < |removals| && removals[i] == n && ok[i] {
      assert i > 0 ==> removals[1..][i - 1] == n && ok[1..][i - 1];
    }
    if i :| 0 <= i < |removals[1..]| && removals[1..][i] == n && ok[1..][i] {
      assert removals[i + 1] == n && ok[i + 1];
    }
  }

  /** Deletions may fail one by one: exactly those that succeed take their directory. */
  lemma {:induction false} DeleteSome(s: State, t: nat, removals: seq<Name>, ok: seq<bool>) returns (run: Run)
    requires At(s, t) == Deleting(removals) && |ok| == |removals|
    ensures Alone(run, t) && Exec(s, run).Some?
    ensures var r := Exec(s, run).value;
            && r.rows == s.rows && r.next == s.next && At(r, t).Idle?
            && forall n :: n in r.dirs <==> n in s.dirs && !Deleted(removals, ok, n)
    decreases |removals|
  {
    if removals == [] {
      run := [(t, Return)] + [];
      Then(s, t, Return, []);
    } else {
      var m := Step(s, t, DeleteNext(ok[0])).value;
      var rest := DeleteSome(m, t, removals[1..], ok[1..]);
      Then(s, t, DeleteNext(ok[0]), rest);
      run := [(t, DeleteNext(ok[0]))] + rest;
      forall n ensures n in Exec(s, run).value.dirs <==> n in s.dirs && !Deleted(removals, ok, n) {
        DeletedFirst(removals, ok, n);
      }
    }
  }

  lemma CommitScanned(m: State, t: nat, key: Key, found: seq<Name>)
    requires At(m, t) == RemoveScanned(key, found)
    ensures Step(m, t, CommitRemove) == Some(Release(m, t, Deleting(found)).(rows := m.rows - {key}))
  {
  }

  /** A synchronous Remove whose deletions succeed: exactly the directories of the other rows are left. */
  lemma {:induction false} RemoveNow(s: State, t: nat, key: Key, listing: seq<Name>) returns (run: Run)
    requires Quiescent(s) && key in s.rows && Lists(listing, s.dirs)
    ensures Alone(run, t) && Exec(s, run).Some?
    ensures var r := Exec(s, run).value;
            && r.rows == s.rows - {key} && r.dirs == LiveNames(s.rows - {key}, {}) && r.next == s.next
            && r.writer.None? && At(r, t).Idle?
  {
    var found := Orphans(listing, LiveNames(s.rows, {key}));
    var scan, m := RemoveScan(s, t, key, listing);
    CommitScanned(m, t, key, found);
    var c := Release(m, t, Deleting(found)).(rows := s.rows - {key});
    var rest := DeleteAndReturn(c, t, found);
    Then(m, t, CommitRemove, rest);
    ExecAppend(s, scan, [(t, CommitRemove)] + rest);
    run := scan + ([(t, CommitRemove)] + rest);
    OthersLeft(s, key, listing, found);
  }

  lemma OthersLeft(s: State, key: Key, listing: seq<Name>, found: seq<Name>)
    requires RowsKept(s) && Lists(listing, s.dirs) && found == Orphans(listing, LiveNames(s.rows, {key}))
    ensures s.dirs - (set n | n in found) == LiveNames(s.rows - {key}, {})
  {
    assert LiveNames(s.rows, {key}) == LiveNames(s.rows - {key}, {});
  }

  /** A Remove or Cleanup has touched no directory before it ends its transaction. */
  lemma {:induction false} ScansTouchNothing(s: State, run: Run, t: nat)
    requires Inv(s) && s.writer == Some(t) && (KindOf(At(s, t)) == Removing || KindOf(At(s, t)) == Cleaning)
    requires Steady(run, t) && Alone(run, t) && Exec(s, run).Some?
    ensures Exec(s, run).value.dirs == s.dirs
    decreases |run|
  {
    if run != [] {
      StepKeepsInv(s, t, run[0].1);
      OwnStep(s, t, run[0].1);
      ScansTouchNothing(Step(s, t, run[0].1).value, run[1..], t);
    }
  }

  /** A Remove given up at any point leaves rows, counter and directories as they were. */
  lemma {:induction false} RemoveGivenUp(s: State, t: nat, key: Key, mid: Run)
    requires Inv(s) && Steady(mid, t) && Alone(mid, t)
    requires Exec(s, Call(t, BeginRemove(key), mid, Rollback)).Some?
    ensures var r := Exec(s, Call(t, BeginRemove(key), mid, Rollback)).value;
            r.rows == s.rows && r.next == s.next && r.dirs == s.dirs && At(r, t).Idle?
  {
    var run := Call(t, BeginRemove(key), mid, Rollback);
    var s1 := Step(s, t, BeginRemove(key)).value;
    var m := BeforeLast(s, t, BeginRemove(key), mid, Rollback);
    StepKeepsInv(s, t, BeginRemove(key));
    assert run[1..] == mid + [(t, Rollback)];
    if Exec(s1, mid).None? {
      StuckStays(s1, mid, [(t, Rollback)]);
    }
    ExecAppend(s1, mid, [(t, Rollback)]);
    ScansTouchNothing(s1, mid, t);
    assert [(t, Rollback)][1..] == [];
  }

  // ---- Create ----

  /** How far a Create has come. */
  ghost function Stage(s: State, t: nat, key: Key, tag: nat, k: nat): State {
    if k == 0 then Move(s, t, CreateBegun(key)).(writer := Some(t))
    else if k == 1 then
      Move(s, t, CreatePrepared(key, tag)).(writer := Some(t), dirs := s.dirs + {Temp(tag)}, temps := s.temps + {tag})
    else if k == 2 then
      Move(s, t, CreateAllocated(key, tag, s.next))
      .(writer := Some(t), dirs := s.dirs + {Temp(tag)}, temps := s.temps + {tag})
    else
      Move(s, t, CreateRenamed(key, s.next))
      .(writer := Some(t), dirs := s.dirs + {Snap(s.next)}, temps := s.temps + {tag})
  }

  ghost function StageAction(tag: nat, k: nat): Action {
    if k == 1 then Prepare(tag) else if k == 2 then Allocate else Rename
  }

  /** Nothing is in the way of a Create. */
  ghost predicate Clear(s: State, t: nat, key: Key, tag: nat) {
    && s.writer.None? && At(s, t).Idle? && key !in s.rows && tag !in s.temps
    && Temp(tag) !in s.dirs
  }

  lemma StageStep(s: State, t: nat, key: Key, tag: nat, k: nat)
    requires Clear(s, t, key, tag) && 1 <= k <= 3 && (k == 3 ==> Snap(s.next) !in s.dirs)
    ensures Step(Stage(s, t, key, tag, k - 1), t, StageAction(tag, k)) == Some(Stage(s, t, key, tag, k))
  {
    var from, to := Stage(s, t, key, tag, k - 1), Stage(s, t, key, tag, k);
    assert from.threads[t := to.threads[t]] == to.threads;
    if k == 3 {
      assert s.dirs + {Temp(tag)} - {Temp(tag)} + {Snap(s.next)} == s.dirs + {Snap(s.next)};
    }
  }

  lemma {:induction false} CreateUntil(s: State, t: nat, key: Key, tag: nat, k: nat) returns (run: Run)
    requires Clear(s, t, key, tag) && k <= 3 && (k == 3 ==> Snap(s.next) !in s.dirs)
    ensures Alone(run, t) && Exec(s, run) == Some(Stage(s, t, key, tag, k))
  {
    if k == 0 {
      run := [(t, BeginCreate(key))] + [];
      Then(s, t, BeginCreate(key), []);
    } else {
      var before := CreateUntil(s, t, key, tag, k - 1);
      StageStep(s, t, key, tag, k);
      Then(Stage(s, t, key, tag, k - 1), t, StageAction(tag, k), []);
      ExecAppend(s, before, [(t, StageAction(tag, k))] + []);
      run := before + ([(t, StageAction(tag, k))] + []);
    }
  }

  /** An undisturbed Create goes through: a new row, the next number, and its directory as the only new one. */
  lemma {:induction false} CreateAlone(s: State, t: nat, key: Key, tag: nat) returns (run: Run)
    requires Clear(s, t, key, tag) && Snap(s.next) !in s.dirs
    ensures Alone(run, t) && Exec(s, run).Some?
    ensures var r := Exec(s, run).value;
            && r.rows == s.rows[key := s.next] && r.next == s.next + 1 && r.dirs == s.dirs + {Snap(s.next)}
            && r.writer.None? && At(r, t).Idle?
  {
    var before := CreateUntil(s, t, key, tag, 3);
    Then(Stage(s, t, key, tag, 3), t, CommitCreate, []);
    ExecAppend(s, before, [(t, CommitCreate)] + []);
    run := before + ([(t, CommitCreate)] + []);
  }

  /** A Create that fails at any stage leaves rows, counter and directories as they were, except that a
      rename that is refused takes the directory that was in its way along. */
  lemma {:induction false} CreateGivenUp(s: State, t: nat, key: Key, tag: nat, k: nat, tried: bool) returns (run: Run)
    requires Clear(s, t, key, tag) && k <= 3 && (k == 3 ==> Snap(s.next) !in s.dirs)
    ensures Alone(run, t) && Exec(s, run).Some?
    ensures var r := Exec(s, run).value;
            && r.rows == s.rows && r.next == s.next && r.writer.None? && At(r, t).Idle?
            && r.dirs == if k == 2 && tried then s.dirs - {Snap(s.next)} else s.dirs
  {
    var before := CreateUntil(s, t, key, tag, k);
    var m := Stage(s, t, key, tag, k);
    assert Step(m, t, AbortCreate(tried)).Some?;
    assert Step(m, t, AbortCreate(tried)).value.dirs == if k == 2 && tried then s.dirs - {Snap(s.next)} else s.dirs;
    Then(m, t, AbortCreate(tried), []);
    ExecAppend(s, before, [(t, AbortCreate(tried))] + []);
    run := before + ([(t, AbortCreate(tried))] + []);
  }

  /** The placeholder whose rename fails leaves its temporary directory behind, for the next Cleanup. */
  lemma {:induction false} PlaceholderGivenUp(s: State, t: nat, key: Key, tag: nat) returns (run: Run)
    requires Clear(s, t, key, tag)
    ensures Alone(run, t) && Exec(s, run).Some?
    ensures var r := Exec(s, run).value;
            r.rows == s.rows && r.next == s.next && r.dirs == s.dirs + {Temp(tag)} && At(r, t).Idle?
  {
    var before := CreateUntil(s, t, key, tag, 2);
    Then(Stage(s, t, key, tag, 2), t, AbortLeavingTemp, []);
    ExecAppend(s, before, [(t, AbortLeavingTemp)] + []);
    run := before + ([(t, AbortLeavingTemp)] + []);
  }

  /** A Create that stops to recover its parent removes its temporary directory after the rollback. */
  lemma {:induction false} CreateRecovers(s: State, t: nat, key: Key, tag: nat) returns (run: Run)
    requires Clear(s, t, key, tag)
    ensures Alone(run, t) && Exec(s, run).Some?
    ensures var r := Exec(s, run).value;
            r.rows == s.rows && r.next == s.next && r.dirs == s.dirs && r.writer.None? && At(r, t).Idle?
  {
    var before := CreateUntil(s, t, key, tag, 1);
    var m := Stage(s, t, key, tag, 1);
    RecoveryStep(m, t, key, tag);
    var a := Release(m, t, Deleting([Temp(tag)]));
    var rest := DeleteAndReturn(a, t, [Temp(tag)]);
    Then(m, t, AbortForRecovery, rest);
    ExecAppend(s, before, [(t, AbortForRecovery)] + rest);
    run := before + ([(t, AbortForRecovery)] + rest);
    assert s.dirs + {Temp(tag)} - (set n | n in [Temp(tag)]) == s.dirs;
  }

  lemma RecoveryStep(m: State, t: nat, key: Key, tag: nat)
    requires At(m, t) == CreatePrepared(key, tag)
    ensures Step(m, t, AbortForRecovery) == Some(Release(m, t, Deleting([Temp(tag)])))
  {
  }
}
