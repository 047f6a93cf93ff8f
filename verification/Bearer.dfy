/** Bearer tokens (doBearerAuth in pkg/remote/remotes/docker/authorizer.go): one fetch for each set of
    scopes, shared by every caller, as a machine whose steps are the critical section of a caller, the
    completion of a fetch and the return of a waiter. */
module Bearer {
  import opened Base

  /** What one token request ends with. */
  datatype Fetch = Token(token: string, refresh: string) | Status(code: int) | Broken

  datatype Failure = NoFailure | OauthFailed | AnonymousFailed

  /** What every caller returns. */
  datatype Answer = Answer(token: string, refresh: string, err: Failure)

  const PREFIX := "Bearer "

  /** With a secret the POST endpoint is asked first, and the GET endpoint after the statuses with which
      registries refuse POST; without one only GET is asked. */
  function Fetched(secret: string, username: string, post: Fetch, get: Fetch): Answer {
    if secret != "" then
      match post
      case Token(t, r) => Answer(PREFIX + t, r, NoFailure)
      case Broken => Answer(PREFIX, "", OauthFailed)
      case Status(code) =>
        if (code == 405 && username != "") || code == 404 || code == 401 || code == 400
        then Outcome(get, OauthFailed)
        else Answer(PREFIX, "", OauthFailed)
    else Outcome(get, AnonymousFailed)
  }

  function Outcome(get: Fetch, failure: Failure): Answer {
    if get.Token? then Answer(PREFIX + get.token, get.refresh, NoFailure) else Answer(PREFIX, "", failure)
  }

  /** The GET endpoint decides: there is no secret, or the registry refuses POST. */
  predicate AsksGet(secret: string, username: string, post: Fetch) {
    secret == "" || (post.Status? && (post.code in {400, 401, 404} || (post.code == 405 && username != "")))
  }

  /** The answer has the token of the deciding endpoint; a failure has the bare prefix. */
  ghost predicate GivenBy(answer: Answer, secret: string, username: string, post: Fetch, get: Fetch) {
    var deciding := if AsksGet(secret, username, post) then get else post;
    && (answer.err == NoFailure <==> deciding.Token?)
    && (deciding.Token? ==> answer.token == PREFIX + deciding.token && answer.refresh == deciding.refresh)
    && (!deciding.Token? ==> answer.token == PREFIX && answer.refresh == "")
    && (!deciding.Token? ==> (answer.err == AnonymousFailed <==> secret == ""))
  }

  lemma AnswerIsFetched(secret: string, username: string, post: Fetch, get: Fetch)
    ensures GivenBy(Fetched(secret, username, post, get), secret, username, post, get)
  {
  }

  /** A caller, from its entry with the key of its scopes. */
  datatype Caller =
    | Fetching(key: string, slot: nat)
    | Waiting(key: string, slot: nat)
    | Done(key: string, answer: Answer)

  /** `slots` maps a key to its authResult; `fetched` is the key each result was made for, in the order of
      the fetches started; `results` holds what was published. */
  datatype State = State(slots: map<string, nat>, fetched: seq<string>, results: seq<Option<Answer>>,
                         callers: map<nat, Caller>)

  const INIT := State(map[], [], [], map[])

  datatype Action =
    | Enter(id: nat, key: string)
    | Publish(id: nat, secret: string, username: string, post: Fetch, get: Fetch)
    | Wake(id: nat)

  /** A new caller enters under the lock; a fetcher publishes; a waiter returns once its result is there. */
  predicate Enabled(s: State, a: Action) {
    match a
    case Enter(id, _) => id !in s.callers
    case Publish(id, _, _, _, _) => id in s.callers && s.callers[id].Fetching? && s.callers[id].slot < |s.results|
    case Wake(id) =>
      && id in s.callers && s.callers[id].Waiting? && s.callers[id].slot < |s.results|
      && s.results[s.callers[id].slot].Some?
  }

  function Step(s: State, a: Action): State
    requires Enabled(s, a)
  {
    match a
    case Enter(id, key) =>
      if key in s.slots then s.(callers := s.callers[id := Waiting(key, s.slots[key])])
      else
        State(s.slots[key := |s.results|], s.fetched + [key], s.results + [None],
              s.callers[id := Fetching(key, |s.results|)])
    case Publish(id, secret, username, post, get) =>
      var answer := Fetched(secret, username, post, get);
      var c := s.callers[id];
      s.(results := s.results[c.slot := Some(answer)], callers := s.callers[id := Done(c.key, answer)])
    case Wake(id) =>
      var c := s.callers[id];
      s.(callers := s.callers[id := Done(c.key, s.results[c.slot].value)])
  }

  /** The state after a run, if every step was possible. */
  function Run(actions: seq<Action>): Option<State> {
    if actions == [] then Some(INIT)
    else
      var m := Run(actions[..|actions| - 1]);
      var a := actions[|actions| - 1];
      if m.Some? && Enabled(m.value, a) then Some(Step(m.value, a)) else None
  }

  // ---- The invariant ----

  ghost predicate Indexed(s: State) {
    && |s.results| == |s.fetched|
    && (forall k :: k in s.slots ==> s.slots[k] < |s.fetched| && s.fetched[s.slots[k]] == k)
    && (forall i :: 0 <= i < |s.fetched| ==> s.fetched[i] in s.slots && s.slots[s.fetched[i]] == i)
  }

  ghost predicate CallerOk(s: State, c: Caller)
    requires Indexed(s)
  {
    && c.key in s.slots
    && match c
       case Fetching(k, i) => i == s.slots[k] && s.results[i].None?
       case Waiting(k, i) => i == s.slots[k]
       case Done(k, answer) => s.results[s.slots[k]] == Some(answer)
  }

  /** Every unpublished result is being fetched by exactly one caller. */
  ghost predicate Owned(s: State) {
    && (forall i :: 0 <= i < |s.fetched| && i < |s.results| && s.results[i].None? ==>
          exists id :: id in s.callers && s.callers[id] == Fetching(s.fetched[i], i))
    && (forall a, b :: a in s.callers && b in s.callers && s.callers[a].Fetching? && s.callers[a] == s.callers[b] ==>
          a == b)
  }

  ghost predicate Inv(s: State) {
    && Indexed(s)
    && (forall id :: id in s.callers ==> CallerOk(s, s.callers[id]))
    && Owned(s)
  }

  lemma JoinKeepsInv(s: State, id: nat, key: string)
    requires Inv(s) && Enabled(s, Enter(id, key)) && key in s.slots
    ensures Inv(Step(s, Enter(id, key)))
  {
    var t := Step(s, Enter(id, key));
    forall c | c in t.callers ensures CallerOk(t, t.callers[c]) {
      assert c != id ==> CallerOk(s, s.callers[c]);
    }
    StillOwned(s, t, |s.fetched|);
  }

  lemma FirstKeepsInv(s: State, id: nat, key: string)
    requires Inv(s) && Enabled(s, Enter(id, key)) && key !in s.slots
    ensures Inv(Step(s, Enter(id, key)))
  {
    var t, n := Step(s, Enter(id, key)), |s.fetched|;
    FirstIndexed(s, id, key);
    forall c | c in t.callers ensures CallerOk(t, t.callers[c]) {
      assert c != id ==> CallerOk(s, s.callers[c]);
    }
    assert Owned(t) by {
      assert t.callers[id] == Fetching(t.fetched[n], n);
      StillOwned(s, t, n);
      NobodyFetches(s, key, n);
    }
  }

  lemma FirstIndexed(s: State, id: nat, key: string)
    requires Indexed(s) && Enabled(s, Enter(id, key)) && key !in s.slots
    ensures Indexed(Step(s, Enter(id, key)))
  {
  }

  lemma NobodyFetches(s: State, key: string, n: nat)
    requires Inv(s) && key !in s.slots
    ensures forall a :: a in s.callers ==> s.callers[a] != Fetching(key, n)
  {
    forall a | a in s.callers ensures s.callers[a] != Fetching(key, n) {
      assert CallerOk(s, s.callers[a]);
    }
  }

  /** A caller that comes in leaves the fetchers of the results before `n` where they are. */
  lemma StillOwned(s: State, t: State, n: nat)
    requires Inv(s) && n <= |s.fetched| <= |t.fetched| && |t.fetched| == |t.results|
    requires forall c :: c in s.callers ==> c in t.callers && t.callers[c] == s.callers[c]
    requires forall i :: 0 <= i < n ==> t.fetched[i] == s.fetched[i] && t.results[i] == s.results[i]
    ensures forall i :: 0 <= i < n && t.results[i].None? ==>
              exists c :: c in t.callers && t.callers[c] == Fetching(t.fetched[i], i)
  {
    forall i | 0 <= i < n && t.results[i].None?
      ensures exists c :: c in t.callers && t.callers[c] == Fetching(t.fetched[i], i)
    {
      var c :| c in s.callers && s.callers[c] == Fetching(s.fetched[i], i);
      assert t.callers[c] == Fetching(t.fetched[i], i);
    }
  }

  lemma PublishKeepsInv(s: State, a: Action)
    requires a.Publish? && Inv(s) && Enabled(s, a)
    ensures Inv(Step(s, a))
  {
    var t := Step(s, a);
    var me := s.callers[a.id];
    assert CallerOk(s, me);
    forall c | c in t.callers ensures CallerOk(t, t.callers[c]) {
      if c != a.id {
        assert CallerOk(s, s.callers[c]);
        OneFetcher(s, c, a.id);
      }
    }
    forall i | 0 <= i < |t.fetched| && t.results[i].None?
      ensures exists c :: c in t.callers && t.callers[c] == Fetching(t.fetched[i], i)
    {
      var c :| c in s.callers && s.callers[c] == Fetching(s.fetched[i], i);
      assert c != a.id;
      assert t.callers[c] == Fetching(t.fetched[i], i);
    }
  }

  lemma OneFetcher(s: State, a: nat, b: nat)
    requires Inv(s) && a in s.callers && b in s.callers && a != b && s.callers[b].Fetching?
    ensures s.callers[a].Fetching? ==> s.callers[a].slot != s.callers[b].slot
    ensures s.callers[a].Done? ==> s.callers[a].key != s.callers[b].key
  {
    assert CallerOk(s, s.callers[a]) && CallerOk(s, s.callers[b]);
  }

  lemma WakeKeepsInv(s: State, id: nat)
    requires Inv(s) && Enabled(s, Wake(id))
    ensures Inv(Step(s, Wake(id)))
  {
    var t := Step(s, Wake(id));
    assert CallerOk(s, s.callers[id]);
    forall c | c in t.callers ensures CallerOk(t, t.callers[c]) {
      assert c != id ==> CallerOk(s, s.callers[c]);
    }
    forall i | 0 <= i < |t.fetched| && t.results[i].None?
      ensures exists c :: c in t.callers && t.callers[c] == Fetching(t.fetched[i], i)
    {
      var c :| c in s.callers && s.callers[c] == Fetching(s.fetched[i], i);
      assert t.callers[c] == Fetching(t.fetched[i], i);
    }
  }

  lemma {:induction false} RunKeepsInv(actions: seq<Action>)
    requires Run(actions).Some?
    ensures Inv(Run(actions).value)
  {
    if actions != [] {
      var before, a := actions[..|actions| - 1], actions[|actions| - 1];
      RunKeepsInv(before);
      var m := Run(before).value;
      match a
      case Enter(id, key) => if key in m.slots { JoinKeepsInv(m, id, key); } else { FirstKeepsInv(m, id, key); }
      case Publish(_, _, _, _, _) => PublishKeepsInv(m, a);
      case Wake(id) => WakeKeepsInv(m, id);
    }
  }

  // ---- What callers may rely on ----

  /** What the single fetch for `key` published, if it has. */
  ghost predicate PublishedFor(s: State, key: string, answer: Answer) {
    exists i :: 0 <= i < |s.fetched| && i < |s.results| && s.fetched[i] == key && s.results[i] == Some(answer)
  }

  /** In every interleaving each key is fetched at most once, and all callers with one key come back with
      the same token, refresh token and error, namely what the single fetch published. */
  lemma {:induction false} OneFetchOneAnswer(actions: seq<Action>)
    requires Run(actions).Some?
    ensures var t := Run(actions).value;
            && (forall i, j :: 0 <= i < j < |t.fetched| ==> t.fetched[i] != t.fetched[j])
            && (forall a :: a in t.callers && t.callers[a].Done? ==>
                  PublishedFor(t, t.callers[a].key, t.callers[a].answer))
            && (forall key, x, y :: PublishedFor(t, key, x) && PublishedFor(t, key, y) ==> x == y)
  {
    RunKeepsInv(actions);
    var t := Run(actions).value;
    forall a | a in t.callers && t.callers[a].Done?
      ensures PublishedFor(t, t.callers[a].key, t.callers[a].answer)
    {
      assert CallerOk(t, t.callers[a]);
      var i := t.slots[t.callers[a].key];
      assert t.fetched[i] == t.callers[a].key && t.results[i] == Some(t.callers[a].answer);
    }
  }

  /** Nobody waits for nothing: a waiter can return now, or the caller that fetches for it can publish. */
  lemma {:induction false} WaitersAreServed(actions: seq<Action>, id: nat)
    requires Run(actions).Some? && id in Run(actions).value.callers && Run(actions).value.callers[id].Waiting?
    ensures var t := Run(actions).value;
            || Enabled(t, Wake(id))
            || exists f :: f in t.callers && t.callers[f] == Fetching(t.callers[id].key, t.callers[id].slot)
  {
    RunKeepsInv(actions);
    assert CallerOk(Run(actions).value, Run(actions).value.callers[id]);
  }

  /** A published answer never changes, failures included. */
  lemma AnswersStay(s: State, a: Action, i: nat)
    requires Inv(s) && Enabled(s, a) && i < |s.results| && s.results[i].Some?
    ensures i < |Step(s, a).results| && Step(s, a).results[i] == s.results[i]
  {
    if a.Publish? {
      assert CallerOk(s, s.callers[a.id]);
    }
  }

  /** Every published result was published by a caller with that key, with what its fetch gave. */
  lemma {:induction false} PublishedBy(actions: seq<Action>, i: nat) returns (k: nat)
    requires Run(actions).Some? && i < |Run(actions).value.results| == |Run(actions).value.fetched|
    requires Run(actions).value.results[i].Some?
    ensures k < |actions| && actions[k].Publish?
    ensures var t, p := Run(actions).value, actions[k];
            && t.results[i].value == Fetched(p.secret, p.username, p.post, p.get)
            && p.id in t.callers && t.callers[p.id].key == t.fetched[i]
  {
    var n := |actions| - 1;
    var before, a := actions[..n], actions[n];
    var m := Run(before).value;
    RunKeepsInv(before);
    if i < |m.results| && m.results[i].Some? {
      k := PublishedBy(before, i);
      assert actions[k] == before[k];
      AnswersStay(m, a, i);
    } else {
      k := n;
      assert CallerOk(m, m.callers[a.id]);
    }
  }

  /** What a caller returns: the token of the endpoint that decided the one fetch for its key. */
  lemma {:induction false} AnswersAreGiven(actions: seq<Action>, id: nat) returns (k: nat)
    requires Run(actions).Some? && id in Run(actions).value.callers && Run(actions).value.callers[id].Done?
    ensures k < |actions| && actions[k].Publish?
    ensures var t, p := Run(actions).value, actions[k];
            && p.id in t.callers && t.callers[p.id].key == t.callers[id].key
            && GivenBy(t.callers[id].answer, p.secret, p.username, p.post, p.get)
  {
    RunKeepsInv(actions);
    var t := Run(actions).value;
    assert CallerOk(t, t.callers[id]);
    k := PublishedBy(actions, t.slots[t.callers[id].key]);
    AnswerIsFetched(actions[k].secret, actions[k].username, actions[k].post, actions[k].get);
  }

  // ---- Everyone returns ----

  /** The callers that have not returned. */
  ghost function Open(callers: map<nat, Caller>): set<nat> {
    set id | id in callers && !callers[id].Done?
  }

  ghost function Enters(actions: seq<Action>): nat {
    if actions == [] then 0
    else Enters(actions[..|actions| - 1]) + if actions[|actions| - 1].Enter? then 1 else 0
  }

  lemma Arrived(callers: map<nat, Caller>, id: nat, c: Caller)
    requires id !in callers && !c.Done?
    ensures |Open(callers[id := c])| == |Open(callers)| + 1
    ensures |callers[id := c]| == |callers| + 1
  {
    assert Open(callers[id := c]) == Open(callers) + {id};
  }

  lemma Returned(callers: map<nat, Caller>, id: nat, c: Caller)
    requires id in callers && !callers[id].Done? && c.Done?
    ensures |Open(callers)| == |Open(callers[id := c])| + 1
    ensures |callers[id := c]| == |callers|
  {
    assert Open(callers) == Open(callers[id := c]) + {id};
    assert callers[id := c].Keys == callers.Keys;
    assert |callers[id := c].Keys| == |callers.Keys|;
  }

  lemma OneMore(s: State, a: Action)
    requires Enabled(s, a)
    ensures |Open(Step(s, a).callers)| == |Open(s.callers)| + if a.Enter? then 1 else -1
    ensures |Step(s, a).callers| == |s.callers| + if a.Enter? then 1 else 0
  {
    var c := Step(s, a).callers[a.id];
    if a.Enter? {
      Arrived(s.callers, a.id, c);
    } else {
      Returned(s.callers, a.id, c);
    }
  }

  /** Every step other than an arrival lets one caller return: a run of `n` arrivals has at most `n` of them,
      and exactly `n` when all have returned. */
  lemma {:induction false} EveryStepCounts(actions: seq<Action>)
    requires Run(actions).Some?
    ensures |Run(actions).value.callers| == Enters(actions)
    ensures |Open(Run(actions).value.callers)| + |actions| == 2 * Enters(actions)
  {
    if actions != [] {
      var before, a := actions[..|actions| - 1], actions[|actions| - 1];
      EveryStepCounts(before);
      OneMore(Run(before).value, a);
    }
  }

  lemma {:induction false} Extended(actions: seq<Action>, a: Action)
    requires Run(actions).Some? && Enabled(Run(actions).value, a)
    ensures Run(actions + [a]) == Some(Step(Run(actions).value, a)) && Enters(actions + [a]) >= Enters(actions)
    ensures !a.Enter? ==> Enters(actions + [a]) == Enters(actions)
  {
    assert (actions + [a])[..|actions|] == actions;
  }

  /** And no run gets stuck: until all have returned somebody can publish, whatever its fetch gave, or
      return. */
  lemma {:induction false} NobodyIsStuck(actions: seq<Action>, secret: string, username: string, post: Fetch,
                                         get: Fetch)
    returns (a: Action)
    requires Run(actions).Some? && Open(Run(actions).value.callers) != {}
    ensures a.Wake? || (a.Publish? && a == Publish(a.id, secret, username, post, get))
    ensures Enabled(Run(actions).value, a)
  {
    RunKeepsInv(actions);
    var t := Run(actions).value;
    var id :| id in Open(t.callers);
    assert CallerOk(t, t.callers[id]);
    a := Wake(id);
    if t.callers[id].Fetching? {
      a := Publish(id, secret, username, post, get);
    } else if !Enabled(t, Wake(id)) {
      WaitersAreServed(actions, id);
      id :| id in t.callers && t.callers[id].Fetching?;
      assert CallerOk(t, t.callers[id]);
      a := Publish(id, secret, username, post, get);
    }
  }

  /** So every run can be brought to an end in which all callers have returned, one step for each. */
  lemma {:induction false} EveryoneReturns(actions: seq<Action>, secret: string, username: string, post: Fetch,
                                           get: Fetch)
    returns (more: seq<Action>)
    requires Run(actions).Some?
    ensures Run(actions + more).Some? && Open(Run(actions + more).value.callers) == {}
    ensures |more| == |Open(Run(actions).value.callers)|
    decreases 2 * Enters(actions) - |actions|
  {
    EveryStepCounts(actions);
    if Open(Run(actions).value.callers) == {} {
      more := [];
      assert actions + [] == actions;
    } else {
      var a := NobodyIsStuck(actions, secret, username, post, get);
      Extended(actions, a);
      OneMore(Run(actions).value, a);
      var rest := EveryoneReturns(actions + [a], secret, username, post, get);
      more := [a] + rest;
      assert actions + more == actions + [a] + rest;
    }
  }

  /** Callers may arrive at any time with any keys. */
  lemma {:induction false} AnyoneMayCome(keys: seq<string>) returns (actions: seq<Action>)
    ensures Run(actions).Some?
    ensures var callers := Run(actions).value.callers;
            && (forall id: nat :: id in callers <==> id < |keys|)
            && (forall id: nat :: id < |keys| ==> callers[id].key == keys[id])
  {
    if keys == [] {
      actions := [];
    } else {
      var n := |keys| - 1;
      var before := AnyoneMayCome(keys[..n]);
      Extended(before, Enter(n, keys[n]));
      actions := before + [Enter(n, keys[n])];
    }
  }
}
