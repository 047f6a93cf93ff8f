/** The token cache seen by its callers: which sets of scopes share a fetch
    (pkg/remote/remotes/docker/authorizer.go, scope.go). */
module BearerScopes {
  import opened Base
  import opened Text
  import opened Scopes
  import opened Bearer

  /** A caller comes with the scopes GetTokenScopes gave it; everything else happens as before. */
  datatype Event = Ask(id: nat, scopes: seq<string>) | Other(action: Action)

  function Plain(e: Event): Action {
    match e
    case Ask(id, scopes) => Enter(id, Key(scopes))
    case Other(action) => action
  }

  function Plains(events: seq<Event>): seq<Action> {
    seq(|events|, i requires 0 <= i < |events| => Plain(events[i]))
  }

  /** Scopes are canonical and without spaces, and nobody enters but with scopes. */
  ghost predicate Canonical(events: seq<Event>) {
    forall i :: 0 <= i < |events| ==>
      match events[i]
      case Ask(_, scopes) => Ascending(scopes) && FreeOf(scopes, ' ')
      case Other(action) => !action.Enter?
  }

  /** The scopes caller `id` came with. */
  function AskedBy(events: seq<Event>, id: nat): Option<seq<string>> {
    if events == [] then None
    else
      var e := events[|events| - 1];
      if e.Ask? && e.id == id then Some(e.scopes) else AskedBy(events[..|events| - 1], id)
  }

  lemma {:induction false} PlainsLast(events: seq<Event>)
    requires events != []
    ensures Plains(events)[..|events| - 1] == Plains(events[..|events| - 1])
  {
  }

  /** Every caller is filed under the key of the scopes it came with. */
  lemma {:induction false} AskedKey(events: seq<Event>, id: nat)
    requires Canonical(events) && Run(Plains(events)).Some?
    ensures id in Run(Plains(events)).value.callers <==> AskedBy(events, id).Some?
    ensures AskedBy(events, id).Some? ==>
              && Ascending(AskedBy(events, id).value) && FreeOf(AskedBy(events, id).value, ' ')
              && Run(Plains(events)).value.callers[id].key == Key(AskedBy(events, id).value)
  {
    if events != [] {
      var n := |events| - 1;
      PlainsLast(events);
      AskedKey(events[..n], id);
      assert Plains(events)[n] == Plain(events[n]);
      StepKeepsKey(Run(Plains(events[..n])).value, Plain(events[n]), id);
    }
  }

  lemma StepKeepsKey(s: State, a: Action, id: nat)
    requires Enabled(s, a)
    ensures id in Step(s, a).callers <==> id in s.callers || (a.Enter? && a.id == id)
    ensures id in s.callers ==> Step(s, a).callers[id].key == s.callers[id].key
    ensures a.Enter? && a.id == id ==> id !in s.callers && Step(s, a).callers[id].key == a.key
  {
  }

  /** The same scopes, or the one pair of different sets that share a key. */
  ghost predicate Alike(a: seq<string>, b: seq<string>) {
    (forall x :: x in a <==> x in b) || {a, b} == {[], [""]}
  }

  /** In every interleaving the callers of one space-free scope set share one fetch and come back with one
      answer, and callers of different sets do not, with the empty set and the set of the empty scope as
      the only exception. */
  lemma {:induction false} ScopeSetsShareOneFetch(events: seq<Event>, a: nat, b: nat)
    requires Canonical(events) && Run(Plains(events)).Some?
    requires a in Run(Plains(events)).value.callers && b in Run(Plains(events)).value.callers
    ensures AskedBy(events, a).Some? && AskedBy(events, b).Some?
    ensures var t := Run(Plains(events)).value;
            var alike := Alike(AskedBy(events, a).value, AskedBy(events, b).value);
            && (t.callers[a].key == t.callers[b].key <==> alike)
            && (forall i, j :: 0 <= i < j < |t.fetched| ==> t.fetched[i] != t.fetched[j])
            && (t.callers[a].Done? && t.callers[b].Done? && alike ==> t.callers[a].answer == t.callers[b].answer)
  {
    AskedKey(events, a);
    AskedKey(events, b);
    KeyDecidesScopes(AskedBy(events, a).value, AskedBy(events, b).value);
    OneFetchOneAnswer(Plains(events));
    var t := Run(Plains(events)).value;
    if t.callers[a].Done? && t.callers[b].Done? {
      assert PublishedFor(t, t.callers[a].key, t.callers[a].answer);
      assert PublishedFor(t, t.callers[b].key, t.callers[b].answer);
    }
  }
}
