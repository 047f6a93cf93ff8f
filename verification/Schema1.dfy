/** Conversion of Docker schema 1 manifests (pkg/remote/remotes/docker/schema1/converter.go). */
module Schema1 {
  import opened Base

  /** One history entry: `text` stands for the fields that are copied, `parses` says whether its JSON can
      be read. */
  datatype V1History = V1History(text: int, parses: bool, throwAway: Option<bool>, size: Option<int>)

  /** isEmptyLayer; without a claim the layer is taken not to be empty. */
  predicate ClaimsEmpty(h: V1History) {
    if h.throwAway.Some? then h.throwAway.value else h.size == Some(0)
  }

  lemma ClaimMeans(h: V1History)
    ensures ClaimsEmpty(h) <==> h.throwAway == Some(true) || (h.throwAway == None && h.size == Some(0))
  {
  }

  /** Newest first, as the schema has it. */
  datatype Manifest1 = Manifest1(fsLayers: seq<string>, history: seq<V1History>)

  /** What is known of a blob: the zero value stands for one not fetched yet. */
  datatype BlobState = BlobState(empty: bool, diffId: string)

  datatype Descriptor = Descriptor(digest: string, gzip: bool)

  datatype History = History(text: int, emptyLayer: bool)

  datatype Result = Result(history: seq<History>, diffIds: seq<string>, layers: seq<Descriptor>)

  datatype Conversion = Crashed | Refused | Converted(result: Result)

  /** The layers that have a history entry. */
  function Used(m: Manifest1): (r: seq<string>)
    ensures |m.history| <= |m.fsLayers| ==> |r| == |m.history|
  {
    if |m.history| <= |m.fsLayers| then m.fsLayers[..|m.history|] else m.fsLayers
  }

  /** The layers to fetch, base first: those neither known nor claimed empty, each once. */
  function ToFetch(fsLayers: seq<string>, history: seq<V1History>, known: set<string>): seq<string>
    requires |fsLayers| == |history|
  {
    if fsLayers == [] then []
    else
      var n := |fsLayers| - 1;
      var before := ToFetch(fsLayers[..n], history[..n], known);
      if fsLayers[n] in known || fsLayers[n] in fsLayers[..n] || ClaimsEmpty(history[n]) then before
      else [fsLayers[n]] + before
  }

  lemma {:induction false} ToFetchOnce(fsLayers: seq<string>, history: seq<V1History>, known: set<string>)
    requires |fsLayers| == |history|
    ensures var r := ToFetch(fsLayers, history, known);
            && (forall d :: d in r ==> d in fsLayers && d !in known)
            && (forall i, j :: 0 <= i < j < |r| ==> r[i] != r[j])
  {
    if fsLayers != [] {
      var n := |fsLayers| - 1;
      ToFetchOnce(fsLayers[..n], history[..n], known);
      assert fsLayers == fsLayers[..n] + [fsLayers[n]];
    }
  }

  function Zip(fsLayers: seq<string>, blobMap: map<string, BlobState>): seq<BlobState> {
    seq(|fsLayers|, i requires 0 <= i < |fsLayers| => StateOf(fsLayers[i], blobMap))
  }

  function StateOf(blob: string, blobMap: map<string, BlobState>): BlobState {
    if blob in blobMap then blobMap[blob] else BlobState(false, "")
  }

  /** A blob not fetched counts as a layer with an empty diff ID. */
  lemma UnfetchedLayer(blob: string, blobMap: map<string, BlobState>)
    requires blob !in blobMap
    ensures DiffIds(Zip([blob], blobMap)) == [""]
  {
    assert Zip([blob], blobMap) == [StateOf(blob, blobMap)];
    assert DiffIds([StateOf(blob, blobMap)][..0]) == [];
  }

  // ---- History and diff IDs from the states of the layers, newest first ----

  function Histories(entries: seq<V1History>, states: seq<BlobState>): seq<History>
    requires |entries| == |states|
  {
    seq(|entries|, k requires 0 <= k < |entries| =>
      History(entries[|entries| - 1 - k].text, states[|entries| - 1 - k].empty))
  }

  function DiffIds(states: seq<BlobState>): seq<string> {
    if states == [] then []
    else
      var last := states[|states| - 1];
      (if last.empty then [] else [last.diffId]) + DiffIds(states[..|states| - 1])
  }

  /** How many of the first `k` history entries have a layer. */
  function Rank(history: seq<History>, k: nat): nat
    requires k <= |history|
  {
    if k == 0 then 0 else (if history[0].emptyLayer then 0 else 1) + Rank(history[1..], k - 1)
  }

  /** The k-th entry of the base-first history has the diff ID whose index is its rank among the
      entries with a layer, and there are no more diff IDs than such entries. */
  lemma {:induction false} RankIsIndex(entries: seq<V1History>, states: seq<BlobState>, k: nat)
    requires |entries| == |states| && k < |entries|
    ensures var h := Histories(entries, states);
            && Rank(h, |h|) == |DiffIds(states)|
            && (!h[k].emptyLayer ==>
                  Rank(h, k) < |DiffIds(states)| && DiffIds(states)[Rank(h, k)] == states[|states| - 1 - k].diffId)
  {
    var n := |entries| - 1;
    var h := Histories(entries, states);
    assert h[1..] == Histories(entries[..n], states[..n]);
    if n > 0 {
      RankIsIndex(entries[..n], states[..n], if k > 0 then k - 1 else 0);
    }
  }

  /** A manifest with more history than layers makes the loop index past the layers. */
  datatype Parse = Panics | Fails | Parsed(history: seq<History>, diffIds: seq<string>)

  ghost predicate AllParse(history: seq<V1History>, n: nat)
    requires n <= |history|
  {
    forall i :: 0 <= i < n ==> history[i].parses
  }

  lemma DiffIdsNext(states: seq<BlobState>, i: nat)
    requires i < |states|
    ensures DiffIds(states[..i + 1]) == (if states[i].empty then [] else [states[i].diffId]) + DiffIds(states[..i])
  {
    assert states[..i + 1][..i] == states[..i];
  }

  /** The loop of schema1ManifestHistory, filling the history from its end. */
  method ManifestHistory(m: Manifest1, blobMap: map<string, BlobState>) returns (r: Parse)
    ensures r.Parsed? <==> |m.history| <= |m.fsLayers| && AllParse(m.history, |m.history|)
    ensures r.Panics? <==> |m.fsLayers| < |m.history| && AllParse(m.history, |m.fsLayers| + 1)
    ensures r.Parsed? ==>
              && r.history == Histories(m.history, Zip(Used(m), blobMap))
              && r.diffIds == DiffIds(Zip(Used(m), blobMap))
  {
    var n := |m.history|;
    ghost var states := Zip(Used(m), blobMap);
    var history := new History[n](_ => History(0, false));
    var diffIds: seq<string> := [];
    for i := 0 to n
      invariant i <= |m.fsLayers| && AllParse(m.history, i)
      invariant n <= |m.fsLayers| ==>
                  forall k :: n - i <= k < n ==>
                    history[k] == History(m.history[n - 1 - k].text, states[n - 1 - k].empty)
      invariant diffIds == DiffIds(states[..i])
    {
      if !m.history[i].parses { return Fails; }
      if i == |m.fsLayers| { return Panics; }
      var state := StateOf(m.fsLayers[i], blobMap);
      assert states[i] == state;
      history[n - i - 1] := History(m.history[i].text, state.empty);
      DiffIdsNext(states, i);
      if !state.empty {
        diffIds := [state.diffId] + diffIds;
      }
    }
    assert states[..n] == states;
    assert history[..] == Histories(m.history, states);
    r := Parsed(history[..], diffIds);
  }

  lemma {:induction false} AllRecorded(states: seq<BlobState>, ids: set<string>)
    requires forall i :: 0 <= i < |states| && !states[i].empty ==> states[i].diffId in ids
    ensures forall k :: 0 <= k < |DiffIds(states)| ==> DiffIds(states)[k] in ids
  {
    if states != [] {
      AllRecorded(states[..|states| - 1], ids);
    }
  }

  // ---- The converter ----

  class Converter {
    /** What fetching a blob computes; the label that is reused instead was written from the same. */
    const truth: string -> BlobState
    var manifest: Option<Manifest1>
    var blobMap: map<string, BlobState>
    var layerBlobs: map<string, Descriptor>
    ghost var returned: set<string>
    ghost var fetched: set<string>

    constructor (truth: string -> BlobState)
      ensures Valid() && this.truth == truth && manifest == None && returned == {} && fetched == {}
    {
      this.truth := truth;
      manifest, blobMap, layerBlobs, returned, fetched := None, map[], map[], {}, {};
    }

    /** A blob's state is the computed one once fetched, and before that only a claim of emptiness or
        still to be fetched; every recorded descriptor is of a fetched blob with that diff ID. */
    ghost predicate Valid()
      reads this
    {
      && (forall b :: b in fetched ==> b in blobMap && blobMap[b] == truth(b) && truth(b).diffId in layerBlobs)
      && (forall b :: b in blobMap && b !in fetched ==> blobMap[b].empty || b in returned)
      && (forall id :: id in layerBlobs ==>
            layerBlobs[id].digest in fetched && truth(layerBlobs[id].digest).diffId == id)
    }

    /** Handle took the manifest: every layer is known. */
    ghost predicate Handled()
      reads this
    {
      && manifest.Some? && |manifest.value.fsLayers| == |manifest.value.history|
      && forall b :: b in manifest.value.fsLayers ==> b in blobMap
    }

    /** A layer met for the first time. */
    method Note(blob: string, h: V1History) returns (isNew: bool, ok: bool)
      requires Valid()
      modifies this`blobMap, this`returned
      ensures Valid()
      ensures isNew == (blob !in old(blobMap)) && ok == (!isNew || h.parses)
      ensures blobMap == if isNew && ok then old(blobMap)[blob := BlobState(ClaimsEmpty(h), "")] else old(blobMap)
      ensures returned == if isNew && ok && !ClaimsEmpty(h) then old(returned) + {blob} else old(returned)
    {
      isNew, ok := blob !in blobMap, true;
      if isNew {
        if !h.parses { return true, false; }
        if !ClaimsEmpty(h) {
          returned := returned + {blob};
        }
        blobMap := blobMap[blob := BlobState(ClaimsEmpty(h), "")];
      }
    }

    /** Handle of a manifest: the layers to fetch, base first. */
    method HandleManifest(m: Manifest1) returns (descs: Option<seq<string>>)
      requires Valid()
      modifies this`manifest, this`blobMap, this`returned
      ensures Valid() && manifest == Some(m)
      ensures descs.Some? <==> |m.fsLayers| == |m.history| && NewParse(m, |m.history|, old(blobMap).Keys)
      ensures descs.Some? ==> Handled()
      ensures descs.Some? ==> descs.value == ToFetch(m.fsLayers, m.history, old(blobMap).Keys)
      ensures descs.Some? ==> returned == old(returned) + Elems(descs.value)
    {
      manifest := Some(m);
      if |m.fsLayers| != |m.history| { return None; }
      var list: seq<string> := [];
      ghost var known := blobMap.Keys;
      for i := 0 to |m.fsLayers|
        invariant Valid() && manifest == Some(m)
        invariant Scanned(m, i, known, old(returned), list, blobMap.Keys, returned)
      {
        var blob, h := m.fsLayers[i], m.history[i];
        ghost var keys, so := blobMap.Keys, returned;
        ScanNext(m, i, known, old(returned), list, keys, so);
        var isNew, ok := Note(blob, h);
        if !ok { return None; }
        assert blobMap.Keys == keys + {blob};
        if isNew && !ClaimsEmpty(h) {
          list := [blob] + list;
        }
      }
      assert m.fsLayers[..|m.fsLayers|] == m.fsLayers && m.history[..|m.history|] == m.history;
      descs := Some(list);
    }

    /** Handle of a layer: its state and its descriptor are recorded together. */
    method FetchBlob(digest: string, gzip: bool, io: bool) returns (ok: bool)
      requires Valid()
      modifies this`blobMap, this`layerBlobs, this`fetched
      ensures Valid() && ok == (manifest.Some? && io)
      ensures ok ==> fetched == old(fetched) + {digest}
      ensures !ok ==> fetched == old(fetched) && blobMap == old(blobMap) && layerBlobs == old(layerBlobs)
      ensures old(Handled()) ==> Handled()
    {
      if manifest.None? || !io { return false; }
      var state := truth(digest);
      blobMap := blobMap[digest := state];
      layerBlobs := layerBlobs[state.diffId := Descriptor(digest, gzip)];
      fetched := fetched + {digest};
      ok := true;
    }

    /** Convert: once Handle took the manifest and the returned layers are fetched, there is a layer for
        each diff ID, a fetched blob that has it. */
    method Convert(imageParses: bool) returns (r: Conversion)
      requires Valid()
      ensures r.Converted? <==>
              && manifest.Some? && manifest.value.history != [] && imageParses
              && |manifest.value.history| <= |manifest.value.fsLayers|
              && AllParse(manifest.value.history, |manifest.value.history|)
      ensures r.Crashed? <==>
              && manifest.Some? && |manifest.value.fsLayers| < |manifest.value.history|
              && AllParse(manifest.value.history, |manifest.value.fsLayers| + 1)
      ensures Handled() ==> !r.Crashed?
      ensures r.Converted? ==>
                && r.result.history == Histories(manifest.value.history, Zip(Used(manifest.value), blobMap))
                && r.result.diffIds == DiffIds(Zip(Used(manifest.value), blobMap))
                && |r.result.layers| == |r.result.diffIds|
      ensures r.Converted? && Handled() && returned <= fetched ==>
                forall k :: 0 <= k < |r.result.layers| ==>
                  && r.result.layers[k].digest in fetched
                  && truth(r.result.layers[k].digest).diffId == r.result.diffIds[k]
    {
      if manifest.None? || manifest.value.history == [] { return Refused; }
      var m := manifest.value;
      var parsed := ManifestHistory(m, blobMap);
      if parsed.Panics? { return Crashed; }
      if parsed.Fails? || !imageParses { return Refused; }
      var diffIds := parsed.diffIds;
      if Handled() && returned <= fetched {
        assert Used(m) == m.fsLayers;
        RecordedStates(m.fsLayers);
        AllRecorded(Zip(m.fsLayers, blobMap), layerBlobs.Keys);
      }
      var layers := seq(|diffIds|, i requires 0 <= i < |diffIds| reads this =>
        if diffIds[i] in layerBlobs then layerBlobs[diffIds[i]] else Descriptor("", false));
      r := Converted(Result(parsed.history, diffIds, layers));
    }

    lemma RecordedStates(fsLayers: seq<string>)
      requires Valid() && returned <= fetched && forall b :: b in fsLayers ==> b in blobMap
      ensures forall i :: 0 <= i < |fsLayers| && !Zip(fsLayers, blobMap)[i].empty ==>
                Zip(fsLayers, blobMap)[i].diffId in layerBlobs.Keys
    {
      forall i | 0 <= i < |fsLayers| && !Zip(fsLayers, blobMap)[i].empty
        ensures Zip(fsLayers, blobMap)[i].diffId in layerBlobs.Keys
      {
        assert fsLayers[i] in blobMap;
      }
    }
  }

  function Elems(s: seq<string>): set<string> {
    set x | x in s
  }

  lemma OneMore(s: seq<string>, i: nat)
    requires i < |s|
    ensures Elems(s[..i + 1]) == Elems(s[..i]) + {s[i]}
    ensures s[i] in Elems(s[..i]) <==> s[i] in s[..i]
  {
    TakeNext(s, i);
  }

  lemma InFront(x: string, s: seq<string>)
    ensures Elems([x] + s) == {x} + Elems(s)
  {
  }

  /** The history of each of the first `n` layers can be read where the layer is new. */
  ghost predicate NewParse(m: Manifest1, n: nat, known: set<string>)
    requires n <= |m.fsLayers| == |m.history|
  {
    n == 0 ||
    (NewParse(m, n - 1, known)
     && (m.fsLayers[n - 1] in known || m.fsLayers[n - 1] in m.fsLayers[..n - 1] || m.history[n - 1].parses))
  }

  lemma {:induction false} NewParseAll(m: Manifest1, i: nat, n: nat, known: set<string>)
    requires i <= n <= |m.fsLayers| == |m.history| && NewParse(m, n, known)
    ensures NewParse(m, i, known)
  {
    if i < n {
      NewParseAll(m, i, n - 1, known);
    }
  }

  lemma ToFetchNext(m: Manifest1, i: nat, known: set<string>)
    requires |m.fsLayers| == |m.history| && i < |m.history|
    ensures var before := ToFetch(m.fsLayers[..i], m.history[..i], known);
            var blob := m.fsLayers[i];
            ToFetch(m.fsLayers[..i + 1], m.history[..i + 1], known)
            == if blob in known || blob in m.fsLayers[..i] || ClaimsEmpty(m.history[i]) then before else [blob] + before
  {
    assert m.fsLayers[..i + 1][..i] == m.fsLayers[..i] && m.history[..i + 1][..i] == m.history[..i];
  }

  /** The first `i` layers are handled: known, listed and returned. */
  ghost predicate Scanned(m: Manifest1, i: nat, known: set<string>, before: set<string>, list: seq<string>,
                          keys: set<string>, returned: set<string>)
    requires i <= |m.fsLayers| == |m.history|
  {
    && keys == known + Elems(m.fsLayers[..i])
    && list == ToFetch(m.fsLayers[..i], m.history[..i], known)
    && returned == before + Elems(list)
    && NewParse(m, i, known)
  }

  lemma ScanGoesOn(m: Manifest1, i: nat, known: set<string>, before: set<string>, list: seq<string>, keys: set<string>,
                   returned: set<string>)
    requires i < |m.fsLayers| == |m.history| && Scanned(m, i, known, before, list, keys, returned)
    ensures var blob, h := m.fsLayers[i], m.history[i];
            var fetch := blob !in keys && !ClaimsEmpty(h);
            blob in keys || h.parses ==>
              Scanned(m, i + 1, known, before, if fetch then [blob] + list else list, keys + {blob},
                      if fetch then returned + {blob} else returned)
  {
    var blob := m.fsLayers[i];
    assert blob in keys <==> blob in known || blob in m.fsLayers[..i];
    assert keys + {blob} == known + Elems(m.fsLayers[..i + 1]) by { OneMore(m.fsLayers, i); }
    assert before + Elems([blob] + list) == returned + {blob} by { InFront(blob, list); }
    ToFetchNext(m, i, known);
  }

  lemma ScanStops(m: Manifest1, i: nat, known: set<string>, keys: set<string>)
    requires i < |m.fsLayers| == |m.history| && keys == known + Elems(m.fsLayers[..i])
    requires m.fsLayers[i] !in keys && !m.history[i].parses
    ensures !NewParse(m, |m.history|, known)
  {
    assert !NewParse(m, i + 1, known);
    if NewParse(m, |m.history|, known) {
      NewParseAll(m, i + 1, |m.history|, known);
    }
  }

  lemma ScanNext(m: Manifest1, i: nat, known: set<string>, before: set<string>, list: seq<string>, keys: set<string>,
                 returned: set<string>)
    requires i < |m.fsLayers| == |m.history| && Scanned(m, i, known, before, list, keys, returned)
    ensures var blob, h := m.fsLayers[i], m.history[i];
            && (blob in keys || h.parses ==>
                  var fetch := blob !in keys && !ClaimsEmpty(h);
                  Scanned(m, i + 1, known, before, if fetch then [blob] + list else list, keys + {blob},
                          if fetch then returned + {blob} else returned))
            && (blob !in keys && !h.parses ==> !NewParse(m, |m.history|, known))
  {
    if m.fsLayers[i] in keys || m.history[i].parses {
      ScanGoesOn(m, i, known, before, list, keys, returned);
    } else {
      ScanStops(m, i, known, keys);
    }
  }
}
