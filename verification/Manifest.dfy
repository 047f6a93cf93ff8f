/** Manifests of nydus images: the merge of blob lists and the layer, diff-ID, label and history part of
    convertManifest (pkg/converter/convert_unix.go), and its undoing by ReconvertHookFunc
    (pkg/converter/reconvert_unix.go). */
module Manifest {
  import opened Base
  import opened Text
  import opened Decimal

  const UNCOMPRESSED := "containerd.io/uncompressed"
  const BLOB := "containerd.io/snapshot/nydus-blob"
  const BOOTSTRAP := "containerd.io/snapshot/nydus-bootstrap"
  const REF_LAYER := "containerd.io/snapshot/nydus-ref"
  const ENCRYPTED := "containerd.io/snapshot/nydus-encrypted-blob"

  /** MergeOption: layers that refer to OCI layers, and encrypted layers. */
  datatype Options = Options(ociRef: bool, encrypt: bool)

  datatype Descriptor = Descriptor(digest: string, annotations: map<string, string>)

  /** `rest` stands for the fields nobody looks at. */
  datatype History = History(createdBy: string, comment: string, rest: int)

  /** A manifest together with the part of its config that follows the layers, and its labels. */
  datatype Image =
    Image(layers: seq<Descriptor>, diffIds: seq<string>, history: seq<History>, labels: map<string, string>)

  function Get(m: map<string, string>, key: string): string {
    if key in m then m[key] else ""
  }

  predicate IsBootstrap(d: Descriptor) {
    BOOTSTRAP in d.annotations
  }

  function BlobDesc(digest: string, ref: Option<string>, encrypt: bool): Descriptor {
    var plain := map[UNCOMPRESSED := digest, BLOB := "true"];
    var referring := if ref.Some? then plain[REF_LAYER := ref.value] else plain;
    Descriptor(digest, if encrypt then referring[ENCRYPTED := "true"] else referring)
  }

  function Strip(d: Descriptor): Descriptor {
    d.(annotations := d.annotations - {UNCOMPRESSED})
  }

  // ---- mergeManifestBlobDigests ----

  /** The digests that `have` lacks, in order. */
  function Missing(digests: seq<string>, have: seq<string>): seq<string> {
    if digests == [] then []
    else
      var last := digests[|digests| - 1];
      var before := Missing(digests[..|digests| - 1], have);
      if last in have then before else before + [last]
  }

  method MergeManifestBlobDigests(nydus: seq<string>, original: seq<string>) returns (result: seq<string>)
    ensures result == nydus + Missing(original, nydus)
  {
    var nydusSet: set<string> := {};
    for i := 0 to |nydus|
      invariant forall d :: d in nydusSet <==> d in nydus[..i]
    {
      nydusSet := nydusSet + {nydus[i]};
    }
    assert nydus[..|nydus|] == nydus;
    result := nydus;
    for i := 0 to |original|
      invariant result == nydus + Missing(original[..i], nydus)
    {
      assert original[..i + 1][..i] == original[..i];
      if original[i] !in nydusSet {
        result := result + [original[i]];
      }
    }
    assert original[..|original|] == original;
  }

  /** Nothing is lost, and what is added was not there. */
  lemma {:induction false} MergeCovers(original: seq<string>, nydus: seq<string>, d: string)
    ensures d in Missing(original, nydus) <==> d in original && d !in nydus
  {
    if original != [] {
      MergeCovers(original[..|original| - 1], nydus, d);
      assert d in original <==> d in original[..|original| - 1] || d == original[|original| - 1];
    }
  }

  // ---- convertManifest without a backend ----

  const GC_LAYER := "containerd.io/gc.ref.content.l."
  const MARKER := History("Nydus Converter", "Nydus Bootstrap Layer", 0)

  function GcKey(i: nat): string {
    GC_LAYER + Dec(i)
  }

  lemma GcKeysDiffer(prefix: string, i: nat, j: nat)
    requires prefix + Dec(i) == prefix + Dec(j)
    ensures i == j
  {
    assert Dec(i) == (prefix + Dec(i))[|prefix|..] == (prefix + Dec(j))[|prefix|..] == Dec(j);
    ValueOfDec(i);
    ValueOfDec(j);
  }

  /** Each layer has the label of its index, and no other label differs from before. */
  ghost predicate Labelled(before: map<string, string>, after: map<string, string>, layers: seq<Descriptor>) {
    && (forall i: nat :: i < |layers| ==> GcKey(i) in after && after[GcKey(i)] == layers[i].digest)
    && (forall k :: k in after ==>
          (exists i: nat :: i < |layers| && k == GcKey(i)) || (k in before && after[k] == before[k]))
    && (forall k :: k in before ==> k in after)
  }

  lemma LabelNext(before: map<string, string>, after: map<string, string>, layers: seq<Descriptor>, i: nat)
    requires i < |layers| && Labelled(before, after, layers[..i])
    ensures Labelled(before, after[GcKey(i) := layers[i].digest], layers[..i + 1])
  {
    var now := after[GcKey(i) := layers[i].digest];
    forall j: nat | j < i + 1 ensures GcKey(j) in now && now[GcKey(j)] == layers[..i + 1][j].digest {
      if j < i {
        assert layers[..i][j] == layers[j];
        if GcKey(j) == GcKey(i) { GcKeysDiffer(GC_LAYER, j, i); }
      }
    }
    forall k | k in now
      ensures (exists j: nat :: j < |layers[..i + 1]| && k == GcKey(j)) || (k in before && now[k] == before[k])
    {
      if k == GcKey(i) {
        assert i < |layers[..i + 1]|;
      } else if j: nat :| j < |layers[..i]| && k == GcKey(j) {
        assert j < |layers[..i + 1]|;
      }
    }
  }

  /** Layers with their labels; the bootstrap layer's label is written last. */
  method LabelLayers(labels: map<string, string>, layers: seq<Descriptor>) returns (after: map<string, string>)
    ensures Labelled(labels, after, layers)
  {
    after := labels;
    for i := 0 to |layers|
      invariant Labelled(labels, after, layers[..i])
    {
      LabelNext(labels, after, layers, i);
      after := after[GcKey(i) := layers[i].digest];
    }
    assert layers[..|layers|] == layers;
  }

  function DiffIds(layers: seq<Descriptor>): seq<string> {
    seq(|layers|, i requires 0 <= i < |layers| => Get(layers[i].annotations, UNCOMPRESSED))
  }

  function Stripped(layers: seq<Descriptor>): seq<Descriptor> {
    seq(|layers|, i requires 0 <= i < |layers| => Strip(layers[i]))
  }

  /** Stripping takes that one annotation of each layer and nothing else. */
  lemma StrippedMeans(layers: seq<Descriptor>, i: nat, key: string)
    requires i < |layers|
    ensures |Stripped(layers)| == |layers|
    ensures var was, now := layers[i], Stripped(layers)[i];
            && now.digest == was.digest
            && (key in now.annotations <==> key in was.annotations && key != UNCOMPRESSED)
            && (key in now.annotations ==> now.annotations[key] == was.annotations[key])
  {
  }

  /** The loop that moves the uncompressed annotations into the config. */
  method MoveDiffIds(layers: seq<Descriptor>) returns (stripped: seq<Descriptor>, diffIds: seq<string>)
    ensures stripped == Stripped(layers) && diffIds == DiffIds(layers)
  {
    stripped, diffIds := layers, [];
    for i := 0 to |layers|
      invariant stripped == Stripped(layers)[..i] + layers[i..]
      invariant diffIds == DiffIds(layers)[..i]
    {
      diffIds := diffIds + [Get(layers[i].annotations, UNCOMPRESSED)];
      stripped := stripped[i := Strip(stripped[i])];
    }
  }

  function Digests(layers: seq<Descriptor>): seq<string> {
    seq(|layers|, i requires 0 <= i < |layers| => layers[i].digest)
  }

  ghost predicate IsNydusImage(layers: seq<Descriptor>) {
    layers != [] && IsBootstrap(layers[|layers| - 1])
  }

  /** The blobs of the converted image: the source blobs in order and, unless they refer to OCI layers,
      the blobs that come from the dictionary only. */
  function BlobDigests(layers: seq<Descriptor>, merged: seq<string>, opt: Options): (r: seq<string>)
    ensures |r| >= |layers| && (opt.ociRef ==> |r| == |layers|)
  {
    var sources := Digests(layers);
    if opt.ociRef then sources else sources + Missing(merged, sources)
  }

  function RefOf(layers: seq<Descriptor>, i: nat, opt: Options): Option<string>
    requires opt.ociRef ==> i < |layers|
  {
    if opt.ociRef then Some(Get(layers[i].annotations, REF_LAYER)) else None
  }

  function Blobs(layers: seq<Descriptor>, merged: seq<string>, opt: Options): seq<Descriptor> {
    var digests := BlobDigests(layers, merged, opt);
    seq(|digests|, i requires 0 <= i < |digests| =>
      BlobDesc(digests[i], RefOf(layers, i, opt), opt.encrypt))
  }

  /** The result of a conversion: the blobs and the bootstrap, each with its diff ID and its label. */
  ghost predicate Converted(before: Image, after: Image, merged: seq<string>, opt: Options, bootstrap: Descriptor) {
    var layers := Blobs(before.layers, merged, opt) + [bootstrap];
    && after.layers == Stripped(layers)
    && after.diffIds == DiffIds(layers)
    && after.history == before.history + [MARKER]
    && Labelled(before.labels, after.labels, layers)
  }

  /** The references to OCI layers can be read, where they are needed. */
  predicate RefsValid(layers: seq<Descriptor>, opt: Options, valid: string -> bool) {
    opt.ociRef ==> forall i :: 0 <= i < |layers| ==> valid(Get(layers[i].annotations, REF_LAYER))
  }

  /** `merged` lists the blobs of the merged bootstrap, `valid` recognises digests. */
  method ConvertManifest(image: Image, merged: seq<string>, opt: Options, valid: string -> bool, bootstrap: Descriptor)
    returns (out: Option<Image>)
    ensures IsNydusImage(image.layers) ==> out == Some(image)
    ensures !IsNydusImage(image.layers) ==> (out.Some? <==> RefsValid(image.layers, opt, valid))
    ensures !IsNydusImage(image.layers) && out.Some? ==> Converted(image, out.value, merged, opt, bootstrap)
  {
    var n := |image.layers|;
    if n > 0 && IsBootstrap(image.layers[n - 1]) {
      return Some(image);
    }
    if opt.ociRef {
      for i := 0 to |image.layers|
        invariant forall k :: 0 <= k < i ==> valid(Get(image.layers[k].annotations, REF_LAYER))
      {
        if !valid(Get(image.layers[i].annotations, REF_LAYER)) { return None; }
      }
    }
    var digests := Digests(image.layers);
    if !opt.ociRef {
      digests := MergeManifestBlobDigests(digests, merged);
    }
    var blobs := MakeBlobs(image.layers, digests, opt);
    assert blobs == Blobs(image.layers, merged, opt);
    var layers := blobs + [bootstrap];
    var labels := LabelLayers(image.labels, layers);
    var stripped, diffIds := MoveDiffIds(layers);
    out := Some(Image(stripped, diffIds, image.history + [MARKER], labels));
  }

  /** The loop of MergeLayers that describes the blobs. */
  method MakeBlobs(layers: seq<Descriptor>, digests: seq<string>, opt: Options) returns (blobs: seq<Descriptor>)
    requires opt.ociRef ==> |digests| == |layers|
    ensures |blobs| == |digests|
    ensures forall i :: 0 <= i < |digests| ==>
              blobs[i] == BlobDesc(digests[i], RefOf(layers, i, opt), opt.encrypt)
  {
    blobs := [];
    for i := 0 to |digests|
      invariant |blobs| == i
      invariant forall k :: 0 <= k < i ==>
                  blobs[k] == BlobDesc(digests[k], RefOf(layers, k, opt), opt.encrypt)
    {
      var annotations := map[UNCOMPRESSED := digests[i], BLOB := "true"];
      if opt.ociRef {
        annotations := annotations[REF_LAYER := Get(layers[i].annotations, REF_LAYER)];
      }
      if opt.encrypt {
        annotations := annotations[ENCRYPTED := "true"];
      }
      blobs := blobs + [Descriptor(digests[i], annotations)];
    }
  }

  // ---- ReconvertHookFunc ----

  function Kept(layers: seq<Descriptor>): seq<Descriptor> {
    if layers == [] then []
    else
      var last := layers[|layers| - 1];
      var before := Kept(layers[..|layers| - 1]);
      if IsBootstrap(last) then before else before + [last]
  }

  function LastBootstrap(layers: seq<Descriptor>): (i: int)
    ensures -1 <= i < |layers|
  {
    if layers == [] then -1
    else if IsBootstrap(layers[|layers| - 1]) then |layers| - 1
    else LastBootstrap(layers[..|layers| - 1])
  }

  function Without(s: seq<string>, i: int): seq<string> {
    if 0 <= i < |s| then s[..i] + s[i + 1..] else s
  }

  predicate IsMarker(h: History) {
    h.comment == MARKER.comment && h.createdBy == MARKER.createdBy
  }

  function Unmarked(history: seq<History>): seq<History> {
    if history == [] then []
    else
      var last := history[|history| - 1];
      var before := Unmarked(history[..|history| - 1]);
      if IsMarker(last) then before else before + [last]
  }

  const GC_CONTENT := "containerd.io/gc.ref.content"

  /** converter.ClearGCLabels */
  function Cleared(labels: map<string, string>, digest: string): map<string, string> {
    map k | k in labels && !(labels[k] == digest && HasPrefix(k, GC_CONTENT)) :: labels[k]
  }

  function ClearedAll(labels: map<string, string>, layers: seq<Descriptor>): map<string, string> {
    if layers == [] then labels
    else
      var before, last := ClearedAll(labels, layers[..|layers| - 1]), layers[|layers| - 1];
      if IsBootstrap(last) then Cleared(before, last.digest) else before
  }

  function Reconverted(image: Image): Image {
    Image(Kept(image.layers), Without(image.diffIds, LastBootstrap(image.layers)), Unmarked(image.history),
          ClearedAll(image.labels, image.layers))
  }

  method Reconvert(image: Image) returns (out: Image)
    ensures out == Reconverted(image)
  {
    var layersToKeep: seq<Descriptor>, labels := [], image.labels;
    var bootstrapIndex := -1;
    for i := 0 to |image.layers|
      invariant layersToKeep == Kept(image.layers[..i]) && bootstrapIndex == LastBootstrap(image.layers[..i])
      invariant labels == ClearedAll(image.labels, image.layers[..i])
    {
      assert image.layers[..i + 1][..i] == image.layers[..i];
      if IsBootstrap(image.layers[i]) {
        bootstrapIndex := i;
        labels := Cleared(labels, image.layers[i].digest);
      } else {
        layersToKeep := layersToKeep + [image.layers[i]];
      }
    }
    assert image.layers[..|image.layers|] == image.layers;
    var diffIds := image.diffIds;
    if bootstrapIndex != -1 && |diffIds| > bootstrapIndex {
      diffIds := diffIds[..bootstrapIndex] + diffIds[bootstrapIndex + 1..];
    }
    var newHistory := FilterHistory(image.history);
    out := Image(layersToKeep, diffIds, newHistory, labels);
  }

  method FilterHistory(history: seq<History>) returns (newHistory: seq<History>)
    ensures newHistory == Unmarked(history)
  {
    newHistory := [];
    for i := 0 to |history|
      invariant newHistory == Unmarked(history[..i])
    {
      assert history[..i + 1][..i] == history[..i];
      if !IsMarker(history[i]) {
        newHistory := newHistory + [history[i]];
      }
    }
    assert history[..|history|] == history;
  }

  // ---- Undoing a conversion ----

  lemma {:induction false} KeptAll(layers: seq<Descriptor>)
    requires forall i :: 0 <= i < |layers| ==> !IsBootstrap(layers[i])
    ensures Kept(layers) == layers && LastBootstrap(layers) == -1
  {
    if layers != [] {
      var front, last := layers[..|layers| - 1], layers[|layers| - 1];
      assert forall i :: 0 <= i < |front| ==> front[i] == layers[i];
      KeptAll(front);
      assert front + [last] == layers;
    }
  }

  lemma {:induction false} UnmarkedLength(history: seq<History>)
    ensures |Unmarked(history)| <= |history|
    ensures Unmarked(history) == history <==>
            forall i :: 0 <= i < |history| ==>
              history[i].comment != MARKER.comment || history[i].createdBy != MARKER.createdBy
  {
    if history != [] {
      UnmarkedLength(history[..|history| - 1]);
    }
  }

  /** Labels are only ever removed, and only references to a removed layer. */
  lemma {:induction false} ClearedMeans(labels: map<string, string>, layers: seq<Descriptor>, k: string)
    ensures k in ClearedAll(labels, layers) <==>
            && k in labels
            && !(HasPrefix(k, GC_CONTENT)
                 && exists i :: 0 <= i < |layers| && IsBootstrap(layers[i]) && layers[i].digest == labels[k])
    ensures k in ClearedAll(labels, layers) ==> ClearedAll(labels, layers)[k] == labels[k]
  {
    if layers != [] {
      var front, last := layers[..|layers| - 1], layers[|layers| - 1];
      ClearedMeans(labels, front, k);
      assert layers == front + [last];
    }
  }

  /** A blob layer as conversion leaves it: its diff ID is its digest, and it is no bootstrap. */
  predicate PlainBlob(b: Descriptor) {
    Get(b.annotations, UNCOMPRESSED) == b.digest && !IsBootstrap(b)
  }

  lemma BlobIsPlain(digest: string, ref: Option<string>, encrypt: bool)
    ensures PlainBlob(BlobDesc(digest, ref, encrypt)) && BlobDesc(digest, ref, encrypt).digest == digest
  {
    assert |UNCOMPRESSED| != |REF_LAYER| && |UNCOMPRESSED| != |ENCRYPTED| && |UNCOMPRESSED| != |BLOB|;
    assert |BOOTSTRAP| != |REF_LAYER| && |BOOTSTRAP| != |ENCRYPTED| && |BOOTSTRAP| != |BLOB|;
    assert |BOOTSTRAP| != |UNCOMPRESSED|;
  }

  lemma BlobsArePlain(layers: seq<Descriptor>, merged: seq<string>, opt: Options)
    ensures forall b :: b in Blobs(layers, merged, opt) ==> PlainBlob(b)
    ensures Digests(Blobs(layers, merged, opt)) == BlobDigests(layers, merged, opt)
  {
    var digests, blobs := BlobDigests(layers, merged, opt), Blobs(layers, merged, opt);
    forall i | 0 <= i < |digests| ensures PlainBlob(blobs[i]) && blobs[i].digest == digests[i] {
      BlobIsPlain(digests[i], RefOf(layers, i, opt), opt.encrypt);
    }
  }

  /** What reconversion leaves of the labels: those of the blobs, and of the others all that are no gc
      reference to the bootstrap. */
  ghost predicate LabelsRestored(before: map<string, string>, back: map<string, string>, blobs: seq<Descriptor>,
                                 boot: string) {
    && (forall i: nat :: i < |blobs| && blobs[i].digest != boot ==>
          GcKey(i) in back && back[GcKey(i)] == blobs[i].digest)
    && (forall k :: k in back && HasPrefix(k, GC_CONTENT) ==> back[k] != boot)
    && (forall k :: (forall i: nat :: i <= |blobs| ==> k != GcKey(i)) ==>
          && (k in back <==> k in before && !(HasPrefix(k, GC_CONTENT) && before[k] == boot))
          && (k in back ==> back[k] == before[k]))
  }

  /** Reconverting a converted image gives back the blob layers with their diff IDs, leaves exactly the
      labels that do not refer to the bootstrap, and gives back the history exactly when the original
      history had no entry that looks like the marker. */
  lemma ReconvertUndoes(before: Image, after: Image, merged: seq<string>, opt: Options, bootstrap: Descriptor)
    requires Converted(before, after, merged, opt, bootstrap) && IsBootstrap(bootstrap)
    ensures var blobs, back := Blobs(before.layers, merged, opt), Reconverted(after);
            && back.layers == Stripped(blobs)
            && back.diffIds == BlobDigests(before.layers, merged, opt)
            && LabelsRestored(before.labels, back.labels, blobs, bootstrap.digest)
            && (back.history == before.history <==>
                forall i :: 0 <= i < |before.history| ==>
                  before.history[i].comment != MARKER.comment || before.history[i].createdBy != MARKER.createdBy)
  {
    var blobs := Blobs(before.layers, merged, opt);
    BlobsArePlain(before.layers, merged, opt);
    LayersBack(blobs, bootstrap);
    LabelsBack(before.labels, after.labels, blobs, bootstrap);
    assert after.history[..|after.history| - 1] == before.history;
    UnmarkedLength(before.history);
  }

  lemma StripKeepsKind(d: Descriptor)
    ensures IsBootstrap(Strip(d)) <==> IsBootstrap(d)
  {
    assert |BOOTSTRAP| != |UNCOMPRESSED|;
  }

  lemma LayersBack(blobs: seq<Descriptor>, bootstrap: Descriptor)
    requires (forall b :: b in blobs ==> PlainBlob(b)) && IsBootstrap(bootstrap)
    ensures var layers := blobs + [bootstrap];
            && Kept(Stripped(layers)) == Stripped(blobs)
            && Without(DiffIds(layers), LastBootstrap(Stripped(layers))) == Digests(blobs)
  {
    var layers, n := blobs + [bootstrap], |blobs|;
    StripKeepsKind(bootstrap);
    assert forall i :: 0 <= i < n ==> !IsBootstrap(Stripped(blobs)[i]) by {
      forall i | 0 <= i < n ensures !IsBootstrap(Stripped(blobs)[i]) {
        assert PlainBlob(blobs[i]);
        StripKeepsKind(blobs[i]);
      }
    }
    KeptAll(Stripped(blobs));
    assert Stripped(layers)[..n] == Stripped(blobs) && Stripped(layers)[n] == Strip(bootstrap);
    DiffIdsBack(blobs, bootstrap);
  }

  lemma DiffIdsBack(blobs: seq<Descriptor>, bootstrap: Descriptor)
    requires forall b :: b in blobs ==> PlainBlob(b)
    ensures Without(DiffIds(blobs + [bootstrap]), |blobs|) == Digests(blobs)
  {
    var ids, n := DiffIds(blobs + [bootstrap]), |blobs|;
    forall i | 0 <= i < n ensures ids[i] == Digests(blobs)[i] {
      assert PlainBlob(blobs[i]);
    }
    assert ids[..n] == Digests(blobs) && ids[n + 1..] == [];
  }

  /** Only the bootstrap among the stripped layers is a bootstrap. */
  lemma OnlyBootstrap(blobs: seq<Descriptor>, bootstrap: Descriptor, digest: string)
    requires (forall b :: b in blobs ==> PlainBlob(b)) && IsBootstrap(bootstrap)
    ensures var stripped := Stripped(blobs + [bootstrap]);
            (exists i :: 0 <= i < |stripped| && IsBootstrap(stripped[i]) && stripped[i].digest == digest)
            <==> digest == bootstrap.digest
  {
    var stripped, n := Stripped(blobs + [bootstrap]), |blobs|;
    StripKeepsKind(bootstrap);
    forall i | 0 <= i < n ensures !IsBootstrap(stripped[i]) {
      StripKeepsKind(blobs[i]);
      assert blobs[i] in blobs;
    }
    assert stripped[n] == Strip(bootstrap);
  }

  lemma LabelsBack(before: map<string, string>, after: map<string, string>, blobs: seq<Descriptor>,
                   bootstrap: Descriptor)
    requires (forall b :: b in blobs ==> PlainBlob(b)) && IsBootstrap(bootstrap)
    requires Labelled(before, after, blobs + [bootstrap])
    ensures LabelsRestored(before, ClearedAll(after, Stripped(blobs + [bootstrap])), blobs, bootstrap.digest)
  {
    var layers := blobs + [bootstrap];
    var back := ClearedAll(after, Stripped(layers));
    forall k
      ensures k in back <==> k in after && !(HasPrefix(k, GC_CONTENT) && after[k] == bootstrap.digest)
      ensures k in back ==> back[k] == after[k]
    {
      ClearedMeans(after, Stripped(layers), k);
      if k in after {
        OnlyBootstrap(blobs, bootstrap, after[k]);
      }
    }
    RestoredFrom(before, after, back, blobs, bootstrap);
  }

  lemma RestoredFrom(before: map<string, string>, after: map<string, string>, back: map<string, string>,
                     blobs: seq<Descriptor>, bootstrap: Descriptor)
    requires Labelled(before, after, blobs + [bootstrap])
    requires forall k :: k in back <==> k in after && !(HasPrefix(k, GC_CONTENT) && after[k] == bootstrap.digest)
    requires forall k :: k in back ==> back[k] == after[k]
    ensures LabelsRestored(before, back, blobs, bootstrap.digest)
  {
    var layers := blobs + [bootstrap];
    forall i: nat | i < |blobs| && blobs[i].digest != bootstrap.digest
      ensures GcKey(i) in back && back[GcKey(i)] == blobs[i].digest
    {
      assert layers[i] == blobs[i];
    }
    forall k | forall i: nat :: i <= |blobs| ==> k != GcKey(i)
      ensures k in before <==> k in after
      ensures k in before ==> after[k] == before[k]
    {
      assert k in after ==> k in before && after[k] == before[k];
    }
  }

  // ---- When reconversion keeps layers and diff IDs in step ----

  function Bootstraps(layers: seq<Descriptor>): nat {
    if layers == [] then 0
    else Bootstraps(layers[..|layers| - 1]) + if IsBootstrap(layers[|layers| - 1]) then 1 else 0
  }

  lemma {:induction false} KeptLength(layers: seq<Descriptor>)
    ensures |Kept(layers)| + Bootstraps(layers) == |layers|
    ensures Bootstraps(layers) == 0 <==> LastBootstrap(layers) == -1
  {
    if layers != [] {
      KeptLength(layers[..|layers| - 1]);
    }
  }

  /** All bootstrap layers go, but only the last one's diff ID: layers and diff IDs stay equally many
      exactly when there is at most one bootstrap layer. */
  lemma StaysInStep(image: Image)
    requires |image.layers| == |image.diffIds|
    ensures |Reconverted(image).layers| == |Reconverted(image).diffIds| <==> Bootstraps(image.layers) <= 1
  {
    KeptLength(image.layers);
  }
}
