/** The nydus archive of pkg/converter/convert_unix.go.  A member is its data with a 512-byte tar header
    behind it, and the optional last member is a table of contents made of 128-byte records.  The archive
    is read from its tail: seekFileByTarHeader, seekFileByTOC and seekFile.  The two library decoders,
    the archive/tar header reader and zstd, are parameters. */
module Archive {
  import opened Base

  const HEADER_SIZE := 512
  const TOC_ENTRY_SIZE := 128
  const MAX_TOC_SIZE := 0x10_0000
  const ENTRY_TOC := "rafs.blob.toc"

  datatype Header = Header(name: string, size: nat)

  /** A result, the source's ErrNotFound, or any other error. */
  datatype Outcome<+T> = Found(value: T) | NotFound | Failed

  /** (*tar.Reader).Next on the bytes from the current offset on. */
  type TarNext = seq<byte> -> Option<Header>

  type Zstd = seq<byte> -> Option<seq<byte>>

  // ---- Walking the headers from the tail ----

  /** A header found at `at`, whose data lies in the `hdr.size` bytes before it. */
  datatype Section = Section(hdr: Header, at: nat)

  ghost predicate InBounds(blob: seq<byte>, s: Section) {
    s.hdr.size <= s.at && s.at + HEADER_SIZE <= |blob|
  }

  /** The sections met from the header at `cur` towards the head, and whether the walk reached the
      head without meeting a malformed header. */
  function Walk(blob: seq<byte>, next: TarNext, cur: int): (r: (seq<Section>, bool))
    requires cur + HEADER_SIZE <= |blob|
    ensures forall s :: s in r.0 ==> InBounds(blob, s)
    decreases cur + HEADER_SIZE
  {
    if cur < 0 then ([], true)
    else
      var h := next(blob[cur..]);
      if h.None? || h.value.size > cur then ([], false)
      else
        var rest := Walk(blob, next, cur - h.value.size - HEADER_SIZE);
        ([Section(h.value, cur)] + rest.0, rest.1)
  }

  /** The first section of that name, if any. */
  function FirstNamed(sections: seq<Section>, name: string): (r: Option<Section>)
    ensures r.Some? ==> r.value in sections
  {
    if sections == [] then None
    else if sections[0].hdr.name == name then Some(sections[0])
    else FirstNamed(sections[1..], name)
  }

  function SectionData(blob: seq<byte>, s: Section): seq<byte>
    requires s.hdr.size <= s.at <= |blob|
  {
    blob[s.at - s.hdr.size..s.at]
  }

  /** What looking up `target` in a walked archive gives. */
  function Lookup(blob: seq<byte>, walked: (seq<Section>, bool), target: string, maxSize: Option<nat>)
    : Outcome<seq<byte>>
    requires forall s :: s in walked.0 ==> InBounds(blob, s)
  {
    var s := FirstNamed(walked.0, target);
    if s.Some? then
      assert InBounds(blob, s.value);
      if maxSize.Some? && s.value.hdr.size > maxSize.value then Failed else Found(SectionData(blob, s.value))
    else if walked.1 then NotFound
    else Failed
  }

  lemma LookupStep(blob: seq<byte>, s: Section, rest: (seq<Section>, bool), target: string, maxSize: Option<nat>)
    requires InBounds(blob, s) && forall x :: x in rest.0 ==> InBounds(blob, x)
    ensures Lookup(blob, ([s] + rest.0, rest.1), target, maxSize)
            == if s.hdr.name != target then Lookup(blob, rest, target, maxSize)
               else if maxSize.Some? && s.hdr.size > maxSize.value then Failed
               else Found(SectionData(blob, s))
  {
    assert ([s] + rest.0)[1..] == rest.0;
  }

  function ByHeader(blob: seq<byte>, next: TarNext, target: string, maxSize: Option<nat>): Outcome<seq<byte>> {
    if HEADER_SIZE > |blob| then Failed
    else Lookup(blob, Walk(blob, next, |blob| - HEADER_SIZE), target, maxSize)
  }

  /** seekFileByTarHeader: for arbitrary bytes it terminates, reads in bounds, and finds what a full
      walk of the archive would. */
  method SeekFileByTarHeader(blob: seq<byte>, next: TarNext, target: string, maxSize: Option<nat>)
    returns (r: Outcome<seq<byte>>)
    ensures r == ByHeader(blob, next, target, maxSize)
  {
    if HEADER_SIZE > |blob| {
      return Failed;
    }
    var cur: int := |blob| - HEADER_SIZE;
    while true
      invariant 0 <= cur <= |blob| - HEADER_SIZE
      invariant Lookup(blob, Walk(blob, next, cur), target, maxSize) == ByHeader(blob, next, target, maxSize)
      decreases cur
    {
      var h := next(blob[cur..]);
      if h.None? {
        return Failed;
      }
      var hdr := h.value;
      if cur < hdr.size {
        return Failed;
      }
      ghost var rest := Walk(blob, next, cur - hdr.size - HEADER_SIZE);
      LookupStep(blob, Section(hdr, cur), rest, target, maxSize);
      if hdr.name == target {
        if maxSize.Some? && hdr.size > maxSize.value {
          return Failed;
        }
        return Found(blob[cur - hdr.size..cur]);
      }
      cur := cur - hdr.size - HEADER_SIZE;
      if cur < 0 {
        break;
      }
    }
    r := NotFound;
  }

  // ---- Printed archives ----

  /** An archive member: its data and the 512-byte header block that follows it. */
  datatype Entry = Entry(name: string, data: seq<byte>, block: seq<byte>)

  function Print(entries: seq<Entry>): seq<byte> {
    if entries == [] then []
    else
      var n := |entries| - 1;
      Print(entries[..n]) + entries[n].data + entries[n].block
  }

  /** The header blocks are what the tar reader turns back into name and size. */
  ghost predicate Readable(entries: seq<Entry>, next: TarNext) {
    forall e :: e in entries ==>
      && |e.block| == HEADER_SIZE
      && (forall rest :: next(e.block + rest) == Some(Header(e.name, |e.data|)))
  }

  /** The last entry of a name. */
  function LastNamed(entries: seq<Entry>, name: string): (r: Option<nat>)
    ensures r.Some? ==> r.value < |entries| && entries[r.value].name == name
    ensures forall j :: 0 <= j < |entries| && entries[j].name == name ==> r.Some? && j <= r.value
  {
    if entries == [] then None
    else
      var n := |entries| - 1;
      if entries[n].name == name then Some(n) else LastNamed(entries[..n], name)
  }

  lemma WalkStep(blob: seq<byte>, next: TarNext, cur: nat, h: Header, target: string, maxSize: Option<nat>)
    requires cur + HEADER_SIZE <= |blob| && next(blob[cur..]) == Some(h) && h.size <= cur
    ensures SeekFrom(blob, next, cur, target, maxSize)
            == if h.name != target then SeekFrom(blob, next, cur - h.size - HEADER_SIZE, target, maxSize)
               else if maxSize.Some? && h.size > maxSize.value then Failed
               else Found(SectionData(blob, Section(h, cur)))
  {
    LookupStep(blob, Section(h, cur), Walk(blob, next, cur - h.size - HEADER_SIZE), target, maxSize);
  }

  /** Where the last printed entry lies in a blob that starts with the print. */
  lemma LastPrinted(entries: seq<Entry>, blob: seq<byte>)
    requires entries != [] && Print(entries) <= blob
    ensures var e, front := entries[|entries| - 1], Print(entries[..|entries| - 1]);
            && front <= blob
            && |Print(entries)| == |front| + |e.data| + |e.block|
            && blob[|front|..|front| + |e.data|] == e.data
            && blob[|front| + |e.data|..] == e.block + blob[|Print(entries)|..]
  {
    var e, front := entries[|entries| - 1], Print(entries[..|entries| - 1]);
    assert Print(entries) == front + e.data + e.block;
    ThreeParts(front, e.data, e.block, blob);
  }

  lemma ThreeParts<T>(a: seq<T>, b: seq<T>, c: seq<T>, blob: seq<T>)
    requires a + b + c <= blob
    ensures a <= blob && blob[|a|..|a| + |b|] == b && blob[|a| + |b|..] == c + blob[|a + b + c|..]
  {
    var n, m := |a| + |b|, |a + b + c|;
    assert blob[..m] == a + b + c;
    assert a == (a + b + c)[..|a|] == blob[..|a|];
    assert b == (a + b + c)[|a|..n] == blob[..m][|a|..n] == blob[|a|..n];
    assert c == (a + b + c)[n..] == blob[..m][n..] == blob[n..m];
    assert blob[n..] == blob[n..m] + blob[m..];
  }

  /** What a lookup in the entries gives. */
  function InEntries(entries: seq<Entry>, target: string, maxSize: Option<nat>): Outcome<seq<byte>> {
    var last := LastNamed(entries, target);
    if last.None? then NotFound
    else if maxSize.Some? && |entries[last.value].data| > maxSize.value then Failed
    else Found(entries[last.value].data)
  }

  function SeekFrom(blob: seq<byte>, next: TarNext, cur: int, target: string, maxSize: Option<nat>): Outcome<seq<byte>>
    requires cur + HEADER_SIZE <= |blob|
  {
    Lookup(blob, Walk(blob, next, cur), target, maxSize)
  }

  lemma InEntriesLast(entries: seq<Entry>, target: string, maxSize: Option<nat>)
    requires entries != []
    ensures var e := entries[|entries| - 1];
            InEntries(entries, target, maxSize)
            == if e.name != target then InEntries(entries[..|entries| - 1], target, maxSize)
               else if maxSize.Some? && |e.data| > maxSize.value then Failed
               else Found(e.data)
  {
  }

  /** One member is passed or handed over. */
  lemma WalkLast(entries: seq<Entry>, blob: seq<byte>, next: TarNext, target: string, maxSize: Option<nat>, at: nat)
    requires entries != [] && at == |Print(entries[..|entries| - 1])|
    requires var e := entries[|entries| - 1];
             && at + |e.data| + HEADER_SIZE <= |blob|
             && blob[at..at + |e.data|] == e.data
             && next(blob[at + |e.data|..]) == Some(Header(e.name, |e.data|))
    requires SeekFrom(blob, next, at - HEADER_SIZE, target, maxSize)
             == InEntries(entries[..|entries| - 1], target, maxSize)
    ensures SeekFrom(blob, next, at + |entries[|entries| - 1].data|, target, maxSize)
         == InEntries(entries, target, maxSize)
  {
    var e := entries[|entries| - 1];
    InEntriesLast(entries, target, maxSize);
    WalkStep(blob, next, at + |e.data|, Header(e.name, |e.data|), target, maxSize);
  }

  lemma {:induction false} WalkPrinted(entries: seq<Entry>, blob: seq<byte>, next: TarNext, target: string,
                                       maxSize: Option<nat>)
    requires Readable(entries, next) && Print(entries) <= blob
    ensures SeekFrom(blob, next, |Print(entries)| - HEADER_SIZE, target, maxSize) == InEntries(entries, target, maxSize)
  {
    if entries != [] {
      var e, front := entries[|entries| - 1], entries[..|entries| - 1];
      LastPrinted(entries, blob);
      assert e in entries;
      WalkPrinted(front, blob, next, target, maxSize);
      WalkLast(entries, blob, next, target, maxSize, |Print(front)|);
    }
  }

  /** The backward seek over a printed archive hands over exactly the data of the last entry of that
      name, and reports not-found exactly when there is none. */
  lemma SeekPrinted(entries: seq<Entry>, next: TarNext, target: string, maxSize: Option<nat>)
    requires entries != [] && Readable(entries, next)
    ensures ByHeader(Print(entries), next, target, maxSize) == InEntries(entries, target, maxSize)
  {
    assert entries[|entries| - 1] in entries;
    WalkPrinted(entries, Print(entries), next, target, maxSize);
  }
}
