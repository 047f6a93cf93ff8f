/** Garbage collection of the blob cache: the file names of pkg/cache/manager.go, the unused blobs of
    getUnusedCacheBlobs and their removal by Cleanup (snapshot/snapshot.go), for the drivers that keep
    their cache in files. */
module CacheGc {

  predicate HasSuffix(s: string, t: string) {
    |t| <= |s| && s[|s| - |t|..] == t
  }

  const DATA := ".blob.data"
  const DATA_CHUNK_MAP := ".blob.data.chunk_map"
  const CHUNK_MAP := ".chunk_map"
  const META := ".blob.meta"
  const IMAGE_DISK := ".image.disk"
  const LAYER_DISK := ".layer.disk"

  /** In the order in which they are tried */
  const SUFFIXES := [DATA, DATA_CHUNK_MAP, CHUNK_MAP, META, IMAGE_DISK, LAYER_DISK]

  /** The name without the first suffix of the list that it has. */
  function Extract(name: string, suffixes: seq<string>): string {
    if suffixes == [] then name
    else if HasSuffix(name, suffixes[0]) then name[..|name| - |suffixes[0]|]
    else Extract(name, suffixes[1..])
  }

  method ExtractBlobIdFromFilename(name: string) returns (id: string)
    ensures id == Extract(name, SUFFIXES)
  {
    assert SUFFIXES[0..] == SUFFIXES;
    for i := 0 to |SUFFIXES|
      invariant Extract(name, SUFFIXES) == Extract(name, SUFFIXES[i..])
    {
      assert SUFFIXES[i..][1..] == SUFFIXES[i + 1..];
      if HasSuffix(name, SUFFIXES[i]) {
        return name[..|name| - |SUFFIXES[i]|];
      }
    }
    id := name;
  }

  /** The files of one blob */
  function Names(id: string): set<string> {
    {id + CHUNK_MAP, id + DATA_CHUNK_MAP, id + META, id, id + DATA, id + IMAGE_DISK, id + LAYER_DISK}
  }

  // ---- Names and IDs ----

  /** A suffix that begins with a dot cannot reach into an ID without dots. */
  lemma SuffixBeyondId(id: string, s: string, t: string)
    requires '.' !in id && t != "" && t[0] == '.'
    ensures HasSuffix(id + s, t) <==> HasSuffix(s, t)
  {
    var name := id + s;
    if |t| <= |name| {
      var at := |name| - |t|;
      if at < |id| {
        assert name[at..][0] == id[at];
        assert id[at] in id;
      } else {
        assert name[at..] == s[at - |id|..];
      }
    }
  }

  ghost predicate Dotted(suffixes: seq<string>) {
    forall i :: 0 <= i < |suffixes| ==> suffixes[i] != "" && suffixes[i][0] == '.'
  }

  /** No suffix hides a later one. */
  ghost predicate Ordered(suffixes: seq<string>) {
    forall i, j :: 0 <= i < j < |suffixes| ==> !HasSuffix(suffixes[j], suffixes[i])
  }

  lemma {:induction false} ExtractInverts(id: string, suffixes: seq<string>, k: nat)
    requires '.' !in id && Dotted(suffixes) && Ordered(suffixes) && k < |suffixes|
    ensures Extract(id + suffixes[k], suffixes) == id
  {
    var name := id + suffixes[k];
    SuffixBeyondId(id, suffixes[k], suffixes[0]);
    if k == 0 {
      assert name[..|name| - |suffixes[0]|] == id;
    } else {
      ExtractInverts(id, suffixes[1..], k - 1);
    }
  }

  lemma {:induction false} ExtractBare(id: string, suffixes: seq<string>)
    requires '.' !in id && Dotted(suffixes)
    ensures Extract(id, suffixes) == id
  {
    if suffixes != [] {
      assert id + "" == id;
      SuffixBeyondId(id, "", suffixes[0]);
      ExtractBare(id, suffixes[1..]);
    }
  }

  lemma {:induction false} ExtractedFrom(name: string, suffixes: seq<string>)
    ensures var id := Extract(name, suffixes);
            name == id || exists k :: 0 <= k < |suffixes| && name == id + suffixes[k]
  {
    if suffixes != [] {
      if HasSuffix(name, suffixes[0]) {
        assert name == name[..|name| - |suffixes[0]|] + suffixes[0];
      } else {
        ExtractedFrom(name, suffixes[1..]);
        var id := Extract(name, suffixes);
        if name != id {
          var k :| 0 <= k < |suffixes[1..]| && name == id + suffixes[1..][k];
          assert name == id + suffixes[k + 1];
        }
      }
    }
  }

  lemma OrderedSix(a: string, b: string, c: string, d: string, e: string, f: string)
    requires !HasSuffix(b, a) && !HasSuffix(c, a) && !HasSuffix(d, a) && !HasSuffix(e, a) && !HasSuffix(f, a)
    requires !HasSuffix(c, b) && !HasSuffix(d, b) && !HasSuffix(e, b) && !HasSuffix(f, b)
    requires !HasSuffix(d, c) && !HasSuffix(e, c) && !HasSuffix(f, c)
    requires !HasSuffix(e, d) && !HasSuffix(f, d) && !HasSuffix(f, e)
    ensures Ordered([a, b, c, d, e, f])
  {
  }

  lemma DottedSix(a: string, b: string, c: string, d: string, e: string, f: string)
    requires a != "" && b != "" && c != "" && d != "" && e != "" && f != ""
    requires a[0] == b[0] == c[0] == d[0] == e[0] == f[0] == '.'
    ensures Dotted([a, b, c, d, e, f])
  {
  }

  lemma AfterData()
    ensures !HasSuffix(DATA_CHUNK_MAP, DATA) && !HasSuffix(CHUNK_MAP, DATA) && !HasSuffix(META, DATA)
    ensures !HasSuffix(IMAGE_DISK, DATA) && !HasSuffix(LAYER_DISK, DATA)
  {
    DiffersAt(DATA_CHUNK_MAP, DATA, 0);
    DiffersAt(CHUNK_MAP, DATA, 0);
    DiffersAt(META, DATA, 3);
    DiffersAt(IMAGE_DISK, DATA, 0);
    DiffersAt(LAYER_DISK, DATA, 0);
  }

  lemma AfterChunkMap()
    ensures !HasSuffix(META, CHUNK_MAP) && !HasSuffix(IMAGE_DISK, CHUNK_MAP) && !HasSuffix(LAYER_DISK, CHUNK_MAP)
  {
    DiffersAt(META, CHUNK_MAP, 0);
    DiffersAt(IMAGE_DISK, CHUNK_MAP, 0);
    DiffersAt(LAYER_DISK, CHUNK_MAP, 0);
  }

  lemma AfterMeta()
    ensures !HasSuffix(IMAGE_DISK, META) && !HasSuffix(LAYER_DISK, META) && !HasSuffix(LAYER_DISK, IMAGE_DISK)
  {
    DiffersAt(IMAGE_DISK, META, 0);
    DiffersAt(LAYER_DISK, META, 0);
    DiffersAt(LAYER_DISK, IMAGE_DISK, 5);
  }

  lemma TableOrdered()
    ensures Dotted(SUFFIXES) && Ordered(SUFFIXES)
  {
    AfterData();
    AfterChunkMap();
    AfterMeta();
    DottedSix(DATA, DATA_CHUNK_MAP, CHUNK_MAP, META, IMAGE_DISK, LAYER_DISK);
    OrderedSix(DATA, DATA_CHUNK_MAP, CHUNK_MAP, META, IMAGE_DISK, LAYER_DISK);
  }

  lemma DiffersAt(s: string, t: string, back: nat)
    requires back < |s| && back < |t| && s[|s| - 1 - back] != t[|t| - 1 - back]
    ensures !HasSuffix(s, t)
  {
    if |t| <= |s| {
      assert s[|s| - |t|..][|t| - 1 - back] == s[|s| - 1 - back];
    }
  }

  /** A bare ID, or an ID with one of the suffixes */
  ghost predicate Named(id: string, suffixes: seq<string>, name: string) {
    name == id || exists k :: 0 <= k < |suffixes| && name == id + suffixes[k]
  }

  lemma NamedIsExtracted(id: string, suffixes: seq<string>, name: string)
    requires '.' !in id && Dotted(suffixes) && Ordered(suffixes)
    ensures Named(id, suffixes, name) <==> Extract(name, suffixes) == id
  {
    ExtractedFrom(name, suffixes);
    ExtractBare(id, suffixes);
    forall k | 0 <= k < |suffixes| ensures Extract(id + suffixes[k], suffixes) == id {
      ExtractInverts(id, suffixes, k);
    }
  }

  lemma SevenNames(id: string, name: string)
    ensures name in Names(id) <==> Named(id, SUFFIXES, name)
  {
    assert SUFFIXES[0] == DATA && SUFFIXES[1] == DATA_CHUNK_MAP && SUFFIXES[2] == CHUNK_MAP;
    assert SUFFIXES[3] == META && SUFFIXES[4] == IMAGE_DISK && SUFFIXES[5] == LAYER_DISK;
  }

  /** For an ID without dots, the seven names are exactly the file names it is extracted from. */
  lemma NamesAreExtracted(id: string, name: string)
    requires '.' !in id
    ensures name in Names(id) <==> Extract(name, SUFFIXES) == id
  {
    TableOrdered();
    NamedIsExtracted(id, SUFFIXES, name);
    SevenNames(id, name);
  }

  lemma NamesDisjoint(a: string, b: string)
    requires '.' !in a && '.' !in b && a != b
    ensures Names(a) !! Names(b)
  {
    forall name | name in Names(a) ensures name !in Names(b) {
      NamesAreExtracted(a, name);
      NamesAreExtracted(b, name);
    }
  }

  // ---- Cleanup ----

  /** The hexadecimal part of a valid sha256 digest */
  predicate ValidHex(s: string) {
    |s| == 64 && forall i :: 0 <= i < |s| ==> '0' <= s[i] <= '9' || 'a' <= s[i] <= 'f'
  }

  lemma HexDigit(c: char)
    ensures c in "0123456789abcdef" <==> '0' <= c <= '9' || 'a' <= c <= 'f'
  {
    var digits := "0123456789abcdef";
    if '0' <= c <= '9' {
      assert digits[c as int - '0' as int] == c;
    } else if 'a' <= c <= 'f' {
      assert digits[c as int - 'a' as int + 10] == c;
    }
  }

  lemma HexDigits(s: string, digits: string)
    requires digits == "0123456789abcdef"
    ensures ValidHex(s) <==> |s| == 64 && forall c :: c in s ==> c in digits
  {
    forall c ensures c in digits <==> '0' <= c <= '9' || 'a' <= c <= 'f' {
      HexDigit(c);
    }
    if |s| == 64 && forall c :: c in s ==> c in digits {
      assert forall i :: 0 <= i < |s| ==> s[i] in s;
    }
  }

  /** RemoveBlobCache: files that are not there are skipped. */
  method RemoveBlobCache(files: set<string>, id: string) returns (left: set<string>)
    ensures left == files - Names(id)
  {
    var stuffs := [id + CHUNK_MAP, id + DATA_CHUNK_MAP, id + META, id, id + DATA, id + IMAGE_DISK, id + LAYER_DISK];
    left := files;
    for i := 0 to |stuffs|
      invariant left == files - set f | f in stuffs[..i]
    {
      assert stuffs[..i + 1] == stuffs[..i] + [stuffs[i]];
      if stuffs[i] in left {
        left := left - {stuffs[i]};
      }
    }
    assert stuffs[..|stuffs|] == stuffs;
    assert (set f | f in stuffs) == Names(id);
  }

  /** Some underlying file of a mounted instance belongs to the blob. */
  ghost predicate InUse(underlying: seq<string>, id: string) {
    exists i :: 0 <= i < |underlying| && Extract(underlying[i], SUFFIXES) == id
  }

  method UsedBlobIds(underlying: seq<string>) returns (used: set<string>)
    ensures forall id :: id in used <==> id != "" && InUse(underlying, id)
  {
    used := {};
    for i := 0 to |underlying|
      invariant forall id :: id in used <==> id != "" && InUse(underlying[..i], id)
    {
      var id := ExtractBlobIdFromFilename(underlying[i]);
      assert underlying[..i + 1] == underlying[..i] + [underlying[i]];
      if id != "" {
        used := used + {id};
      }
    }
    assert underlying[..|underlying|] == underlying;
  }

  /** getUnusedCacheBlobs, on the names of the regular files in the cache directory. */
  method UnusedCacheBlobs(entries: seq<string>, used: set<string>) returns (unused: set<string>)
    ensures forall id :: id in unused <==>
              id != "" && id !in used && exists i :: 0 <= i < |entries| && Extract(entries[i], SUFFIXES) == id
  {
    unused := {};
    for i := 0 to |entries|
      invariant forall id :: id in unused <==>
                  id != "" && id !in used && exists k :: 0 <= k < i && Extract(entries[k], SUFFIXES) == id
    {
      var id := ExtractBlobIdFromFilename(entries[i]);
      if id != "" && id !in used {
        unused := unused + {id};
      }
    }
  }

  /** Cleanup of the cache: a file whose name belongs to a valid digest stays exactly when a mounted
      instance uses the blob; every other file stays. */
  method Cleanup(entries: seq<string>, underlying: seq<string>) returns (left: set<string>)
    ensures forall f :: f in left <==>
              f in entries && (ValidHex(Extract(f, SUFFIXES)) ==> InUse(underlying, Extract(f, SUFFIXES)))
  {
    var used := UsedBlobIds(underlying);
    left := RemoveUnused(entries, used);
  }

  method RemoveUnused(entries: seq<string>, used: set<string>) returns (left: set<string>)
    ensures left == set f | f in entries && (ValidHex(Extract(f, SUFFIXES)) ==> Extract(f, SUFFIXES) in used)
  {
    var unused := UnusedCacheBlobs(entries, used);
    left := set f | f in entries;
    ghost var gone: set<string> := {};
    var todo := unused;
    while todo != {}
      invariant gone !! todo && gone + todo == unused
      invariant left == set f | f in entries && !(ValidHex(Extract(f, SUFFIXES)) && Extract(f, SUFFIXES) in gone)
    {
      var id :| id in todo;
      if ValidHex(id) {
        ghost var before := left;
        left := RemoveBlobCache(left, id);
        forall f | f in before ensures f in left <==> Extract(f, SUFFIXES) != id {
          NamesAreExtracted(id, f);
        }
      }
      todo := todo - {id};
      gone := gone + {id};
    }
    forall f | f in entries && ValidHex(Extract(f, SUFFIXES))
      ensures Extract(f, SUFFIXES) in unused <==> Extract(f, SUFFIXES) !in used
    {
      var i :| 0 <= i < |entries| && entries[i] == f;
    }
  }
}
