/** The table of contents at the end of a nydus archive (pkg/converter/types.go and seekFileByTOC,
    seekFile in pkg/converter/convert_unix.go): fixed-size records that name an entry and give the
    place of its bytes, with the header walk as the fallback. */
module Toc {
  import opened Base
  import opened Decimal
  import opened Archive

  // ---- Record layout ----

  /** binary.LittleEndian */
  function FromLe(b: seq<byte>): nat {
    if b == [] then 0 else b[0] + 256 * FromLe(b[1..])
  }

  function ToLe(n: nat, k: nat): (b: seq<byte>)
    ensures |b| == k
    decreases k
  {
    if k == 0 then [] else [n % 256] + ToLe(n / 256, k - 1)
  }

  function Pow256(k: nat): nat {
    if k == 0 then 1 else 256 * Pow256(k - 1)
  }

  lemma {:induction false} LeRoundTrip(n: nat, k: nat)
    requires n < Pow256(k)
    ensures FromLe(ToLe(n, k)) == n
    decreases k
  {
    if k > 0 {
      LeRoundTrip(n / 256, k - 1);
      assert ([n % 256] + ToLe(n / 256, k - 1))[1..] == ToLe(n / 256, k - 1);
    }
  }

  /** The fields of a record the readers use. */
  datatype Record = Record(flags: nat, name: seq<byte>, offset: nat, size: nat)

  function Decode(rec: seq<byte>): Record
    requires |rec| == TOC_ENTRY_SIZE
  {
    Record(FromLe(rec[0..4]), rec[8..24], FromLe(rec[56..64]), FromLe(rec[64..72]))
  }

  /** A record as the builder lays it out: 124 bytes of fields and 4 bytes of padding. */
  function Encode(r: Record, digest: seq<byte>, rawSize: nat): (rec: seq<byte>)
    requires |r.name| == 16 && |digest| == 32
    ensures |rec| == TOC_ENTRY_SIZE
  {
    var tail := ToLe(rawSize, 8) + ToLe(0, 48);
    ToLe(r.flags, 4) + (ToLe(0, 4) + (r.name + (digest + (ToLe(r.offset, 8) + (ToLe(r.size, 8) + tail)))))
  }

  lemma Layout(flags: seq<byte>, zero: seq<byte>, name: seq<byte>, digest: seq<byte>, off: seq<byte>, size: seq<byte>,
               tail: seq<byte>)
    requires |flags| == 4 && |zero| == 4 && |name| == 16 && |digest| == 32 && |off| == 8 && |size| == 8
    ensures var rec := flags + (zero + (name + (digest + (off + (size + tail)))));
            rec[0..4] == flags && rec[8..24] == name && rec[56..64] == off && rec[64..72] == size
  {
  }

  lemma DecodeOfEncode(r: Record, digest: seq<byte>, rawSize: nat)
    requires |r.name| == 16 && |digest| == 32
    requires r.flags < Pow256(4) && r.offset < Pow256(8) && r.size < Pow256(8)
    ensures Decode(Encode(r, digest, rawSize)) == r
  {
    var tail := ToLe(rawSize, 8) + ToLe(0, 48);
    Layout(ToLe(r.flags, 4), ToLe(0, 4), r.name, digest, ToLe(r.offset, 8), ToLe(r.size, 8), tail);
    LeRoundTrip(r.flags, 4);
    LeRoundTrip(r.offset, 8);
    LeRoundTrip(r.size, 8);
  }

  /** fmt's %c: the UTF-8 bytes of a code point below 256. */
  function Rune(c: byte): string {
    if c < 128 then [c as char] else [(0xC0 + c / 64) as char, (0x80 + c % 64) as char]
  }

  /** A NUL-terminated name. */
  function NameOf(name: seq<byte>): string {
    if name == [] || name[0] == 0 then "" else Rune(name[0]) + NameOf(name[1..])
  }

  /** The bytes before the first zero. */
  ghost function UpToZero(name: seq<byte>): seq<byte> {
    if name == [] || name[0] == 0 then [] else [name[0]] + UpToZero(name[1..])
  }

  /** One byte below 128, otherwise the two of section 3 of RFC 3629. */
  lemma RuneIsUtf8(c: byte)
    ensures c < 128 ==> |Rune(c)| == 1 && Rune(c)[0] as int == c
    ensures c >= 128 ==>
              && |Rune(c)| == 2 && 0xC0 <= Rune(c)[0] as int < 0xE0 && 0x80 <= Rune(c)[1] as int < 0xC0
              && (Rune(c)[0] as int - 0xC0) * 64 + (Rune(c)[1] as int - 0x80) == c
  {
  }

  lemma RunesDiffer(c: byte, d: byte, s: string, t: string)
    requires Rune(c) + s == Rune(d) + t
    ensures c == d && s == t
  {
    RuneIsUtf8(c);
    RuneIsUtf8(d);
    var all := Rune(c) + s;
    assert all[0] == Rune(c)[0] == Rune(d)[0];
    assert c >= 128 ==> all[1] == Rune(c)[1];
    assert d >= 128 ==> all[1] == Rune(d)[1];
    assert s == all[|Rune(c)|..] && t == all[|Rune(d)|..];
  }

  /** Names are equal exactly when the bytes before the first zero are. */
  lemma {:induction false} NamesDiffer(a: seq<byte>, b: seq<byte>)
    ensures NameOf(a) == NameOf(b) <==> UpToZero(a) == UpToZero(b)
  {
    if a != [] && a[0] != 0 && b != [] && b[0] != 0 {
      NamesDiffer(a[1..], b[1..]);
      if NameOf(a) == NameOf(b) {
        RunesDiffer(a[0], b[0], NameOf(a[1..]), NameOf(b[1..]));
      }
      assert UpToZero(a)[1..] == UpToZero(a[1..]) && UpToZero(b)[1..] == UpToZero(b[1..]);
    }
  }

  /** An ASCII name padded with zeros is that name. */
  lemma {:induction false} PaddedName(name: seq<byte>, text: string, pad: nat)
    requires |name| == |text| && forall i :: 0 <= i < |name| ==> 0 < name[i] < 128 && text[i] as int == name[i]
    ensures NameOf(name + seq(pad, _ => 0)) == text
  {
    var padded := name + seq(pad, _ => 0);
    if name != [] {
      PaddedName(name[1..], text[1..], pad);
      assert padded[1..] == name[1..] + seq(pad, _ => 0);
      assert text == [text[0]] + text[1..];
    }
  }

  lemma NameNext(name: seq<byte>, i: nat, s: string)
    requires i < |name|
    ensures s + NameOf(name[i..]) == if name[i] == 0 then s else (s + Rune(name[i])) + NameOf(name[i + 1..])
  {
    assert name[i..][1..] == name[i + 1..];
  }

  /** TOCEntry.GetName */
  method GetName(name: seq<byte>) returns (s: string)
    ensures s == NameOf(name)
  {
    s := "";
    for i := 0 to |name|
      invariant s + NameOf(name[i..]) == NameOf(name)
    {
      NameNext(name, i, s);
      if name[i] == 0 {
        return;
      }
      s := s + Rune(name[i]);
    }
    assert s + "" == s;
  }

  function DecodeAll(toc: seq<byte>): seq<Record> {
    if |toc| < TOC_ENTRY_SIZE then []
    else
      var n := |toc| - |toc| % TOC_ENTRY_SIZE;
      seq(n / TOC_ENTRY_SIZE, i requires 0 <= i < n / TOC_ENTRY_SIZE =>
        Decode(toc[i * TOC_ENTRY_SIZE..i * TOC_ENTRY_SIZE + TOC_ENTRY_SIZE]))
  }

  // ---- Reading an entry through the table ----

  /** Conversion to int64 */
  function Int64(n: int): int {
    var m := n % 0x1_0000_0000_0000_0000;
    if m <= MAX_INT64 then m else m - 0x1_0000_0000_0000_0000
  }

  /** Everything an io.SectionReader at `off` of length `n` yields; None when a read fails. */
  function ReadSection(blob: seq<byte>, off: int, n: int): Option<seq<byte>> {
    var limit := if off <= Int64(MAX_INT64 - n) then Int64(n + off) else MAX_INT64;
    if off >= limit then Some([])
    else if off < 0 then None
    else if off >= |blob| then Some([])
    else Some(blob[off..if limit < |blob| then limit else |blob|])
  }

  lemma Int64Means(n: int)
    requires -0x1_0000_0000_0000_0000 <= n < 0x1_0000_0000_0000_0000
    ensures Int64(n) == if n < -0x8000_0000_0000_0000 then n + 0x1_0000_0000_0000_0000
                        else if n < 0x8000_0000_0000_0000 then n
                        else n - 0x1_0000_0000_0000_0000
  {
  }

  /** The part of the blob from `offset` up to `offset + size`, as far as it goes. */
  ghost function Part(blob: seq<byte>, offset: nat, size: nat): seq<byte> {
    if offset >= |blob| then [] else if offset + size <= |blob| then blob[offset..offset + size] else blob[offset..]
  }

  /** Through the conversions to int64 that part is read for every offset and size of 64 bits, those of 2^63
      and more included, except that an offset of 2^63 or more cannot be read unless the size is zero. */
  lemma SectionIs(blob: seq<byte>, offset: nat, size: nat)
    requires |blob| <= MAX_INT64 && offset < 0x1_0000_0000_0000_0000 && size < 0x1_0000_0000_0000_0000
    ensures ReadSection(blob, Int64(offset), Int64(size))
         == if offset >= 0x8000_0000_0000_0000 && size != 0 then None else Some(Part(blob, offset, size))
  {
    Int64Means(offset);
    Int64Means(size);
    Int64Means(MAX_INT64 - Int64(size));
    Int64Means(Int64(size) + Int64(offset));
    if offset < |blob| {
      assert blob[offset..offset] == [] && blob[offset..|blob|] == blob[offset..];
    }
  }

  /** The entry's bytes by its compressor: 1 none, 2 zstd, 4 lz4 (not supported), other unknown. */
  function Extract(blob: seq<byte>, r: Record, zstd: Zstd): Outcome<seq<byte>> {
    var raw := ReadSection(blob, Int64(r.offset), Int64(r.size));
    match r.flags % 16
    case 1 => if raw.Some? then Found(raw.value) else Failed
    case 2 =>
      if raw.None? then Failed
      else
        var d := zstd(raw.value);
        if d.Some? then Found(d.value) else Failed
    case _ => Failed
  }

  function FirstRecord(records: seq<Record>, target: string): (r: Option<Record>)
    ensures r.Some? ==> r.value in records && NameOf(r.value.name) == target
  {
    if records == [] then None
    else if NameOf(records[0].name) == target then Some(records[0])
    else FirstRecord(records[1..], target)
  }

  function InToc(blob: seq<byte>, toc: seq<byte>, zstd: Zstd, target: string): Outcome<seq<byte>> {
    if |toc| % TOC_ENTRY_SIZE != 0 then Failed
    else
      var r := FirstRecord(DecodeAll(toc), target);
      if r.None? then NotFound else Extract(blob, r.value, zstd)
  }

  function ByToc(blob: seq<byte>, next: TarNext, zstd: Zstd, target: string): Outcome<seq<byte>> {
    var toc := ByHeader(blob, next, ENTRY_TOC, Some(MAX_TOC_SIZE));
    if toc.Found? then InToc(blob, toc.value, zstd, target) else toc
  }

  function ByFile(blob: seq<byte>, next: TarNext, zstd: Zstd, target: string): Outcome<seq<byte>> {
    var r := ByToc(blob, next, zstd, target);
    if r.NotFound? then ByHeader(blob, next, target, None) else r
  }

  /** seekFileByTOC */
  method SeekFileByToc(blob: seq<byte>, next: TarNext, zstd: Zstd, target: string) returns (r: Outcome<seq<byte>>)
    ensures r == ByToc(blob, next, zstd, target)
  {
    var toc := SeekFileByTarHeader(blob, next, ENTRY_TOC, Some(MAX_TOC_SIZE));
    if !toc.Found? {
      return toc;
    }
    var entryData := toc.value;
    if |entryData| % TOC_ENTRY_SIZE != 0 {
      return Failed;
    }
    var rec := FindRecord(entryData, target);
    r := if rec.None? then NotFound else Extract(blob, rec.value, zstd);
  }

  /** The loop over the fixed-size records. */
  method FindRecord(toc: seq<byte>, target: string) returns (r: Option<Record>)
    requires |toc| % TOC_ENTRY_SIZE == 0
    ensures r == FirstRecord(DecodeAll(toc), target)
  {
    var count := |toc| / TOC_ENTRY_SIZE;
    ghost var records := DecodeAll(toc);
    for i := 0 to count
      invariant |records| == count
      invariant FirstRecord(records[i..], target) == FirstRecord(records, target)
    {
      var rec := Decode(toc[i * TOC_ENTRY_SIZE..i * TOC_ENTRY_SIZE + TOC_ENTRY_SIZE]);
      assert records[i] == rec && records[i..][1..] == records[i + 1..];
      var name := GetName(rec.name);
      if name == target {
        return Some(rec);
      }
    }
    r := None;
  }

  /** seekFile: the table first, the header walk when the table does not know the entry. */
  method SeekFile(blob: seq<byte>, next: TarNext, zstd: Zstd, target: string) returns (r: Outcome<seq<byte>>)
    ensures r == ByFile(blob, next, zstd, target)
  {
    r := SeekFileByToc(blob, next, zstd, target);
    if r.NotFound? {
      r := SeekFileByTarHeader(blob, next, target, None);
    }
  }

  // ---- The table agrees with the walk ----

  /** The record gives the place where the data of entry `i` is stored. */
  ghost predicate Places(r: Record, entries: seq<Entry>, i: nat) {
    i < |entries| && r.offset == |Print(entries[..i])| && r.size == |entries[i].data|
  }

  /** What was packed as `plain` is stored as it is (compressor 1) or zstd-compressed (compressor 2). */
  ghost predicate Packs(compressor: int, stored: seq<byte>, plain: seq<byte>, zstd: Zstd) {
    (compressor == 1 && stored == plain) || (compressor == 2 && zstd(stored) == Some(plain))
  }

  /** The record gives the place of the last entry of its name, which packs the content of that name. */
  ghost predicate Describes(r: Record, entries: seq<Entry>, zstd: Zstd, plain: string -> seq<byte>) {
    var name := NameOf(r.name);
    var last := LastNamed(entries, name);
    last.Some? && Places(r, entries, last.value) && Packs(r.flags % 16, entries[last.value].data, plain(name), zstd)
  }

  lemma {:induction false} PrintedAt(entries: seq<Entry>, i: nat)
    requires i < |entries|
    ensures var off := |Print(entries[..i])|;
            && off + |entries[i].data| <= |Print(entries)|
            && Print(entries)[off..off + |entries[i].data|] == entries[i].data
  {
    var n := |entries| - 1;
    LastPrinted(entries, Print(entries));
    if i < n {
      PrintedAt(entries[..n], i);
      assert entries[..n][..i] == entries[..i];
      var front := Print(entries[..n]);
      assert Print(entries)[..|front|] == front;
    }
  }

  lemma SmallInt64(n: int)
    requires 0 <= n <= MAX_INT64
    ensures Int64(n) == n
  {
  }

  lemma ReadInRange(blob: seq<byte>, off: nat, n: nat)
    requires off + n <= |blob| <= MAX_INT64
    ensures ReadSection(blob, off, n) == Some(blob[off..off + n])
  {
    SmallInt64(MAX_INT64 - n);
    SmallInt64(n + off);
    if n == 0 {
      assert blob[off..off] == [];
    }
  }

  /** The bytes handed over for a record are decided by its compressor: the stored bytes as they are, what
      zstd makes of them, or none. */
  lemma StoredBytes(r: Record, entries: seq<Entry>, i: nat, zstd: Zstd)
    requires Places(r, entries, i) && |Print(entries)| <= MAX_INT64
    ensures var out, z := Extract(Print(entries), r, zstd), entries[i].data;
            && (r.flags % 16 == 1 ==> out == Found(z))
            && (r.flags % 16 == 2 ==> (forall d :: out == Found(d) <==> zstd(z) == Some(d)))
            && (r.flags % 16 == 2 ==> (out == Failed <==> zstd(z) == None))
            && (r.flags % 16 != 1 && r.flags % 16 != 2 ==> out == Failed)
  {
    PrintedAt(entries, i);
    RawBytes(Print(entries), r, entries[i].data);
  }

  lemma RawBytes(blob: seq<byte>, r: Record, data: seq<byte>)
    requires |blob| <= MAX_INT64 && r.size == |data| && r.offset + |data| <= |blob|
    requires blob[r.offset..r.offset + |data|] == data
    ensures ReadSection(blob, Int64(r.offset), Int64(r.size)) == Some(data)
  {
    SmallInt64(r.offset);
    SmallInt64(r.size);
    ReadInRange(blob, r.offset, r.size);
  }

  lemma DescribedBytes(r: Record, entries: seq<Entry>, zstd: Zstd, plain: string -> seq<byte>)
    requires Describes(r, entries, zstd, plain) && |Print(entries)| <= MAX_INT64
    ensures Extract(Print(entries), r, zstd) == Found(plain(NameOf(r.name)))
  {
    StoredBytes(r, entries, LastNamed(entries, NameOf(r.name)).value, zstd);
  }

  /** An archive that can be walked and has a table of whole records. */
  ghost predicate Tabled(entries: seq<Entry>, next: TarNext) {
    && entries != [] && Readable(entries, next) && |Print(entries)| <= MAX_INT64
    && LastNamed(entries, ENTRY_TOC).Some? && |TableOf(entries)| % TOC_ENTRY_SIZE == 0
  }

  function TableOf(entries: seq<Entry>): seq<byte>
    requires LastNamed(entries, ENTRY_TOC).Some?
  {
    entries[LastNamed(entries, ENTRY_TOC).value].data
  }

  /** The `k`-th record of a table. */
  function RecordAt(toc: seq<byte>, k: nat): Record
    requires (k + 1) * TOC_ENTRY_SIZE <= |toc|
  {
    Decode(toc[k * TOC_ENTRY_SIZE..k * TOC_ENTRY_SIZE + TOC_ENTRY_SIZE])
  }

  /** `k` is the first record of that name. */
  ghost predicate IsFirst(toc: seq<byte>, target: string, k: nat) {
    && (k + 1) * TOC_ENTRY_SIZE <= |toc| && NameOf(RecordAt(toc, k).name) == target
    && forall j: nat :: j < k ==> (j + 1) * TOC_ENTRY_SIZE <= |toc| && NameOf(RecordAt(toc, j).name) != target
  }

  lemma {:induction false} FirstRecordIs(records: seq<Record>, target: string, k: nat)
    requires k < |records| && NameOf(records[k].name) == target
    requires forall j :: 0 <= j < k ==> NameOf(records[j].name) != target
    ensures FirstRecord(records, target) == Some(records[k])
  {
    if k > 0 {
      assert NameOf(records[0].name) != target;
      FirstRecordIs(records[1..], target, k - 1);
    }
  }

  lemma FirstIs(toc: seq<byte>, target: string, k: nat)
    requires |toc| % TOC_ENTRY_SIZE == 0 && IsFirst(toc, target, k)
    ensures FirstRecord(DecodeAll(toc), target) == Some(RecordAt(toc, k))
  {
    var records := DecodeAll(toc);
    forall j: nat | j <= k ensures j < |records| && records[j] == RecordAt(toc, j) {
      assert (j + 1) * TOC_ENTRY_SIZE <= |toc|;
    }
    FirstRecordIs(records, target, k);
  }

  lemma {:induction false} NoRecordIs(records: seq<Record>, target: string)
    ensures FirstRecord(records, target).None? <==> forall r :: r in records ==> NameOf(r.name) != target
  {
    if records != [] {
      NoRecordIs(records[1..], target);
      assert forall r :: r in records <==> r == records[0] || r in records[1..];
    }
  }

  /** With a table of at most 1 MiB the first record of a name decides, by its compressor, what is handed
      over. */
  lemma FirstRecordDecides(entries: seq<Entry>, next: TarNext, zstd: Zstd, target: string, k: nat, i: nat)
    requires Tabled(entries, next) && |TableOf(entries)| <= MAX_TOC_SIZE && IsFirst(TableOf(entries), target, k)
    requires Places(RecordAt(TableOf(entries), k), entries, i)
    ensures var out, z := ByFile(Print(entries), next, zstd, target), entries[i].data;
            var compressor := RecordAt(TableOf(entries), k).flags % 16;
            && (compressor == 1 ==> out == Found(z))
            && (compressor == 2 ==> (forall d :: out == Found(d) <==> zstd(z) == Some(d)))
            && (compressor == 2 ==> (out == Failed <==> zstd(z) == None))
            && (compressor != 1 && compressor != 2 ==> out == Failed)
  {
    SeekPrinted(entries, next, ENTRY_TOC, Some(MAX_TOC_SIZE));
    FirstIs(TableOf(entries), target, k);
    StoredBytes(RecordAt(TableOf(entries), k), entries, i, zstd);
  }

  /** An archive with a table that describes its entries, stored plain or compressed. */
  ghost predicate Described(entries: seq<Entry>, next: TarNext, zstd: Zstd, plain: string -> seq<byte>) {
    && Tabled(entries, next)
    && forall r :: r in DecodeAll(TableOf(entries)) ==> Describes(r, entries, zstd, plain)
  }

  /** What a reader should get: the content of a name in the table, else what the header walk finds. */
  ghost function Wanted(entries: seq<Entry>, plain: string -> seq<byte>, target: string): Outcome<seq<byte>>
    requires LastNamed(entries, ENTRY_TOC).Some?
  {
    if exists r :: r in DecodeAll(TableOf(entries)) && NameOf(r.name) == target then Found(plain(target))
    else InEntries(entries, target, None)
  }

  /** For an archive whose table describes its entries, every content is read back exactly when the table is
      at most 1 MiB; a larger one makes every read fail. */
  lemma TableGivesContent(entries: seq<Entry>, next: TarNext, zstd: Zstd, plain: string -> seq<byte>, target: string)
    requires Described(entries, next, zstd, plain)
    ensures ByFile(Print(entries), next, zstd, target) == Wanted(entries, plain, target)
            <==> |TableOf(entries)| <= MAX_TOC_SIZE
    ensures |TableOf(entries)| > MAX_TOC_SIZE ==> ByFile(Print(entries), next, zstd, target) == Failed
  {
    var records := DecodeAll(TableOf(entries));
    SeekPrinted(entries, next, ENTRY_TOC, Some(MAX_TOC_SIZE));
    SeekPrinted(entries, next, target, None);
    NoRecordIs(records, target);
    if |TableOf(entries)| <= MAX_TOC_SIZE && FirstRecord(records, target).Some? {
      DescribedBytes(FirstRecord(records, target).value, entries, zstd, plain);
    }
  }

  /** So for uncompressed entries reading through the table gives the same bytes (or the same not-found) as
      walking the headers, exactly when the table is at most 1 MiB. */
  lemma TableAgreesWithWalk(entries: seq<Entry>, next: TarNext, zstd: Zstd, plain: string -> seq<byte>, target: string)
    requires Described(entries, next, zstd, plain)
    requires forall r :: r in DecodeAll(TableOf(entries)) ==> r.flags % 16 == 1
    ensures ByFile(Print(entries), next, zstd, target) == InEntries(entries, target, None)
            <==> |TableOf(entries)| <= MAX_TOC_SIZE
  {
    TableGivesContent(entries, next, zstd, plain, target);
    if r :| r in DecodeAll(TableOf(entries)) && NameOf(r.name) == target {
      assert Describes(r, entries, zstd, plain);
    }
  }

  /** Without a table the reader is the header walk. */
  lemma NoTableIsWalk(entries: seq<Entry>, next: TarNext, zstd: Zstd, target: string)
    requires entries != [] && Readable(entries, next) && LastNamed(entries, ENTRY_TOC).None?
    ensures ByFile(Print(entries), next, zstd, target) == InEntries(entries, target, None)
  {
    SeekPrinted(entries, next, ENTRY_TOC, Some(MAX_TOC_SIZE));
    SeekPrinted(entries, next, target, None);
  }

  // ---- A table that is too big ----

  function Repeat(rec: seq<byte>, n: nat): seq<byte>
    requires |rec| == TOC_ENTRY_SIZE
  {
    seq(n * TOC_ENTRY_SIZE, j requires 0 <= j < n * TOC_ENTRY_SIZE => rec[j % TOC_ENTRY_SIZE])
  }

  lemma RepeatedRecords(rec: seq<byte>, n: nat)
    requires |rec| == TOC_ENTRY_SIZE
    ensures |Repeat(rec, n)| == n * TOC_ENTRY_SIZE && |Repeat(rec, n)| % TOC_ENTRY_SIZE == 0
    ensures forall r :: r in DecodeAll(Repeat(rec, n)) ==> r == Decode(rec)
  {
    var toc := Repeat(rec, n);
    forall i | 0 <= i < n ensures toc[i * TOC_ENTRY_SIZE..i * TOC_ENTRY_SIZE + TOC_ENTRY_SIZE] == rec {
      forall k | 0 <= k < TOC_ENTRY_SIZE ensures toc[i * TOC_ENTRY_SIZE + k] == rec[k] {
        assert (i * TOC_ENTRY_SIZE + k) % TOC_ENTRY_SIZE == k;
      }
    }
  }

  /** A tar reader that knows two header blocks. */
  function Knows(first: Entry, second: Entry): TarNext {
    (b: seq<byte>) =>
      if first.block <= b then Some(Header(first.name, |first.data|))
      else if second.block <= b then Some(Header(second.name, |second.data|))
      else None
  }

  lemma KnowsReads(first: Entry, second: Entry)
    requires |first.block| == |second.block| == HEADER_SIZE && first.block != second.block
    ensures Readable([first, second], Knows(first, second))
  {
    forall rest: seq<byte> ensures !(first.block <= second.block + rest) {
      assert (second.block + rest)[..HEADER_SIZE] == second.block;
    }
  }

  /** Where the table of a one-file archive repeats the file's record too often, the file cannot be read,
      although the header walk finds it. */
  lemma RepeatedRecordFails(file: Entry, rec: seq<byte>, n: nat, table: Entry, zstd: Zstd)
    requires |rec| == TOC_ENTRY_SIZE && NameOf(Decode(rec).name) == file.name != ENTRY_TOC
    requires Decode(rec).flags % 16 == 1 && Decode(rec).offset == 0 && Decode(rec).size == |file.data|
    requires table.name == ENTRY_TOC && table.data == Repeat(rec, n) && n * TOC_ENTRY_SIZE > MAX_TOC_SIZE
    requires |file.block| == |table.block| == HEADER_SIZE && file.block != table.block
    requires |file.data| + |table.data| + 2 * HEADER_SIZE <= MAX_INT64
    ensures var entries, next := [file, table], Knows(file, table);
            && Described(entries, next, zstd, _ => file.data) && InEntries(entries, file.name, None) == Found(file.data)
            && ByFile(Print(entries), next, zstd, file.name) == Failed
  {
    var entries, next := [file, table], Knows(file, table);
    var plain: string -> seq<byte> := _ => file.data;
    RepeatedRecords(rec, n);
    KnowsReads(file, table);
    TwoEntries(file, table);
    assert Describes(Decode(rec), entries, zstd, plain);
    TableGivesContent(entries, next, zstd, plain, file.name);
  }

  /** So the condition on the table's size is missed by an archive that can be written down: one file of
      three bytes and 8193 records. */
  lemma BigTableFails(zstd: Zstd) returns (entries: seq<Entry>, next: TarNext, target: string, data: seq<byte>)
    ensures Described(entries, next, zstd, _ => data) && InEntries(entries, target, None) == Found(data)
    ensures ByFile(Print(entries), next, zstd, target) == Failed
  {
    var file, rec := SmallFile();
    RepeatedRecords(rec, 8193);
    var table := Entry(ENTRY_TOC, Repeat(rec, 8193), seq(HEADER_SIZE, _ => 1));
    assert file.block[0] != table.block[0];
    RepeatedRecordFails(file, rec, 8193, table, zstd);
    entries, next, target, data := [file, table], Knows(file, table), file.name, file.data;
  }

  lemma SmallFile() returns (file: Entry, rec: seq<byte>)
    ensures |rec| == TOC_ENTRY_SIZE && NameOf(Decode(rec).name) == file.name != ENTRY_TOC
    ensures Decode(rec).flags % 16 == 1 && Decode(rec).offset == 0 && Decode(rec).size == |file.data| == 3
    ensures |file.block| == HEADER_SIZE && file.block[0] == 0
  {
    var r := Record(1, [97] + seq(15, _ => 0), 0, 3);
    rec := Encode(r, seq(32, _ => 0), 3);
    DecodeOfEncode(r, seq(32, _ => 0), 3);
    assert r.name[1..][0] == 0;
    assert |NameOf(r.name)| == 1;
    file := Entry(NameOf(r.name), [1, 2, 3], seq(HEADER_SIZE, _ => 0));
  }

  lemma TwoEntries(first: Entry, second: Entry)
    ensures |Print([first, second])| == |first.data| + |first.block| + |second.data| + |second.block|
    ensures first.name != second.name ==> LastNamed([first, second], first.name) == Some(0)
    ensures LastNamed([first, second], second.name) == Some(1)
    ensures |Print([first, second][..0])| == 0
  {
    assert [first, second][..1] == [first] && [first][..0] == [];
    assert Print([first]) == Print([]) + first.data + first.block;
  }
}
