/** Mount-option handling of cmd/nydus-overlayfs/main.go: flag parsing, the longest common prefix,
    and the compaction of overlay paths to a directory plus relative paths. */
module Overlay {
  import opened Base
  import opened Text
  import opened Paths

  // ---- longestCommonPrefix ----

  ghost predicate CommonPrefix(strs: seq<string>, p: string) {
    forall s :: s in strs ==> p <= s
  }

  ghost predicate IsLongestCommonPrefix(strs: seq<string>, p: string) {
    CommonPrefix(strs, p) && forall q :: CommonPrefix(strs, q) ==> q <= p
  }

  /** A prefix shared by the smallest and the largest string is shared by everything between. */
  lemma {:induction false} Sandwich(lo: string, s: string, hi: string, n: nat)
    requires !Less(s, lo) && !Less(hi, s)
    requires n <= |lo| && n <= |hi| && lo[..n] == hi[..n]
    ensures n <= |s| && s[..n] == lo[..n]
  {
    if n > 0 {
      assert lo[0] == lo[..n][0] == hi[..n][0] == hi[0];
      assert lo[1..][..n - 1] == lo[..n][1..] && hi[1..][..n - 1] == hi[..n][1..];
      Sandwich(lo[1..], s[1..], hi[1..], n - 1);
      assert s[..n] == [s[0]] + s[1..][..n - 1];
      assert lo[..n] == [lo[0]] + lo[1..][..n - 1];
    }
  }

  lemma {:induction false} ProperPrefixLess(a: string, b: string)
    requires a < b
    ensures Less(a, b)
  {
    if a != "" {
      assert a[0] == b[0];
      ProperPrefixLess(a[1..], b[1..]);
    }
  }

  /** The longest common prefix of the lexicographic minimum and maximum. */
  method LongestCommonPrefix(strs: seq<string>) returns (p: string)
    ensures strs == [] ==> p == ""
    ensures strs != [] ==> IsLongestCommonPrefix(strs, p)
  {
    if |strs| == 0 {
      return "";
    } else if |strs| == 1 {
      assert strs[0] in strs;
      return strs[0];
    }
    var min, max := strs[0], strs[0];
    LessIrreflexive(strs[0]);
    for i := 1 to |strs|
      invariant min in strs && max in strs
      invariant forall j :: 0 <= j < i ==> !Less(strs[j], min) && !Less(max, strs[j])
    {
      var str := strs[i];
      LessIrreflexive(str);
      if Less(str, min) {
        forall j | 0 <= j < i ensures !Less(strs[j], str) {
          if Less(strs[j], str) { LessTransitive(strs[j], str, min); }
        }
        min := str;
      }
      if Less(max, str) {
        forall j | 0 <= j < i ensures !Less(str, strs[j]) {
          if Less(str, strs[j]) { LessTransitive(max, str, strs[j]); }
        }
        max := str;
      }
    }
    var i := 0;
    while i < |min| && i < |max|
      invariant i <= |min| && i <= |max| && min[..i] == max[..i]
    {
      if min[i] != max[i] {
        SharedByAll(strs, min, max, i);
        return min[..i];
      }
      i := i + 1;
    }
    if |max| < |min| {
      assert max == min[..i];
      ProperPrefixLess(max, min);
    }
    SharedByAll(strs, min, max, |min|);
    p := min;
    assert min[..|min|] == min;
  }

  lemma SharedByAll(strs: seq<string>, min: string, max: string, n: nat)
    requires min in strs && max in strs
    requires forall s :: s in strs ==> !Less(s, min) && !Less(max, s)
    requires n <= |min| && n <= |max| && min[..n] == max[..n]
    requires n == |min| || n == |max| || min[n] != max[n]
    ensures IsLongestCommonPrefix(strs, min[..n])
  {
    forall s | s in strs
      ensures min[..n] <= s
    {
      Sandwich(min, s, max, n);
    }
    forall q | CommonPrefix(strs, q)
      ensures q <= min[..n]
    {
      assert q <= min && q <= max;
    }
  }

  // ---- parseOptions ----

  /** The mount flag bits of <sys/mount.h>; a flag word is the set of its bits. */
  datatype MsFlag =
    | MS_RDONLY | MS_NOSUID | MS_NODEV | MS_NOEXEC | MS_SYNCHRONOUS | MS_REMOUNT | MS_MANDLOCK | MS_DIRSYNC
    | MS_NOATIME | MS_NODIRATIME | MS_BIND | MS_REC | MS_RELATIME | MS_STRICTATIME

  type FlagTable = map<string, set<MsFlag>>

  const FLAGS_TABLE: FlagTable := map[
    "async" := {MS_SYNCHRONOUS}, "atime" := {MS_NOATIME}, "bind" := {MS_BIND}, "defaults" := {},
    "dev" := {MS_NODEV}, "diratime" := {MS_NODIRATIME}, "dirsync" := {MS_DIRSYNC}, "exec" := {MS_NOEXEC},
    "mand" := {MS_MANDLOCK}, "noatime" := {MS_NOATIME}, "nodev" := {MS_NODEV}, "nodiratime" := {MS_NODIRATIME},
    "noexec" := {MS_NOEXEC}, "nomand" := {MS_MANDLOCK}, "norelatime" := {MS_RELATIME},
    "nostrictatime" := {MS_STRICTATIME}, "nosuid" := {MS_NOSUID}, "rbind" := {MS_BIND, MS_REC},
    "relatime" := {MS_RELATIME}, "remount" := {MS_REMOUNT}, "ro" := {MS_RDONLY}, "rw" := {MS_RDONLY},
    "strictatime" := {MS_STRICTATIME}, "suid" := {MS_NOSUID}, "sync" := {MS_SYNCHRONOUS}]

  function FlagsOf(table: FlagTable, options: seq<string>): set<MsFlag> {
    if options == [] then {}
    else
      var o := options[|options| - 1];
      FlagsOf(table, options[..|options| - 1]) + if o in table then table[o] else {}
  }

  function DataParts(table: FlagTable, options: seq<string>): seq<string> {
    if options == [] then []
    else
      var o := options[|options| - 1];
      DataParts(table, options[..|options| - 1]) + if o in table then [] else [o]
  }

  /** A flag is set exactly when some option of the table carries it. */
  lemma {:induction false} FlagsMean(table: FlagTable, options: seq<string>, f: MsFlag)
    ensures f in FlagsOf(table, options) <==> exists o :: o in options && o in table && f in table[o]
  {
    if options != [] {
      var front, last := options[..|options| - 1], options[|options| - 1];
      FlagsMean(table, front, f);
      assert forall o :: o in options <==> o in front || o == last;
    }
  }

  /** The data options are those the table does not know, each where it stood. */
  lemma {:induction false} DataPartsSplit(table: FlagTable, a: seq<string>, o: string, b: seq<string>)
    ensures DataParts(table, a + [o] + b)
         == DataParts(table, a) + (if o in table then [] else [o]) + DataParts(table, b)
  {
    var all := a + [o] + b;
    if b == [] {
      assert all[..|all| - 1] == a;
    } else {
      var front := b[..|b| - 1];
      DataPartsSplit(table, a, o, front);
      assert all[..|all| - 1] == a + [o] + front;
    }
  }

  lemma DataPartsNone(table: FlagTable)
    ensures DataParts(table, []) == [] && FlagsOf(table, []) == {}
  {
  }

  /** Options that should clear a flag set it: the table knows one bit for both. */
  lemma CancellingAccessOptionsSet()
    ensures FLAGS_TABLE["rw"] == FLAGS_TABLE["ro"] == {MS_RDONLY}
    ensures FLAGS_TABLE["dev"] == FLAGS_TABLE["nodev"] == {MS_NODEV}
    ensures FLAGS_TABLE["suid"] == FLAGS_TABLE["nosuid"] == {MS_NOSUID}
    ensures FLAGS_TABLE["exec"] == FLAGS_TABLE["noexec"] == {MS_NOEXEC}
  {
  }

  lemma CancellingTimeOptionsSet()
    ensures FLAGS_TABLE["atime"] == FLAGS_TABLE["noatime"] == {MS_NOATIME}
    ensures FLAGS_TABLE["diratime"] == FLAGS_TABLE["nodiratime"] == {MS_NODIRATIME}
    ensures FLAGS_TABLE["norelatime"] == FLAGS_TABLE["relatime"] == {MS_RELATIME}
    ensures FLAGS_TABLE["nostrictatime"] == FLAGS_TABLE["strictatime"] == {MS_STRICTATIME}
  {
  }

  lemma CancellingSyncOptionsSet()
    ensures FLAGS_TABLE["async"] == FLAGS_TABLE["sync"] == {MS_SYNCHRONOUS}
    ensures FLAGS_TABLE["nomand"] == FLAGS_TABLE["mand"] == {MS_MANDLOCK}
    ensures FLAGS_TABLE["rbind"] == FLAGS_TABLE["bind"] + {MS_REC} == {MS_BIND, MS_REC}
    ensures FLAGS_TABLE["remount"] == {MS_REMOUNT} && FLAGS_TABLE["dirsync"] == {MS_DIRSYNC}
    ensures FLAGS_TABLE["defaults"] == {}
  {
  }

  /** Mount flags and the comma-joined remaining options. */
  method ParseOptions(options: seq<string>) returns (flags: set<MsFlag>, data: string)
    ensures flags == FlagsOf(FLAGS_TABLE, options) && data == Join(DataParts(FLAGS_TABLE, options), ',')
  {
    var table := FLAGS_TABLE;
    flags := {};
    var parts: seq<string> := [];
    for i := 0 to |options|
      invariant flags == FlagsOf(table, options[..i]) && parts == DataParts(table, options[..i])
    {
      assert options[..i + 1][..i] == options[..i];
      var o := options[i];
      if o in table {
        flags := flags + table[o];
      } else {
        parts := parts + [o];
      }
    }
    assert options[..|options|] == options;
    data := Join(parts, ',');
  }

  // ---- compactLowerdirOption ----

  const LOWER := "lowerdir="
  const UPPER := "upperdir="
  const WORK := "workdir="

  /** The first lowerdir option, or -1. */
  function LowerIndex(options: seq<string>): (i: int)
    ensures -1 <= i < |options|
  {
    if options == [] then -1
    else if HasPrefix(options[0], LOWER) then 0
    else
      var i := LowerIndex(options[1..]);
      if i < 0 then -1 else i + 1
  }

  function LowerDirs(opt: string): seq<string> {
    Split(if HasPrefix(opt, LOWER) then opt[|LOWER|..] else opt, ':')
  }

  /** The upperdir and workdir paths, in option order. */
  function UpperWorkPaths(options: seq<string>): seq<string> {
    if options == [] then []
    else UpperWorkPaths(options[..|options| - 1]) + UpperWorkOf(options[|options| - 1])
  }

  function UpperWorkOf(opt: string): seq<string> {
    if HasPrefix(opt, UPPER) then [opt[|UPPER|..]]
    else if HasPrefix(opt, WORK) then [opt[|WORK|..]]
    else []
  }

  /** Every path that takes part in the overlay. */
  function AllPaths(options: seq<string>): seq<string> {
    var l := LowerIndex(options);
    (if l < 0 then [] else LowerDirs(options[l])) + UpperWorkPaths(options)
  }

  /** The longest common prefix, as the plain fold over all strings. */
  function Lcp(strs: seq<string>): (p: string)
    ensures strs != [] ==> IsLongestCommonPrefix(strs, p)
  {
    if strs == [] then ""
    else if |strs| == 1 then
      assert strs[0] in strs;
      strs[0]
    else
      var q := Lcp(strs[1..]);
      var p := Common(strs[0], q);
      assert IsLongestCommonPrefix(strs, p) by {
        assert forall s :: s in strs <==> s == strs[0] || s in strs[1..];
        forall r | CommonPrefix(strs, r) ensures r <= p {
          assert CommonPrefix(strs[1..], r);
          assert strs[0] in strs;
          CommonIsLongest(strs[0], q, r);
        }
      }
      p
  }

  function Common(a: string, b: string): (p: string)
    ensures p <= a && p <= b
  {
    if a == "" || b == "" || a[0] != b[0] then "" else [a[0]] + Common(a[1..], b[1..])
  }

  lemma {:induction false} CommonIsLongest(a: string, b: string, q: string)
    requires q <= a && q <= b
    ensures q <= Common(a, b)
  {
    if q != "" {
      assert a[0] == q[0] && b[0] == q[0];
      CommonIsLongest(a[1..], b[1..], q[1..]);
    }
  }

  function Cut(p: string, n: nat): string {
    if n <= |p| then p[n..] else ""
  }

  function CutAll(dirs: seq<string>, n: nat): seq<string> {
    seq(|dirs|, i requires 0 <= i < |dirs| => Cut(dirs[i], n))
  }

  function ShortenOne(opt: string, isLower: bool, n: nat): string {
    if isLower then LOWER + Join(CutAll(LowerDirs(opt), n), ':')
    else if HasPrefix(opt, UPPER) then UPPER + Cut(opt[|UPPER|..], n)
    else if HasPrefix(opt, WORK) then WORK + Cut(opt[|WORK|..], n)
    else opt
  }

  /** The options with the first `n` bytes cut from every overlay path; `l` is the lowerdir option. */
  function Shorten(options: seq<string>, l: int, n: nat): seq<string> {
    seq(|options|, i requires 0 <= i < |options| => ShortenOne(options[i], i == l, n))
  }

  predicate AllLonger(paths: seq<string>, n: nat) {
    forall p :: p in paths ==> |p| > n
  }

  /** What compaction returns: the directory to enter ("" for none) and the options to mount. */
  function Compact(options: seq<string>): (string, seq<string>) {
    var l := LowerIndex(options);
    if l < 0 || |LowerDirs(options[l])| <= 1 then ("", options)
    else
      var lcp := Lcp(AllPaths(options));
      if lcp == "" || Dir(lcp) == "/" || Dir(lcp) == "." then ("", options)
      else
        var c := Dir(lcp) + "/";
        if AllLonger(AllPaths(options), |c|) then (c, Shorten(options, l, |c|)) else ("", options)
  }

  /** The paths one option contributes. */
  function OwnPaths(opt: string, isLower: bool): seq<string> {
    if isLower then LowerDirs(opt) else UpperWorkOf(opt)
  }

  lemma PrefixesDiffer(opt: string)
    ensures HasPrefix(opt, LOWER) ==> !HasPrefix(opt, UPPER) && !HasPrefix(opt, WORK)
    ensures HasPrefix(opt, UPPER) ==> !HasPrefix(opt, WORK)
  {
    assert LOWER[0] == 'l' && UPPER[0] == 'u' && WORK[0] == 'w';
  }

  lemma {:induction false} LowerIndexIsFirst(options: seq<string>)
    ensures var l := LowerIndex(options);
            && (l >= 0 ==> HasPrefix(options[l], LOWER))
            && (forall j :: 0 <= j < |options| && (l < 0 || j < l) ==> !HasPrefix(options[j], LOWER))
  {
    if options != [] {
      LowerIndexIsFirst(options[1..]);
      assert forall j :: 1 <= j < |options| ==> options[j] == options[1..][j - 1];
    }
  }

  lemma {:induction false} UpperWorkOwned(options: seq<string>, p: string) returns (j: nat)
    requires p in UpperWorkPaths(options)
    ensures j < |options| && p in UpperWorkOf(options[j])
  {
    var n := |options| - 1;
    if p in UpperWorkOf(options[n]) {
      j := n;
    } else {
      j := UpperWorkOwned(options[..n], p);
    }
  }

  lemma {:induction false} UpperWorkOwner(options: seq<string>, p: string, j: nat)
    requires j < |options| && p in UpperWorkOf(options[j])
    ensures p in UpperWorkPaths(options)
  {
    if j < |options| - 1 {
      UpperWorkOwner(options[..|options| - 1], p, j);
    }
  }

  /** A path is an overlay path exactly when some option contributes it. */
  lemma PathOwners(options: seq<string>)
    ensures var l := LowerIndex(options);
            forall p :: p in AllPaths(options) <==>
                        exists j :: 0 <= j < |options| && p in OwnPaths(options[j], j == l)
  {
    var l := LowerIndex(options);
    LowerIndexIsFirst(options);
    forall p
      ensures p in AllPaths(options) <==> exists j :: 0 <= j < |options| && p in OwnPaths(options[j], j == l)
    {
      if p in UpperWorkPaths(options) {
        var j := UpperWorkOwned(options, p);
        PrefixesDiffer(options[j]);
        assert p in OwnPaths(options[j], j == l);
      } else if l >= 0 && p in LowerDirs(options[l]) {
        assert p in OwnPaths(options[l], l == l);
      } else {
        forall j | 0 <= j < |options| ensures p !in OwnPaths(options[j], j == l) {
          if j != l && p in UpperWorkOf(options[j]) { UpperWorkOwner(options, p, j); }
        }
      }
    }
  }

  lemma LcpUnique(strs: seq<string>, p: string)
    requires strs != [] && IsLongestCommonPrefix(strs, p)
    ensures p == Lcp(strs)
  {
    assert p <= Lcp(strs) && Lcp(strs) <= p;
  }

  /** compactLowerdirOption */
  method CompactLowerdirOption(options: seq<string>) returns (chdir: string, newopts: seq<string>)
    ensures (chdir, newopts) == Compact(options)
  {
    LowerIndexIsFirst(options);
    var lowerdirIdx := -1;
    for i := 0 to |options|
      invariant lowerdirIdx == -1
      invariant forall j :: 0 <= j < i ==> !HasPrefix(options[j], LOWER)
    {
      if HasPrefix(options[i], LOWER) {
        lowerdirIdx := i;
        break;
      }
    }
    if lowerdirIdx == -1 {
      return "", options;
    }
    var dirs := Split(options[lowerdirIdx][|LOWER|..], ':');
    if |dirs| <= 1 {
      return "", options;
    }
    var allPaths := GatherPaths(options, dirs);
    var commondir := LongestCommonPrefix(allPaths);
    LcpUnique(allPaths, commondir);
    if commondir == "" {
      return "", options;
    }
    commondir := Dir(commondir);
    if commondir == "/" || commondir == "." {
      return "", options;
    }
    commondir := commondir + "/";
    var fits;
    fits, newopts := Rebuild(options, lowerdirIdx, |commondir|);
    FitsIsAllLonger(options, |commondir|);
    if !fits {
      return "", options;
    }
    chdir := commondir;
  }

  lemma GatherNext(options: seq<string>, dirs: seq<string>, i: nat)
    requires i < |options|
    ensures dirs + UpperWorkPaths(options[..i + 1]) == dirs + UpperWorkPaths(options[..i]) + UpperWorkOf(options[i])
  {
    assert options[..i + 1][..i] == options[..i];
    Associative(dirs, UpperWorkPaths(options[..i]), UpperWorkOf(options[i]));
  }

  lemma Associative<T>(a: seq<T>, b: seq<T>, c: seq<T>)
    ensures a + (b + c) == a + b + c
  {
  }

  /** The loop that collects the lowerdirs, the upperdir and the workdir. */
  method GatherPaths(options: seq<string>, dirs: seq<string>) returns (allPaths: seq<string>)
    ensures allPaths == dirs + UpperWorkPaths(options)
  {
    allPaths := dirs;
    assert dirs + [] == dirs;
    for i := 0 to |options|
      invariant allPaths == dirs + UpperWorkPaths(options[..i])
    {
      GatherNext(options, dirs, i);
      if HasPrefix(options[i], UPPER) {
        allPaths := allPaths + [options[i][|UPPER|..]];
      } else if HasPrefix(options[i], WORK) {
        allPaths := allPaths + [options[i][|WORK|..]];
      }
    }
    assert options[..|options|] == options;
  }

  predicate Fits(options: seq<string>, l: int, n: nat, j: int)
    requires 0 <= j < |options|
  {
    AllLonger(OwnPaths(options[j], j == l), n)
  }

  lemma FitsIsAllLonger(options: seq<string>, n: nat)
    ensures var l := LowerIndex(options);
            (forall j :: 0 <= j < |options| ==> Fits(options, l, n, j)) <==> AllLonger(AllPaths(options), n)
  {
    var l := LowerIndex(options);
    PathOwners(options);
    if forall j :: 0 <= j < |options| ==> Fits(options, l, n, j) {
      forall p | p in AllPaths(options) ensures |p| > n {
        var j :| 0 <= j < |options| && p in OwnPaths(options[j], j == l);
        assert Fits(options, l, n, j);
      }
    }
  }

  /** The loop that rewrites the options; `fits` is false as soon as a path is too short to cut. */
  method Rebuild(options: seq<string>, l: int, n: nat) returns (fits: bool, newopts: seq<string>)
    requires 0 <= l < |options|
    ensures fits <==> forall j :: 0 <= j < |options| ==> Fits(options, l, n, j)
    ensures fits ==> newopts == Shorten(options, l, n)
  {
    newopts := [];
    for i := 0 to |options|
      invariant forall j :: 0 <= j < i ==> Fits(options, l, n, j)
      invariant newopts == Shorten(options, l, n)[..i]
    {
      fits, newopts := RebuildNext(options, l, n, i, newopts);
      if !fits {
        return;
      }
    }
    fits := true;
  }

  method RebuildNext(options: seq<string>, l: int, n: nat, i: nat, done: seq<string>)
    returns (fits: bool, newopts: seq<string>)
    requires i < |options| && done == Shorten(options, l, n)[..i]
    ensures fits <==> Fits(options, l, n, i)
    ensures fits ==> newopts == Shorten(options, l, n)[..i + 1]
  {
    var newopt;
    fits, newopt := RebuildOne(options[i], i == l, n);
    newopts := done + [newopt];
    TakeNext(Shorten(options, l, n), i);
  }

  method RebuildOne(opt: string, isLower: bool, n: nat) returns (fits: bool, newopt: string)
    ensures fits <==> AllLonger(OwnPaths(opt, isLower), n)
    ensures fits ==> newopt == ShortenOne(opt, isLower, n)
  {
    if isLower {
      var newdirs;
      fits, newdirs := CutDirs(LowerDirs(opt), n);
      newopt := LOWER + Join(newdirs, ':');
    } else if HasPrefix(opt, UPPER) {
      var p := opt[|UPPER|..];
      assert p in OwnPaths(opt, isLower);
      fits := |p| > n;
      newopt := if fits then UPPER + p[n..] else opt;
    } else if HasPrefix(opt, WORK) {
      var p := opt[|WORK|..];
      assert p in OwnPaths(opt, isLower);
      fits := |p| > n;
      newopt := if fits then WORK + p[n..] else opt;
    } else {
      fits, newopt := true, opt;
    }
  }

  method CutDirs(dirs: seq<string>, n: nat) returns (fits: bool, newdirs: seq<string>)
    ensures fits <==> AllLonger(dirs, n)
    ensures fits ==> newdirs == CutAll(dirs, n)
  {
    newdirs := [];
    for i := 0 to |dirs|
      invariant forall j :: 0 <= j < i ==> |dirs[j]| > n
      invariant |newdirs| == i && forall j :: 0 <= j < i ==> newdirs[j] == Cut(dirs[j], n)
    {
      if |dirs[i]| <= n {
        return false, newdirs;
      }
      newdirs := newdirs + [dirs[i][n..]];
    }
    fits := true;
  }
}
