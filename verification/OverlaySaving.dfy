/** Compacting overlay options keeps the mount flags and shortens the data by exactly the bytes it cuts. */
module OverlaySaving {
  import opened Base
  import opened Text
  import opened Overlay

  function TotalLength(parts: seq<string>): nat {
    if parts == [] then 0 else TotalLength(parts[..|parts| - 1]) + |parts[|parts| - 1]|
  }

  lemma {:induction false} TimesAdds(n: nat, j: nat, k: nat)
    ensures Times(n, j + k) == Times(n, j) + Times(n, k)
  {
    if k > 0 { TimesAdds(n, j, k - 1); }
  }

  lemma {:induction false} JoinLength(parts: seq<string>, sep: char)
    requires parts != []
    ensures |Join(parts, sep)| == TotalLength(parts) + |parts| - 1
  {
    if |parts| == 1 {
      assert TotalLength(parts[..0]) == 0;
    } else {
      JoinLength(parts[1..], sep);
      FirstLength(parts);
    }
  }

  lemma {:induction false} FirstLength(parts: seq<string>)
    requires parts != []
    ensures TotalLength(parts) == |parts[0]| + TotalLength(parts[1..])
  {
    var n := |parts| - 1;
    if n > 0 {
      FirstLength(parts[..n]);
      assert parts[..n][1..] == parts[1..][..n - 1];
    } else {
      assert parts[..0] == [];
    }
  }

  lemma LastLength(parts: seq<string>, p: string)
    ensures TotalLength(parts + [p]) == TotalLength(parts) + |p|
  {
    assert (parts + [p])[..|parts|] == parts;
  }

  lemma {:induction false} CutLength(dirs: seq<string>, n: nat)
    requires AllLonger(dirs, n)
    ensures TotalLength(CutAll(dirs, n)) + Times(n, |dirs|) == TotalLength(dirs)
  {
    if dirs != [] {
      var k := |dirs| - 1;
      assert dirs[k] in dirs && forall p :: p in dirs[..k] ==> p in dirs;
      CutLength(dirs[..k], n);
      assert CutAll(dirs, n)[..k] == CutAll(dirs[..k], n);
    }
  }

  /** What the lowerdir option loses: the cut, once for each directory. */
  lemma LowerSaving(opt: string, n: nat)
    requires AllLonger(LowerDirs(opt), n) && HasPrefix(opt, LOWER)
    ensures |ShortenOne(opt, true, n)| + Times(n, |LowerDirs(opt)|) == |opt|
  {
    var dirs := LowerDirs(opt);
    JoinOfSplit(opt[|LOWER|..], ':');
    CutLength(dirs, n);
    JoinLength(dirs, ':');
    JoinLength(CutAll(dirs, n), ':');
  }

  lemma OptionSaving(opt: string, isLower: bool, n: nat)
    requires AllLonger(OwnPaths(opt, isLower), n) && (isLower ==> HasPrefix(opt, LOWER))
    ensures |ShortenOne(opt, isLower, n)| + Times(n, |OwnPaths(opt, isLower)|) == |opt|
  {
    var own := OwnPaths(opt, isLower);
    if isLower {
      LowerSaving(opt, n);
    } else if own != [] {
      assert own[0] in own && |own| == 1;
      assert Times(n, 1) == Times(n, 0) + n;
    }
  }

  /** A flag table without overlay options. */
  ghost predicate NoPathFlags(table: FlagTable) {
    forall o :: o in table ==> !HasPrefix(o, LOWER) && !HasPrefix(o, UPPER) && !HasPrefix(o, WORK)
  }

  lemma TableHasNoPathFlags()
    ensures NoPathFlags(FLAGS_TABLE)
  {
    assert LOWER[0] == 'l' && UPPER[0] == 'u' && WORK[0] == 'w';
    forall o | o in FLAGS_TABLE
      ensures !HasPrefix(o, LOWER) && !HasPrefix(o, UPPER) && !HasPrefix(o, WORK)
    {
      assert o[0] != 'l' && o[0] != 'u' && o[0] != 'w';
    }
  }

  lemma FlagsUntouched(table: FlagTable, opt: string, isLower: bool, n: nat)
    requires NoPathFlags(table) && (isLower ==> HasPrefix(opt, LOWER))
    ensures ShortenOne(opt, isLower, n) in table <==> opt in table
    ensures opt in table ==> ShortenOne(opt, isLower, n) == opt && OwnPaths(opt, isLower) == []
  {
  }

  function Sum(counts: seq<nat>): nat {
    if counts == [] then 0 else Sum(counts[..|counts| - 1]) + counts[|counts| - 1]
  }

  /** How many overlay paths each option holds. */
  function PathCounts(options: seq<string>, l: int): seq<nat> {
    seq(|options|, i requires 0 <= i < |options| => |OwnPaths(options[i], i == l)|)
  }

  lemma CountsLast(options: seq<string>, l: int, n: nat)
    requires |options| == n + 1
    ensures Sum(PathCounts(options, l)) == Sum(PathCounts(options[..n], l)) + |OwnPaths(options[n], n == l)|
    ensures |UpperWorkPaths(options)| == |UpperWorkPaths(options[..n])| + |UpperWorkOf(options[n])|
  {
    assert PathCounts(options, l)[..n] == PathCounts(options[..n], l);
  }

  lemma {:induction false} CountsAllPaths(options: seq<string>, l: int)
    requires -1 <= l && forall j :: 0 <= j < |options| && j == l ==> HasPrefix(options[j], LOWER)
    ensures var lower := if 0 <= l < |options| then |LowerDirs(options[l])| else 0;
            Sum(PathCounts(options, l)) == lower + |UpperWorkPaths(options)|
  {
    if options != [] {
      var n := |options| - 1;
      CountsAllPaths(options[..n], l);
      CountsLast(options, l, n);
      PrefixesDiffer(options[n]);
    }
  }

  /** `o'` is `o` shortened by `n` for each of its `own` paths, or the same flag. */
  ghost predicate SavedOne(table: FlagTable, o: string, o': string, n: nat, own: nat) {
    && (o' in table <==> o in table)
    && (o in table ==> o' == o && own == 0)
    && |o'| + Times(n, own) == |o|
  }

  ghost predicate Saved(table: FlagTable, was: seq<string>, now: seq<string>, n: nat, saved: nat) {
    && FlagsOf(table, now) == FlagsOf(table, was)
    && |DataParts(table, now)| == |DataParts(table, was)|
    && TotalLength(DataParts(table, now)) + Times(n, saved) == TotalLength(DataParts(table, was))
  }

  lemma SavingStep(table: FlagTable, was: seq<string>, now: seq<string>, o: string, o': string,
                   n: nat, saved: nat, own: nat)
    requires Saved(table, was, now, n, saved) && SavedOne(table, o, o', n, own)
    ensures Saved(table, was + [o], now + [o'], n, saved + own)
  {
    assert (was + [o])[..|was|] == was && (now + [o'])[..|now|] == now;
    var p, q := DataParts(table, was), DataParts(table, now);
    if o in table {
      assert p + [] == p && q + [] == q;
    } else {
      TimesAdds(n, saved, own);
      LastLength(p, o);
      LastLength(q, o');
    }
  }

  lemma {:induction false} SavingAdds(table: FlagTable, was: seq<string>, now: seq<string>, counts: seq<nat>, n: nat)
    requires |was| == |now| == |counts|
    requires forall j :: 0 <= j < |was| ==> SavedOne(table, was[j], now[j], n, counts[j])
    ensures Saved(table, was, now, n, Sum(counts))
  {
    if was != [] {
      var m := |was| - 1;
      var w, v, c := was[..m], now[..m], counts[..m];
      TakeNext(was, m);
      TakeNext(now, m);
      assert was[..m + 1] == was && now[..m + 1] == now;
      assert Sum(counts) == Sum(c) + counts[m];
      SavingAdds(table, w, v, c, n);
      SavingStep(table, w, v, was[m], now[m], n, Sum(c), counts[m]);
    }
  }

  lemma ShortenSavesEach(table: FlagTable, options: seq<string>, n: nat)
    requires NoPathFlags(table) && LowerIndex(options) >= 0 && AllLonger(AllPaths(options), n)
    ensures var l := LowerIndex(options);
            forall j :: 0 <= j < |options| ==>
              SavedOne(table, options[j], Shorten(options, l, n)[j], n, PathCounts(options, l)[j])
  {
    var l := LowerIndex(options);
    LowerIndexIsFirst(options);
    FitsIsAllLonger(options, n);
    forall j | 0 <= j < |options|
      ensures SavedOne(table, options[j], Shorten(options, l, n)[j], n, PathCounts(options, l)[j])
    {
      assert Fits(options, l, n, j);
      OptionSaving(options[j], j == l, n);
      FlagsUntouched(table, options[j], j == l, n);
    }
  }

  lemma {:induction false} LowerIsData(table: FlagTable, options: seq<string>, l: nat)
    requires NoPathFlags(table) && l < |options| && HasPrefix(options[l], LOWER)
    ensures DataParts(table, options) != []
  {
    if l < |options| - 1 {
      LowerIsData(table, options[..|options| - 1], l);
    }
  }

  lemma JoinedSaving(table: FlagTable, was: seq<string>, now: seq<string>, n: nat, saved: nat)
    requires Saved(table, was, now, n, saved) && DataParts(table, was) != []
    ensures |Join(DataParts(table, now), ',')| + Times(n, saved) == |Join(DataParts(table, was), ',')|
  {
    JoinLength(DataParts(table, was), ',');
    JoinLength(DataParts(table, now), ',');
  }

  lemma ShortenSaves(table: FlagTable, options: seq<string>, n: nat)
    requires NoPathFlags(table) && LowerIndex(options) >= 0 && AllLonger(AllPaths(options), n)
    ensures var short := Shorten(options, LowerIndex(options), n);
            && FlagsOf(table, short) == FlagsOf(table, options)
            && |Join(DataParts(table, short), ',')| + Times(n, |AllPaths(options)|)
               == |Join(DataParts(table, options), ',')|
  {
    var l := LowerIndex(options);
    var short := Shorten(options, l, n);
    var paths := |AllPaths(options)|;
    assert Sum(PathCounts(options, l)) == paths by {
      LowerIndexIsFirst(options);
      CountsAllPaths(options, l);
    }
    assert Saved(table, options, short, n, paths) by {
      ShortenSavesEach(table, options, n);
      SavingAdds(table, options, short, PathCounts(options, l), n);
    }
    assert DataParts(table, options) != [] by {
      LowerIndexIsFirst(options);
      LowerIsData(table, options, l);
    }
    JoinedSaving(table, options, short, n, paths);
  }

  /** Compaction leaves the mount flags alone and shortens the mount data by the length of the chosen
      directory for every overlay path. */
  lemma CompactSaves(table: FlagTable, options: seq<string>)
    requires NoPathFlags(table)
    ensures var (c, short) := Compact(options);
            && FlagsOf(table, short) == FlagsOf(table, options)
            && |Join(DataParts(table, short), ',')| + |c| * |AllPaths(options)|
               == |Join(DataParts(table, options), ',')|
  {
    var (c, short) := Compact(options);
    TimesIsProduct(|c|, |AllPaths(options)|);
    if c != "" {
      ShortenSaves(table, options, |c|);
    } else {
      assert short == options;
    }
  }
}
