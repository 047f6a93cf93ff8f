/** Compacting overlay options preserves what is mounted: exactly when every resolved path is the original
    one, and always for clean paths. */
module OverlayMeaning {
  import opened Text
  import opened Paths
  import opened Overlay

  /** An option as overlayfs reads it, with its paths resolved against the working directory. */
  datatype OverlayOption = Lower(dirs: seq<string>) | Upper(dir: string) | Work(dir: string) | Other(text: string)

  function Resolve(cwd: string, p: string): string {
    if Rooted(p) then p else cwd + p
  }

  function ResolveAll(cwd: string, dirs: seq<string>): seq<string> {
    seq(|dirs|, i requires 0 <= i < |dirs| => Resolve(cwd, dirs[i]))
  }

  function ReadOption(cwd: string, opt: string, isLower: bool): OverlayOption {
    if isLower then Lower(ResolveAll(cwd, LowerDirs(opt)))
    else if HasPrefix(opt, UPPER) then Upper(Resolve(cwd, opt[|UPPER|..]))
    else if HasPrefix(opt, WORK) then Work(Resolve(cwd, opt[|WORK|..]))
    else Other(opt)
  }

  /** What a mount with these options means in directory `cwd`. */
  function Meaning(cwd: string, options: seq<string>): seq<OverlayOption> {
    var l := LowerIndex(options);
    seq(|options|, i requires 0 <= i < |options| => ReadOption(cwd, options[i], i == l))
  }

  /** Cutting the directory `c` from `p` and resolving the rest in `c` gives `p` back. */
  ghost predicate Restorable(c: string, p: string) {
    c < p && p[|c|] != '/'
  }

  lemma ResolveCut(c: string, p: string)
    requires c != "" && |p| > |c|
    ensures Resolve(c, Cut(p, |c|)) == p <==> Restorable(c, p)
  {
    assert p == p[..|c|] + p[|c|..];
  }

  lemma ResolveInPlace(dirs: seq<string>)
    ensures ResolveAll("", dirs) == dirs
  {
    forall i | 0 <= i < |dirs| ensures ResolveAll("", dirs)[i] == dirs[i] {
      assert "" + dirs[i] == dirs[i];
    }
  }

  lemma LowerCut(c: string, dirs: seq<string>)
    requires c != "" && AllLonger(dirs, |c|) && dirs != [] && FreeOf(dirs, ':')
    ensures LowerDirs(LOWER + Join(CutAll(dirs, |c|), ':')) == CutAll(dirs, |c|)
    ensures ResolveAll(c, CutAll(dirs, |c|)) == dirs <==> forall p :: p in dirs ==> Restorable(c, p)
  {
    var cut := CutAll(dirs, |c|);
    assert FreeOf(cut, ':') by {
      forall i | 0 <= i < |cut| ensures ':' !in cut[i] { assert dirs[i] in dirs; }
    }
    SplitOfJoin(cut, ':');
    assert (LOWER + Join(cut, ':'))[|LOWER|..] == Join(cut, ':');
    forall i | 0 <= i < |dirs|
      ensures ResolveAll(c, cut)[i] == dirs[i] <==> Restorable(c, dirs[i])
    {
      assert dirs[i] in dirs;
      ResolveCut(c, dirs[i]);
    }
    if ResolveAll(c, cut) == dirs {
      forall p | p in dirs ensures Restorable(c, p) {
        var i :| 0 <= i < |dirs| && dirs[i] == p;
        assert ResolveAll(c, cut)[i] == dirs[i];
      }
    }
  }

  lemma LowerMeaning(c: string, opt: string)
    requires c != "" && AllLonger(LowerDirs(opt), |c|) && HasPrefix(opt, LOWER)
    ensures ReadOption(c, ShortenOne(opt, true, |c|), true) == ReadOption("", opt, true)
            <==> forall p :: p in LowerDirs(opt) ==> Restorable(c, p)
  {
    JoinOfSplit(opt[|LOWER|..], ':');
    LowerCut(c, LowerDirs(opt));
    ResolveInPlace(LowerDirs(opt));
  }

  lemma UpperMeaning(c: string, p: string)
    requires c != "" && |p| > |c|
    ensures ReadOption(c, ShortenOne(UPPER + p, false, |c|), false) == ReadOption("", UPPER + p, false)
            <==> Restorable(c, p)
  {
    assert (UPPER + p)[|UPPER|..] == p && (UPPER + Cut(p, |c|))[|UPPER|..] == Cut(p, |c|);
    ResolveCut(c, p);
    assert "" + p == p;
  }

  lemma WorkMeaning(c: string, p: string)
    requires c != "" && |p| > |c|
    ensures ReadOption(c, ShortenOne(WORK + p, false, |c|), false) == ReadOption("", WORK + p, false)
            <==> Restorable(c, p)
  {
    assert (WORK + p)[|WORK|..] == p && (WORK + Cut(p, |c|))[|WORK|..] == Cut(p, |c|);
    PrefixesDiffer(WORK + p);
    PrefixesDiffer(WORK + Cut(p, |c|));
    ResolveCut(c, p);
    assert "" + p == p;
  }

  lemma OtherMeaning(c: string, opt: string)
    requires c != "" && AllLonger(OwnPaths(opt, false), |c|)
    ensures ReadOption(c, ShortenOne(opt, false, |c|), false) == ReadOption("", opt, false)
            <==> forall p :: p in OwnPaths(opt, false) ==> Restorable(c, p)
  {
    var own := OwnPaths(opt, false);
    if HasPrefix(opt, UPPER) {
      assert own == [opt[|UPPER|..]] && own[0] in own && opt == UPPER + own[0];
      UpperMeaning(c, own[0]);
    } else if HasPrefix(opt, WORK) {
      assert own == [opt[|WORK|..]] && own[0] in own && opt == WORK + own[0];
      WorkMeaning(c, own[0]);
    }
  }

  lemma ShortenKeepsLower(options: seq<string>, n: nat)
    ensures LowerIndex(Shorten(options, LowerIndex(options), n)) == LowerIndex(options)
  {
    var l := LowerIndex(options);
    var short := Shorten(options, l, n);
    LowerIndexIsFirst(options);
    LowerIndexIsFirst(short);
    forall j | 0 <= j < |options|
      ensures HasPrefix(short[j], LOWER) <==> HasPrefix(options[j], LOWER)
    {
      PrefixesDiffer(options[j]);
      PrefixesDiffer(short[j]);
    }
  }

  ghost predicate OptionKept(options: seq<string>, l: int, c: string, j: nat)
    requires j < |options|
  {
    forall p :: p in OwnPaths(options[j], j == l) ==> Restorable(c, p)
  }

  lemma EachOptionMeaning(options: seq<string>, c: string, j: nat)
    requires c != "" && LowerIndex(options) >= 0 && j < |options| && Fits(options, LowerIndex(options), |c|, j)
    ensures var l := LowerIndex(options);
            Meaning(c, Shorten(options, l, |c|))[j] == Meaning("", options)[j] <==> OptionKept(options, l, c, j)
  {
    var l := LowerIndex(options);
    LowerIndexIsFirst(options);
    ShortenKeepsLower(options, |c|);
    if j == l { LowerMeaning(c, options[j]); } else { OtherMeaning(c, options[j]); }
  }

  lemma EveryPathRestorable(options: seq<string>, c: string)
    ensures var l := LowerIndex(options);
            (forall j :: 0 <= j < |options| ==> OptionKept(options, l, c, j))
            <==> forall p :: p in AllPaths(options) ==> Restorable(c, p)
  {
    var l := LowerIndex(options);
    PathOwners(options);
    if forall j :: 0 <= j < |options| ==> OptionKept(options, l, c, j) {
      forall p | p in AllPaths(options) ensures Restorable(c, p) {
        var j :| 0 <= j < |options| && p in OwnPaths(options[j], j == l);
        assert OptionKept(options, l, c, j);
      }
    }
  }

  lemma EveryOptionMeaning(options: seq<string>, c: string)
    requires c != "" && LowerIndex(options) >= 0 && AllLonger(AllPaths(options), |c|)
    ensures Meaning(c, Shorten(options, LowerIndex(options), |c|)) == Meaning("", options)
            <==> forall p :: p in AllPaths(options) ==> Restorable(c, p)
  {
    var l := LowerIndex(options);
    var now, was := Meaning(c, Shorten(options, l, |c|)), Meaning("", options);
    FitsIsAllLonger(options, |c|);
    EveryPathRestorable(options, c);
    forall j | 0 <= j < |options|
      ensures now[j] == was[j] <==> OptionKept(options, l, c, j)
    {
      EachOptionMeaning(options, c, j);
    }
    assert now == was <==> forall j :: 0 <= j < |options| ==> now[j] == was[j];
  }

  /** Compaction keeps the meaning of the mount exactly when the parent of the paths' longest common
      prefix, cleaned, is a prefix of their common directory and no path goes on with a second slash. */
  lemma CompactMeaning(options: seq<string>)
    ensures var (chdir, short) := Compact(options);
            var paths := AllPaths(options);
            var c := Dir(Lcp(paths)) + "/";
            chdir != "" ==> (Meaning(chdir, short) == Meaning("", options)
                             <==> c <= DirPart(Lcp(paths)) && forall p :: p in paths ==> p[|c|] != '/')
  {
    var (c, short) := Compact(options);
    if c != "" {
      var paths := AllPaths(options);
      EveryOptionMeaning(options, c);
      SlashPrefix(c, Lcp(paths));
      assert paths != [];
      assert c <= Lcp(paths) <==> CommonPrefix(paths, c);
    }
  }

  /** Where the common directory of clean paths starts and ends. */
  lemma CleanCommonDir(paths: seq<string>)
    requires paths != [] && forall p :: p in paths ==> IsClean(p)
    requires Dir(Lcp(paths)) != "." && Dir(Lcp(paths)) != "/"
    ensures Dir(Lcp(paths)) + "/" == DirPart(Lcp(paths))
    ensures forall p :: p in paths && DirPart(Lcp(paths)) < p ==> p[|DirPart(Lcp(paths))|] != '/'
  {
    var d := DirPart(Lcp(paths));
    CleanOfDots();
    assert d != "" && d != "/";
    var e := d[..|d| - 1];
    assert d == e + "/";
    assert paths[0] in paths && d <= paths[0];
    CleanPrefix(paths[0], e);
    forall p | p in paths && d < p ensures p[|d|] != '/' {
      CleanNoDoubleSlash(p, e);
    }
  }

  /** With clean paths compaction always keeps the meaning. */
  lemma CleanPathsKeepMeaning(options: seq<string>)
    requires forall p :: p in AllPaths(options) ==> IsClean(p)
    ensures Meaning(Compact(options).0, Compact(options).1) == Meaning("", options)
  {
    var paths := AllPaths(options);
    if Compact(options).0 != "" {
      assert paths != [];
      CleanCommonDir(paths);
      CompactMeaning(options);
      assert CommonPrefix(paths, Lcp(paths));
    } else {
      assert Compact(options) == ("", options);
    }
  }

  lemma CleanOfDots()
    ensures Clean("") == "." && Clean("/") == "/"
  {
    assert Split("", '/') == [""];
    assert "/" == "" + "/" + "";
    SplitAt("", "", '/');
    assert Split("/", '/') == ["", ""];
    assert ["", ""][..1] == [""] && [""][..0] == [];
    assert Keep(true, [""]) == Push(true, Keep(true, []), "");
    assert Keep(true, ["", ""]) == Push(true, Keep(true, [""]), "");
    assert Keep(false, [""]) == Push(false, Keep(false, []), "");
  }

  /** A doubled slash in the common directory makes compaction mount other directories: it enters `/a/`
      and leaves the absolute paths `/x` and `/y`. */
  lemma UncleanPathsLoseMeaning() returns (options: seq<string>)
    ensures options == ["lowerdir=/a//x:/a//y"]
    ensures Compact(options).0 == "/a/"
    ensures Meaning(Compact(options).0, Compact(options).1) != Meaning("", options)
  {
    var paths, lcp, dir;
    options, paths, lcp, dir := UncleanOptions();
    SecondSlashLosesMeaning(options, paths, lcp, dir, paths[0]);
  }

  lemma UncleanOptions() returns (options: seq<string>, paths: seq<string>, lcp: string, dir: string)
    ensures options == ["lowerdir=/a//x:/a//y"] && paths == ["/a//x", "/a//y"] && dir == "/a"
    ensures LowerIndex(options) == 0 && LowerDirs(options[0]) == AllPaths(options) == paths
    ensures lcp == Lcp(paths) && lcp != "" && dir == Dir(lcp)
    ensures AllLonger(paths, 3) && paths[0][3] == '/'
  {
    options, paths, lcp, dir := ["lowerdir=/a//x:/a//y"], ["/a//x", "/a//y"], "/a//", "/a";
    UncleanPaths();
    UncleanLcp();
    UncleanDir();
  }

  /** Wherever compaction chooses a directory after which some path goes on with a slash, it changes the
      mount. */
  lemma SecondSlashLosesMeaning(options: seq<string>, paths: seq<string>, lcp: string, dir: string, p: string)
    requires LowerIndex(options) >= 0 && |LowerDirs(options[LowerIndex(options)])| > 1
    requires paths == AllPaths(options) && lcp == Lcp(paths) != "" && dir == Dir(lcp) && dir != "/" && dir != "."
    requires AllLonger(paths, |dir| + 1) && p in paths && p[|dir| + 1] == '/'
    ensures Compact(options).0 == dir + "/"
    ensures Meaning(Compact(options).0, Compact(options).1) != Meaning("", options)
  {
    assert |dir + "/"| == |dir| + 1;
    CompactMeaning(options);
  }

  lemma UncleanPaths()
    ensures var options := ["lowerdir=/a//x:/a//y"];
            && LowerIndex(options) == 0 && LowerDirs(options[0]) == AllPaths(options) == ["/a//x", "/a//y"]
  {
    var opt := "lowerdir=/a//x:/a//y";
    assert opt[..|LOWER|] == LOWER;
    assert opt[|LOWER|..] == "/a//x" + [':'] + "/a//y";
    SplitAt("/a//x", "/a//y", ':');
    SplitWhole("/a//x", ':');
    SplitWhole("/a//y", ':');
    PrefixesDiffer(opt);
    assert [opt][..0] == [];
    assert UpperWorkPaths([opt]) == [];
  }

  lemma UncleanSplit()
    ensures Split("/a//", '/') == ["", "a", "", ""]
  {
    var parts := ["", "a", "", ""];
    assert parts[1..] == ["a", "", ""] && ["a", "", ""][1..] == ["", ""] && ["", ""][1..] == [""];
    assert Join(parts, '/') == "/a//";
    SplitOfJoin(parts, '/');
  }

  lemma UncleanKeep()
    ensures Keep(true, ["", "a", "", ""]) == ["a"]
  {
    var parts := ["", "a", "", ""];
    assert parts[..3] == ["", "a", ""] && ["", "a", ""][..2] == ["", "a"] && ["", "a"][..1] == [""];
    assert Keep(true, [""]) == [];
    assert Keep(true, ["", "a"]) == ["a"];
    assert Keep(true, ["", "a", ""]) == ["a"];
  }

  lemma UncleanDir()
    ensures Dir("/a//") == "/a"
  {
    UncleanSplit();
    UncleanKeep();
  }

  lemma UncleanLcp()
    ensures Lcp(["/a//x", "/a//y"]) == "/a//"
  {
    var a, b := "/a//x", "/a//y";
    forall q | CommonPrefix([a, b], q) ensures q <= "/a//" {
      assert a in [a, b] && b in [a, b];
      assert a[4] != b[4];
    }
    LcpUnique([a, b], "/a//");
  }
}
