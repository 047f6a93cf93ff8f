/** When overlay options are compacted, and into which directory, in terms of the options alone. */
module OverlayChoice {
  import opened Base
  import opened Text
  import opened Paths
  import opened Overlay
  import opened OverlayMeaning

  /** `options[l]` is the first lowerdir option. */
  ghost predicate FirstLower(options: seq<string>, l: nat) {
    && l < |options| && HasPrefix(options[l], LOWER)
    && forall j :: 0 <= j < l ==> !HasPrefix(options[j], LOWER)
  }

  /** A path the overlay is made of: a part of the first lowerdir option, an upperdir or a workdir. */
  ghost predicate IsOverlayPath(options: seq<string>, p: string) {
    || (exists l: nat :: FirstLower(options, l) && p in Split(options[l][|LOWER|..], ':'))
    || UPPER + p in options
    || WORK + p in options
  }

  /** All overlay paths lie below the directory `e`. */
  ghost predicate SharedDir(options: seq<string>, e: string) {
    e != "" && forall p :: IsOverlayPath(options, p) ==> e + "/" <= p
  }

  /** There is more than one lower directory. */
  ghost predicate ManyLower(options: seq<string>) {
    exists l: nat :: FirstLower(options, l) && ':' in options[l][|LOWER|..]
  }

  lemma {:induction false} SplitCount(s: string, sep: char)
    ensures |Split(s, sep)| > 1 <==> sep in s
  {
    if s != "" {
      SplitCount(s[1..], sep);
      assert s == [s[0]] + s[1..];
    }
  }

  lemma FirstLowerIs(options: seq<string>)
    ensures forall l: nat :: FirstLower(options, l) <==> l == LowerIndex(options)
    ensures ManyLower(options) <==>
            LowerIndex(options) >= 0 && |LowerDirs(options[LowerIndex(options)])| > 1
  {
    LowerIndexIsFirst(options);
    forall l: nat ensures FirstLower(options, l) <==> l == LowerIndex(options) {
      if FirstLower(options, l) && LowerIndex(options) >= 0 {
        assert l <= LowerIndex(options) <= l;
      }
    }
    if LowerIndex(options) >= 0 {
      SplitCount(options[LowerIndex(options)][|LOWER|..], ':');
      assert FirstLower(options, LowerIndex(options));
    }
  }

  lemma {:induction false} UpperWorkIs(options: seq<string>, p: string)
    ensures p in UpperWorkPaths(options) <==> UPPER + p in options || WORK + p in options
  {
    if options != [] {
      var front, last := options[..|options| - 1], options[|options| - 1];
      UpperWorkIs(front, p);
      OneUpperWork(last, p);
      assert forall o :: o in options <==> o in front || o == last;
    }
  }

  lemma OneUpperWork(opt: string, p: string)
    ensures p in UpperWorkOf(opt) <==> opt == UPPER + p || opt == WORK + p
  {
    PrefixesDiffer(opt);
    PrefixesDiffer(WORK + p);
    assert (UPPER + p)[|UPPER|..] == p && (WORK + p)[|WORK|..] == p;
    assert HasPrefix(opt, UPPER) ==> opt == UPPER + opt[|UPPER|..];
    assert HasPrefix(opt, WORK) ==> opt == WORK + opt[|WORK|..];
    assert HasPrefix(UPPER + p, UPPER) && HasPrefix(WORK + p, WORK);
  }

  /** The collected paths are the overlay paths. */
  lemma PathsAreCollected(options: seq<string>, p: string)
    ensures p in AllPaths(options) <==> IsOverlayPath(options, p)
  {
    FirstLowerIs(options);
    UpperWorkIs(options, p);
    var l := LowerIndex(options);
    if l >= 0 {
      assert FirstLower(options, l);
      assert LowerDirs(options[l]) == Split(options[l][|LOWER|..], ':');
    }
  }

  ghost predicate AllClean(options: seq<string>) {
    forall p :: IsOverlayPath(options, p) ==> IsClean(p)
  }

  lemma SharedMeans(options: seq<string>, e: string)
    ensures SharedDir(options, e) <==> e != "" && CommonPrefix(AllPaths(options), e + "/")
  {
    forall p ensures p in AllPaths(options) <==> IsOverlayPath(options, p) {
      PathsAreCollected(options, p);
    }
  }

  lemma DotsSplit()
    ensures Split(".", '/') == ["."] && Split("/", '/') == ["", ""]
  {
    SplitWhole(".", '/');
    SplitAt("", "", '/');
    assert "" + ['/'] + "" == "/";
  }

  /** A directory shared by clean paths is a real one. */
  lemma SharedIsReal(p: string, e: string)
    requires IsClean(p) && e != "" && e + "/" <= p
    ensures e != "/" && e != "."
  {
    var kept := PrefixParts(p, e);
    var parts := Split(e, '/');
    DotsSplit();
    assert p[0] == e[0];
    assert kept != [] ==> parts[|parts| - 1] == kept[|kept| - 1];
  }

  lemma CleanEnds(p: string, e: string)
    requires IsClean(p) && e != "" && e + "/" <= p
    ensures e + "/" < p
  {
    var f := p[|e| + 1..];
    assert p == e + "/" + f;
    SplitAt(e, f, '/');
    JoinOfSplit(p, '/');
    KeepIsNormal(Rooted(p), Split(p, '/'));
    PartsOfClean(p);
    var all, parts := Keep(Rooted(p), Split(p, '/')), Split(p, '/');
    assert all != [] ==> parts[|parts| - 1] == all[|all| - 1];
    assert parts[|parts| - 1] == Split(f, '/')[|Split(f, '/')| - 1];
  }

  lemma DirPartShared(paths: seq<string>, e: string)
    requires paths != [] && e != "" && CommonPrefix(paths, e + "/")
    ensures var c := DirPart(Lcp(paths));
            e + "/" <= c && CommonPrefix(paths, c)
  {
    var lcp := Lcp(paths);
    SlashPrefix(e + "/", lcp);
    forall p | p in paths ensures DirPart(lcp) <= p {
      assert lcp <= p;
    }
  }

  /** The directory part of the longest common prefix is the deepest shared directory. */
  lemma DeepestShared(paths: seq<string>, e: string)
    requires paths != [] && (forall p :: p in paths ==> IsClean(p)) && e != "" && CommonPrefix(paths, e + "/")
    ensures var c := DirPart(Lcp(paths));
            && e + "/" <= c && CommonPrefix(paths, c) && Dir(Lcp(paths)) + "/" == c
            && Dir(Lcp(paths)) != "" && Dir(Lcp(paths)) != "/" && Dir(Lcp(paths)) != "."
            && AllLonger(paths, |c|)
  {
    DirPartShared(paths, e);
    var c := DirPart(Lcp(paths));
    var d := c[..|c| - 1];
    assert c == d + "/" && d != "";
    assert paths[0] in paths;
    CleanPrefix(paths[0], d);
    SharedIsReal(paths[0], d);
    AllGoOn(paths, d);
  }

  lemma AllGoOn(paths: seq<string>, d: string)
    requires (forall p :: p in paths ==> IsClean(p)) && d != "" && CommonPrefix(paths, d + "/")
    ensures AllLonger(paths, |d| + 1)
  {
    forall p | p in paths ensures |p| > |d| + 1 {
      CleanEnds(p, d);
    }
  }

  lemma NoShared(paths: seq<string>)
    requires paths != [] && (forall p :: p in paths ==> IsClean(p))
    requires forall e :: e != "" ==> !CommonPrefix(paths, e + "/")
    ensures Lcp(paths) == "" || Dir(Lcp(paths)) == "/" || Dir(Lcp(paths)) == "."
  {
    var c := DirPart(Lcp(paths));
    CleanOfDots();
    if c != "" && c != "/" {
      var d := c[..|c| - 1];
      assert c == d + "/" && d != "";
      assert CommonPrefix(paths, d + "/");
    }
  }

  /** For clean paths compaction takes place exactly when there are several lower directories and some
      directory contains all overlay paths; it then enters the deepest such directory. */
  lemma CompactsExactlyWhenShared(options: seq<string>)
    requires AllClean(options)
    ensures var c := Compact(options).0;
            && (c != "" <==> ManyLower(options) && exists e :: SharedDir(options, e))
            && (c != "" ==> (exists d :: c == d + "/" && SharedDir(options, d))
                            && forall e :: SharedDir(options, e) ==> e + "/" <= c)
  {
    var paths := AllPaths(options);
    FirstLowerIs(options);
    forall e ensures SharedDir(options, e) <==> e != "" && CommonPrefix(paths, e + "/") {
      SharedMeans(options, e);
    }
    forall p | p in paths ensures IsClean(p) {
      PathsAreCollected(options, p);
    }
    if ManyLower(options) {
      assert paths != [];
      if e :| SharedDir(options, e) {
        forall f | SharedDir(options, f) ensures f + "/" <= DirPart(Lcp(paths)) {
          DeepestShared(paths, f);
        }
        DeepestShared(paths, e);
        var d := Dir(Lcp(paths));
        assert SharedDir(options, d) && Compact(options).0 == d + "/";
      } else {
        NoShared(paths);
      }
    }
  }
}
