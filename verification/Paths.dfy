/** path.Clean and path.Dir of the Go library, as far as overlay compaction depends on them. */
module Paths {
  import opened Text

  /** One slash-separated component met by path.Clean, with the components kept so far. */
  function Push(rooted: bool, kept: seq<string>, c: string): seq<string> {
    if c == "" || c == "." then kept
    else if c != ".." then kept + [c]
    else if kept != [] && kept[|kept| - 1] != ".." then kept[..|kept| - 1]
    else if rooted then kept
    else kept + [c]
  }

  function Keep(rooted: bool, comps: seq<string>): seq<string> {
    if comps == [] then []
    else Push(rooted, Keep(rooted, comps[..|comps| - 1]), comps[|comps| - 1])
  }

  predicate Rooted(p: string) {
    p != "" && p[0] == '/'
  }

  function Clean(p: string): string {
    var kept := Keep(Rooted(p), Split(p, '/'));
    if Rooted(p) then "/" + Join(kept, '/')
    else if kept == [] then "."
    else Join(kept, '/')
  }

  predicate IsClean(p: string) {
    Clean(p) == p
  }

  /** path.Split's directory: everything up to and including the last slash. */
  function DirPart(p: string): (d: string)
    ensures d <= p && (d != "" ==> d[|d| - 1] == '/')
    ensures '/' !in p[|d|..]
  {
    if p == "" || p[|p| - 1] == '/' then p
    else
      var d := DirPart(p[..|p| - 1]);
      assert p[|d|..] == p[..|p| - 1][|d|..] + [p[|p| - 1]];
      d
  }

  /** path.Dir */
  function Dir(p: string): string {
    Clean(DirPart(p))
  }

  /** The shape of what Clean keeps: real names, after dot-dots that only a relative path may have. */
  ghost predicate Normal(rooted: bool, kept: seq<string>) {
    forall i :: 0 <= i < |kept| ==>
      && kept[i] != "" && kept[i] != "." && '/' !in kept[i]
      && (kept[i] == ".." ==> !rooted && forall j :: 0 <= j < i ==> kept[j] == "..")
  }

  lemma {:induction false} KeepIsNormal(rooted: bool, comps: seq<string>)
    requires FreeOf(comps, '/')
    ensures Normal(rooted, Keep(rooted, comps))
  {
    if comps != [] {
      KeepIsNormal(rooted, comps[..|comps| - 1]);
      assert comps[|comps| - 1] in comps;
    }
  }

  /** Clean keeps every component of a normal path, and of each of its prefixes. */
  lemma {:induction false} NormalIsKept(rooted: bool, kept: seq<string>, n: nat)
    requires Normal(rooted, kept) && n <= |kept|
    ensures Keep(rooted, kept[..n]) == kept[..n]
    ensures Keep(rooted, [""] + kept[..n]) == kept[..n]
  {
    if n == 0 {
      assert [""] + kept[..0] == [""];
      assert Keep(rooted, [""]) == Push(rooted, Keep(rooted, [""][..0]), "");
    } else {
      NormalIsKept(rooted, kept, n - 1);
      assert kept[..n][..n - 1] == kept[..n - 1];
      assert ([""] + kept[..n])[..n] == [""] + kept[..n - 1];
      assert kept[..n - 1] + [kept[n - 1]] == kept[..n];
      assert Push(rooted, kept[..n - 1], kept[n - 1]) == kept[..n];
    }
  }

  /** The components of a directory prefix of a clean path are a prefix of what Clean kept. */
  lemma PrefixParts(p: string, e: string) returns (kept: seq<string>)
    requires IsClean(p) && e != "" && e + "/" <= p
    ensures Normal(Rooted(p), kept)
    ensures Split(e, '/') == (if Rooted(p) then [""] else []) + kept
  {
    var f := p[|e| + 1..];
    assert p == e + "/" + f;
    SplitAt(e, f, '/');
    JoinOfSplit(p, '/');
    KeepIsNormal(Rooted(p), Split(p, '/'));
    PartsOfClean(p);
    var all, parts := Keep(Rooted(p), Split(p, '/')), Split(e, '/');
    var lead := if Rooted(p) then [""] else [];
    kept := all[..|parts| - |lead|];
    PrefixBehindLead(parts, Split(f, '/'), lead, all);
    NormalPrefix(Rooted(p), all, |parts| - |lead|);
  }

  lemma PrefixBehindLead<T>(parts: seq<T>, rest: seq<T>, lead: seq<T>, all: seq<T>)
    requires parts + rest == lead + all && |parts| >= |lead|
    ensures |parts| - |lead| <= |all| && parts == lead + all[..|parts| - |lead|]
  {
    assert |parts + rest| == |lead + all|;
    assert parts == (parts + rest)[..|parts|] == (lead + all)[..|parts|];
  }

  lemma NormalPrefix(rooted: bool, kept: seq<string>, n: nat)
    requires Normal(rooted, kept) && n <= |kept|
    ensures Normal(rooted, kept[..n])
  {
    assert forall i :: 0 <= i < n ==> kept[..n][i] == kept[i];
  }

  /** The directory prefixes of a clean path are clean up to their final slash. */
  lemma CleanPrefix(p: string, e: string)
    requires IsClean(p) && e != "" && e + "/" <= p
    ensures Clean(e + "/") == e
  {
    var d := e + "/";
    var rooted := Rooted(p);
    var kept := PrefixParts(p, e);
    SplitAt(e, "", '/');
    assert d == e + "/" + "";
    assert Split(d, '/')[..|Split(e, '/')|] == Split(e, '/');
    NormalIsKept(rooted, kept, |kept|);
    assert kept[..|kept|] == kept;
    assert [] + kept == kept;
    assert Keep(rooted, Split(d, '/')) == Keep(rooted, Split(e, '/')) == kept;
    JoinOfSplit(e, '/');
    assert rooted == Rooted(d);
    if rooted {
      assert kept != [];
      JoinLeadingSlash(kept);
    }
  }

  lemma JoinLeadingSlash(parts: seq<string>)
    requires parts != []
    ensures Join([""] + parts, '/') == "/" + Join(parts, '/')
  {
    assert ([""] + parts)[1..] == parts;
  }

  lemma PartsOfClean(p: string)
    requires IsClean(p) && '/' in p && p != "/"
    ensures Split(p, '/') == (if Rooted(p) then [""] else []) + Keep(Rooted(p), Split(p, '/'))
  {
    var rooted := Rooted(p);
    var kept := Keep(rooted, Split(p, '/'));
    JoinOfSplit(p, '/');
    KeepIsNormal(rooted, Split(p, '/'));
    assert kept != [];
    if rooted {
      JoinLeadingSlash(kept);
      SplitOfJoin([""] + kept, '/');
    } else {
      SplitOfJoin(kept, '/');
      assert [] + kept == kept;
    }
  }

  /** A clean path has no empty component after a directory prefix. */
  lemma CleanNoDoubleSlash(p: string, e: string)
    requires IsClean(p) && e != "" && e + "/" < p
    ensures p[|e| + 1] != '/'
  {
    var f := p[|e| + 1..];
    assert p == e + "/" + f;
    SplitAt(e, f, '/');
    JoinOfSplit(p, '/');
    KeepIsNormal(Rooted(p), Split(p, '/'));
    PartsOfClean(p);
    var k := |Split(e, '/')|;
    assert Split(p, '/')[k] == Split(f, '/')[0];
  }

  /** A prefix that ends in a slash lies inside the directory part. */
  lemma SlashPrefix(c: string, p: string)
    requires c != "" && c[|c| - 1] == '/'
    ensures c <= DirPart(p) <==> c <= p
  {
    var d := DirPart(p);
    assert forall i :: |d| <= i < |p| ==> p[i] == p[|d|..][i - |d|];
  }

  // ---- Where a path leads ----

  /** One component taken at a place, which is the names on the way to it; the root is its own parent. */
  ghost function Enter(place: seq<string>, c: string): seq<string> {
    if c == "" || c == "." then place
    else if c != ".." then place + [c]
    else if place == [] then []
    else place[..|place| - 1]
  }

  ghost function Walk(place: seq<string>, comps: seq<string>): seq<string> {
    if comps == [] then place
    else Enter(Walk(place, comps[..|comps| - 1]), comps[|comps| - 1])
  }

  /** Where `p` leads from `place`. */
  ghost function Leads(place: seq<string>, p: string): seq<string> {
    Walk(if Rooted(p) then [] else place, Split(p, '/'))
  }

  lemma PushLeads(rooted: bool, place: seq<string>, kept: seq<string>, c: string)
    requires Normal(rooted, kept) && (rooted ==> place == [])
    ensures Walk(place, Push(rooted, kept, c)) == Enter(Walk(place, kept), c)
  {
    assert (kept + [c])[..|kept|] == kept;
  }

  lemma {:induction false} KeepLeads(rooted: bool, place: seq<string>, comps: seq<string>)
    requires FreeOf(comps, '/') && (rooted ==> place == [])
    ensures Walk(place, Keep(rooted, comps)) == Walk(place, comps)
  {
    if comps != [] {
      var front := comps[..|comps| - 1];
      KeepLeads(rooted, place, front);
      KeepIsNormal(rooted, front);
      PushLeads(rooted, place, Keep(rooted, front), comps[|comps| - 1]);
    }
  }

  lemma {:induction false} EmptyLead(place: seq<string>, comps: seq<string>)
    ensures Walk(place, [""] + comps) == Walk(place, comps)
  {
    if comps == [] {
      assert ([""] + comps)[..0] == [];
    } else {
      EmptyLead(place, comps[..|comps| - 1]);
      assert ([""] + comps)[..|comps|] == [""] + comps[..|comps| - 1];
    }
  }

  /** The text of a path with these components. */
  ghost function Printed(rooted: bool, kept: seq<string>): string {
    if rooted then "/" + Join(kept, '/') else if kept == [] then "." else Join(kept, '/')
  }

  lemma NormalParts(rooted: bool, kept: seq<string>)
    requires Normal(rooted, kept)
    ensures var p := Printed(rooted, kept);
            && Rooted(p) == rooted
            && Split(p, '/') == if rooted then [""] + (if kept == [] then [""] else kept)
                                else if kept == [] then ["."] else kept
  {
    if kept != [] {
      SplitOfJoin(kept, '/');
    } else {
      SplitWhole(".", '/');
    }
    if rooted {
      SplitHead('/', Join(kept, '/'), '/');
    }
  }

  lemma EmptyIsKept(rooted: bool)
    ensures Keep(rooted, ["."]) == [] && Keep(rooted, ["", ""]) == []
  {
    assert ["", ""][..1] == [""] && [""][..0] == [] && ["."][..0] == [];
    assert Keep(rooted, [""]) == [];
  }

  lemma NormalIsClean(rooted: bool, kept: seq<string>)
    requires Normal(rooted, kept)
    ensures IsClean(Printed(rooted, kept))
  {
    NormalParts(rooted, kept);
    if kept == [] {
      EmptyIsKept(rooted);
      assert [""] + [""] == ["", ""];
    } else {
      NormalIsKept(rooted, kept, |kept|);
      assert kept[..|kept|] == kept;
    }
  }

  /** The clean path is normal, leads where the given one leads from every place, and is clean. */
  lemma CleanMeans(p: string, place: seq<string>)
    ensures var kept := Keep(Rooted(p), Split(p, '/'));
            Normal(Rooted(p), kept) && Clean(p) == Printed(Rooted(p), kept)
    ensures Rooted(Clean(p)) == Rooted(p) && Leads(place, Clean(p)) == Leads(place, p)
    ensures IsClean(Clean(p))
  {
    var rooted, comps := Rooted(p), Split(p, '/');
    var kept := Keep(rooted, comps);
    JoinOfSplit(p, '/');
    KeepIsNormal(rooted, comps);
    KeepLeads(rooted, if rooted then [] else place, comps);
    NormalParts(rooted, kept);
    EmptyLead(if rooted then [] else place, kept);
    NormalIsClean(rooted, kept);
  }
}
