/** The distribution-source label of a blob (pkg/remote/remotes/docker/handler.go): the repositories it
    is known to live in, as one comma-joined string, and the choice of a mount candidate from it. */
module SourceLabel {
  import opened Text

  // ---- The insertion sort that turns duplicates into empty strings ----

  /** Where a new entry goes and as what: it passes the larger entries from the right; on meeting an
      equal one it becomes empty, and so travels to the front. */
  function Slot(s: seq<string>, x: string): (r: (nat, string))
    ensures r.0 <= |s|
  {
    if s == [] || Less(s[|s| - 1], x) then (|s|, x)
    else Slot(s[..|s| - 1], if s[|s| - 1] == x then "" else x)
  }

  function Insert(s: seq<string>, x: string): seq<string> {
    var (at, y) := Slot(s, x);
    s[..at] + [y] + s[at..]
  }

  lemma InsertLast(s: seq<string>, x: string)
    ensures s == [] || Less(s[|s| - 1], x) ==> Insert(s, x) == s + [x]
    ensures !(s == [] || Less(s[|s| - 1], x)) ==>
              Insert(s, x) == Insert(s[..|s| - 1], if s[|s| - 1] == x then "" else x) + [s[|s| - 1]]
  {
    var (at, y) := Slot(s, x);
    if s == [] || Less(s[|s| - 1], x) {
      assert s[..|s|] + [x] + s[|s|..] == s + [x];
    } else {
      InsertBeforeLast(s, at, y);
    }
  }

  lemma InsertBeforeLast<T>(s: seq<T>, at: nat, y: T)
    requires at < |s|
    ensures var front := s[..|s| - 1];
            s[..at] + [y] + s[at..] == front[..at] + [y] + front[at..] + [s[|s| - 1]]
  {
  }

  function Sort(s: seq<string>): seq<string> {
    if s == [] then [] else Insert(Sort(s[..|s| - 1]), s[|s| - 1])
  }

  predicate Below(x: string, y: string) {
    x == "" || Less(x, y)
  }

  /** Empty strings in front, then strictly ascending. */
  predicate Shaped(s: seq<string>) {
    forall i, j :: 0 <= i < j < |s| ==> Below(s[i], s[j])
  }

  ghost predicate AllBelow(s: seq<string>, y: string) {
    forall i :: 0 <= i < |s| ==> Below(s[i], y)
  }

  lemma BelowTransitive(a: string, b: string, c: string)
    requires Below(a, b) && Below(b, c)
    ensures Below(a, c)
  {
    if a != "" && b != "" { LessTransitive(a, b, c); }
  }

  lemma {:induction false} InsertBelow(s: seq<string>, x: string, y: string)
    requires AllBelow(s, y) && Below(x, y)
    ensures AllBelow(Insert(s, x), y)
  {
    InsertLast(s, x);
    if s != [] && !Less(s[|s| - 1], x) {
      InsertBelow(s[..|s| - 1], if s[|s| - 1] == x then "" else x, y);
    }
  }

  lemma {:induction false} InsertShapes(s: seq<string>, x: string)
    requires Shaped(s)
    ensures Shaped(Insert(s, x))
  {
    InsertLast(s, x);
    if s == [] {
    } else if Less(s[|s| - 1], x) {
      forall i | 0 <= i < |s| ensures Below(s[i], x) {
        if i < |s| - 1 { BelowTransitive(s[i], s[|s| - 1], x); }
      }
    } else {
      var front, last := s[..|s| - 1], s[|s| - 1];
      var moved := if last == x then "" else x;
      InsertShapes(front, moved);
      LessTotal(last, x);
      InsertBelow(front, moved, last);
    }
  }

  lemma {:induction false} InsertMembers(s: seq<string>, x: string, y: string)
    requires y != ""
    ensures y in Insert(s, x) <==> y in s || y == x
  {
    InsertLast(s, x);
    if s != [] && !Less(s[|s| - 1], x) {
      var front, last := s[..|s| - 1], s[|s| - 1];
      InsertMembers(front, if last == x then "" else x, y);
      assert y in s <==> y in front || y == last;
    }
  }

  lemma {:induction false} SortShapes(s: seq<string>)
    ensures Shaped(Sort(s))
    ensures forall y :: y != "" ==> (y in Sort(s) <==> y in s)
  {
    if s != [] {
      var front, last := s[..|s| - 1], s[|s| - 1];
      SortShapes(front);
      InsertShapes(Sort(front), last);
      forall y | y != "" ensures y in Sort(s) <==> y in s {
        InsertMembers(Sort(front), last, y);
        assert y in s <==> y in front || y == last;
      }
    }
  }

  lemma SortNext(s: seq<string>, i: nat)
    requires i < |s|
    ensures Sort(s[..i + 1]) == Insert(Sort(s[..i]), s[i])
  {
    assert s[..i + 1][..i] == s[..i];
  }

  method SortInPlace(a: array<string>)
    modifies a
    ensures a[..] == Sort(old(a[..]))
  {
    ghost var s := a[..];
    for i := 0 to a.Length
      invariant a[..i] == Sort(s[..i])
      invariant forall k :: i <= k < a.Length ==> a[k] == s[k]
    {
      SortNext(s, i);
      InsertInPlace(a, i);
    }
    assert a[..] == a[..a.Length] && s[..a.Length] == s;
  }

  lemma SlotNext(s: seq<string>, j: nat, x: string)
    requires 0 < j <= |s| && !Less(s[j - 1], x)
    ensures Slot(s[..j], x) == Slot(s[..j - 1], if s[j - 1] == x then "" else x)
  {
    assert s[..j][..j - 1] == s[..j - 1];
  }

  /** The inner loop: entries not below the new one move up and leave a gap at `j`. */
  method MoveUp(a: array<string>, i: nat) returns (j: nat, tmp: string)
    requires i < a.Length
    modifies a
    ensures j <= i && (j, tmp) == Slot(old(a[..i]), old(a[i]))
    ensures forall k :: 0 <= k < j || i < k < a.Length ==> a[k] == old(a[k])
    ensures forall k :: j <= k < i ==> a[k + 1] == old(a[k])
  {
    ghost var s := a[..i];
    tmp, j := a[i], i;
    assert s[..i] == s;
    while j > 0 && !Less(a[j - 1], tmp)
      invariant 0 <= j <= i
      invariant Slot(s, old(a[i])) == Slot(s[..j], tmp)
      invariant forall k :: 0 <= k < j || i < k < a.Length ==> a[k] == old(a[k])
      invariant forall k :: j <= k < i ==> a[k + 1] == old(a[k])
    {
      SlotNext(s, j, tmp);
      if a[j - 1] == tmp {
        tmp := "";
      }
      a[j] := a[j - 1];
      j := j - 1;
    }
  }

  /** One pass of the outer loop; the pass at index 0 leaves the array as it is. */
  method InsertInPlace(a: array<string>, i: nat)
    requires i < a.Length
    modifies a
    ensures a[..i + 1] == Insert(old(a[..i]), old(a[i]))
    ensures forall k :: i < k < a.Length ==> a[k] == old(a[k])
  {
    ghost var s := a[..i];
    var j, tmp := MoveUp(a, i);
    a[j] := tmp;
    forall k | 0 <= k <= i ensures a[k] == (s[..j] + [tmp] + s[j..])[k] {
      if k > j {
        assert a[(k - 1) + 1] == s[k - 1];
      }
    }
    assert a[..i + 1] == s[..j] + [tmp] + s[j..];
  }

  // ---- The label ----

  /** Without the empty strings in front */
  function Trim(s: seq<string>): seq<string> {
    if s == [] || s[0] != "" then s else Trim(s[1..])
  }

  function Canon(s: seq<string>): seq<string> {
    Trim(Sort(s))
  }

  ghost predicate Lists(list: seq<string>, s: seq<string>) {
    Ascending(list) && forall y :: y in list <==> y in s && y != ""
  }

  lemma {:induction false} TrimLists(s: seq<string>)
    requires Shaped(s)
    ensures Lists(Trim(s), s)
  {
    if s == [] {
    } else if s[0] == "" {
      TrimLists(s[1..]);
      assert forall y :: y != "" ==> (y in s <==> y in s[1..]);
    } else {
      forall i | 0 < i < |s| ensures s[i] != "" {
        assert Below(s[0], s[i]);
      }
    }
  }

  /** The strictly ascending list of the non-empty entries, duplicates gone. */
  lemma CanonLists(s: seq<string>)
    ensures Lists(Canon(s), s)
  {
    SortShapes(s);
    TrimLists(Sort(s));
  }

  lemma CanonDecided(s: seq<string>, t: seq<string>)
    requires forall y :: y != "" ==> (y in s <==> y in t)
    ensures Canon(s) == Canon(t)
  {
    CanonLists(s);
    CanonLists(t);
    AscendingUnique(Canon(s), Canon(t));
  }

  function Entries(text: string): seq<string> {
    if text == "" then [] else Split(text, ',')
  }

  function Append(text: string, repo: string): string {
    Join(Canon(Entries(text) + [repo]), ',')
  }

  method AppendDistributionSourceLabel(originLabel: string, repo: string) returns (text: string)
    ensures text == Append(originLabel, repo)
  {
    var list := Entries(originLabel) + [repo];
    var repos := new string[|list|](i requires 0 <= i < |list| => list[i]);
    assert repos[..] == list;
    SortInPlace(repos);
    var sorted := repos[..];
    var i := 0;
    assert sorted[0..] == sorted;
    while i < |sorted| && sorted[i] == ""
      invariant 0 <= i <= |sorted|
      invariant Trim(sorted[i..]) == Trim(sorted)
    {
      assert sorted[i..][1..] == sorted[i + 1..];
      i := i + 1;
    }
    text := Join(sorted[i..], ',');
  }

  /** Labels written by this code are read back entry by entry. */
  lemma EntriesOfLabel(s: seq<string>)
    requires FreeOf(s, ',')
    ensures Entries(Join(Canon(s), ',')) == Canon(s)
  {
    CanonLists(s);
    var c := Canon(s);
    if c != [] {
      assert c[0] in c;
      SplitOfJoin(c, ',');
      assert Split("", ',') == [""];
    }
  }

  function Fold(text: string, repos: seq<string>): string {
    if repos == [] then text else Append(Fold(text, repos[..|repos| - 1]), repos[|repos| - 1])
  }

  lemma EntriesFree(text: string, repos: seq<string>)
    requires FreeOf(repos, ',')
    ensures FreeOf(Entries(text) + repos, ',')
  {
    JoinOfSplit(text, ',');
  }

  /** The label made of a list of entries */
  function Label(entries: seq<string>): string {
    Join(Canon(entries), ',')
  }

  lemma AppendToLabel(entries: seq<string>, repo: string, text: string)
    requires FreeOf(entries, ',') && text == Label(entries)
    ensures Append(text, repo) == Label(entries + [repo])
  {
    EntriesOfLabel(entries);
    CanonLists(entries);
    CanonDecided(Canon(entries) + [repo], entries + [repo]);
  }

  lemma FoldNext(text: string, repos: seq<string>, entries: seq<string>)
    requires repos != [] && FreeOf(entries, ',') && Fold(text, repos[..|repos| - 1]) == Label(entries)
    ensures Fold(text, repos) == Label(entries + [repos[|repos| - 1]])
  {
    AppendToLabel(entries, repos[|repos| - 1], Fold(text, repos[..|repos| - 1]));
  }

  /** Appending any number of repositories gives the label of the union. */
  lemma {:induction false} FoldIsUnion(text: string, repos: seq<string>, entries: seq<string>)
    requires repos != [] && FreeOf(repos, ',') && entries == Entries(text)
    ensures Fold(text, repos) == Label(entries + repos)
  {
    var front, last := repos[..|repos| - 1], repos[|repos| - 1];
    assert entries + repos == entries + front + [last];
    if front == [] {
      assert entries + front == entries;
    } else {
      FoldIsUnion(text, front, entries);
      EntriesFree(text, front);
      FoldNext(text, repos, entries + front);
    }
  }

  /** The label depends only on the set of repositories: order and repetition do not matter. */
  lemma LabelIsASet(text: string, repos: seq<string>, others: seq<string>)
    requires repos != [] && others != [] && FreeOf(repos, ',') && FreeOf(others, ',')
    requires forall y :: y in repos <==> y in others
    ensures Fold(text, repos) == Fold(text, others)
  {
    FoldIsUnion(text, repos, Entries(text));
    FoldIsUnion(text, others, Entries(text));
    CanonDecided(Entries(text) + repos, Entries(text) + others);
  }

  /** What the label then says: the non-empty old entries and the non-empty repositories. */
  lemma LabelSays(text: string, repos: seq<string>)
    requires repos != [] && FreeOf(repos, ',')
    ensures Lists(Entries(Fold(text, repos)), Entries(text) + repos)
  {
    FoldIsUnion(text, repos, Entries(text));
    EntriesFree(text, repos);
    EntriesOfLabel(Entries(text) + repos);
    CanonLists(Entries(text) + repos);
  }

  // ---- The mount candidate ----

  function Common(a: seq<string>, b: seq<string>): nat {
    if a == [] || b == [] || a[0] != b[0] then 0 else 1 + Common(a[1..], b[1..])
  }

  /** The first components agree and the next, if both have one, do not. */
  lemma {:induction false} CommonMeans(a: seq<string>, b: seq<string>)
    ensures var n := Common(a, b);
            && n <= |a| && n <= |b| && a[..n] == b[..n]
            && (n == |a| || n == |b| || a[n] != b[n])
  {
    if a != [] && b != [] && a[0] == b[0] {
      CommonMeans(a[1..], b[1..]);
      var n := Common(a, b);
      assert a[..n] == [a[0]] + a[1..][..n - 1] && b[..n] == [b[0]] + b[1..][..n - 1];
    }
  }

  method CommonPrefixComponents(components: seq<string>, target: string) returns (n: nat)
    ensures n == Common(components, Split(target, '/'))
  {
    var other := Split(target, '/');
    n := 0;
    assert components[0..] == components && other[0..] == other;
    while n < |components| && n < |other|
      invariant n <= |components| && n <= |other|
      invariant Common(components, other) == n + Common(components[n..], other[n..])
    {
      if components[n] != other[n] { break; }
      assert components[n..][1..] == components[n + 1..] && other[n..][1..] == other[n + 1..];
      n := n + 1;
    }
  }

  function Score(target: string, repo: string): nat {
    Common(Split(target, '/'), Split(repo, '/'))
  }

  /** `repos[at]` is the last of those that share most leading components with the target, itself
      excepted. */
  ghost predicate Best(target: string, repos: seq<string>, at: nat) {
    && at < |repos| && repos[at] != target
    && (forall k :: 0 <= k < at && repos[k] != target ==> Score(target, repos[k]) <= Score(target, repos[at]))
    && (forall k :: at < k < |repos| && repos[k] != target ==> Score(target, repos[k]) < Score(target, repos[at]))
  }

  lemma BestReplaced(target: string, repos: seq<string>, i: nat, at: int)
    requires i < |repos| && repos[i] != target
    requires at == -1 ==> forall k :: 0 <= k < i ==> repos[k] == target
    requires at != -1 ==>
               at >= 0 && Best(target, repos[..i], at) && Score(target, repos[at]) <= Score(target, repos[i])
    ensures Best(target, repos[..i + 1], i)
  {
    forall k | 0 <= k < i && repos[k] != target ensures Score(target, repos[k]) <= Score(target, repos[i]) {
      assert repos[..i][k] == repos[k];
    }
  }

  lemma BestStays(target: string, repos: seq<string>, i: nat, at: nat)
    requires i < |repos| && Best(target, repos[..i], at)
    requires repos[i] == target || Score(target, repos[i]) < Score(target, repos[at])
    ensures Best(target, repos[..i + 1], at)
  {
    assert forall k :: 0 <= k < i ==> repos[..i][k] == repos[..i + 1][k];
  }

  /** The candidate among `repos`: its index, or -1 when the target is the only repository. */
  method Choose(target: string, repos: seq<string>) returns (at: int, best: string)
    ensures at == -1 ==> best == "" && forall k :: 0 <= k < |repos| ==> repos[k] == target
    ensures at != -1 ==> at >= 0 && Best(target, repos, at) && best == repos[at]
  {
    var components := Split(target, '/');
    var n := 0;
    at, best := -1, "";
    for i := 0 to |repos|
      invariant -1 <= at < i
      invariant at == -1 ==> n == 0 && best == "" && forall k :: 0 <= k < i ==> repos[k] == target
      invariant at >= 0 ==> Best(target, repos[..i], at) && best == repos[at] && n == Score(target, best)
    {
      if repos[i] == target {
        if at >= 0 { BestStays(target, repos, i, at); }
      } else {
        var l := CommonPrefixComponents(components, repos[i]);
        if l < n {
          BestStays(target, repos, i, at);
        } else {
          BestReplaced(target, repos, i, at);
          n, best := l, repos[i];
          at := i;
        }
      }
    }
    assert repos[..|repos|] == repos;
  }

  method SelectRepositoryMountCandidate(target: string, text: string) returns (best: string)
    ensures text == "" || (forall r :: r in Split(text, ',') ==> r == target) ==> best == ""
    ensures text != "" && (exists r :: r in Split(text, ',') && r != target) ==>
              exists at: nat :: Best(target, Split(text, ','), at) && best == Split(text, ',')[at]
  {
    if text == "" { return ""; }
    var at;
    at, best := Choose(target, Split(text, ','));
    if at != -1 {
      assert Split(text, ',')[at] in Split(text, ',');
    }
  }
}
