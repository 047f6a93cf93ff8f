/** Token scopes (pkg/remote/remotes/docker/scope.go) and the cache key made of them. */
module Scopes {
  import opened Base
  import opened Text

  // ---- sort.Strings ----

  predicate NonDescending(s: seq<string>) {
    forall i, j :: 0 <= i < j < |s| ==> !Less(s[j], s[i])
  }

  lemma NotLessTransitive(a: string, b: string, c: string)
    requires !Less(b, a) && !Less(c, b)
    ensures !Less(c, a)
  {
    LessTotal(a, b);
    LessTotal(b, c);
    if Less(a, b) && Less(b, c) { LessTransitive(a, b, c); }
    if Less(c, a) && Less(a, c) { LessTransitive(a, c, a); LessIrreflexive(a); }
  }

  function Insert(x: string, s: seq<string>): seq<string> {
    if s == [] || !Less(x, s[|s| - 1]) then s + [x] else Insert(x, s[..|s| - 1]) + [s[|s| - 1]]
  }

  function Sort(s: seq<string>): seq<string> {
    if s == [] then [] else Insert(s[|s| - 1], Sort(s[..|s| - 1]))
  }

  ghost predicate AtMost(s: seq<string>, x: string) {
    forall i :: 0 <= i < |s| ==> !Less(x, s[i])
  }

  lemma Append(s: seq<string>, x: string)
    requires NonDescending(s) && AtMost(s, x)
    ensures NonDescending(s + [x])
  {
  }

  lemma {:induction false} InsertSorts(x: string, s: seq<string>)
    requires NonDescending(s)
    ensures NonDescending(Insert(x, s))
    ensures forall y :: AtMost(s, y) && !Less(y, x) ==> AtMost(Insert(x, s), y)
    ensures forall y :: y in Insert(x, s) <==> y == x || y in s
  {
    if s == [] {
    } else if !Less(x, s[|s| - 1]) {
      forall i | 0 <= i < |s| ensures !Less(x, s[i]) {
        if i < |s| - 1 { NotLessTransitive(s[i], s[|s| - 1], x); }
      }
      Append(s, x);
    } else {
      var front, last := s[..|s| - 1], s[|s| - 1];
      InsertSorts(x, front);
      LessAsymmetric(x, last);
      assert AtMost(front, last);
      Append(Insert(x, front), last);
      assert forall y :: y in s <==> y in front || y == last;
    }
  }

  lemma LessAsymmetric(a: string, b: string)
    requires Less(a, b)
    ensures !Less(b, a)
  {
    if Less(b, a) { LessTransitive(a, b, a); LessIrreflexive(a); }
  }

  lemma {:induction false} SortSorts(s: seq<string>)
    ensures NonDescending(Sort(s))
    ensures forall y :: y in Sort(s) <==> y in s
  {
    if s != [] {
      var front, last := s[..|s| - 1], s[|s| - 1];
      SortSorts(front);
      InsertSorts(last, Sort(front));
      assert forall y :: y in s <==> y in front || y == last;
    }
  }

  // ---- GetTokenScopes ----

  /** Runs of equal neighbours reduced to one. */
  function Dedup<T(==)>(s: seq<T>): (r: seq<T>)
    ensures |r| <= |s|
    ensures s != [] ==> r != [] && r[|r| - 1] == s[|s| - 1]
  {
    if |s| <= 1 then s
    else if s[|s| - 2] == s[|s| - 1] then Dedup(s[..|s| - 1])
    else Dedup(s[..|s| - 1]) + [s[|s| - 1]]
  }

  lemma {:induction false} DedupAscends(s: seq<string>)
    requires NonDescending(s)
    ensures Ascending(Dedup(s))
    ensures forall y :: y in Dedup(s) <==> y in s
  {
    if |s| > 1 {
      var front, last := s[..|s| - 1], s[|s| - 1];
      DedupAscends(front);
      assert forall y :: y in s <==> y in front || y == last;
      if s[|s| - 2] != last {
        var d := Dedup(front);
        LessTotal(s[|s| - 2], last);
        forall i | 0 <= i < |d| ensures Less(d[i], last) {
          if i < |d| - 1 { LessTransitive(d[i], d[|d| - 1], last); }
        }
      } else {
        assert last == front[|front| - 1];
      }
    }
  }

  /** Strictly ascending, and exactly the scopes of the context and of the challenge. */
  method GetTokenScopes(fromContext: Option<seq<string>>, common: seq<string>) returns (scopes: seq<string>)
    ensures Ascending(scopes)
    ensures forall x :: x in scopes <==> (fromContext.Some? && x in fromContext.value) || x in common
  {
    var list := if fromContext.Some? then fromContext.value + common else common;
    var sorted := Sort(list);
    SortSorts(list);
    if |sorted| == 0 {
      assert forall x :: x in list <==> x in sorted;
      return [];
    }
    scopes := Compact(sorted);
    DedupAscends(sorted);
    assert forall x :: x in list <==> x in sorted;
  }

  lemma DedupNext<T>(s: seq<T>, i: nat)
    requires 0 < i < |s|
    ensures Dedup(s[..i]) != [] && Dedup(s[..i])[|Dedup(s[..i])| - 1] == s[i - 1]
    ensures Dedup(s[..i + 1]) == if s[i - 1] == s[i] then Dedup(s[..i]) else Dedup(s[..i]) + [s[i]]
  {
    assert s[..i + 1][..i] == s[..i];
  }

  /** The in-place compaction of the sorted scopes. */
  method Compact<T(==)>(sorted: seq<T>) returns (scopes: seq<T>)
    requires sorted != []
    ensures scopes == Dedup(sorted)
  {
    var a := new T[|sorted|](i requires 0 <= i < |sorted| => sorted[i]);
    var l := 0;
    assert a[..1] == sorted[..1];
    for idx := 1 to a.Length
      invariant 0 <= l < idx && a[..l + 1] == Dedup(sorted[..idx])
      invariant forall k :: idx <= k < a.Length ==> a[k] == sorted[k]
    {
      l := CompactNext(a, l, idx, sorted);
    }
    assert sorted[..a.Length] == sorted;
    scopes := a[..l + 1];
  }

  /** One pass of the loop. */
  method CompactNext<T(==)>(a: array<T>, l: nat, idx: nat, ghost sorted: seq<T>) returns (next: nat)
    requires l < idx < a.Length == |sorted| && a[idx] == sorted[idx] && a[..l + 1] == Dedup(sorted[..idx])
    modifies a
    ensures next <= idx && a[..next + 1] == Dedup(sorted[..idx + 1])
    ensures forall k :: idx < k < a.Length ==> a[k] == old(a[k])
  {
    DedupNext(sorted, idx);
    assert a[l] == a[..l + 1][l] == sorted[idx - 1];
    next := l;
    if a[l] != a[idx] {
      next := Place(a, l, idx);
    }
  }

  method Place<T>(a: array<T>, l: nat, idx: nat) returns (next: nat)
    requires l < idx < a.Length
    modifies a
    ensures next == l + 1 && a[..next + 1] == old(a[..l + 1] + [a[idx]])
    ensures forall k :: idx < k < a.Length ==> a[k] == old(a[k])
  {
    next := l + 1;
    a[next] := a[idx];
  }

  // ---- The key ----

  function Key(scopes: seq<string>): string {
    Join(scopes, ' ')
  }

  /** Scopes without spaces: the key tells two scope sets apart, except the empty set from the set that
      holds the empty scope only. */
  lemma KeyDecidesScopes(a: seq<string>, b: seq<string>)
    requires Ascending(a) && Ascending(b) && FreeOf(a, ' ') && FreeOf(b, ' ')
    ensures Key(a) == Key(b) <==> (forall x :: x in a <==> x in b) || {a, b} == {[], [""]}
  {
    if Key(a) == Key(b) {
      if a != [] && b != [] {
        SplitOfJoin(a, ' ');
        SplitOfJoin(b, ' ');
      } else if a != [] {
        SplitOfJoin(a, ' ');
      } else if b != [] {
        SplitOfJoin(b, ' ');
      }
    }
    if forall x :: x in a <==> x in b {
      AscendingUnique(a, b);
    }
  }

  /** With a space in a scope, different sets can share a key. */
  lemma SpacesCollide()
    ensures Key(["a b"]) == Key(["a", "b"]) && Ascending(["a b"]) && Ascending(["a", "b"])
  {
    assert ["a", "b"][1..] == ["b"];
    assert Less("a", "b");
  }
}
