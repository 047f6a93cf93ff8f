/** WWW-Authenticate challenges (pkg/remote/remotes/docker/auth/parse.go): a scheme followed by
    parameters whose values are tokens or quoted strings. */
module Challenge {
  import opened Base

  // ---- Octets ----

  predicate IsSpace(c: char) {
    c == ' ' || c == '\t' || c == '\r' || c == '\n'
  }

  predicate IsSeparator(c: char) {
    c in {' ', '\t', '"', '(', ')', ',', '/', ':', ';', '<', '=', '>', '?', '@', '[', ']', '\\', '{', '}'}
  }

  predicate IsToken(c: char) {
    ' ' < c <= '~' && !IsSeparator(c)
  }

  function LowerChar(c: char): char {
    if 'A' <= c <= 'Z' then (c as int + 32) as char else c
  }

  /** strings.ToLower; only tokens, which are ASCII, are lowered. */
  function Lower(s: string): string {
    seq(|s|, i requires 0 <= i < |s| => LowerChar(s[i]))
  }

  predicate IsCapital(c: char) {
    'A' <= c <= 'Z'
  }

  /** No capital is left, every capital has become the letter 32 above it, and nothing else has changed. */
  lemma LowerMeans(s: string)
    ensures |Lower(s)| == |s|
    ensures forall i :: 0 <= i < |s| ==>
              if IsCapital(s[i]) then Lower(s)[i] as int == s[i] as int + 32 else Lower(s)[i] == s[i]
    ensures forall c :: c in Lower(s) ==> !IsCapital(c)
  {
  }

  /** The token characters are the letters, the digits and the fifteen signs of section 3.2.6 of RFC 7230. */
  lemma TokenOctets(c: char)
    ensures IsToken(c) <==> 'a' <= c <= 'z' || IsCapital(c) || '0' <= c <= '9' || c in "!#$%&'*+-.^_`|~"
  {
    var signs := "!#$%&'*+-.^_`|~";
    assert IsToken(c) && !('a' <= c <= 'z' || IsCapital(c) || '0' <= c <= '9') ==>
        c in ['!', '#', '$', '%', '&', '\'', '*', '+', '-', '.', '^', '_', '`', '|', '~'];
    assert signs == ['!', '#', '$', '%', '&', '\'', '*', '+', '-', '.', '^', '_', '`', '|', '~'];
  }

  lemma SpaceOctets(c: char)
    ensures IsSpace(c) <==> c in " \t\r\n"
  {
    assert " \t\r\n" == [' ', '\t', '\r', '\n'];
  }

  predicate All(s: string, p: char -> bool) {
    forall i :: 0 <= i < |s| ==> p(s[i])
  }

  predicate Stops(s: string, p: char -> bool) {
    s != "" ==> !p(s[0])
  }

  /** The longest prefix of characters that satisfy `p` */
  function Prefix(s: string, p: char -> bool): (r: string)
    ensures r <= s && All(r, p) && Stops(s[|r|..], p)
  {
    if s == "" || !p(s[0]) then ""
    else
      var rest := Prefix(s[1..], p);
      assert s[1..][|rest|..] == s[|rest| + 1..];
      [s[0]] + rest
  }

  function After(s: string, p: char -> bool): string {
    s[|Prefix(s, p)|..]
  }

  lemma {:induction false} PrefixSplit(a: string, b: string, p: char -> bool)
    requires All(a, p) && Stops(b, p)
    ensures Prefix(a + b, p) == a && After(a + b, p) == b
  {
    if a == "" {
      assert a + b == b;
    } else {
      assert (a + b)[1..] == a[1..] + b;
      PrefixSplit(a[1..], b, p);
      assert [a[0]] + a[1..] == a;
      assert (a + b)[|a|..] == b;
    }
  }

  method SkipSpace(s: string) returns (rest: string)
    ensures rest == After(s, IsSpace)
  {
    var i := 0;
    while i < |s|
      invariant 0 <= i <= |s| && All(s[..i], IsSpace)
    {
      if !IsSpace(s[i]) { break; }
      i := i + 1;
    }
    rest := s[i..];
    assert s == s[..i] + rest;
    PrefixSplit(s[..i], rest, IsSpace);
  }

  method ExpectToken(s: string) returns (token: string, rest: string)
    ensures token == Prefix(s, IsToken) && rest == After(s, IsToken)
  {
    var i := 0;
    while i < |s|
      invariant 0 <= i <= |s| && All(s[..i], IsToken)
    {
      if !IsToken(s[i]) { break; }
      i := i + 1;
    }
    token, rest := s[..i], s[i..];
    assert s == token + rest;
    PrefixSplit(token, rest, IsToken);
  }

  // ---- Quoted strings ----

  /** The value of a quoted string whose opening quote is gone, and what follows the closing one. */
  function Unquote(s: string, escape: bool): Option<(string, string)>
    decreases |s|
  {
    if s == "" then None
    else if escape then Prepend([s[0]], Unquote(s[1..], false))
    else if s[0] == '"' then Some(("", s[1..]))
    else if s[0] == '\\' then Unquote(s[1..], true)
    else Prepend([s[0]], Unquote(s[1..], false))
  }

  function Prepend(head: string, r: Option<(string, string)>): Option<(string, string)> {
    if r.None? then None else Some((head + r.value.0, r.value.1))
  }

  lemma PrependNothing(r: Option<(string, string)>)
    ensures Prepend("", r) == r
  {
    if r.Some? {
      assert "" + r.value.0 == r.value.0;
    }
  }

  lemma PrependTwice(a: string, b: string, r: Option<(string, string)>)
    ensures Prepend(a, Prepend(b, r)) == Prepend(a + b, r)
  {
    if r.Some? {
      assert a + (b + r.value.0) == a + b + r.value.0;
    }
  }

  /** A token, or a quoted string; nothing at all when the closing quote is missing. */
  function TokenOrQuoted(s: string): (string, string) {
    if s == "" || s[0] != '"' then (Prefix(s, IsToken), After(s, IsToken))
    else
      var r := Unquote(s[1..], false);
      if r.None? then ("", "") else r.value
  }

  method ExpectTokenOrQuoted(header: string) returns (value: string, rest: string)
    ensures (value, rest) == TokenOrQuoted(header)
  {
    if header == "" || header[0] != '"' {
      value, rest := ExpectToken(header);
      return;
    }
    var s := header[1..];
    ghost var whole := Unquote(s, false);
    assert s[0..] == s;
    PrependNothing(whole);
    for i := 0 to |s|
      invariant whole == Prepend(s[..i], Unquote(s[i..], false))
    {
      UnquoteStep(s, i, false);
      if s[i] == '"' {
        assert s[..i] + "" == s[..i];
        return s[..i], s[i + 1..];
      }
      if s[i] == '\\' {
        var r := UnquoteEscaped(s, i);
        if r.None? { return "", ""; }
        return r.value.0, r.value.1;
      }
      PrependTwice(s[..i], [s[i]], Unquote(s[i + 1..], false));
      assert s[..i] + [s[i]] == s[..i + 1];
    }
    assert whole.None?;
    return "", "";
  }

  lemma UnquoteStep(s: string, i: nat, escape: bool)
    requires i < |s|
    ensures Unquote(s[i..], escape) ==
            if escape || (s[i] != '"' && s[i] != '\\') then Prepend([s[i]], Unquote(s[i + 1..], false))
            else if s[i] == '"' then Some(("", s[i + 1..]))
            else Unquote(s[i + 1..], true)
  {
    assert s[i..][1..] == s[i + 1..];
  }

  /** The inner loop: from the first backslash at `i` on, the value is collected in a buffer one shorter
      than the string, which it never outgrows. */
  method UnquoteEscaped(s: string, i: nat) returns (r: Option<(string, string)>)
    requires i < |s| && s[i] == '\\'
    ensures r == Prepend(s[..i], Unquote(s[i..], false))
  {
    var p := new char[|s| - 1];
    forall k | 0 <= k < i { p[k] := s[k]; }
    assert p[..i] == s[..i];
    var j := i;
    var escape := true;
    ghost var goal := Prepend(s[..i], Unquote(s[i..], false));
    UnquoteStep(s, i, false);
    for k := i + 1 to |s|
      invariant i <= j < k
      invariant goal == Prepend(p[..j], Unquote(s[k..], escape))
    {
      var b := s[k];
      UnquoteStep(s, k, escape);
      if escape || (b != '\\' && b != '"') {
        PrependTwice(p[..j], [b], Unquote(s[k + 1..], false));
        escape := false;
        j := Store(p, j, b);
      } else if b == '\\' {
        escape := true;
      } else {
        assert p[..j] + "" == p[..j];
        return Some((p[..j], s[k + 1..]));
      }
    }
    r := None;
  }

  method Store(p: array<char>, j: nat, b: char) returns (next: nat)
    requires j < p.Length
    modifies p
    ensures next == j + 1 && p[..next] == old(p[..j]) + [b]
  {
    p[j] := b;
    next := j + 1;
  }

  // ---- A challenge ----

  /** The parameters of `s`, added to those already seen. */
  function Params(s: string, seen: map<string, string>): map<string, string>
    decreases |s|
  {
    var t := After(s, IsSpace);
    var key, rest := Prefix(t, IsToken), After(t, IsToken);
    if key == "" || rest == "" || rest[0] != '=' then seen
    else
      var (value, tail) := TokenOrQuoted(rest[1..]);
      var now := seen[Lower(key) := value];
      TailShrinks(rest[1..]);
      var u := After(tail, IsSpace);
      if u == "" || u[0] != ',' then now else Params(u[1..], now)
  }

  lemma TailShrinks(s: string)
    ensures |TokenOrQuoted(s).1| <= |s|
  {
    if s != "" && s[0] == '"' {
      UnquoteShrinks(s[1..], false);
    }
  }

  lemma {:induction false} UnquoteShrinks(s: string, escape: bool)
    ensures Unquote(s, escape).Some? ==> |Unquote(s, escape).value.1| < |s|
    decreases |s|
  {
    if s != "" {
      UnquoteShrinks(s[1..], false);
      UnquoteShrinks(s[1..], true);
    }
  }

  /** The scheme, in lower case, and the parameters; no scheme, no parameters. */
  function Parsed(header: string): (string, map<string, string>) {
    var scheme := Prefix(header, IsToken);
    if scheme == "" then ("", map[]) else (Lower(scheme), Params(After(header, IsToken), map[]))
  }

  method ParseValueAndParams(header: string) returns (value: string, params: map<string, string>)
    ensures (value, params) == Parsed(header)
  {
    params := map[];
    var s: string;
    value, s := ExpectToken(header);
    if value == "" { return; }
    value := Lower(value);
    while true
      invariant Params(s, params) == Params(After(header, IsToken), map[])
      decreases |s|
    {
      var t := SkipSpace(s);
      var key: string, pvalue: string, rest: string, tail: string;
      key, rest := ExpectToken(t);
      if key == "" || rest == "" || rest[0] != '=' { return; }
      pvalue, tail := ExpectTokenOrQuoted(rest[1..]);
      TailShrinks(rest[1..]);
      params := params[Lower(key) := pvalue];
      tail := SkipSpace(tail);
      if tail == "" || tail[0] != ',' { return; }
      s := tail[1..];
    }
  }

  // ---- Printed challenges ----

  /** One parameter as a server may write it: spaces around it, its value quoted or not. */
  datatype Param = Param(lead: string, key: string, value: string, quoted: bool, trail: string)

  ghost predicate WellFormed(p: Param) {
    && All(p.lead, IsSpace) && All(p.trail, IsSpace)
    && p.key != "" && All(p.key, IsToken)
    && (!p.quoted ==> All(p.value, IsToken))
  }

  /** Quotes and backslashes are escaped. */
  function Escape(s: string): string {
    if s == "" then ""
    else (if s[0] == '"' || s[0] == '\\' then ['\\', s[0]] else [s[0]]) + Escape(s[1..])
  }

  function PrintValue(p: Param): string {
    if p.quoted then "\"" + Escape(p.value) + "\"" else p.value
  }

  function PrintParams(ps: seq<Param>): string {
    if ps == [] then ""
    else
      var follow := if |ps| == 1 then "" else "," + PrintParams(ps[1..]);
      ps[0].lead + (ps[0].key + ("=" + (PrintValue(ps[0]) + (ps[0].trail + follow))))
  }

  /** Later parameters override earlier ones of the same name. */
  function Collected(ps: seq<Param>, seen: map<string, string>): map<string, string> {
    if ps == [] then seen else Collected(ps[1..], seen[Lower(ps[0].key) := ps[0].value])
  }

  lemma {:induction false} UnquoteEscape(v: string, rest: string)
    ensures Unquote(Escape(v) + ("\"" + rest), false) == Some((v, rest))
  {
    var s := Escape(v) + ("\"" + rest);
    if v == "" {
      assert s[1..] == rest;
    } else {
      UnquoteEscape(v[1..], rest);
      var tail := Escape(v[1..]) + ("\"" + rest);
      if v[0] == '"' || v[0] == '\\' {
        assert s[1..] == [v[0]] + tail && ([v[0]] + tail)[1..] == tail;
      } else {
        assert s[1..] == tail;
      }
      assert [v[0]] + v[1..] == v;
    }
  }

  /** Neither a token nor a quoted string begins here. */
  predicate Ends(rest: string) {
    rest == "" || (!IsToken(rest[0]) && rest[0] != '"')
  }

  /** A printed value is read back whatever characters it holds. */
  lemma ValueReadBack(p: Param, rest: string)
    requires WellFormed(p) && Ends(rest)
    ensures TokenOrQuoted(PrintValue(p) + rest) == (p.value, rest)
  {
    if p.quoted {
      QuotedReadBack(p.value, Escape(p.value), rest);
    } else {
      BareReadBack(p.value, rest);
    }
  }

  lemma QuotedReadBack(value: string, escaped: string, rest: string)
    requires escaped == Escape(value)
    ensures TokenOrQuoted("\"" + escaped + "\"" + rest) == (value, rest)
  {
    var s := "\"" + escaped + "\"" + rest;
    UnquoteEscape(value, rest);
    assert s[1..] == escaped + ("\"" + rest);
    assert s[0] == '"';
  }

  lemma BareReadBack(value: string, rest: string)
    requires All(value, IsToken) && Ends(rest)
    ensures TokenOrQuoted(value + rest) == (value, rest)
  {
    PrefixSplit(value, rest, IsToken);
    if value == "" {
      assert value + rest == rest;
    } else {
      assert (value + rest)[0] == value[0];
    }
  }

  function Follow(ps: seq<Param>): string
    requires ps != []
  {
    if |ps| == 1 then "" else "," + PrintParams(ps[1..])
  }

  lemma ParamsUnfold(s: string, t: string, key: string, rest: string, value: string, tail: string, u: string,
                     seen: map<string, string>)
    requires After(s, IsSpace) == t && Prefix(t, IsToken) == key && After(t, IsToken) == rest
    requires key != "" && rest != "" && rest[0] == '='
    requires TokenOrQuoted(rest[1..]) == (value, tail) && After(tail, IsSpace) == u
    ensures Params(s, seen)
         == var now := seen[Lower(key) := value]; if u == "" || u[0] != ',' then now else Params(u[1..], now)
  {
  }

  /** One parameter is taken off, and the rest is left behind its comma. */
  lemma FirstParam(p: Param, follow: string, seen: map<string, string>)
    requires WellFormed(p) && (follow != "" ==> follow[0] == ',')
    ensures Params(p.lead + (p.key + ("=" + (PrintValue(p) + (p.trail + follow)))), seen)
         == var now := seen[Lower(p.key) := p.value]; if follow == "" then now else Params(follow[1..], now)
  {
    var tail := p.trail + follow;
    assert Ends(tail) by {
      if p.trail != "" { assert tail[0] == p.trail[0] && IsSpace(p.trail[0]); } else { assert tail == follow; }
    }
    ValueReadBack(p, tail);
    PrefixSplit(p.trail, follow, IsSpace);
    SplitParam(p.lead, p.key, PrintValue(p) + tail);
    var rest := "=" + (PrintValue(p) + tail);
    ParamsUnfold(p.lead + (p.key + rest), p.key + rest, p.key, rest, p.value, tail, follow, seen);
  }

  lemma SplitParam(lead: string, key: string, text: string)
    requires All(lead, IsSpace) && key != "" && All(key, IsToken)
    ensures var rest := "=" + text;
            && After(lead + (key + rest), IsSpace) == key + rest
            && Prefix(key + rest, IsToken) == key && After(key + rest, IsToken) == rest
            && rest[1..] == text && rest[0] == '='
  {
    var rest := "=" + text;
    assert rest[0] == '=' && (key + rest)[0] == key[0];
    PrefixSplit(lead, key + rest, IsSpace);
    PrefixSplit(key, rest, IsToken);
  }

  lemma {:induction false} ParamsReadBack(ps: seq<Param>, seen: map<string, string>)
    requires forall i :: 0 <= i < |ps| ==> WellFormed(ps[i])
    ensures Params(PrintParams(ps), seen) == Collected(ps, seen)
  {
    if ps == [] {
    } else {
      FirstParam(ps[0], Follow(ps), seen);
      var now := seen[Lower(ps[0].key) := ps[0].value];
      if |ps| > 1 {
        assert Follow(ps)[1..] == PrintParams(ps[1..]);
        ParamsReadBack(ps[1..], now);
      }
    }
  }

  /** A challenge as servers write it is read back: the scheme in lower case, every parameter under its
      name in lower case with the very value that was quoted, whatever spaces are used. */
  lemma ChallengeReadBack(scheme: string, ps: seq<Param>)
    requires scheme != "" && All(scheme, IsToken)
    requires forall i :: 0 <= i < |ps| ==> WellFormed(ps[i])
    ensures Parsed(scheme + (" " + PrintParams(ps))) == (Lower(scheme), Collected(ps, map[]))
  {
    var text := PrintParams(ps);
    PrefixSplit(scheme, " " + text, IsToken);
    SkipOneSpace(text, map[]);
    ParamsReadBack(ps, map[]);
  }

  lemma SkipOneSpace(s: string, seen: map<string, string>)
    ensures Params(" " + s, seen) == Params(s, seen)
  {
    assert (" " + s)[1..] == s;
    assert Prefix(" " + s, IsSpace) == " " + Prefix(s, IsSpace);
    assert After(" " + s, IsSpace) == After(s, IsSpace);
  }

  /** Under each name the last parameter of that name wins. */
  lemma {:induction false} LastOneWins(ps: seq<Param>, seen: map<string, string>, i: nat)
    requires i < |ps| && forall j :: i < j < |ps| ==> Lower(ps[j].key) != Lower(ps[i].key)
    ensures Lower(ps[i].key) in Collected(ps, seen) && Collected(ps, seen)[Lower(ps[i].key)] == ps[i].value
  {
    var now := seen[Lower(ps[0].key) := ps[0].value];
    if i == 0 {
      KeptUnder(ps[1..], now, Lower(ps[0].key));
    } else {
      LastOneWins(ps[1..], now, i - 1);
    }
  }

  lemma {:induction false} KeptUnder(ps: seq<Param>, seen: map<string, string>, key: string)
    requires forall j :: 0 <= j < |ps| ==> Lower(ps[j].key) != key
    ensures key in Collected(ps, seen) <==> key in seen
    ensures key in seen ==> Collected(ps, seen)[key] == seen[key]
  {
    if ps != [] {
      KeptUnder(ps[1..], seen[Lower(ps[0].key) := ps[0].value], key);
    }
  }

  // ---- Letter case ----

  /** The same text up to the case of its letters. */
  ghost predicate SameButCase(a: string, b: string) {
    && |a| == |b|
    && forall i :: 0 <= i < |a| ==>
         || a[i] == b[i]
         || (IsCapital(a[i]) && b[i] as int == a[i] as int + 32)
         || (IsCapital(b[i]) && a[i] as int == b[i] as int + 32)
  }

  lemma SameLower(a: string, b: string)
    ensures SameButCase(a, b) ==> Lower(a) == Lower(b)
    ensures All(a, IsToken) && All(b, IsToken) && Lower(a) == Lower(b) ==> SameButCase(a, b)
  {
    LowerMeans(a);
    LowerMeans(b);
    if Lower(a) == Lower(b) {
      forall i | 0 <= i < |a|
        ensures || a[i] == b[i]
                || (IsCapital(a[i]) && b[i] as int == a[i] as int + 32)
                || (IsCapital(b[i]) && a[i] as int == b[i] as int + 32)
      {
        assert Lower(a)[i] == Lower(b)[i];
      }
    }
  }

  /** Whatever the header, no capital is left in the scheme or in the name of a parameter. */
  lemma ParsedInLowerCase(header: string)
    ensures forall c :: c in Parsed(header).0 ==> !IsCapital(c)
    ensures forall key, c :: key in Parsed(header).1 && c in key ==> !IsCapital(c)
  {
    LowerMeans(Prefix(header, IsToken));
    ParamsInLowerCase(After(header, IsToken), map[]);
  }

  ghost predicate LowerKeys(m: map<string, string>) {
    forall key, c :: key in m && c in key ==> !IsCapital(c)
  }

  lemma {:induction false} ParamsInLowerCase(s: string, seen: map<string, string>)
    requires LowerKeys(seen)
    ensures LowerKeys(Params(s, seen))
    decreases |s|
  {
    var t := After(s, IsSpace);
    var key, rest := Prefix(t, IsToken), After(t, IsToken);
    if key != "" && rest != "" && rest[0] == '=' {
      var (value, tail) := TokenOrQuoted(rest[1..]);
      TailShrinks(rest[1..]);
      var u := After(tail, IsSpace);
      LowerMeans(key);
      var now := seen[Lower(key) := value];
      assert LowerKeys(now);
      if u != "" && u[0] == ',' {
        ParamsInLowerCase(u[1..], now);
      }
    }
  }

  /** Challenges that differ only in the case of the scheme and of the names parse alike. */
  lemma CaseDoesNotMatter(scheme: string, ps: seq<Param>, scheme': string, qs: seq<Param>)
    requires scheme != "" && All(scheme, IsToken) && All(scheme', IsToken) && SameButCase(scheme, scheme')
    requires |ps| == |qs| && forall i :: 0 <= i < |ps| ==> WellFormed(ps[i]) && WellFormed(qs[i])
    requires forall i :: 0 <= i < |ps| ==> SameButCase(ps[i].key, qs[i].key) && ps[i].value == qs[i].value
    ensures Parsed(scheme + (" " + PrintParams(ps))) == Parsed(scheme' + (" " + PrintParams(qs)))
  {
    ChallengeReadBack(scheme, ps);
    ChallengeReadBack(scheme', qs);
    SameLower(scheme, scheme');
    SameCollected(ps, qs, map[]);
  }

  lemma {:induction false} SameCollected(ps: seq<Param>, qs: seq<Param>, seen: map<string, string>)
    requires |ps| == |qs|
    requires forall i :: 0 <= i < |ps| ==> SameButCase(ps[i].key, qs[i].key) && ps[i].value == qs[i].value
    ensures Collected(ps, seen) == Collected(qs, seen)
  {
    if ps != [] {
      SameLower(ps[0].key, qs[0].key);
      SameCollected(ps[1..], qs[1..], seen[Lower(ps[0].key) := ps[0].value]);
    }
  }

  lemma LowerOfBearer(scheme: string)
    requires SameButCase(scheme, "Bearer")
    ensures Lower(scheme) == "bearer" && All(scheme, IsToken)
  {
    SameLower(scheme, "Bearer");
    LowerMeans("Bearer");
    assert Lower("Bearer") == "bearer";
    forall i | 0 <= i < |scheme| ensures IsToken(scheme[i]) {
      TokenOctets(scheme[i]);
    }
  }

  /** A bearer challenge in any case is recognised. */
  lemma BearerRecognised(scheme: string, bearer: string, ps: seq<Param>)
    requires bearer == "Bearer" && SameButCase(scheme, bearer)
    requires forall i :: 0 <= i < |ps| ==> WellFormed(ps[i])
    ensures Parsed(scheme + (" " + PrintParams(ps))) == ("bearer", Collected(ps, map[]))
  {
    LowerOfBearer(scheme);
    ChallengeReadBack(scheme, ps);
  }
}
