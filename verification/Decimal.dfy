/** Decimal integers as strconv and fmt print and parse them. */
module Decimal {
  import opened Base

  const MAX_INT64 := 0x7FFF_FFFF_FFFF_FFFF
  const MAX_UINT64 := 0xFFFF_FFFF_FFFF_FFFF

  function Dec(n: nat): (s: string)
    ensures s != ""
  {
    if n < 10 then [('0' as int + n) as char] else Dec(n / 10) + [('0' as int + n % 10) as char]
  }

  predicate IsDigit(c: char) {
    '0' <= c <= '9'
  }

  predicate AllDigits(s: string) {
    forall i :: 0 <= i < |s| ==> IsDigit(s[i])
  }

  function Value(s: string): nat
    requires AllDigits(s)
  {
    if s == "" then 0 else Value(s[..|s| - 1]) * 10 + (s[|s| - 1] as int - '0' as int)
  }

  /** Printing then reading gives the number back. */
  lemma {:induction false} ValueOfDec(n: nat)
    ensures AllDigits(Dec(n)) && Value(Dec(n)) == n
  {
    if n < 10 {
      assert Dec(n)[..0] == "";
    } else {
      ValueOfDec(n / 10);
      assert Dec(n)[..|Dec(n)| - 1] == Dec(n / 10);
    }
  }

  /** strconv.ParseUint(s, 10, 64) */
  function ParseUint64(s: string): Option<nat> {
    if s == "" || !AllDigits(s) || Value(s) > MAX_UINT64 then None else Some(Value(s))
  }

  /** strconv.ParseInt(s, 10, 64) */
  function ParseInt64(s: string): Option<int> {
    var neg := s != "" && s[0] == '-';
    var digits := if s != "" && (s[0] == '-' || s[0] == '+') then s[1..] else s;
    if digits == "" || !AllDigits(digits) then None
    else
      var v: int := if neg then 0 - Value(digits) else Value(digits);
      if -MAX_INT64 - 1 <= v <= MAX_INT64 then Some(v) else None
  }

  lemma ParseOfDec(n: nat)
    ensures ParseUint64(Dec(n)) == if n <= MAX_UINT64 then Some(n) else None
    ensures ParseInt64(Dec(n)) == if n <= MAX_INT64 then Some(n) else None
  {
    ValueOfDec(n);
    assert IsDigit(Dec(n)[0]);
  }

  /** A number is determined by the digits before the first non-digit. */
  lemma DecPrefix(a: nat, b: nat, stop: char, rest: string)
    requires !IsDigit(stop) && Dec(a) + [stop] <= Dec(b) + [stop] + rest
    ensures a == b
  {
    ValueOfDec(a);
    ValueOfDec(b);
    var s := Dec(b) + [stop] + rest;
    assert s[|Dec(a)|] == stop && s[|Dec(b)|] == stop;
    assert forall i :: 0 <= i < |Dec(a)| ==> s[i] == Dec(a)[i];
    assert forall i :: 0 <= i < |Dec(b)| ==> s[i] == Dec(b)[i];
    assert |Dec(a)| == |Dec(b)|;
    assert Dec(a) == s[..|Dec(a)|] == Dec(b);
  }

  // ---- Which texts are numbers ----

  /** Any number of leading zeros, then the number as it is printed. */
  ghost predicate Writes(s: string, n: nat) {
    exists k: nat :: k < |s| && s == Zeros(k) + Dec(n)
  }

  ghost function Zeros(k: nat): string {
    seq(k, _ => '0')
  }

  lemma DecAppend(v: nat, c: char)
    requires IsDigit(c)
    ensures Dec(v * 10 + (c as int - '0' as int)) == if v == 0 then [c] else Dec(v) + [c]
  {
    var d := c as int - '0' as int;
    assert (v * 10 + d) / 10 == v && (v * 10 + d) % 10 == d;
  }

  lemma WritesMore(front: string, v: nat, c: char, w: nat)
    requires IsDigit(c) && Writes(front, v) && w == v * 10 + (c as int - '0' as int)
    ensures Writes(front + [c], w)
  {
    DecAppend(v, c);
    var k: nat :| k < |front| && front == Zeros(k) + Dec(v);
    if v == 0 {
      assert front + [c] == Zeros(k + 1) + Dec(w);
    } else {
      assert front + [c] == Zeros(k) + Dec(w);
    }
  }

  lemma WritesOne(c: char)
    requires IsDigit(c)
    ensures Value([c]) == c as int - '0' as int && Writes([c], Value([c]))
  {
    assert [c][..0] == "" && Value("") == 0;
    DecAppend(0, c);
    assert [c] == Zeros(0) + Dec(Value([c]));
  }

  lemma {:induction false} DigitsWrite(s: string)
    requires s != "" && AllDigits(s)
    ensures Writes(s, Value(s))
  {
    var front, c := s[..|s| - 1], s[|s| - 1];
    assert s == front + [c];
    if front == "" {
      WritesOne(c);
    } else {
      DigitsWrite(front);
      WritesMore(front, Value(front), c, Value(s));
    }
  }

  lemma {:induction false} ZerosCountNothing(k: nat, s: string)
    requires AllDigits(s)
    ensures AllDigits(Zeros(k) + s) && Value(Zeros(k) + s) == Value(s)
  {
    var t := Zeros(k) + s;
    if s != "" {
      ZerosCountNothing(k, s[..|s| - 1]);
      assert t[..|t| - 1] == Zeros(k) + s[..|s| - 1];
    } else if k > 0 {
      ZerosCountNothing(k - 1, s);
      assert t[..|t| - 1] == Zeros(k - 1) + s;
    }
  }

  lemma WritesMeans(s: string, n: nat)
    ensures Writes(s, n) <==> s != "" && AllDigits(s) && Value(s) == n
  {
    if s != "" && AllDigits(s) {
      DigitsWrite(s);
    }
    if k: nat :| k < |s| && s == Zeros(k) + Dec(n) {
      ValueOfDec(n);
      ZerosCountNothing(k, Dec(n));
    }
  }

  /** Reading succeeds exactly on the written numbers of 64 bits. */
  lemma ParseUint64Iff(s: string, n: nat)
    ensures ParseUint64(s) == Some(n) <==> Writes(s, n) && n <= 0xFFFF_FFFF_FFFF_FFFF
  {
    WritesMeans(s, n);
  }

  lemma ParseInt64Iff(s: string, v: int)
    ensures ParseInt64(s) == Some(v) <==>
            && -0x8000_0000_0000_0000 <= v < 0x8000_0000_0000_0000
            && ((v >= 0 && Writes(s, v))
                || (v >= 0 && s != "" && s[0] == '+' && Writes(s[1..], v))
                || (v <= 0 && s != "" && s[0] == '-' && Writes(s[1..], -v)))
  {
    if v >= 0 {
      WritesMeans(s, v);
    }
    if s != "" {
      WritesMeans(s[1..], if v >= 0 then v else -v);
    }
  }
}
