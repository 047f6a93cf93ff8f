/** The content proxy of pkg/converter/cs_proxy_unix.go: byte ranges of one blob served from a single
    forward reader that is rewound only when a range starts before it. */
module BlobProxy {
  import opened Base
  import opened Text
  import opened Decimal

  /** int64 wrap-around of a value that overflows by less than one turn */
  function Wrap(n: int): int {
    if n > MAX_INT64 then n - 0x1_0000_0000_0000_0000 else n
  }

  /** The checks on parsed bounds; `end` is absent unless the header has exactly two parts. */
  function CheckRange(start: int, end: Option<int>, total: int): (r: Option<(int, int)>)
    ensures r.Some? ==> 0 <= r.value.0 < total && r.value.1 > 0
  {
    var wanted := if end.Some? then Wrap(end.value - start + 1) else total - start;
    if start < 0 || start >= total || wanted <= 0 then None else Some((start, wanted))
  }

  function RangeOfParts(parts: seq<string>, total: int): (r: Option<(int, int)>)
    requires parts != []
    ensures r.Some? ==> 0 <= r.value.0 < total && r.value.1 > 0
  {
    var start := ParseInt64(parts[0]);
    if start.None? then None
    else if |parts| != 2 then CheckRange(start.value, None, total)
    else
      var end := ParseInt64(parts[1]);
      if end.None? then None else CheckRange(start.value, end, total)
  }

  /** parseRangeHeader: start and length, or None for a bad request. */
  function ParseRange(range: string, total: int): (r: Option<(int, int)>)
    ensures r.Some? ==> 0 <= r.value.0 < total && r.value.1 > 0
  {
    RangeOfParts(Split(range, '-'), total)
  }

  function TrimPrefix(s: string, p: string): string {
    if HasPrefix(s, p) then s[|p|..] else s
  }

  datatype Response = BadRequest | Partial(start: nat, body: seq<byte>, total: nat)

  const RANGE_UNIT := "bytes="

  /** The response for a parsed range. */
  function Slice(data: seq<byte>, r: Option<(int, int)>): Response
    requires r.Some? ==> 0 <= r.value.0 < |data| && r.value.1 > 0
  {
    if r.None? then BadRequest
    else
      var (start, wanted) := r.value;
      Partial(start, data[start..if start + wanted < |data| then start + wanted else |data|], |data|)
  }

  /** The answer to a GET, from the blob alone. */
  function Answer(data: seq<byte>, header: string): Response {
    Slice(data, ParseRange(TrimPrefix(header, RANGE_UNIT), |data|))
  }

  class ContentProxy {
    /** The blob section located by its tar header. */
    const data: seq<byte>
    /** Where the section reader stands. */
    var readerPos: nat
    var curPos: int

    ghost predicate Valid()
      reads this
    {
      |data| <= MAX_INT64 && readerPos == curPos && readerPos <= |data|
    }

    constructor (data: seq<byte>)
      requires |data| <= MAX_INT64
      ensures Valid() && this.data == data && curPos == 0
    {
      this.data := data;
      readerPos, curPos := 0, 0;
    }

    /** seekFile again, from the start of the blob. */
    method ResetReader()
      requires |data| <= MAX_INT64
      modifies this`readerPos, this`curPos
      ensures Valid() && curPos == 0
    {
      readerPos, curPos := 0, 0;
    }

    /** io.CopyN from the section reader: up to `n` bytes, fewer only at its end. */
    method CopyN(n: nat) returns (bytes: seq<byte>)
      requires readerPos <= |data|
      modifies this`readerPos
      ensures readerPos == if old(readerPos) + n < |data| then old(readerPos) + n else |data|
      ensures bytes == data[old(readerPos)..readerPos]
    {
      var stop := if readerPos + n < |data| then readerPos + n else |data|;
      bytes := data[readerPos..stop];
      readerPos := stop;
    }

    /** A GET is answered from the blob alone, whatever was served before; the reader ends where the
        answered range ends. */
    method Get(header: string) returns (resp: Response)
      requires Valid()
      modifies this`readerPos, this`curPos
      ensures Valid()
      ensures resp == Answer(data, header)
      ensures resp.BadRequest? ==> curPos == old(curPos)
      ensures resp.Partial? ==> curPos == resp.start + |resp.body|
    {
      var r := ParseRange(TrimPrefix(header, RANGE_UNIT), |data|);
      if r.None? {
        return BadRequest;
      }
      var (start, wantedLen) := r.value;
      MoveTo(start);
      var body := CopyN(wantedLen);
      curPos := curPos + |body|;
      resp := Partial(start, body, |data|);
    }

    /** Bring the reader to `start`: back to the beginning if it is past it, then forward. */
    method MoveTo(start: nat)
      requires Valid() && start <= |data|
      modifies this`readerPos, this`curPos
      ensures Valid() && curPos == start
    {
      if start < curPos {
        ResetReader();
      }
      if start > curPos {
        var skipped := CopyN(start - curPos);
        curPos := start;
      }
    }
  }

  /** A range header "bytes=a-b" is honoured exactly when it is ordered, starts inside the blob and its
      length fits an int64, and then serves bytes a to b cut at the end of the blob. */
  lemma ServesPrintedRange(data: seq<byte>, a: nat, b: nat)
    requires |data| <= MAX_INT64
    ensures Answer(data, RANGE_UNIT + (Dec(a) + "-" + Dec(b)))
            == if a <= b <= MAX_INT64 && a < |data| && b - a + 1 <= MAX_INT64
               then Partial(a, data[a..if b + 1 < |data| then b + 1 else |data|], |data|)
               else BadRequest
  {
    AnswersRange(data, Dec(a) + "-" + Dec(b));
    ParsePrintedRange(a, b, |data|);
  }

  lemma AnswersRange(data: seq<byte>, range: string)
    ensures Answer(data, RANGE_UNIT + range) == Slice(data, ParseRange(range, |data|))
  {
    assert (RANGE_UNIT + range)[|RANGE_UNIT|..] == range;
  }

  lemma ParsePrintedRange(a: nat, b: nat, total: nat)
    requires total <= MAX_INT64
    ensures ParseRange(Dec(a) + "-" + Dec(b), total)
            == if a <= b <= MAX_INT64 && a < total && b - a + 1 <= MAX_INT64 then Some((a, b - a + 1)) else None
  {
    PrintedRangeParts(a, b);
    assert RangeOfParts([Dec(a), Dec(b)], total)
        == if a > MAX_INT64 || b > MAX_INT64 then None else CheckRange(a, Some(b), total) by {
      ParseOfDec(a);
      ParseOfDec(b);
    }
  }

  lemma PrintedRangeParts(a: nat, b: nat)
    ensures Split(Dec(a) + "-" + Dec(b), '-') == [Dec(a), Dec(b)]
  {
    ValueOfDec(a);
    ValueOfDec(b);
    assert '-' !in Dec(a) && '-' !in Dec(b);
    SplitWhole(Dec(a), '-');
    SplitWhole(Dec(b), '-');
    SplitAt(Dec(a), Dec(b), '-');
  }

  /** The open form "bytes=a" serves the rest of the blob. */
  lemma ServesOpenRange(data: seq<byte>, a: nat)
    requires |data| <= MAX_INT64
    ensures Answer(data, RANGE_UNIT + Dec(a)) == if a < |data| then Partial(a, data[a..], |data|) else BadRequest
  {
    AnswersRange(data, Dec(a));
    ParseOpenRange(a, |data|);
  }

  lemma ParseOpenRange(a: nat, total: nat)
    requires total <= MAX_INT64
    ensures ParseRange(Dec(a), total) == if a < total then Some((a, total - a)) else None
  {
    ValueOfDec(a);
    assert '-' !in Dec(a);
    SplitWhole(Dec(a), '-');
    ParseOfDec(a);
  }
}
