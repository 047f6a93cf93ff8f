/** Remote blobs as a seekable reader that reconnects (pkg/remote/remotes/docker/httpreadseeker.go), over
    the range requests of pkg/remote/remotes/docker/fetcher.go. */
module ReadSeeker {
  import opened Base
  import opened Text
  import opened Decimal

  // ---- Opening a body at an offset ----

  /** What a registry answers to one request: no response at all, or a status, the content-range header
      (empty when absent) and the bytes the body will deliver. */
  datatype Reply = NoResponse | Response(status: nat, contentRange: string, body: seq<byte>)

  const UNIT := "bytes "

  /** dockerFetcher.open: the body positioned at `offset`, or an error. */
  function Open(reply: Reply, offset: nat): Option<seq<byte>> {
    match reply
    case NoResponse => None
    case Response(status, range, body) =>
      if status > 299 then None
      else if offset == 0 then Some(body)
      else if range != "" then
        if HasPrefix(range, UNIT + Dec(offset) + "-") then Some(body) else None
      else if |body| < offset then None
      else Some(body[offset..])
  }

  function Rest(content: seq<byte>, offset: nat): seq<byte> {
    if offset <= |content| then content[offset..] else []
  }

  /** A range answer names the position of its first byte (section 14.4 of RFC 9110). */
  ghost predicate RangeAnswer(range: string, body: seq<byte>, content: seq<byte>, whole: bool) {
    exists first: nat, last: string ::
      && range == UNIT + Dec(first) + "-" + last
      && (if whole then body == Rest(content, first) else body <= Rest(content, first))
  }

  /** A server that follows the standard may ignore the range and send everything, or send a part and
      say which; either way the connection may break, so that less arrives.  With `whole`, nothing is
      missing at the end. */
  ghost predicate Compliant(reply: Reply, content: seq<byte>, offset: nat, whole: bool) {
    reply.Response? && reply.status <= 299 ==>
      if offset > 0 && reply.contentRange != ""
      then RangeAnswer(reply.contentRange, reply.body, content, whole)
      else if whole then reply.body == content else reply.body <= content
  }

  /** Honoured or ignored, the range ends up the same: the opened body starts at the offset. */
  lemma {:induction false} OpenAligned(reply: Reply, content: seq<byte>, offset: nat, whole: bool)
    requires Compliant(reply, content, offset, whole) && Open(reply, offset).Some?
    ensures Open(reply, offset).value <= Rest(content, offset)
    ensures whole ==> Open(reply, offset).value == Rest(content, offset)
  {
    if offset > 0 && reply.contentRange != "" {
      var first: nat, last: string :|
        && reply.contentRange == UNIT + Dec(first) + "-" + last
        && (if whole then reply.body == Rest(content, first) else reply.body <= Rest(content, first));
      RangeStart(UNIT, offset, first, last);
    }
  }

  lemma RangeStart(unit: string, offset: nat, first: nat, last: string)
    requires HasPrefix(unit + Dec(first) + "-" + last, unit + Dec(offset) + "-")
    ensures first == offset
  {
    var x, y := Dec(offset) + ['-'], Dec(first) + ['-'] + last;
    assert unit + Dec(offset) + "-" == unit + x && unit + Dec(first) + "-" + last == unit + y;
    PrefixTail(unit, x, y);
    DecPrefix(offset, first, '-', last);
  }

  lemma PrefixTail(u: string, x: string, y: string)
    requires HasPrefix(u + y, u + x)
    ensures x <= y
  {
    assert x == (u + x)[|u|..] == (u + y)[..|u + x|][|u|..] == y[..|x|];
  }

  // ---- The reader as a machine ----

  datatype Failure = NoError | Eof | UnexpectedEof | OtherError

  /** `body` holds what the open connection has still to deliver. */
  datatype State = State(offset: nat, body: Option<seq<byte>>, closed: bool, errs: nat)

  const FRESH := State(0, None, false, 0)
  const MAX_RETRY := 3

  /** What one read of a body asks of the connection: how much arrives and which error comes with it. */
  datatype Delivery = Delivery(n: nat, err: Failure)

  function Min(a: nat, b: nat): nat {
    if a < b then a else b
  }

  /** No more than fits and is left; a body that ends early does so with an unexpected end. */
  function Deliver(d: Delivery, body: seq<byte>, room: nat): (seq<byte>, Failure) {
    var n := Min(d.n, Min(|body|, room));
    (body[..n], if d.err == Eof && n < |body| then UnexpectedEof else d.err)
  }

  /** reader(): keep the open body, or open one; past a known size there is nothing to fetch. */
  function Opened(s: State, size: int, server: nat -> Reply): Option<State> {
    if s.body.Some? then Some(s)
    else if size == -1 || s.offset < size then
      match Open(server(s.offset), s.offset)
      case None => None
      case Some(b) => Some(s.(body := Some(b)))
    else Some(s.(body := Some([])))
  }

  /** One call of Read: the room in the buffer, the delivery, and the server before and after a
      reconnection. */
  datatype Call = Call(room: nat, delivery: Delivery, server: nat -> Reply, again: nat -> Reply)

  datatype Outcome = Outcome(state: State, data: seq<byte>, err: Failure)

  function ReadOutcome(s: State, size: int, c: Call): Outcome {
    if s.closed then Outcome(s, [], Eof)
    else
      match Opened(s, size, c.server)
      case None => Outcome(s, [], OtherError)
      case Some(t) =>
        var (data, err) := Deliver(c.delivery, t.body.value, c.room);
        var errs := if data != [] || err == NoError then 0 else t.errs;
        var u := State(t.offset + |data|, Some(t.body.value[|data|..]), t.closed, errs);
        if err != UnexpectedEof then Outcome(u, data, err) else Reconnect(u, data, size, c.again)
  }

  /** After an unexpected end: a fresh body at the new offset hides the error. */
  function Reconnect(u: State, data: seq<byte>, size: int, server: nat -> Reply): Outcome {
    var v := if data == [] then u.(errs := u.errs + 1) else u;
    if data == [] && v.errs > MAX_RETRY then Outcome(v, data, UnexpectedEof)
    else
      match Opened(v.(body := None), size, server)
      case None => Outcome(v.(body := None), data, UnexpectedEof)
      case Some(w) => Outcome(w, data, NoError)
  }

  datatype Whence = FromStart | FromCurrent | FromEnd | Invalid

  /** Seek: the new offset, or an error that changes nothing. */
  function SeekOutcome(s: State, size: int, delta: int, whence: Whence): (r: (State, Option<nat>))
    ensures r.1.Some? <==> !s.closed && whence != Invalid && !(whence == FromEnd && size == -1)
                           && Target(s, size, delta, whence) >= 0
    ensures r.1.Some? ==> r.0.offset == r.1.value == Target(s, size, delta, whence)
    ensures r.1.None? ==> r.0 == s
  {
    if s.closed || whence == Invalid || (whence == FromEnd && size == -1) then (s, None)
    else
      var abs := Target(s, size, delta, whence);
      if abs < 0 then (s, None)
      else if abs == s.offset then (s, Some(abs))
      else (s.(offset := abs, body := None), Some(abs))
  }

  function Target(s: State, size: int, delta: int, whence: Whence): int {
    match whence
    case FromStart => delta
    case FromCurrent => s.offset + delta
    case FromEnd => size + delta
    case Invalid => -1
  }

  // ---- Every run delivers the content ----

  ghost predicate Aligned(s: State, content: seq<byte>) {
    s.body.Some? ==> s.body.value <= Rest(content, s.offset)
  }

  ghost predicate Whole(s: State, size: int, content: seq<byte>) {
    s.body.Some? ==> s.body.value == Rest(content, s.offset) || (size != -1 && s.offset >= size)
  }

  ghost predicate Serves(server: nat -> Reply, content: seq<byte>, whole: bool) {
    forall offset: nat :: Compliant(server(offset), content, offset, whole)
  }

  lemma {:induction false} OpenedAligned(s: State, size: int, server: nat -> Reply, content: seq<byte>, whole: bool)
    requires Aligned(s, content) && Serves(server, content, whole) && Opened(s, size, server).Some?
    requires whole ==> Whole(s, size, content)
    ensures var t := Opened(s, size, server).value;
            && t.body.Some? && t == s.(body := t.body)
            && Aligned(t, content) && (whole ==> Whole(t, size, content))
  {
    if s.body.None? && (size == -1 || s.offset < size) {
      OpenAligned(server(s.offset), content, s.offset, whole);
    }
  }

  lemma {:induction false} Advance(content: seq<byte>, offset: nat, body: seq<byte>, n: nat)
    requires body <= Rest(content, offset) && n <= |body|
    ensures body[n..] <= Rest(content, offset + n)
    ensures body == Rest(content, offset) ==> body[n..] == Rest(content, offset + n)
    ensures offset + n <= |content| || n == 0
    ensures n > 0 ==> body[..n] == content[offset..offset + n]
  {
  }

  /** What one Read does: the bytes are those of the content at the old offset, which moves past them;
      the connection stays in step; and the end is reported only at the end. */
  ghost predicate Correct(s: State, size: int, o: Outcome, content: seq<byte>, whole: bool) {
    && o.state.offset == s.offset + |o.data|
    && o.data <= Rest(content, s.offset)
    && Aligned(o.state, content)
    && o.state.closed == s.closed
    && (whole ==> Whole(o.state, size, content))
    && (whole && o.err == Eof && !s.closed ==> o.state.offset >= |content| || (size != -1 && o.state.offset >= size))
  }

  lemma {:induction false} ReadCorrect(s: State, size: int, c: Call, content: seq<byte>, whole: bool)
    requires Aligned(s, content) && (whole ==> Whole(s, size, content))
    requires Serves(c.server, content, whole) && Serves(c.again, content, whole)
    ensures Correct(s, size, ReadOutcome(s, size, c), content, whole)
    ensures |ReadOutcome(s, size, c).data| <= c.room
  {
    if !s.closed && Opened(s, size, c.server).Some? {
      OpenedAligned(s, size, c.server, content, whole);
      var t := Opened(s, size, c.server).value;
      var (data, err) := Deliver(c.delivery, t.body.value, c.room);
      var errs := if data != [] || err == NoError then 0 else t.errs;
      var u := State(t.offset + |data|, Some(t.body.value[|data|..]), t.closed, errs);
      assert ReadOutcome(s, size, c)
          == if err != UnexpectedEof then Outcome(u, data, err) else Reconnect(u, data, size, c.again);
      DeliverCorrect(t, u, size, c.delivery, c.room, content, whole);
      if err == UnexpectedEof {
        ReconnectCorrect(s, u, data, size, c.again, content, whole);
      }
    }
  }

  lemma DeliverCorrect(t: State, u: State, size: int, d: Delivery, room: nat, content: seq<byte>, whole: bool)
    requires t.body.Some? && Aligned(t, content) && (whole ==> Whole(t, size, content))
    requires var (data, _) := Deliver(d, t.body.value, room);
             u.offset == t.offset + |data| && u.body == Some(t.body.value[|data|..]) && u.closed == t.closed
    ensures var (data, err) := Deliver(d, t.body.value, room);
            && |data| <= room && Correct(t, size, Outcome(u, data, err), content, whole)
  {
    var (data, err) := Deliver(d, t.body.value, room);
    Advance(content, t.offset, t.body.value, |data|);
  }

  lemma ReconnectCorrect(s: State, u: State, data: seq<byte>, size: int, server: nat -> Reply, content: seq<byte>,
                         whole: bool)
    requires u.offset == s.offset + |data| && data <= Rest(content, s.offset) && u.closed == s.closed
    requires Aligned(u, content) && (whole ==> Whole(u, size, content)) && Serves(server, content, whole)
    ensures Correct(s, size, Reconnect(u, data, size, server), content, whole)
    ensures Reconnect(u, data, size, server).data == data
  {
    var v := u.(body := None, errs := if data == [] then u.errs + 1 else u.errs);
    if Opened(v, size, server).Some? {
      OpenedAligned(v, size, server, content, whole);
    }
  }

  datatype Op = Reading(call: Call) | Seeking(delta: int, whence: Whence) | Closing

  function Step(s: State, size: int, op: Op): State {
    match op
    case Reading(c) => ReadOutcome(s, size, c).state
    case Seeking(delta, whence) => SeekOutcome(s, size, delta, whence).0
    case Closing => s.(closed := true)
  }

  function Run(s: State, size: int, ops: seq<Op>): State {
    if ops == [] then s else Step(Run(s, size, ops[..|ops| - 1]), size, ops[|ops| - 1])
  }

  ghost predicate Served(ops: seq<Op>, content: seq<byte>, whole: bool) {
    forall i :: 0 <= i < |ops| && ops[i].Reading? ==>
      Serves(ops[i].call.server, content, whole) && Serves(ops[i].call.again, content, whole)
  }

  lemma {:induction false} RunAligned(size: int, ops: seq<Op>, content: seq<byte>, whole: bool)
    requires Served(ops, content, whole)
    ensures Aligned(Run(FRESH, size, ops), content)
    ensures whole ==> Whole(Run(FRESH, size, ops), size, content)
  {
    if ops != [] {
      var before, op := ops[..|ops| - 1], ops[|ops| - 1];
      RunAligned(size, before, content, whole);
      if op.Reading? {
        ReadCorrect(Run(FRESH, size, before), size, op.call, content, whole);
      }
    }
  }

  /** After any mixture of reads, seeks, broken connections and reconnections, the next Read returns the
      content at the current offset. */
  lemma {:induction false} EveryReadIsCorrect(size: int, ops: seq<Op>, c: Call, content: seq<byte>, whole: bool)
    requires Served(ops + [Reading(c)], content, whole)
    ensures var s := Run(FRESH, size, ops);
            Correct(s, size, ReadOutcome(s, size, c), content, whole)
  {
    assert (ops + [Reading(c)])[|ops|] == Reading(c);
    forall i | 0 <= i < |ops| ensures (ops + [Reading(c)])[i] == ops[i] {}
    RunAligned(size, ops, content, whole);
    ReadCorrect(Run(FRESH, size, ops), size, c, content, whole);
  }

  /** The bytes of a run of reads, in order. */
  function Drained(s: State, size: int, calls: seq<Call>): seq<byte> {
    if calls == [] then []
    else
      var before := calls[..|calls| - 1];
      Drained(s, size, before) + ReadOutcome(After(s, size, before), size, calls[|calls| - 1]).data
  }

  function After(s: State, size: int, calls: seq<Call>): State {
    if calls == [] then s
    else ReadOutcome(After(s, size, calls[..|calls| - 1]), size, calls[|calls| - 1]).state
  }

  ghost predicate AllServed(calls: seq<Call>, content: seq<byte>, whole: bool) {
    forall i :: 0 <= i < |calls| ==> Serves(calls[i].server, content, whole) && Serves(calls[i].again, content, whole)
  }

  lemma {:induction false} Extend(content: seq<byte>, i: nat, j: nat, data: seq<byte>)
    requires i <= j <= |content| && data <= Rest(content, j)
    ensures j + |data| <= |content| && content[i..j] + data == content[i..j + |data|]
  {
  }

  /** However the stream is cut into reads and connections, the pieces join up to one slice. */
  lemma {:induction false} ReadsJoinUp(s: State, size: int, calls: seq<Call>, content: seq<byte>, whole: bool)
    requires Aligned(s, content) && (whole ==> Whole(s, size, content)) && AllServed(calls, content, whole)
    requires s.offset <= |content|
    ensures var t := After(s, size, calls);
            && Aligned(t, content) && (whole ==> Whole(t, size, content)) && t.closed == s.closed
            && s.offset <= t.offset <= |content|
            && Drained(s, size, calls) == content[s.offset..t.offset]
  {
    if calls != [] {
      var before, c := calls[..|calls| - 1], calls[|calls| - 1];
      ReadsJoinUp(s, size, before, content, whole);
      var t := After(s, size, before);
      ReadCorrect(t, size, c, content, whole);
      Extend(content, s.offset, t.offset, ReadOutcome(t, size, c).data);
    }
  }

  /** Reading until the end of the stream gives the whole content, when the size is right or unknown. */
  lemma {:induction false} ReadToEnd(size: int, calls: seq<Call>, last: Call, content: seq<byte>)
    requires size == -1 || size == |content|
    requires AllServed(calls, content, true) && Serves(last.server, content, true) && Serves(last.again, content, true)
    requires ReadOutcome(After(FRESH, size, calls), size, last).err == Eof
    ensures Drained(FRESH, size, calls) + ReadOutcome(After(FRESH, size, calls), size, last).data == content
  {
    ReadsJoinUp(FRESH, size, calls, content, true);
    var t := After(FRESH, size, calls);
    ReadCorrect(t, size, last, content, true);
    var o := ReadOutcome(t, size, last);
    Extend(content, 0, t.offset, o.data);
    assert content[0..|content|] == content;
  }

  // ---- Bounded patience ----

  /** A read that came back empty without an error because a broken connection was replaced. */
  predicate Hidden(s: State, size: int, c: Call) {
    var o := ReadOutcome(s, size, c);
    && o.err == NoError && o.data == [] && !s.closed
    && (var t := Opened(s, size, c.server);
        t.Some? && Deliver(c.delivery, t.value.body.value, c.room).1 == UnexpectedEof)
  }

  /** A read that made progress, or that the connection ended without an error. */
  predicate Resets(s: State, size: int, op: Op) {
    && op.Reading? && !s.closed
    && (var t := Opened(s, size, op.call.server);
        && t.Some?
        && var (data, err) := Deliver(op.call.delivery, t.value.body.value, op.call.room);
           data != [] || err == NoError)
  }

  /** How many of the reads of a run were hidden. */
  function HiddenReads(s: State, size: int, ops: seq<Op>): nat {
    if ops == [] then 0
    else
      var before, op := ops[..|ops| - 1], ops[|ops| - 1];
      HiddenReads(s, size, before) + if op.Reading? && Hidden(Run(s, size, before), size, op.call) then 1 else 0
  }

  ghost predicate HiddenOp(s: State, size: int, ops: seq<Op>, i: nat) {
    i < |ops| && ops[i].Reading? && Hidden(Run(s, size, ops[..i]), size, ops[i].call)
  }

  /** The places of the hidden reads. */
  ghost function HiddenAt(s: State, size: int, ops: seq<Op>): set<nat> {
    set i: nat | i < |ops| && HiddenOp(s, size, ops, i)
  }

  lemma HiddenOpBefore(s: State, size: int, ops: seq<Op>, n: nat, i: nat)
    requires i < n <= |ops|
    ensures HiddenOp(s, size, ops[..n], i) <==> HiddenOp(s, size, ops, i)
  {
    assert ops[..n][..i] == ops[..i];
  }

  lemma HiddenGrows(s: State, size: int, ops: seq<Op>, n: nat)
    requires |ops| == n + 1
    ensures HiddenAt(s, size, ops) == HiddenAt(s, size, ops[..n]) + if HiddenOp(s, size, ops, n) then {n} else {}
  {
    forall i: nat | i < n ensures HiddenOp(s, size, ops[..n], i) <==> HiddenOp(s, size, ops, i) {
      HiddenOpBefore(s, size, ops, n, i);
    }
  }

  lemma {:induction false} HiddenCounted(s: State, size: int, ops: seq<Op>)
    ensures |HiddenAt(s, size, ops)| == HiddenReads(s, size, ops)
  {
    if ops != [] {
      var n := |ops| - 1;
      HiddenCounted(s, size, ops[..n]);
      HiddenGrows(s, size, ops, n);
    }
  }

  /** Without progress no operation lowers the count, seeks and failed reconnections included, and a
      hidden read raises it to three at most. */
  lemma NoProgressCounts(s: State, size: int, op: Op)
    requires !Resets(s, size, op)
    ensures Step(s, size, op).errs >= s.errs
    ensures op.Reading? && Hidden(s, size, op.call) ==> Step(s, size, op).errs == s.errs + 1 <= MAX_RETRY
  {
  }

  /** In every run of reads, seeks and failures without progress at most three reads hide an unexpected
      end. */
  lemma {:induction false} PatienceIsBounded(s: State, size: int, ops: seq<Op>)
    requires forall i :: 0 <= i < |ops| ==> !Resets(Run(s, size, ops[..i]), size, ops[i])
    ensures Run(s, size, ops).errs >= s.errs + HiddenReads(s, size, ops)
    ensures HiddenReads(s, size, ops) > 0 ==> s.errs + HiddenReads(s, size, ops) <= MAX_RETRY
  {
    if ops != [] {
      var n := |ops| - 1;
      var before := ops[..n];
      assert forall i :: 0 <= i < n ==> before[..i] == ops[..i] && before[i] == ops[i];
      PatienceIsBounded(s, size, before);
      NoProgressCounts(Run(s, size, before), size, ops[n]);
    }
  }

  // ---- The object ----

  class HttpReadSeeker {
    const size: int
    var offset: nat
    var rc: Option<seq<byte>>
    var closed: bool
    var errsWithNoProgress: nat

    constructor (size: int)
      ensures this.size == size && View() == FRESH
    {
      this.size := size;
      offset, rc, closed, errsWithNoProgress := 0, None, false, 0;
    }

    function View(): State
      reads this
    {
      State(offset, rc, closed, errsWithNoProgress)
    }

    /** reader(): the body is left in `rc`. */
    method Reader(server: nat -> Reply) returns (ok: bool)
      modifies this`rc
      ensures ok <==> Opened(old(View()), size, server).Some?
      ensures View() == if ok then Opened(old(View()), size, server).value else old(View())
    {
      if rc.Some? { return true; }
      if size == -1 || offset < size {
        var body := Open(server(offset), offset);
        if body.None? { return false; }
        rc := body;
      } else {
        rc := Some([]);
      }
      ok := true;
    }

    method Read(p: array<byte>, c: Call) returns (n: nat, err: Failure)
      requires c.room == p.Length
      modifies this, p
      ensures n <= p.Length && p[n..] == old(p[n..])
      ensures Outcome(View(), p[..n], err) == ReadOutcome(old(View()), size, c)
    {
      if closed { return 0, Eof; }
      var ok := Reader(c.server);
      if !ok { return 0, OtherError; }
      ghost var t := View();
      var (data, e) := Deliver(c.delivery, rc.value, p.Length);
      n, err := |data|, e;
      forall i | 0 <= i < n { p[i] := data[i]; }
      assert p[..n] == data;
      rc := Some(rc.value[n..]);
      offset := offset + n;
      if n > 0 || err == NoError {
        errsWithNoProgress := 0;
      }
      if err == UnexpectedEof {
        if n == 0 {
          errsWithNoProgress := errsWithNoProgress + 1;
          if errsWithNoProgress > MAX_RETRY { return; }
        }
        rc := None;
        var reopened := Reader(c.again);
        if reopened { return n, NoError; }
      }
    }

    method Close()
      modifies this`closed
      ensures closed
    {
      closed := true;
    }

    method Seek(delta: int, whence: Whence) returns (r: Option<nat>)
      modifies this`offset, this`rc
      ensures (View(), r) == SeekOutcome(old(View()), size, delta, whence)
    {
      if closed { return None; }
      var abs: int := offset;
      match whence {
        case FromStart => abs := delta;
        case FromCurrent => abs := abs + delta;
        case FromEnd =>
          if size == -1 { return None; }
          abs := size + delta;
        case Invalid => return None;
      }
      if abs < 0 { return None; }
      if abs != offset {
        rc := None;
        offset := abs;
      }
      r := Some(offset);
    }
  }
}
