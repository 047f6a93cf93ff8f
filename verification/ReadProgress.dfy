/** The reconnecting reader gets somewhere: when opening a body succeeds, what a read then returns, and that
    reads of a server that answers arrive at the end (pkg/remote/remotes/docker/httpreadseeker.go, fetcher.go). */
module ReadProgress {
  import opened Base
  import opened Text
  import opened Decimal
  import opened ReadSeeker

  // ---- Opening ----

  /** The content-range header of an answer that starts at `offset`. */
  ghost predicate StartsAt(range: string, offset: nat) {
    exists last: string :: range == "bytes " + Dec(offset) + "-" + last
  }

  lemma StartsAtPrefix(range: string, offset: nat)
    ensures HasPrefix(range, UNIT + Dec(offset) + "-") <==> StartsAt(range, offset)
  {
    var p := "bytes " + Dec(offset) + "-";
    if HasPrefix(range, p) {
      assert range == p + range[|p|..];
    }
  }

  lemma StartsAtNotEmpty(range: string, offset: nat)
    requires StartsAt(range, offset)
    ensures range != ""
  {
    var last: string :| range == "bytes " + Dec(offset) + "-" + last;
    assert |range| >= |"bytes "|;
  }

  /** Opening succeeds exactly for a response with a status of at most 299 that needs no positioning, starts
      at the offset by its own word, or says nothing about ranges and reaches the offset. */
  lemma OpenIff(reply: Reply, offset: nat)
    ensures Open(reply, offset).Some? <==>
            && reply.Response? && reply.status <= 299
            && (offset == 0
                || (reply.contentRange != "" && StartsAt(reply.contentRange, offset))
                || (reply.contentRange == "" && |reply.body| >= offset))
  {
    if reply.Response? {
      StartsAtPrefix(reply.contentRange, offset);
    }
  }

  /** A server that gives what is asked for: everything with the range ignored, or the rest and where it
      starts. */
  ghost predicate Grants(reply: Reply, content: seq<byte>, offset: nat) {
    && offset <= |content| && reply.Response? && reply.status <= 299
    && (((offset == 0 || reply.contentRange == "") && reply.body == content)
        || (offset > 0 && StartsAt(reply.contentRange, offset) && reply.body == content[offset..]))
  }

  lemma OpenGranted(reply: Reply, content: seq<byte>, offset: nat)
    requires Grants(reply, content, offset)
    ensures Open(reply, offset) == Some(content[offset..])
  {
    if offset > 0 && reply.contentRange != "" {
      StartsAtPrefix(reply.contentRange, offset);
    } else if StartsAt(reply.contentRange, offset) {
      StartsAtNotEmpty(reply.contentRange, offset);
    }
  }

  ghost predicate Willing(server: nat -> Reply, content: seq<byte>) {
    forall offset: nat :: offset <= |content| ==> Grants(server(offset), content, offset)
  }

  // ---- One read ----

  /** An open reader within the content, with a connection in step or none. */
  ghost predicate Ready(s: State, size: int, content: seq<byte>) {
    && (size == -1 || size == |content|) && !s.closed && s.offset <= |content|
    && (s.body.Some? ==> s.body.value == content[s.offset..])
  }

  lemma OpenedReady(s: State, size: int, server: nat -> Reply, content: seq<byte>)
    requires Ready(s, size, content) && Willing(server, content)
    ensures Opened(s, size, server) == Some(s.(body := Some(content[s.offset..])))
  {
    if s.body.None? && (size == -1 || s.offset < size) {
      OpenGranted(server(s.offset), content, s.offset);
    } else if s.body.None? {
      assert content[s.offset..] == [];
    }
  }

  /** How many bytes a call can get. */
  ghost function Share(s: State, c: Call, content: seq<byte>): nat
    requires s.offset <= |content|
  {
    Min(c.delivery.n, Min(|content| - s.offset, c.room))
  }

  /** The error the connection ends the read with; an end before the end of the content is unexpected. */
  ghost function Ending(s: State, c: Call, content: seq<byte>): Failure
    requires s.offset <= |content|
  {
    if c.delivery.err == Eof && s.offset + Share(s, c, content) < |content| then UnexpectedEof else c.delivery.err
  }

  lemma {:induction false} Delivered(s: State, c: Call, content: seq<byte>)
    requires s.offset <= |content|
    ensures var n := Share(s, c, content);
            && Deliver(c.delivery, content[s.offset..], c.room)
               == (content[s.offset..s.offset + n], Ending(s, c, content))
            && content[s.offset..][n..] == content[s.offset + n..]
  {
    var n := Share(s, c, content);
    assert content[s.offset..][..n] == content[s.offset..s.offset + n];
  }

  /** The state after the delivery, before any reconnection. */
  ghost function Moved(s: State, c: Call, content: seq<byte>): State
    requires s.offset <= |content|
  {
    var n, e := Share(s, c, content), Ending(s, c, content);
    State(s.offset + n, Some(content[s.offset + n..]), s.closed, if n > 0 || e == NoError then 0 else s.errs)
  }

  lemma {:induction false} ReadUnfolds(s: State, size: int, c: Call, content: seq<byte>)
    requires Ready(s, size, content) && Willing(c.server, content)
    ensures var data := content[s.offset..s.offset + Share(s, c, content)];
            ReadOutcome(s, size, c)
            == if Ending(s, c, content) != UnexpectedEof then Outcome(Moved(s, c, content), data, Ending(s, c, content))
               else Reconnect(Moved(s, c, content), data, size, c.again)
  {
    OpenedReady(s, size, c.server, content);
    Delivered(s, c, content);
  }

  lemma {:induction false} ReconnectReady(u: State, data: seq<byte>, size: int, server: nat -> Reply,
                                          content: seq<byte>)
    requires Ready(u, size, content) && Willing(server, content) && (data != [] ==> u.errs == 0)
    ensures var o := Reconnect(u, data, size, server);
            && o.data == data && o.state.offset == u.offset && Ready(o.state, size, content)
            && o.err == (if data != [] || u.errs < 3 then NoError else UnexpectedEof)
            && o.state.errs == if data != [] then 0 else u.errs + 1
  {
    OpenedReady(u.(body := None, errs := if data == [] then u.errs + 1 else u.errs), size, server, content);
  }

  /** A read from a willing server returns all the connection delivers, of the content at the offset.  Only
      an unexpected end is ever hidden: always after progress, else while fewer than three were in a row. */
  lemma {:induction false} ReadDelivers(s: State, size: int, c: Call, content: seq<byte>)
    requires Ready(s, size, content) && Willing(c.server, content) && Willing(c.again, content)
    ensures var o, n, e := ReadOutcome(s, size, c), Share(s, c, content), Ending(s, c, content);
            && o.data == content[s.offset..s.offset + n] && o.state.offset == s.offset + n
            && Ready(o.state, size, content)
            && o.err == (if e == UnexpectedEof && (n > 0 || s.errs < 3) then NoError else e)
            && o.state.errs
               == if n > 0 || e == NoError then 0 else if e == UnexpectedEof then s.errs + 1 else s.errs
  {
    ReadUnfolds(s, size, c, content);
    if Ending(s, c, content) == UnexpectedEof {
      var data := content[s.offset..s.offset + Share(s, c, content)];
      ReconnectReady(Moved(s, c, content), data, size, c.again, content);
    }
  }

  // ---- Seeking ----

  /** When a seek succeeds and where it leads; it then leaves the reader ready there. */
  lemma SeekMeans(s: State, size: int, delta: int, whence: Whence)
    ensures var at := SeekOutcome(s, size, delta, whence).1;
            && (whence == FromStart ==> at == if !s.closed && delta >= 0 then Some(delta) else None)
            && (whence == FromCurrent ==>
                  at == if !s.closed && s.offset + delta >= 0 then Some(s.offset + delta) else None)
            && (whence == FromEnd ==>
                  at == if !s.closed && size != -1 && size + delta >= 0 then Some(size + delta) else None)
            && (whence == Invalid ==> at == None)
  {
  }

  lemma {:induction false} SeekReady(s: State, size: int, delta: int, whence: Whence, content: seq<byte>)
    requires Ready(s, size, content)
    requires var at := SeekOutcome(s, size, delta, whence).1; at.Some? ==> at.value <= |content|
    ensures var (t, at) := SeekOutcome(s, size, delta, whence);
            Ready(t, size, content) && (at.Some? ==> t.offset == at.value) && (at.None? ==> t == s) && t.errs == s.errs
  {
  }

  /** After a seek inside the content the next read continues there; it fails only if the connection does. */
  lemma {:induction false} ReadAfterSeek(s: State, size: int, delta: int, whence: Whence, c: Call, content: seq<byte>)
    requires Ready(s, size, content) && Willing(c.server, content) && Willing(c.again, content)
    requires var at := SeekOutcome(s, size, delta, whence).1; at.Some? && at.value <= |content|
    ensures var (t, at) := SeekOutcome(s, size, delta, whence);
            var o := ReadOutcome(t, size, c);
            && o.data == content[at.value..at.value + Min(c.delivery.n, Min(|content| - at.value, c.room))]
            && (o.err == OtherError ==> c.delivery.err == OtherError)
  {
    SeekReady(s, size, delta, whence, content);
    ReadDelivers(SeekOutcome(s, size, delta, whence).0, size, c, content);
  }

  /** A closed reader is at its end, and cannot be sought in. */
  lemma ClosedIsOver(s: State, size: int, c: Call, delta: int, whence: Whence)
    requires s.closed
    ensures ReadOutcome(s, size, c) == Outcome(s, [], Eof) && SeekOutcome(s, size, delta, whence) == (s, None)
  {
  }

  /** Once closed, a reader stays closed, whatever is tried. */
  lemma {:induction false} ClosedForGood(s: State, size: int, before: seq<Op>, after: seq<Op>)
    ensures Run(s, size, before + [Closing] + after).closed
  {
    var ops := before + [Closing] + after;
    if after == [] {
      assert ops[..|ops| - 1] == before;
    } else {
      var front := after[..|after| - 1];
      ClosedForGood(s, size, before, front);
      assert ops[..|ops| - 1] == before + [Closing] + front;
    }
  }

  // ---- Any mixture of reads and seeks ----

  /** The i-th of these operations reads from a willing server or seeks to a place in the content, or in vain. */
  ghost predicate Sound(size: int, ops: seq<Op>, i: nat, content: seq<byte>)
    requires i < |ops|
  {
    match ops[i]
    case Reading(c) => Willing(c.server, content) && Willing(c.again, content)
    case Seeking(delta, whence) =>
      var at := SeekOutcome(Run(FRESH, size, ops[..i]), size, delta, whence).1;
      at.Some? ==> at.value <= |content|
    case Closing => false
  }

  lemma {:induction false} RunReady(size: int, ops: seq<Op>, content: seq<byte>)
    requires (size == -1 || size == |content|) && forall i :: 0 <= i < |ops| ==> Sound(size, ops, i, content)
    ensures Ready(Run(FRESH, size, ops), size, content)
  {
    if ops != [] {
      var n := |ops| - 1;
      var before := ops[..n];
      forall i | 0 <= i < n ensures Sound(size, before, i, content) {
        assert before[..i] == ops[..i] && before[i] == ops[i] && Sound(size, ops, i, content);
      }
      RunReady(size, before, content);
      assert Sound(size, ops, n, content);
      match ops[n]
      case Reading(c) => ReadDelivers(Run(FRESH, size, before), size, c, content);
      case Seeking(delta, whence) => SeekReady(Run(FRESH, size, before), size, delta, whence, content);
    }
  }

  /** After any such mixture a read hands over the content at the offset and moves past it, and a seek moves
      to its target or nowhere. */
  lemma {:induction false} EveryOpWorks(size: int, ops: seq<Op>, op: Op, content: seq<byte>)
    requires (size == -1 || size == |content|) && forall i :: 0 <= i < |ops| ==> Sound(size, ops, i, content)
    requires Sound(size, ops + [op], |ops|, content)
    ensures Ready(Run(FRESH, size, ops), size, content)
    ensures var s, t := Run(FRESH, size, ops), Run(FRESH, size, ops + [op]);
            match op
            case Reading(c) =>
              && t.offset == s.offset + Share(s, c, content)
              && ReadOutcome(s, size, c).data == content[s.offset..t.offset]
            case Seeking(delta, whence) =>
              var at := SeekOutcome(s, size, delta, whence).1;
              t.offset == if at.Some? then at.value else s.offset
            case Closing => true
  {
    assert (ops + [op])[..|ops|] == ops && (ops + [op])[|ops|] == op;
    var s := Run(FRESH, size, ops);
    RunReady(size, ops, content);
    match op
    case Reading(c) => ReadDelivers(s, size, c, content);
    case Seeking(delta, whence) => SeekReady(s, size, delta, whence, content);
    case Closing =>
  }

  // ---- Arriving at the end ----

  /** Each call has room, delivers something, and breaks off at worst. */
  ghost predicate Fruitful(calls: seq<Call>, content: seq<byte>) {
    forall i :: 0 <= i < |calls| ==>
      && Willing(calls[i].server, content) && Willing(calls[i].again, content)
      && calls[i].room > 0 && calls[i].delivery.n > 0
  }

  lemma {:induction false} LastRead(size: int, calls: seq<Call>) returns (o: Outcome)
    requires calls != []
    ensures var before := calls[..|calls| - 1];
            && o == ReadOutcome(After(FRESH, size, before), size, calls[|calls| - 1])
            && After(FRESH, size, calls) == o.state
            && Drained(FRESH, size, calls) == Drained(FRESH, size, before) + o.data
  {
    o := ReadOutcome(After(FRESH, size, calls[..|calls| - 1]), size, calls[|calls| - 1]);
  }

  lemma {:induction false} OneReadAdvances(size: int, c: Call, content: seq<byte>, t: State, o: Outcome)
    requires Ready(t, size, content) && o == ReadOutcome(t, size, c) && Fruitful([c], content)
    ensures Ready(o.state, size, content) && o.state.offset >= Min(t.offset + 1, |content|)
    ensures content[..t.offset] + o.data == content[..o.state.offset]
  {
    assert [c][0] == c;
    ReadDelivers(t, size, c, content);
  }

  lemma {:induction false} EachReadAdvances(size: int, calls: seq<Call>, content: seq<byte>)
    requires (size == -1 || size == |content|) && Fruitful(calls, content)
    ensures var t := After(FRESH, size, calls);
            && Ready(t, size, content) && t.offset >= Min(|calls|, |content|)
            && Drained(FRESH, size, calls) == content[..t.offset]
  {
    if calls != [] {
      var before, c := calls[..|calls| - 1], calls[|calls| - 1];
      assert Fruitful(before, content) by {
        assert forall i :: 0 <= i < |before| ==> before[i] == calls[i];
      }
      EachReadAdvances(size, before, content);
      assert Fruitful([c], content);
      var o := LastRead(size, calls);
      OneReadAdvances(size, c, content, After(FRESH, size, before), o);
    }
  }

  /** However often the connection breaks, as many such reads as there are bytes read all of the content. */
  lemma {:induction false} ReadsArrive(size: int, calls: seq<Call>, content: seq<byte>)
    requires (size == -1 || size == |content|) && Fruitful(calls, content) && |calls| >= |content|
    ensures Drained(FRESH, size, calls) == content
  {
    EachReadAdvances(size, calls, content);
    assert content[..|content|] == content;
  }
}
