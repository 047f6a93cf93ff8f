/** The retry engine (pkg/utils/retry/retry.go) and the wait for a complete bootstrap built on it
    (pkg/filesystem/bootstrap.go).  Delays are left out: they change no result. */
module Retry {
  import opened Base

  /** An error value; Unrecoverable wraps another error, or nil. */
  datatype Err = Plain(id: int) | Unrecoverable(inner: Option<Err>)

  function Unpack(e: Err): Option<Err> {
    if e.Unrecoverable? then e.inner else Some(e)
  }

  /** The retryIf functions that can be configured: IsRecoverable, and OnlyRetryIf with its abort test. */
  predicate RetryIf(e: Err, abort: Err -> bool) {
    e.Plain? && !abort(e)
  }

  /** What Do returns: nil, the last error, or the log of all attempts. */
  datatype Returned = Nil | Last(err: Err) | Log(entries: seq<Option<Err>>)

  /** The callback is an oracle: `behave(n)` is what its n-th call returns, None for success. */
  datatype Job = Job(attempts: nat, lastErrorOnly: bool, abort: Err -> bool, behave: nat -> Option<Err>)

  /** The call after which the loop ends, counted from `n`. */
  function Final(j: Job, n: nat): (m: nat)
    requires n < j.attempts
    ensures n <= m < j.attempts
    decreases j.attempts - n
  {
    if j.behave(n).None? || !RetryIf(j.behave(n).value, j.abort) || n == j.attempts - 1 then n else Final(j, n + 1)
  }

  /** The log after `n` failed calls */
  function Entries(j: Job, n: nat): seq<Option<Err>> {
    seq(j.attempts, i requires 0 <= i < j.attempts =>
      if i < n && j.behave(i).Some? then Unpack(j.behave(i).value) else None)
  }

  function Outcome(j: Job): Returned {
    if j.attempts == 0 then if j.lastErrorOnly then Nil else Log([])
    else
      var last := j.behave(Final(j, 0));
      if last.None? then Nil
      else if j.lastErrorOnly then
        var e := Unpack(last.value);
        if e.None? then Nil else Last(e.value)
      else Log(Entries(j, Final(j, 0) + 1))
  }

  /** Do, with the number of calls it makes. */
  method Do(j: Job) returns (calls: nat, r: Returned)
    ensures calls == if j.attempts == 0 then 0 else Final(j, 0) + 1
    ensures r == Outcome(j)
  {
    var size := if j.lastErrorOnly then 1 else j.attempts;
    var errorLog := new Option<Err>[size](_ => None);
    var n, lastErrIndex := 0, 0;
    calls := 0;
    while n < j.attempts
      invariant 0 <= n <= j.attempts && calls == n
      invariant n < j.attempts ==> Final(j, 0) == Final(j, n)
      invariant n == j.attempts ==> j.attempts == 0
      invariant lastErrIndex == if j.lastErrorOnly then 0 else n
      invariant !j.lastErrorOnly ==> errorLog[..] == Entries(j, n)
      invariant n == 0 ==> forall i :: 0 <= i < size ==> errorLog[i] == None
    {
      var err := j.behave(n);
      calls := calls + 1;
      if err.None? { return calls, Nil; }
      errorLog[lastErrIndex] := Unpack(err.value);
      assert !j.lastErrorOnly ==> errorLog[..] == Entries(j, n + 1);
      if !RetryIf(err.value, j.abort) { break; }
      if n == j.attempts - 1 { break; }
      n := n + 1;
      if !j.lastErrorOnly {
        lastErrIndex := n;
      }
    }
    if j.lastErrorOnly {
      return calls, if errorLog[lastErrIndex].None? then Nil else Last(errorLog[lastErrIndex].value);
    }
    assert j.attempts == 0 ==> errorLog[..] == [];
    return calls, Log(errorLog[..]);
  }

  // ---- What Do promises ----

  /** Every call before the last failed with a retryable error; the last one ended the loop. */
  lemma {:induction false} FinalIsFirstStop(j: Job, n: nat)
    requires n < j.attempts
    ensures forall i :: n <= i < Final(j, n) ==>
              j.behave(i).Some? && !j.behave(i).value.Unrecoverable? && !j.abort(j.behave(i).value)
    ensures var last := j.behave(Final(j, n));
            last.None? || last.value.Unrecoverable? || j.abort(last.value) || Final(j, n) == j.attempts - 1
    decreases j.attempts - n
  {
    if !(j.behave(n).None? || !RetryIf(j.behave(n).value, j.abort) || n == j.attempts - 1) {
      FinalIsFirstStop(j, n + 1);
    }
  }

  /** The m-th call happens: there is an attempt for it, and all calls before failed retryably. */
  ghost predicate Reached(j: Job, m: nat) {
    m < j.attempts && forall i: nat :: i < m ==> j.behave(i).Some? && RetryIf(j.behave(i).value, j.abort)
  }

  /** A call that makes Do return nil: a success, or, when only the last error is wanted, an unrecoverable
      nil. */
  predicate EndsNil(j: Job, m: nat) {
    j.behave(m).None? || (j.lastErrorOnly && j.behave(m).value == Unrecoverable(None))
  }

  /** Do returns nil exactly when such a call is reached, or when it has no attempt to make and reports
      the last error only. */
  lemma NilIff(j: Job)
    ensures Outcome(j) == Nil <==>
            (j.attempts == 0 && j.lastErrorOnly) || exists m: nat :: Reached(j, m) && EndsNil(j, m)
  {
    if j.attempts > 0 {
      FinalIsFirstStop(j, 0);
      var last := Final(j, 0);
      assert Reached(j, last);
      forall m: nat | Reached(j, m) && EndsNil(j, m) ensures m == last {
      }
    }
  }

  // ---- The log ----

  /** Non-nil entries come first. */
  ghost predicate FrontLoaded(e: seq<Option<Err>>) {
    forall i, k :: 0 <= i < k < |e| && e[k].Some? ==> e[i].Some?
  }

  function Count(e: seq<Option<Err>>): nat {
    if e == [] then 0 else Count(e[..|e| - 1]) + if e[|e| - 1].Some? then 1 else 0
  }

  method LenWithoutNil(e: seq<Option<Err>>) returns (count: nat)
    ensures count == Count(e)
  {
    count := 0;
    for i := 0 to |e|
      invariant count == Count(e[..i])
    {
      assert e[..i + 1][..i] == e[..i];
      if e[i].Some? {
        count := count + 1;
      }
    }
    assert e[..|e|] == e;
  }

  lemma {:induction false} CountBounds(e: seq<Option<Err>>)
    ensures Count(e) <= |e|
    ensures Count(e) == |e| ==> forall i :: 0 <= i < |e| ==> e[i].Some?
    ensures (forall i :: 0 <= i < |e| ==> e[i].Some?) ==> Count(e) == |e|
  {
    if e != [] {
      CountBounds(e[..|e| - 1]);
    }
  }

  /** Error.Error writes the i-th entry into a list as long as the non-nil entries: that is in range
      exactly when the non-nil entries come first. */
  lemma {:induction false} InRangeIff(e: seq<Option<Err>>)
    ensures (forall i :: 0 <= i < |e| && e[i].Some? ==> i < Count(e)) <==> FrontLoaded(e)
  {
    if e != [] {
      var front := e[..|e| - 1];
      InRangeIff(front);
      CountBounds(front);
      CountBounds(e);
      if e[|e| - 1].Some? {
        if FrontLoaded(e) {
          assert forall i :: 0 <= i < |e| ==> e[i].Some?;
        }
        if forall i :: 0 <= i < |e| && e[i].Some? ==> i < Count(e) {
          assert Count(e) == |e|;
        }
      } else {
        assert FrontLoaded(front) <==> FrontLoaded(e);
      }
    }
  }

  /** Every log Do returns is front-loaded. */
  lemma LogFrontLoaded(j: Job)
    ensures Outcome(j).Log? ==> FrontLoaded(Outcome(j).entries)
  {
    if j.attempts > 0 {
      FinalIsFirstStop(j, 0);
    }
  }

  method ErrorText(e: seq<Option<Err>>, text: (int, Err) -> string) returns (lines: seq<string>)
    requires FrontLoaded(e)
    ensures |lines| == Count(e) <= |e|
    ensures forall i :: 0 <= i < |lines| ==> e[i].Some? && lines[i] == text(i + 1, e[i].value)
  {
    var count := LenWithoutNil(e);
    CountBounds(e);
    FrontCounts(e);
    var logWithNumber := new string[count](_ => "");
    for i := 0 to |e|
      invariant forall k :: 0 <= k < i && k < count ==> e[k].Some? && logWithNumber[k] == text(k + 1, e[k].value)
    {
      if e[i].Some? {
        logWithNumber[i] := text(i + 1, e[i].value);
      }
    }
    lines := logWithNumber[..];
  }

  lemma {:induction false} FrontCounts(e: seq<Option<Err>>)
    requires FrontLoaded(e)
    ensures forall i :: 0 <= i < |e| ==> (e[i].Some? <==> i < Count(e))
  {
    if e != [] {
      FrontCounts(e[..|e| - 1]);
      CountBounds(e[..|e| - 1]);
    }
  }

  // ---- The bootstrap ----

  datatype BlobMeta = BlobMeta(name: string, size: int)

  datatype BootstrapState = BootstrapState(size: int, blobMetas: seq<BlobMeta>)

  method Equal(s: BootstrapState, previous: BootstrapState) returns (same: bool)
    ensures same <==> s == previous
  {
    if s.size != previous.size { return false; }
    if |s.blobMetas| != |previous.blobMetas| { return false; }
    for i := 0 to |s.blobMetas|
      invariant s.blobMetas[..i] == previous.blobMetas[..i]
    {
      if s.blobMetas[i] != previous.blobMetas[i] { return false; }
    }
    assert s.blobMetas[..|s.blobMetas|] == s.blobMetas && previous.blobMetas[..|s.blobMetas|] == previous.blobMetas;
    same := true;
  }

  const NOT_READY := Plain(0)
  const INVALID := Plain(1)

  /** The last valid state among the first `n` validations. */
  function Remembered(validate: nat -> Option<BootstrapState>, n: nat): Option<BootstrapState> {
    if n == 0 then None
    else if validate(n - 1).Some? then validate(n - 1)
    else Remembered(validate, n - 1)
  }

  /** What the n-th attempt returns. */
  function Attempt(validate: nat -> Option<BootstrapState>, n: nat): Option<Err> {
    var now := validate(n);
    if now.None? then Some(INVALID)
    else if Remembered(validate, n) != now then Some(NOT_READY)
    else None
  }

  /** The closure handed to Do, with the state it keeps between calls. */
  class Readiness {
    var lastState: BootstrapState
    var haveState: bool
    ghost var calls: nat

    constructor ()
      ensures !haveState && calls == 0
    {
      lastState, haveState, calls := BootstrapState(0, []), false, 0;
    }

    ghost function View(): Option<BootstrapState>
      reads this
    {
      if haveState then Some(lastState) else None
    }

    method Call(validate: nat -> Option<BootstrapState>, n: nat) returns (err: Option<Err>)
      requires n == calls && View() == Remembered(validate, n)
      modifies this
      ensures calls == n + 1 && View() == Remembered(validate, n + 1)
      ensures err == Attempt(validate, n)
    {
      var state := validate(n);
      calls := calls + 1;
      if state.None? { return Some(INVALID); }
      var same := false;
      if haveState {
        same := Equal(state.value, lastState);
      }
      if !same {
        lastState, haveState := state.value, true;
        return Some(NOT_READY);
      }
      err := None;
    }
  }

  function Waiting(attempts: nat, validate: nat -> Option<BootstrapState>): Job {
    Job(attempts, true, _ => false, (n: nat) => Attempt(validate, n))
  }

  /** Two equal valid states, and nothing valid between them. */
  ghost predicate Confirmed(validate: nat -> Option<BootstrapState>, i: nat, k: nat) {
    i < k && validate(i).Some? && validate(i) == validate(k) && forall m: nat :: i < m < k ==> validate(m).None?
  }

  lemma {:induction false} RememberedIs(validate: nat -> Option<BootstrapState>, n: nat) returns (i: nat)
    ensures Remembered(validate, n).Some? ==>
              i < n && validate(i) == Remembered(validate, n) && forall m: nat :: i < m < n ==> validate(m).None?
    ensures Remembered(validate, n).None? ==> forall m: nat :: m < n ==> validate(m).None?
  {
    if n == 0 {
      i := 0;
    } else if validate(n - 1).Some? {
      i := n - 1;
    } else {
      i := RememberedIs(validate, n - 1);
    }
  }

  lemma {:induction false} RememberedAt(validate: nat -> Option<BootstrapState>, i: nat, n: nat)
    requires i < n && validate(i).Some? && forall m: nat :: i < m < n ==> validate(m).None?
    ensures Remembered(validate, n) == validate(i)
  {
    if i < n - 1 {
      RememberedAt(validate, i, n - 1);
    }
  }

  /** The bootstrap is taken to be ready exactly when, within the attempts, two valid states agree with
      only invalid ones between them, or when no attempt is made at all. */
  lemma ReadyIffConfirmed(attempts: nat, validate: nat -> Option<BootstrapState>)
    ensures Outcome(Waiting(attempts, validate)) == Nil <==>
            attempts == 0 || exists i: nat, k: nat :: k < attempts && Confirmed(validate, i, k)
  {
    var j := Waiting(attempts, validate);
    if attempts > 0 {
      FinalIsFirstStop(j, 0);
      var last := Final(j, 0);
      forall i: nat, k: nat | Confirmed(validate, i, k) ensures j.behave(k).None? {
        RememberedAt(validate, i, k);
      }
      if j.behave(last).None? {
        var i := RememberedIs(validate, last);
        assert Confirmed(validate, i, last);
      }
    }
  }
}
