/** The sequence engine of fib.go: the (previous, current) position, the three operations
    `handle_previous`, `handle_current` and `handle_next`, and the op-code dispatch of
    `cli_handle_request`. */
module Engine {
  import opened GoInt64

  /** Result codes of the two exceptional conditions. */
  const ApiErrorNoPrev: Int64 := -1
  const ApiErrorOverflow: Int64 := -2

  /** HTTP status codes the operations report. */
  const StatusOK: int := 200
  const StatusConflict: int := 409
  const StatusInsufficientStorage: int := 507

  /** Operation codes, numbered as Go's `iota` numbers them. */
  const GetPrevious: int := 0
  const GetCurrent: int := 1
  const GetNext: int := 2

  /** A position in the sequence: the record `nums` holds and the data file stores. */
  datatype Pair = Pair(previous: Int64, current: Int64)

  /** What an operation reports: the number requested (or an error code) and a status. */
  datatype Reply = Reply(result: Int64, status: int)

  /** The new position an operation leaves behind, with its reply. */
  datatype Step = Step(pair: Pair, reply: Reply)

  /** The start of the sequence: no previous term exists yet. */
  const Sentinel: Pair := Pair(-1, 0)

  /** The pair an uninitialised, zero-filled data file decodes to. */
  const ZeroPair: Pair := Pair(0, 0)

  /** Stepping backwards, as `handle_previous` does it. */
  function StepPrevious(p: Pair): Step {
    if p.previous == -1 then Step(Sentinel, Reply(ApiErrorNoPrev, StatusConflict))
    else if p.previous == 0 && p.current == 1 then Step(Sentinel, Reply(0, StatusOK))
    else Step(Pair(Wrap(p.current - p.previous), p.previous), Reply(p.previous, StatusOK))
  }

  /** Reading the current term, as `handle_current` does it. */
  function StepCurrent(p: Pair): Step {
    Step(p, Reply(p.current, StatusOK))
  }

  /** Stepping forwards, as `handle_next` does it; overflow is the sign of the wrapped sum. */
  function StepNext(p: Pair): Step {
    if p.previous == -1 then Step(Pair(0, 1), Reply(1, StatusOK))
    else
      var next := Wrap(p.previous + p.current);
      if next < 0 then Step(p, Reply(ApiErrorOverflow, StatusInsufficientStorage))
      else Step(Pair(p.current, next), Reply(next, StatusOK))
  }

  /** The `switch op` of `cli_handle_request`. It has no default case, so an unknown op code
      leaves the pair alone and the reply at Go's zero values. */
  function Dispatch(op: int, p: Pair): (s: Step)
    ensures op != GetPrevious && op != GetNext ==> s.pair == p
    ensures op == GetCurrent ==> s.reply == Reply(p.current, StatusOK)
    ensures op != GetPrevious && op != GetCurrent && op != GetNext ==> s.reply == Reply(0, 0)
  {
    if op == GetPrevious then StepPrevious(p)
    else if op == GetCurrent then StepCurrent(p)
    else if op == GetNext then StepNext(p)
    else Step(p, Reply(0, 0))
  }

  /** No operation turns a pair other than (0,0) into (0,0), so nothing the engine writes is
      mistaken for an uninitialised file when it is read back. */
  lemma DispatchAvoidsZeroPair(op: int, p: Pair)
    requires p != ZeroPair
    ensures Dispatch(op, p).pair != ZeroPair
  {
    if op == GetPrevious && p.previous != -1 && !(p.previous == 0 && p.current == 1) {
      if p.previous == 0 {
        assert Wrap(p.current - p.previous) == p.current;
      }
    }
  }

  /** Every reply is either a success carrying a non-negative number or exactly one of the
      two error codes with its status; the error codes are never successful results. */
  lemma RepliesAreClassified(op: int, p: Pair)
    requires 0 <= p.current && (p.previous == -1 || 0 <= p.previous)
    requires op == GetPrevious || op == GetCurrent || op == GetNext
    ensures var r := Dispatch(op, p).reply;
      (r.status == StatusOK && 0 <= r.result) ||
      (r.status == StatusConflict && r.result == ApiErrorNoPrev) ||
      (r.status == StatusInsufficientStorage && r.result == ApiErrorOverflow)
  {
  }

  /** A one-call overflow leaves the pair as it was, so the next call overflows again. */
  lemma OverflowRepeats(p: Pair)
    requires StepNext(p).reply.status == StatusInsufficientStorage
    ensures StepNext(p).pair == p
    ensures StepNext(StepNext(p).pair) == StepNext(p)
  {
  }

  /** Reading the current term is idempotent: it changes nothing, so a second read sees the
      same pair and reports the same value. */
  lemma CurrentIdempotent(p: Pair)
    ensures StepCurrent(p).pair == p
    ensures StepCurrent(StepCurrent(p).pair) == StepCurrent(p)
  {
  }

  /** The pair of int64s that `cli_handle_request` passes by pointer to the handlers. */
  class Position {
    var Previous: Int64
    var Current: Int64

    constructor (previous: Int64, current: Int64)
      ensures Previous == previous && Current == current
    {
      Previous := previous;
      Current := current;
    }

    function Get(): Pair
      reads this
    {
      Pair(Previous, Current)
    }

    /** `handle_previous`. */
    method HandlePrevious() returns (result: Int64, status: int)
      modifies this
      ensures old(Previous) == -1 ==>
        result == ApiErrorNoPrev && status == StatusConflict && Get() == Sentinel
      ensures old(Previous) == 0 && old(Current) == 1 ==>
        result == 0 && status == StatusOK && Get() == Sentinel
      ensures old(Previous) != -1 && !(old(Previous) == 0 && old(Current) == 1) ==>
        result == old(Previous) && status == StatusOK &&
        Previous == Wrap(old(Current) - old(Previous)) && Current == old(Previous)
      ensures Step(Get(), Reply(result, status)) == StepPrevious(old(Get()))
    {
      if Previous == -1 {
        result := ApiErrorNoPrev;
        status := StatusConflict;
        Previous := -1;
        Current := 0;
      } else if Previous == 0 && Current == 1 {
        result := 0;
        status := StatusOK;
        Previous := -1;
        Current := 0;
      } else {
        result := Previous;
        status := StatusOK;
        var next := Wrap(Current - Previous);
        Current := Previous;
        Previous := next;
      }
    }

    /** `handle_current`: the only step that only reads. */
    method HandleCurrent() returns (result: Int64, status: int)
      ensures result == Current && status == StatusOK
      ensures Step(Get(), Reply(result, status)) == StepCurrent(Get())
    {
      result := Current;
      status := StatusOK;
    }

    /** `handle_next`. */
    method HandleNext() returns (result: Int64, status: int)
      modifies this
      ensures old(Previous) == -1 ==>
        result == 1 && status == StatusOK && Get() == Pair(0, 1)
      ensures old(Previous) != -1 && Wrap(old(Previous) + old(Current)) < 0 ==>
        result == ApiErrorOverflow && status == StatusInsufficientStorage &&
        Get() == old(Get())
      ensures old(Previous) != -1 && Wrap(old(Previous) + old(Current)) >= 0 ==>
        result == Wrap(old(Previous) + old(Current)) && status == StatusOK &&
        Get() == Pair(old(Current), result)
      ensures Step(Get(), Reply(result, status)) == StepNext(old(Get()))
    {
      if Previous == -1 {
        Previous := 0;
        Current := 1;
        result := 1;
        status := StatusOK;
      } else {
        var next := Wrap(Previous + Current);
        if next < 0 {
          result := ApiErrorOverflow;
          status := StatusInsufficientStorage;
        } else {
          result := next;
          status := StatusOK;
          Previous, Current := Current, next;
        }
      }
    }
  }
}
