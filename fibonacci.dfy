/** What the engine does on the positions it reaches from the start: consecutive Fibonacci
    terms, stepped through forwards and backwards. */
module Fibonacci {
  import opened GoInt64
  import opened Engine

  function Fib(n: nat): nat {
    if n < 2 then n else Fib(n - 2) + Fib(n - 1)
  }

  lemma {:induction false} FibMonotone(i: nat, j: nat)
    requires i <= j
    ensures Fib(i) <= Fib(j)
  {
    if i < j {
      FibMonotone(i, j - 1);
      if j >= 2 {
        assert Fib(j) == Fib(j - 2) + Fib(j - 1);
      }
    }
  }

  /** The position after the k-th term: (Fib(k-1), Fib(k)). */
  function FibPair(k: nat): (p: Pair)
    requires 1 <= k && Fib(k) <= MaxInt64
    ensures 0 <= p.previous <= p.current
  {
    FibMonotone(k - 1, k);
    Pair(Fib(k - 1), Fib(k))
  }

  /** Apply the operations `ops` one after another, starting from `p`. */
  function Run(p: Pair, ops: seq<int>): Pair
    decreases |ops|
  {
    if ops == [] then p else Dispatch(ops[|ops| - 1], Run(p, ops[..|ops| - 1])).pair
  }

  /** `k` requests for the next term. */
  function Nexts(k: nat): (ops: seq<int>)
    ensures |ops| == k && forall i :: 0 <= i < k ==> ops[i] == GetNext
  {
    seq(k, _ => GetNext)
  }

  /** The first "next" from the start yields the first term and the canonical pair (0,1). */
  lemma NextFromSentinel()
    ensures Fib(1) == 1
    ensures StepNext(Sentinel) == Step(FibPair(1), Reply(1, StatusOK))
  {
  }

  /** On (Fib(k-1), Fib(k)), "next" yields Fib(k+1) when it fits in an int64, and otherwise
      detects the overflow and keeps the position. */
  lemma NextOnTerms(k: nat)
    requires 1 <= k && Fib(k) <= MaxInt64
    ensures Fib(k + 1) <= MaxInt64 ==>
      StepNext(FibPair(k)) == Step(FibPair(k + 1), Reply(Fib(k + 1), StatusOK))
    ensures Fib(k + 1) > MaxInt64 ==>
      StepNext(FibPair(k)) == Step(FibPair(k), Reply(ApiErrorOverflow, StatusInsufficientStorage))
  {
    var p := FibPair(k);
    assert Fib(k + 1) == p.previous + p.current;
    OverflowIsSignFlip(p.previous, p.current);
  }

  /** On (Fib(k-1), Fib(k)), "previous" reports Fib(k-1) and steps back one term; at (0,1)
      it reports 0 and returns to the start. */
  lemma PreviousOnTerms(k: nat)
    requires 1 <= k && Fib(k) <= MaxInt64
    ensures k == 1 ==> StepPrevious(FibPair(k)) == Step(Sentinel, Reply(Fib(k - 1), StatusOK))
    ensures k >= 2 ==> StepPrevious(FibPair(k)) == Step(FibPair(k - 1), Reply(Fib(k - 1), StatusOK))
  {
    if k >= 2 {
      FibMonotone(k - 1, k);
      assert Fib(k) == Fib(k - 2) + Fib(k - 1);
      assert Fib(k - 1) > 0 by { FibMonotone(1, k - 1); }
    }
  }

  /** From the start, k successful "next" requests leave the k-th term current and the
      (k-1)-th term previous. */
  lemma {:induction false} NextsFromSentinel(k: nat)
    requires 1 <= k && Fib(k) <= MaxInt64
    ensures Run(Sentinel, Nexts(k)) == FibPair(k)
  {
    assert Nexts(k)[..k - 1] == Nexts(k - 1);
    if k == 1 {
      NextFromSentinel();
    } else {
      FibMonotone(k - 1, k);
      NextsFromSentinel(k - 1);
      NextOnTerms(k - 1);
    }
  }

  /** Once the next term no longer fits, every further "next" reports overflow and leaves the
      position where it is: no partial progress. */
  lemma {:induction false} OverflowIsSticky(k: nat, m: nat)
    requires 1 <= k && Fib(k) <= MaxInt64 < Fib(k + 1)
    ensures Run(FibPair(k), Nexts(m)) == FibPair(k)
  {
    if m > 0 {
      assert Nexts(m)[..m - 1] == Nexts(m - 1);
      OverflowIsSticky(k, m - 1);
      NextOnTerms(k);
    }
  }

  /** On a reachable position, stepping back and then forward restores it. */
  lemma PreviousThenNext(k: nat)
    requires 1 <= k && Fib(k) <= MaxInt64
    ensures StepNext(StepPrevious(FibPair(k)).pair) == Step(FibPair(k), Reply(Fib(k), StatusOK))
  {
    PreviousOnTerms(k);
    if k == 1 {
      NextFromSentinel();
    } else {
      FibMonotone(k - 1, k);
      NextOnTerms(k - 1);
    }
  }

  /** On a reachable position whose next term fits, stepping forward and then back restores
      it, and the backward step reports the term that was current. */
  lemma NextThenPrevious(k: nat)
    requires 1 <= k && Fib(k + 1) <= MaxInt64
    ensures StepPrevious(StepNext(FibPair(k)).pair) == Step(FibPair(k), Reply(Fib(k), StatusOK))
  {
    FibMonotone(k, k + 1);
    NextOnTerms(k);
    PreviousOnTerms(k + 1);
  }

  /** Composing runs: running `a` then `b` is running `a + b`. */
  lemma {:induction false} RunAppend(p: Pair, a: seq<int>, b: seq<int>)
    ensures Run(p, a + b) == Run(Run(p, a), b)
    decreases |b|
  {
    if b == [] {
      assert a + b == a;
    } else {
      assert (a + b)[..|a + b| - 1] == a + b[..|b| - 1];
      RunAppend(p, a, b[..|b| - 1]);
    }
  }

  /** The arithmetic of the induction step of FibAdd: if p = a*y + b*x and q = a*z + b*y,
      then r = p + q is a*u + b*w for u = y + z and w = x + y. */
  lemma SumOfLaws(a: int, b: int, x: int, y: int, z: int, u: int, w: int, p: int, q: int, r: int)
    requires q == a * z + b * y && p == a * y + b * x && r == p + q
    requires u == y + z && w == x + y
    ensures r == a * u + b * w
  {
  }

  /** The induction step of FibAdd: the laws for n-2 and n-1 give the law for n. */
  lemma FibAddStep(m: nat, n: nat)
    requires n >= 2
    requires Fib(m + n - 1) == Fib(m + 1) * Fib(n - 1) + Fib(m) * Fib(n - 2)
    requires Fib(m + n) == Fib(m + 1) * Fib(n) + Fib(m) * Fib(n - 1)
    ensures Fib(m + n + 1) == Fib(m + 1) * Fib(n + 1) + Fib(m) * Fib(n)
  {
    assert Fib(m + n + 1) == Fib(m + n - 1) + Fib(m + n);
    assert Fib(n + 1) == Fib(n - 1) + Fib(n) && Fib(n) == Fib(n - 2) + Fib(n - 1);
    SumOfLaws(Fib(m + 1), Fib(m), Fib(n - 2), Fib(n - 1), Fib(n), Fib(n + 1), Fib(n),
              Fib(m + n - 1), Fib(m + n), Fib(m + n + 1));
  }

  /** The addition law for n = 0 and n = 1. */
  lemma FibAddBase(m: nat, n: nat)
    requires n < 2
    ensures Fib(m + n + 1) == Fib(m + 1) * Fib(n + 1) + Fib(m) * Fib(n)
  {
    assert Fib(0) == 0 && Fib(1) == 1 && Fib(2) == 1;
    assert Fib(m + 2) == Fib(m) + Fib(m + 1);
  }

  /** The addition law of the Fibonacci numbers. */
  lemma {:induction false} FibAdd(m: nat, n: nat)
    ensures Fib(m + n + 1) == Fib(m + 1) * Fib(n + 1) + Fib(m) * Fib(n)
  {
    if n < 2 {
      FibAddBase(m, n);
    } else {
      FibAdd(m, n - 1);
      FibAdd(m, n - 2);
      FibAddStep(m, n);
    }
  }

  /** Fib(2n) and Fib(2n+1) from Fib(n) = a and Fib(n+1) = b. */
  lemma FibDoubling(n: nat, a: nat, b: nat)
    requires 1 <= n && Fib(n) == a && Fib(n + 1) == b
    ensures Fib(2 * n) == b * a + a * (b - a)
    ensures Fib(2 * n + 1) == b * b + a * a
  {
    FibAdd(n, n - 1);
    FibAdd(n, n);
    assert Fib(n - 1) == b - a;
  }

  /** Fib(92) is the largest Fibonacci number an int64 holds. */
  lemma LastTerm()
    ensures Fib(92) == 7540113804746346429 <= MaxInt64
    ensures Fib(93) == 12200160415121876738 > MaxInt64
  {
    assert Fib(11) == 89 && Fib(12) == 144;
    FibDoubling(11, 89, 144);
    FibDoubling(23, 28657, 17711 + 28657);
    FibDoubling(46, 1836311903, 1134903170 + 1836311903);
  }

  /** From the start, the first 92 "next" requests walk up to Fib(92); every request after
      that reports overflow and leaves the position at (Fib(91), Fib(92)). */
  lemma Capacity(m: nat)
    ensures Run(Sentinel, Nexts(92)) == Pair(4660046610375530309, 7540113804746346429)
    ensures Run(Sentinel, Nexts(92 + m)) == Run(Sentinel, Nexts(92))
    ensures StepNext(Run(Sentinel, Nexts(92))).reply == Reply(ApiErrorOverflow, StatusInsufficientStorage)
  {
    LastTerm();
    assert Fib(91) == Fib(93) - Fib(92);
    NextsFromSentinel(92);
    assert Nexts(92 + m) == Nexts(92) + Nexts(m);
    RunAppend(Sentinel, Nexts(92), Nexts(m));
    OverflowIsSticky(92, m);
    NextOnTerms(92);
  }
}
