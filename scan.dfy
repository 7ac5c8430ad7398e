/**
 * The loop shape the harvesters share: walk a list in order inside one `try`, and for each
 * element either skip it, append one result, or raise. A raise ends the walk; what was appended
 * before it is still there (the caller decides whether to keep or drop it).
 */
module Scan {

  datatype Step<R> = Skip | Keep(item: R) | Raise

  /** Results appended so far, and whether the walk was ended by a raise. */
  datatype Pass<R> = Pass(out: seq<R>, raised: bool)

  /** The walk over the first `n` elements. */
  function Run<T, R>(items: seq<T>, step: T -> Step<R>, n: nat): Pass<R>
    requires n <= |items|
  {
    if n == 0 then Pass([], false)
    else
      var p := Run(items, step, n - 1);
      if p.raised then p
      else match step(items[n - 1])
        case Skip => p
        case Keep(r) => Pass(p.out + [r], false)
        case Raise => Pass(p.out, true)
  }

  /** The walk over the whole list. */
  function Over<T, R>(items: seq<T>, step: T -> Step<R>): Pass<R>
  {
    Run(items, step, |items|)
  }

  /** Every appended result was produced by the step on some element walked. */
  lemma {:induction false} RunProvenance<T, R>(items: seq<T>, step: T -> Step<R>, n: nat, r: R)
    requires n <= |items|
    requires r in Run(items, step, n).out
    ensures exists k :: 0 <= k < n && step(items[k]) == Keep(r)
  {
    var p := Run(items, step, n - 1);
    if r in p.out {
      RunProvenance(items, step, n - 1, r);
    } else {
      assert step(items[n - 1]) == Keep(r);
    }
  }

  /** The walk is ended by a raise exactly when some walked element raises. */
  lemma {:induction false} RunRaisedIff<T, R>(items: seq<T>, step: T -> Step<R>, n: nat)
    requires n <= |items|
    ensures Run(items, step, n).raised <==> exists k :: 0 <= k < n && step(items[k]) == Raise
  {
    if n > 0 {
      RunRaisedIff(items, step, n - 1);
    }
  }

  /** Without a raise, every element whose step keeps a result contributes it. */
  lemma {:induction false} RunCompleteness<T, R>(items: seq<T>, step: T -> Step<R>, n: nat, k: nat)
    requires k < n <= |items|
    requires !Run(items, step, n).raised
    requires step(items[k]).Keep?
    ensures step(items[k]).item in Run(items, step, n).out
  {
    var p := Run(items, step, n - 1);
    assert !p.raised;
    if k < n - 1 {
      RunCompleteness(items, step, n - 1, k);
    }
  }

  /** After the first raise nothing more is appended and the walk stays ended. */
  lemma {:induction false} RunStopsAtRaise<T, R>(items: seq<T>, step: T -> Step<R>, m: nat, n: nat)
    requires m < n <= |items|
    requires step(items[m]) == Raise
    requires forall k :: 0 <= k < m ==> step(items[k]) != Raise
    ensures Run(items, step, n) == Pass(Run(items, step, m).out, true)
  {
    if n - 1 > m {
      RunStopsAtRaise(items, step, m, n - 1);
    } else {
      RunRaisedIff(items, step, m);
    }
  }

  /** The output only grows as the walk goes on. */
  lemma {:induction false} RunGrows<T, R>(items: seq<T>, step: T -> Step<R>, m: nat, n: nat)
    requires m <= n <= |items|
    ensures Run(items, step, m).out <= Run(items, step, n).out
  {
    if m < n {
      RunGrows(items, step, m, n - 1);
    }
  }

  /** An element that keeps a result, with no raise before it, contributes it whatever comes later. */
  lemma RunKeptBeforeRaise<T, R>(items: seq<T>, step: T -> Step<R>, k: nat)
    requires k < |items| && step(items[k]).Keep?
    requires forall m :: 0 <= m < k ==> step(items[m]) != Raise
    ensures step(items[k]).item in Over(items, step).out
  {
    var r := step(items[k]).item;
    RunRaisedIff(items, step, k);
    RunKeep(items, step, k, r);
    RunGrows(items, step, k + 1, |items|);
    var before := Run(items, step, k + 1).out;
    assert before[|before| - 1] == r;
    assert Over(items, step).out[|before| - 1] == r;
  }

  /** A raise at the first not-yet-raised position ends the whole walk there. */
  lemma RaiseEndsWalk<T, R>(items: seq<T>, step: T -> Step<R>, m: nat)
    requires m < |items| && step(items[m]) == Raise && !Run(items, step, m).raised
    ensures Over(items, step) == Pass(Run(items, step, m).out, true)
  {
    RunRaisedIff(items, step, m);
    RunStopsAtRaise(items, step, m, |items|);
  }

  /** One more element that is skipped. */
  lemma RunSkip<T, R>(items: seq<T>, step: T -> Step<R>, n: nat)
    requires n < |items| && !Run(items, step, n).raised && step(items[n]) == Skip
    ensures Run(items, step, n + 1) == Run(items, step, n)
  {
  }

  /** One more element that appends its result. */
  lemma RunKeep<T, R>(items: seq<T>, step: T -> Step<R>, n: nat, r: R)
    requires n < |items| && !Run(items, step, n).raised && step(items[n]) == Keep(r)
    ensures Run(items, step, n + 1) == Pass(Run(items, step, n).out + [r], false)
  {
  }
}
