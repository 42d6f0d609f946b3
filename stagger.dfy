/**
 * The stagger of `animateFragments`: fragment `index` of `count` starts its
 * animation after index * (timeLeft * 10 / count) milliseconds, so the starts
 * are spread evenly over the first timeLeft * 10 milliseconds.
 * Delays are exact reals here.
 */
module Stagger {
  /** The delay in milliseconds of fragment `index` among `count` fragments. */
  function Delay(timeLeft: int, index: nat, count: nat): (ms: real)
    requires index < count
  {
    index as real * (timeLeft as real * 10.0 / count as real)
  }

  /** The delay cleared of the division: delay * count == index * timeLeft * 10. */
  lemma DelayTimesCount(timeLeft: int, index: nat, count: nat)
    requires index < count
    ensures Delay(timeLeft, index, count) * count as real == (index * timeLeft * 10) as real
  {
  }

  /** The first fragment starts at once. */
  lemma FirstDelayIsZero(timeLeft: int, count: nat)
    requires 0 < count
    ensures Delay(timeLeft, 0, count) == 0.0
  {
  }

  /** For a non-negative duration the delays never decrease along the fragment order. */
  lemma DelayMonotone(timeLeft: int, i: nat, j: nat, count: nat)
    requires timeLeft >= 0 && i <= j < count
    ensures 0.0 <= Delay(timeLeft, i, count) <= Delay(timeLeft, j, count)
  {
  }

  /** For a positive duration the delays strictly increase. */
  lemma DelayIncreasing(timeLeft: int, i: nat, j: nat, count: nat)
    requires timeLeft > 0 && i < j < count
    ensures Delay(timeLeft, i, count) < Delay(timeLeft, j, count)
  {
  }

  /** For a positive duration every fragment starts before timeLeft * 10 ms. */
  lemma DelayWithinSpan(timeLeft: int, i: nat, count: nat)
    requires timeLeft > 0 && i < count
    ensures Delay(timeLeft, i, count) < timeLeft as real * 10.0
  {
  }

  /** The forEach over the fragments, computing the delay handed to each setTimeout. */
  method Schedule(timeLeft: int, count: nat) returns (delays: seq<real>)
    ensures |delays| == count
    ensures forall i :: 0 <= i < count ==> delays[i] == Delay(timeLeft, i, count)
    ensures timeLeft >= 0 ==> forall i, j :: 0 <= i <= j < count ==> 0.0 <= delays[i] <= delays[j]
    ensures timeLeft > 0 ==> forall i :: 0 <= i < count ==> delays[i] < timeLeft as real * 10.0
    ensures timeLeft > 0 ==> forall i, j :: 0 <= i < j < count ==> delays[i] < delays[j]
  {
    delays := [];
    var index := 0;
    while index < count
      invariant 0 <= index <= count
      invariant |delays| == index
      invariant forall i :: 0 <= i < index ==> delays[i] == Delay(timeLeft, i, count)
    {
      delays := delays + [Delay(timeLeft, index, count)];
      index := index + 1;
    }
    forall i, j | 0 <= i <= j < count && timeLeft >= 0
      ensures 0.0 <= delays[i] <= delays[j]
    {
      DelayMonotone(timeLeft, i, j, count);
    }
    forall i | 0 <= i < count && timeLeft > 0
      ensures delays[i] < timeLeft as real * 10.0
    {
      DelayWithinSpan(timeLeft, i, count);
    }
    forall i, j | 0 <= i < j < count && timeLeft > 0
      ensures delays[i] < delays[j]
    {
      DelayIncreasing(timeLeft, i, j, count);
    }
  }
}
