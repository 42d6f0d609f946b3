/**
 * The timer page: `startTimer`, the callback of the interval it creates, and
 * `resetTimer`. The module-level `isRunning` and `timeLeft`, the display text
 * and the fragments on the page are fields of one `Page` object. Every call of
 * `startTimer` that passes its guard creates a new interval whose closure owns
 * its own `countdown`; the page keeps every interval created so far, and one
 * firing of interval `k` is the call `Tick(k)`.
 */
module Countdown {
  import opened Wrappers
  import opened Numbers
  import Grid
  import Stagger

  /** The duration used when the input does not parse or parses to zero. */
  const DefaultSeconds: int := 30

  /** `parseInt(timeInput.value) || 30`: NaN and zero are falsy, every other number is kept. */
  function Requested(parsed: Option<int>): (seconds: int)
    ensures seconds != 0
    ensures parsed.Some? && parsed.value != 0 ==> seconds == parsed.value
    ensures parsed.None? || parsed.value == 0 ==> seconds == DefaultSeconds
  {
    match parsed
    case Some(n) => if n != 0 then n else DefaultSeconds
    case None => DefaultSeconds
  }

  /** The duration read from the input field's text. */
  function RequestedFrom(input: string): (seconds: int) {
    Requested(ParseInt(input))
  }

  /** The display text `n + "s"`. */
  function ShowSeconds(n: int): (text: string) {
    NumberToText(n) + "s"
  }

  /** The display text always reads back as the number it shows. */
  lemma ShowSecondsReadsBack(n: int)
    ensures ParseInt(ShowSeconds(n)) == Some(n)
  {
    ParseNumberText(n, "s");
  }

  /** An input with no digit at all gives the default duration. */
  lemma NoDigitGivesDefault(input: string)
    requires forall i :: 0 <= i < |input| ==> !IsDecimalDigit(input[i])
    ensures RequestedFrom(input) == DefaultSeconds
  {
  }

  /** One interval: the closure's `countdown`, and whether the interval is still set. */
  datatype Interval = Interval(countdown: int, live: bool)

  /**
   * One firing of the interval callback: at or below zero it clears itself,
   * otherwise it counts down by one. A cleared interval does not fire again.
   */
  function Fire(iv: Interval): (next: Interval) {
    if !iv.live then iv
    else if iv.countdown <= 0 then iv.(live := false)
    else iv.(countdown := iv.countdown - 1)
  }

  /** The interval after `n` firings. */
  function FireTimes(iv: Interval, n: nat): (last: Interval)
    decreases n
  {
    if n == 0 then iv else FireTimes(Fire(iv), n - 1)
  }

  /**
   * An interval started at k >= 0 is still set after j <= k firings, showing
   * k - j, and is cleared by firing k + 1, having stopped at 0: it fires exactly
   * k + 1 times and its countdown never goes below zero.
   */
  lemma {:induction false} CountdownFromNonNegative(k: int, j: nat)
    requires k >= 0
    ensures FireTimes(Interval(k, true), j) ==
      if j <= k then Interval(k - j, true) else Interval(0, false)
    decreases j
  {
    if j > 0 {
      if k > 0 {
        CountdownFromNonNegative(k - 1, j - 1);
      } else {
        ClearedStaysCleared(Interval(0, false), j - 1);
      }
    }
  }

  /** An interval started at a negative count clears itself on its first firing, unchanged. */
  lemma CountdownFromNegative(k: int, j: nat)
    requires k < 0 && j > 0
    ensures FireTimes(Interval(k, true), j) == Interval(k, false)
  {
    ClearedStaysCleared(Interval(k, false), j - 1);
  }

  lemma {:induction false} ClearedStaysCleared(iv: Interval, j: nat)
    requires !iv.live
    ensures FireTimes(iv, j) == iv
    decreases j
  {
    if j > 0 {
      ClearedStaysCleared(iv, j - 1);
    }
  }

  class Page {
    var isRunning: bool
    var timeLeft: int
    var display: string
    var intervals: seq<Interval>
    var fragments: seq<Grid.Cell>

    /**
     * The page invariant: a running timer always has its own interval, the most
     * recently created one, still set; the fragments
     * are the circular layout.
     */
    ghost predicate Valid()
      reads this
    {
      && (isRunning ==> intervals != [] && intervals[|intervals| - 1].live)
      && fragments == Grid.Layout()
    }

    /** Page load: the initial `timeLeft` of 30 and the first `createFragments`. */
    constructor (initialText: string)
      ensures Valid()
      ensures !isRunning && timeLeft == DefaultSeconds && display == initialText
      ensures intervals == [] && fragments == Grid.Layout()
    {
      var cells := Grid.CreateFragments();
      isRunning := false;
      timeLeft := DefaultSeconds;
      display := initialText;
      intervals := [];
      fragments := cells;
    }

    /**
     * `startTimer`: ignored while running; otherwise reads the duration, shows it,
     * sets a new interval counting down from it, and returns the stagger delays
     * of `animateFragments`, one per fragment.
     */
    method Start(input: string) returns (delays: seq<real>)
      requires Valid()
      modifies this
      ensures Valid()
      ensures old(isRunning) ==> unchanged(this) && delays == []
      ensures !old(isRunning) ==>
        && isRunning
        && timeLeft == RequestedFrom(input)
        && display == ShowSeconds(timeLeft)
        && intervals == old(intervals) + [Interval(timeLeft, true)]
        && fragments == old(fragments)
        && |delays| == |fragments|
        && (forall i :: 0 <= i < |delays| ==> delays[i] == Stagger.Delay(timeLeft, i, |fragments|))
    {
      if isRunning {
        return [];
      }
      isRunning := true;
      timeLeft := RequestedFrom(input);
      var countdown := timeLeft;
      display := ShowSeconds(countdown);
      intervals := intervals + [Interval(countdown, true)];
      delays := Stagger.Schedule(timeLeft, |fragments|);
    }

    /**
     * One firing of interval `k`: at or below zero it clears itself and marks the
     * page as not running; otherwise it counts down and shows the new count.
     */
    method Tick(k: nat)
      requires Valid()
      requires k < |intervals|
      modifies this
      ensures Valid()
      ensures intervals == old(intervals)[k := Fire(old(intervals[k]))]
      ensures timeLeft == old(timeLeft) && fragments == old(fragments)
      ensures old(intervals[k]).live && old(intervals[k]).countdown <= 0 ==>
        !isRunning && display == old(display)
      ensures old(intervals[k]).live && old(intervals[k]).countdown > 0 ==>
        isRunning == old(isRunning) && display == ShowSeconds(intervals[k].countdown)
      ensures !old(intervals[k]).live ==> unchanged(this)
    {
      var iv := intervals[k];
      if !iv.live {
        return;
      }
      if iv.countdown <= 0 {
        intervals := intervals[k := Interval(iv.countdown, false)];
        isRunning := false;
      } else {
        var countdown := iv.countdown - 1;
        intervals := intervals[k := Interval(countdown, true)];
        display := ShowSeconds(countdown);
      }
    }

    /**
     * `resetTimer`: marks the page as not running, re-reads the duration, shows
     * it and rebuilds the fragments. The intervals already set are left alone.
     */
    method Reset(input: string)
      requires Valid()
      modifies this
      ensures Valid()
      ensures !isRunning
      ensures timeLeft == RequestedFrom(input)
      ensures display == ShowSeconds(timeLeft)
      ensures intervals == old(intervals)
      ensures fragments == Grid.Layout()
    {
      isRunning := false;
      timeLeft := RequestedFrom(input);
      display := ShowSeconds(timeLeft);
      fragments := Grid.CreateFragments();
    }
  }

  /**
   * On a running page the newest interval is still set, so firing it alone
   * stops the page: from a countdown c >= 0 it takes exactly c + 1 firings, and
   * the interval ends cleared at 0.
   */
  method FireNewestUntilStopped(page: Page) returns (firings: nat)
    requires page.Valid() && page.isRunning
    requires page.intervals[|page.intervals| - 1].countdown >= 0
    modifies page
    ensures page.Valid() && !page.isRunning
    ensures |page.intervals| == |old(page.intervals)|
    ensures firings == old(page.intervals[|page.intervals| - 1].countdown) + 1
    ensures page.intervals[|page.intervals| - 1] == Interval(0, false)
  {
    var k := |page.intervals| - 1;
    ghost var c := page.intervals[k].countdown;
    firings := 0;
    while page.isRunning
      invariant page.Valid()
      invariant |page.intervals| == k + 1 && firings <= c + 1
      invariant page.isRunning ==> firings <= c && page.intervals[k] == Interval(c - firings, true)
      invariant !page.isRunning ==> page.intervals[k] == Interval(0, false) && firings == c + 1
      decreases c + 1 - firings
    {
      page.Tick(k);
      firings := firings + 1;
    }
  }

  /** Number of intervals still set. */
  function LiveCount(ivs: seq<Interval>): (n: nat) {
    if ivs == [] then 0
    else LiveCount(ivs[..|ivs| - 1]) + (if ivs[|ivs| - 1].live then 1 else 0)
  }

  /**
   * Start, reset and start again on a fresh page: the first interval was never
   * cleared, so two intervals count down side by side.
   */
  method RestartAfterReset(initialText: string, input: string) returns (live: nat)
    ensures live == 2
  {
    var page := new Page(initialText);
    var _ := page.Start(input);
    page.Reset(input);
    var _ := page.Start(input);
    var first := Interval(RequestedFrom(input), true);
    assert page.intervals == [first, first];
    assert [first, first][..1] == [first] && [first][..0] == [];
    assert LiveCount([first]) == 1;
    live := LiveCount(page.intervals);
  }
}
