# Tomato countdown timer — a Dafny model of `script.js`

`script.js` drives a page with a "tomato" made of small fragments and a
countdown in seconds. Apart from the DOM wiring it holds three pieces of
sequential logic, each one Dafny module here, plus the number/text conversions
they use:

- **Numbers** (`numbers.dfy`): JavaScript's `parseInt(string)` without a radix.
  It skips leading whitespace, takes one optional sign, reads a `0x`/`0X`
  prefix as radix 16 and takes the longest run of digits. When there is no
  digit it gives NaN, which is `None` here. It also holds `String(n)` for an
  integer `n`. One round-trip lemma ties the two together.
- **Countdown** (`countdown.dfy`): `startTimer`, the callback of the interval it
  sets, and `resetTimer`, as the class `Page`. Its fields are `isRunning`,
  `timeLeft`, the display text, the fragments on the page and every interval
  set so far. Each interval is the closure's own `countdown` plus whether it is
  still set. Each call of `startTimer` that passes its guard creates a new
  closure, and `resetTimer` never clears one, so the page keeps a sequence of
  intervals. `Tick(k)` is one firing of interval `k`. The duration rule
  `parseInt(timeInput.value) || 30` is `Requested`.
- **Grid** (`grid.dfy`): the nested row/col loops of `createFragments` and the
  distance test that decides which of the 6 x 6 cells become fragments.
- **Stagger** (`stagger.dfy`): the start delay `index * (timeLeft * 10 / n)` ms
  that `animateFragments` gives each fragment.
- **Wrappers** (`wrappers.dfy`): the `Option` datatype.

The interval's 1000 ms period, the `setTimeout` calls and the clicks are not
modelled as time. A firing is the call `Tick(k)`. A start is `Start(input)`,
where `input` is the text of the duration field, and `Start` returns the
delays it would hand to `setTimeout`. A reset is `Reset(input)`.

The distance test `sqrt(x² + y²) < radius * fragmentSize`, with
`x = 1.25 * col` and `y = 1.25 * row`, is modelled without the square root.
Both sides are non-negative, so the model compares squares. The factor
1.25² cancels, which leaves `col² + row² < 16`. These values are exact in
binary floating point too, and the largest kept value, 13 · 1.5625, is far
from the bound 25, so the floating-point test gives the same answer.

## Model

| member | source | states |
|---|---|---|
| `Countdown.RequestedFrom` | script.js:102 | definition: the duration read from the input text: `parseInt(timeInput.value)`, or 30 when that is NaN or 0; the same rule `resetTimer` uses at line 122 |
| `Countdown.ShowSeconds` | script.js:104 | definition: the display text `n + "s"`, as written at lines 104, 112 and 123 |
| `Countdown.Fire` | script.js:107-113 | definition: one firing of the interval callback; at or below zero it clears the interval, otherwise it counts down by one; a cleared interval never fires again (line 108) |
| `Countdown.FireTimes` | script.js:106-114 | definition: the interval after n successive firings |
| `Numbers.ParseInt` | script.js:102 | definition: parseInt without a radix: skip whitespace, one sign, `0x` switches to radix 16, longest digit run, NaN when there is none |
| `Numbers.NumberToText` | script.js:104 | definition: the decimal text of an integer Number, with `-` for negatives |
| `Grid.Kept` | script.js:29-30 | definition: the distance test as the integer test `col² + row² < 16` |
| `Grid.Layout` | script.js:19-30 | definition: the grid cells in row-major loop order, filtered by the distance test |
| `Stagger.Delay` | script.js:85 | definition: `index * (timeLeft * 10 / count)` milliseconds, as an exact real |
| `Countdown.Requested` | script.js:102 | the duration is the parsed integer, except that NaN or zero becomes 30; the result is never zero |
| `Countdown.NoDigitGivesDefault` | script.js:102 | an input text with no decimal digit at all yields the default 30 seconds |
| `Countdown.ShowSecondsReadsBack` | script.js:104 | the display text `n + "s"` read back with parseInt gives `n` again, for every integer `n` |
| `Numbers.ParseNumberText` | script.js:102-104 | parseInt applied to `String(n)` followed by any text that cannot extend the number gives `n` again (radix 10, and no `0x` switch) |
| `Numbers.SkipsLeadingSpace` | script.js:102 | leading JavaScript whitespace does not change what parseInt returns for the duration field |
| `Countdown.Page.constructor` | script.js:9-10 | after page load the timer is not running, `timeLeft` is 30, no interval exists and the fragments are the circular layout (the first `createFragments`, line 132) |
| `Countdown.Page.Start` | script.js:98-117 | while running, a start changes nothing and schedules nothing. Otherwise it sets the running flag and reads `timeLeft` by the default-30 rule. It shows `timeLeft + "s"` and appends a new live interval whose countdown starts at `timeLeft`. It returns one stagger delay per fragment. The page invariant is kept: a running page's newest interval is live |
| `Countdown.Page.Tick` | script.js:106-114 | a live interval at or below zero is cleared and the page stops running, with the display unchanged. A live interval above zero counts down by one, shows the new count and leaves the running flag as it was. A cleared interval does nothing. Only interval `k` changes |
| `Countdown.Page.Reset` | script.js:120-125 | the page stops running and re-reads `timeLeft` by the same rule as start. It shows `timeLeft + "s"` and rebuilds the fragments. Every interval, live ones included, is left as it was |
| `Countdown.CountdownFromNonNegative` | script.js:106-114 | an interval started at k >= 0 is still live after j <= k firings and has countdown k - j. From firing k + 1 on it is cleared at 0. So it fires exactly k + 1 times and never goes negative |
| `Countdown.CountdownFromNegative` | script.js:106-109 | an interval started below zero is cleared by its first firing, with its countdown unchanged |
| `Countdown.ClearedStaysCleared` | script.js:108 | a cleared interval never changes again, however often it is asked to fire |
| `Countdown.FireNewestUntilStopped` | script.js:99-114 | on a running page the newest interval is still set; firing it alone from countdown c >= 0 stops the page after exactly c + 1 firings, leaving it cleared at 0 |
| `Countdown.RestartAfterReset` | script.js:98-125 | start, reset, start on a fresh page leaves two live intervals counting side by side, because reset does not clear the first |
| `Grid.KeptIsDistanceTest` | script.js:25-30 | the integer test `col² + row² < 16` holds exactly when the squared distance `(1.25·col)² + (1.25·row)²` is below `(4·1.25)²` |
| `Grid.KeptExactlyOffCorner` | script.js:19-30 | a cell of the grid passes the test exactly when it is not the corner (-3, -3) |
| `Grid.CreateFragments` | script.js:19-30 | the nested loops produce exactly the kept cells of the row-major grid, in loop order |
| `Grid.KeptOfMembership` | script.js:29-30 | filtering a sequence of cells by the distance test keeps a cell if and only if it occurs in the sequence and passes the test |
| `Grid.LayoutIsGridWithoutCorner` | script.js:19-30 | the layout is the grid in loop order without its first cell, so exactly 35 fragments |
| `Grid.LayoutMembership` | script.js:19-30 | a cell is a fragment if and only if it is in the grid rows/cols -3..2 and passes the distance test |
| `Grid.LayoutInLoopOrder` | script.js:19-20 | the fragments are strictly increasing in row-major order, so none is created twice |
| `Stagger.DelayTimesCount` | script.js:85 | cleared of the division, delay times fragment count is index times timeLeft times 10 |
| `Stagger.FirstDelayIsZero` | script.js:85 | the first fragment starts without delay |
| `Stagger.DelayMonotone` | script.js:82-85 | for timeLeft >= 0 the delays are non-negative and never decrease along the fragment order |
| `Stagger.DelayIncreasing` | script.js:82-85 | for timeLeft > 0 a later fragment gets a strictly larger delay |
| `Stagger.DelayWithinSpan` | script.js:85 | for timeLeft > 0 every fragment starts before timeLeft * 10 ms |
| `Stagger.Schedule` | script.js:82-86 | the loop over the fragments yields one delay per fragment, each equal to the formula. They are non-decreasing for timeLeft >= 0, and strictly increasing and below timeLeft * 10 ms for timeLeft > 0 |

## Behaviour worth noting

- There is no pause and no wall clock: a count goes down by one per firing of its interval.
- An input that parses to NaN or 0 becomes 30 seconds. A negative duration is accepted, shown, and stops on the interval's first firing (`CountdownFromNegative`).
- The fragment starts are spread evenly over the first `timeLeft * 10` ms.
- `resetTimer` clears no interval, so an interval set before a reset goes on counting and writing the display (`RestartAfterReset`).

## Left out

- DOM lookups, element creation, classes, styles and `appendChild` (script.js:4-7, 14, 21-22, 48-57, 63-65, 70-73, 95, 128-132): I/O plumbing. Clearing `tomatoArea.innerHTML` is modelled only as the `fragments` field being replaced.
- The page's initial display text comes from the HTML page, which is not part of this model. It is a constructor parameter.
- Real time: the 1000 ms interval period, `setTimeout`, `setInterval` and event-loop ordering. Firings and clicks are explicit method calls in any order the caller chooses.
- `Math.random` push offsets, rotations and start positions, and the rem strings (script.js:31-44): randomness and presentation. The model keeps each fragment's grid cell, not its perturbed position.
- The animation strings `timeLeft / 2 + "s"` and `moveToTomato ${timeLeft}s` (script.js:47, 84) and the stem reveal after `timeLeft * 800` ms (script.js:88-91): presentation timing.
- Floating point: the delays are exact reals. parseInt's and `String(n)`'s behaviour beyond 2^53, and the exponent form of `String(n)` for |n| >= 10^21, are not modelled. Numbers are unbounded integers, and -0 is 0 (both are falsy, so `Requested` is unaffected).
- `setTimeout`'s clamping of negative delays to 0 (reached only with a negative `timeLeft`) and its truncation of each delay to whole milliseconds are left to the timer, which is not modelled. `Stagger.Delay` gives the formula's exact value, so fragments whose delays differ by less than a millisecond may in fact start together.
