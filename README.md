# SlotGame core: a verified Dafny model

This project models the game logic of `slot.js`, a three-reel browser slot machine. The model covers:

- **Symbols.** The weighted symbol picker over the four-entry symbol catalog (banana, strawberry, Russian flag, seven) and the reel strip builder.
- **Outcome generator.** A cascade of cumulative probabilities decides the winning row. The outcome is either a flag triple (15 free spins), a seven, strawberry or banana triple, a banana or strawberry pair, or no special case. The pair cases place the pair with a three-element Fisher–Yates shuffle and a filler symbol. The rest of the 3×3 grid comes from fresh weighted picks.
- **`SlotGame` session.** The session state is balance, bet, free spins and a history of at most 12 entries. It has these operations:
  - `startSpin`: payment or free spin, grid generation, strip rebuild and reel scheduling;
  - the per-frame `_update`: easing, snapping, the stopped flag and the "reel stopped" cue, and wrapping offsets into the strip;
  - `_finishSpin`: evaluates the winning row and credits it;
  - `_pushHistory`;
  - the bet `+`/`-` controls.

`Math.random()` and `Date.now()` are parameters. Each random draw is passed explicitly:

- reals for the pick draws, the case draw `r`, the base duration and the duration jitter. The base duration and the jitter must lie in `[0, 1)`. The pick draws and `r` may be any real: every value in `[0, 1)` is covered, and so are the edges the picker and the cascade handle by falling through;
- naturals for the values the source obtains as `Math.floor(Math.random() * n)`: the shuffle targets, the filler index and the extra turns.

JavaScript's truncating `%` is written out (`JsMath.JsIntRem`, `JsMath.JsFmod`), and so is the double `%` that wraps an offset into a strip (`JsMath.Wrap`).

Modules:

- `Symbols`: the catalog, `weightedPick` and `buildSequence`.
- `Outcome`: `_buildTargetGridWithProbabilities` and its `fillRemaining`.
- `Payout`: the evaluator of `_finishSpin` and the history push.
- `JsMath`: JavaScript arithmetic.
- `Game`: the `SlotGame` class with its reel scheduler.

The bet controls are not blocked while a spin runs, and `_finishSpin` pays on the bet current at settlement. The model keeps this: `Game.SlotGame.IncreaseBet` and `Game.SlotGame.DecreaseBet` have no precondition on `spinning`, and `Game.SlotGame.FinishSpin` credits `Credited(res, bet)` with the bet at that moment.

## Model

| member | source | states |
|---|---|---|
| Symbols.PickIsFirstExceeding | slot.js:65-73 | for a draw with `u * total` in `[0, total)`, the picked symbol is catalog entry `k` if and only if `u * total` lies in `[prefix(k), prefix(k) + weight(k))` |
| Symbols.PickFallback | slot.js:65-73 | a scaled draw at or past the total weight falls through to the last catalog entry |
| Symbols.PrefixWeightIncreasing | slot.js:65-67 | the running weight sums strictly increase, so the intervals of the entries are disjoint and non-empty |
| Symbols.WeightedPick | slot.js:65-73 | the loop that sums the weights, then subtracts weights until the remainder goes negative, returns `Pick(u)` |
| Symbols.BuildSequence | slot.js:75-81 | the strip has `repeats * 4` cells (56 by default) and cell `k` is catalog entry `k mod 4` |
| Outcome.ThresholdIncreasing | slot.js:347-362 | the cumulative probabilities strictly increase |
| Outcome.SelectCaseIsFirst | slot.js:347-368 | case `k` is chosen if and only if `r` is below the `k`-th cumulative sum and at or above every earlier one |
| Outcome.SelectCaseDefault | slot.js:347-371 | no special case if and only if `r` is at or above the sum of all six probabilities |
| Outcome.SelectSpecial | slot.js:347-371 | the unrolled `cumulative += p; if (r < cumulative)` cascade returns `SelectCase(r)` |
| Outcome.FisherYatesPermutes | slot.js:358 | the swap sequence of the shuffle yields a permutation of its input, of the same length |
| Outcome.FisherYates | slot.js:358 | the in-place shuffle of `idx` performs the specified swaps, each swap target `j <= i` |
| Outcome.Shuffled | slot.js:358 | shuffling `[0, 1, 2]` gives three distinct indices below 3 |
| Outcome.PermutationOfThree | slot.js:358-359 | any permutation of `[0, 1, 2]` consists of three distinct indices below 3 |
| Outcome.Others | slot.js:359 | the filter keeps exactly the catalog entries other than the paired symbol (three of them), in catalog order |
| Outcome.PairRow | slot.js:357-359 | the forced row of a pair case is the symbol at the first two shuffled positions and the filler at the third |
| Outcome.FillWinningRow | slot.js:337-340 | each winning-row cell is the forced symbol if there is one, otherwise the next weighted pick in order |
| Outcome.FillRemaining | slot.js:336-345 | all nine cells are filled; the winning row as above, then rows 0 and 1 from consecutive picks, row by row |
| Outcome.BuildTargetGrid | slot.js:331-372 | the special case is `SelectCase(r)`, the grid is filled, and the forced row for that case is laid out by `fillRemaining` |
| Outcome.ForcedRowIsFull | slot.js:348-366 | every special case forces all three winning-row cells |
| Outcome.WinningRowOfCase | slot.js:347-371 | no special case gives the first three picks; a triple gives the designated symbol three times; a pair gives the symbol exactly twice plus one cell of a different filler |
| Outcome.OtherRowsArePicked | slot.js:341-344 | rows other than `WIN_ROW` hold consecutive weighted picks, starting after the picks the winning row used |
| Payout.ClassifyFlagTriple | slot.js:426-433 | the free-spin branch is taken if and only if all three cells are flags |
| Payout.ClassifyTriple | slot.js:435-449 | the row is a triple of `s` if and only if it is `[s, s, s]` with `s` not the flag |
| Payout.ClassifyPair | slot.js:451-471 | the row is a pair of `s` if and only if `s` occurs exactly twice |
| Payout.ClassifyNoMatch | slot.js:473-475 | no match if and only if the three cells are pairwise different |
| Payout.SpecialCaseIsRecognised | slot.js:347-367 | a forced case is evaluated as designed: the flag triple as free spins, a triple as a triple of its symbol, a pair case as a pair of its symbol |
| Payout.PairKey | slot.js:451-455 | the counting loop returns a key counted exactly twice, the first such key in row order, and none only when no key is counted twice |
| Payout.PairKeyClassifies | slot.js:451-471 | on a row that is not a triple, the key the loop reports is the pair of the classification, and no key means no match |
| Payout.Evaluate | slot.js:424-475 | the branches of `_finishSpin` yield `Classify(row)`, the credited cash and the free spins of that result |
| Payout.AwardFacts | slot.js:426-475 | credit is never negative; flags give 15 free spins and no cash; a triple pays `payout3 * bet`, a pair `payout2 * bet`, no match 0 |
| Payout.PushedHistory | slot.js:478-482 | the new entry is first, the length is `min(old + 1, 12)`, and the older entries follow in order |
| JsMath.JsFmodRange | slot.js:408 | `x % m` of a non-negative `x` lies in `[0, m)` |
| JsMath.JsFmodRangeNegative | slot.js:576 | `x % m` of a negative `x` lies in `(-m, 0]` |
| JsMath.Wrap | slot.js:575-576 | `((x % h) + h) % h` lies in `[0, h)` for every `x` |
| JsMath.WrapOfMultiple | slot.js:575-576 | wrapping `q * h + r` with `0 <= r < h` yields `r` |
| JsMath.JsIntRem | slot.js:412 | the integer remainder is the dividend minus the truncated quotient times the divisor, takes the sign of the dividend, is smaller than the divisor in magnitude, and equals the dividend when that is already smaller in magnitude |
| Game.TargetOffset | slot.js:406-413 | the target is a whole number of cells, lands on cell `totalCells - 2` modulo whole turns, and lies ahead of the current offset by more than `extraTurns * totalCells - 2` cells and at most `(extraTurns + 1) * totalCells - 2` cells |
| Game.ExtraTurns | slot.js:410 | reel `i` gets between `6 + i` and `9 + i` extra turns |
| Game.DurationsIncrease | slot.js:403-414 | durations are at least 1.05 s and strictly increase with the reel index |
| Game.SnapLandsOnTargetCell | slot.js:568-576 | a reel snapped to its target and wrapped sits exactly on cell `totalCells - 2` |
| Game.RebuildStrips | slot.js:393-400 | each reel's new strip is the 56-cell base strip followed by grid rows 0, 1, 2 of its column (59 cells) |
| Game.ScheduleReels | slot.js:403-419 | each offset is reduced into the new strip; each reel gets the target offset, the common start time and its staggered duration; durations strictly increase |
| Game.StepReel | slot.js:554-576 | before the duration elapses, the offset eases toward the target; afterwards it snaps to the target cell and the reel is stopped; either way it is wrapped |
| Game.AdvanceReels | slot.js:551-578 | every reel takes one step, and `allDone` holds if and only if every duration has elapsed |
| Game.BetUp | slot.js:500 | `+` raises the bet by 10 or to the cap 1000, never above it |
| Game.BetDown | slot.js:501 | `-` lowers the bet by 10 or to the floor 10, never below it |
| Game.SlotGame.constructor | slot.js:107-148 | balance 1000, bet 50, no free spins, empty history; three base strips of 56 cells, cell `k` being catalog entry `k mod 4`; offsets, targets, durations and start times zero; nothing stopped; an all-empty target grid |
| Game.SlotGame.StartSpin | slot.js:374-420 | ignored while spinning; declined when the bet exceeds the balance and no free spin is left; otherwise a free spin is consumed or the bet debited, and the reels are launched |
| Game.SlotGame.Launch | slot.js:386-419 | the spin is marked and nothing is stopped; the grid comes from the draws; every strip ends in its grid column; targets lie on the target cell; durations increase |
| Game.SlotGame.Update | slot.js:550-580 | nothing happens when not spinning; every reel steps as in `StepReel`; one cue per newly stopped reel; when all durations have elapsed the spin is settled as in `FinishSpin`, otherwise session state is untouched |
| Game.SlotGame.FinishSpin | slot.js:422-476 | spinning ends; balance rises by the credit (never falls); free spins rise by the award; exactly one entry is pushed to the history |
| Game.SlotGame.PushHistory | slot.js:478-482 | the history becomes `PushedHistory(old history, entry)` |
| Game.SlotGame.IncreaseBet | slot.js:500 | the bet becomes `BetUp(bet)` and stays within `[10, 1000]` |
| Game.SlotGame.DecreaseBet | slot.js:501 | the bet becomes `BetDown(bet)` and stays within `[10, 1000]` |

## Left out

- Rendering, layout and audio are left out. This covers the canvas, strip surfaces, `recomputeLayoutAndSurfaces`, the toasts, `lineFlashUntil`, the history and combination panels, and the sounds. The "reel stopped" sound is kept only as a ghost counter of cues (`dings`).
- Input handling is left out apart from the `+`/`-` bet controls. This covers Space, the Max button and `m` key (bet 100 then spin), reset (`r`, balance 1000), deposit (below 350, adds 1000 and opens a page), hover and touch unlocking.
- `CELL` is taken as the constant 120. The layout recomputes it on resize; a resize during a spin is not modelled.
- Numbers are exact reals, so floating-point rounding is not modelled. This applies to the cumulative probabilities, the payouts (`1.2 * bet`) and the easing. The edge where `Math.random() * total` reaches the total is covered separately, by `Symbols.PickFallback`.
- Randomness is supplied up front. A sequence of at least nine pick draws stands in for the unbounded generator. The separate draw kinds (case, shuffle, filler, picks, base, turns, jitter) are passed apart instead of being interleaved on one stream.
- Integer draws stand in for some real draws. Each `Math.floor(Math.random() * n)` value is passed as an integer below `n`; the real draw that produced it is not modelled.
- `Outcome.BuildTargetGrid`: when no special case applies, `fillRemaining(null)` is modelled as an all-empty forced row, which behaves the same.
- `Outcome.Swap`: the permutation property is stated once, for the whole swap sequence, in `Outcome.FisherYatesPermutes`; it is not stated per swap.
- `Game.TargetOffset`: the strip length is the 59 cells that `startSpin` has just built; other lengths never occur there.
- `Game.SlotGame.Update`: the `dt` argument is unused by the source and omitted; the clock is the `nowMs` parameter.
- `Game.SlotGame.FinishSpin`: history labels (emoji strings) are represented by the `Payout.Result` value they are built from.
