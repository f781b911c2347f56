/** The game state of `SlotGame`: session (balance, bet, free spins, history)
    and per-reel motion, mutated by `startSpin`, `_update` and `_finishSpin`. */
module Game {
  import opened Wrappers
  import opened Symbols
  import opened Outcome
  import opened Payout
  import opened JsMath

  /** Pixel height of one reel cell; the layout's `CELL`, taken as fixed. */
  const CELL: nat := 120
  const MIN_BET: int := 10
  const MAX_BET: int := 1000
  const BET_STEP: int := 10
  const START_BALANCE: real := 1000.0
  const START_BET: int := 50
  /** Cells in the strip `startSpin` builds: the base strip of `REPEATS`
      catalogs (56 cells) plus one grid column (3 cells). */
  const STRIP_CELLS: nat := 59

  /** Pixel height of a strip of `cells` cells (`totalCells * CELL`). */
  function StripHeight(cells: nat): real
  {
    (cells * CELL) as real
  }

  /** A value of `Math.random()`. */
  predicate IsDraw(u: real)
  {
    0.0 <= u < 1.0
  }

  /** `randRange(a, b)` for the draw `u`. */
  function RandRange(a: real, b: real, u: real): real
  {
    a + u * (b - a)
  }

  /** The random values `startSpin` consumes: those of the grid, then the
      shared base duration, then per reel the `Math.floor(Math.random() * 4)`
      added to its turns and its duration jitter. */
  datatype SpinDraws = SpinDraws(grid: GridDraws, base: real, turns: seq<nat>, jitter: seq<real>)

  predicate ValidSpinDraws(d: SpinDraws)
  {
    ValidGridDraws(d.grid) && IsDraw(d.base) && |d.turns| == REELS && |d.jitter| == REELS
    && forall i :: 0 <= i < REELS ==> d.turns[i] < 4 && IsDraw(d.jitter[i])
  }

  /** `base = 0.9 + randRange(0.15, 0.45)`. */
  function BaseDuration(u: real): real
  {
    0.9 + RandRange(0.15, 0.45, u)
  }

  /** `dur = base + i * 0.7 + randRange(0, 0.2)`. */
  function Duration(base: real, i: nat, u: real): real
  {
    base + i as real * 0.7 + RandRange(0.0, 0.2, u)
  }

  /** `extraTurns = 6 + i + Math.floor(Math.random() * 4)`. */
  function ExtraTurns(i: nat, k: nat): (n: nat)
    requires k < 4
    ensures 6 + i <= n <= 9 + i
  {
    6 + i + k
  }

  /** Durations grow strictly with the reel index: the 0.7 s stagger
      exceeds the 0.2 s jitter. */
  lemma DurationsIncrease(u: real, i: nat, j: nat, v: real, w: real)
    requires IsDraw(u) && IsDraw(v) && IsDraw(w) && i < j
    ensures 1.05 <= Duration(BaseDuration(u), i, v) < Duration(BaseDuration(u), j, w)
  {
    assert 0.0 <= v * 0.2 < 0.2 && 0.0 <= w * 0.2;
    assert i as real * 0.7 + 0.7 <= j as real * 0.7;
  }

  /** A target offset that is a whole number of cells and, modulo whole
      strip turns, lands on cell `STRIP_CELLS - 2` (the middle tail cell). */
  predicate OnTargetCell(t: int)
  {
    t >= 0 && t % CELL == 0 && (t / CELL) % STRIP_CELLS == STRIP_CELLS - 2
  }

  /** The target offset `startSpin` computes from the wrapped current offset
      `cur` of a freshly built strip (whose `totalCells` is `STRIP_CELLS`):
      whole cells, never behind `cur`, and `extraTurns` full turns ahead up
      to the cells needed to reach the target index. */
  function TargetOffset(cur: real, extraTurns: nat): (t: int)
    requires 0.0 <= cur < StripHeight(STRIP_CELLS) && extraTurns >= 1
    ensures OnTargetCell(t)
    ensures cur <= t as real
    ensures StripHeight(extraTurns * STRIP_CELLS - 2) < t as real - cur
    ensures t as real - cur <= StripHeight((extraTurns + 1) * STRIP_CELLS - 2)
  {
    var totalCells := STRIP_CELLS;
    var targetIndexMid := totalCells - 2;
    var baseIndex := Ceil(cur / CELL as real);
    assert 0 <= baseIndex <= STRIP_CELLS && cur <= (baseIndex * CELL) as real < cur + CELL as real;
    assert JsIntRem(targetIndexMid - baseIndex, totalCells) == targetIndexMid - baseIndex;
    var extraCells := extraTurns * totalCells + JsIntRem(targetIndexMid - baseIndex, totalCells);
    assert baseIndex + extraCells == (extraTurns + 1) * STRIP_CELLS - 2;
    (baseIndex + extraCells) * CELL
  }

  /** Snapping to a target on the target cell and wrapping it leaves the strip
      exactly at cell `STRIP_CELLS - 2`. */
  lemma SnapLandsOnTargetCell(t: int)
    requires OnTargetCell(t)
    ensures Wrap(t as real, StripHeight(STRIP_CELLS)) == StripHeight(STRIP_CELLS - 2)
  {
    var q := (t / CELL) / STRIP_CELLS;
    assert t == q * (STRIP_CELLS * CELL) + (STRIP_CELLS - 2) * CELL;
    assert t as real == q as real * StripHeight(STRIP_CELLS) + StripHeight(STRIP_CELLS - 2);
    WrapOfMultiple(q, StripHeight(STRIP_CELLS), StripHeight(STRIP_CELLS - 2));
  }

  /** `easeOutCubic(t) = 1 - (1 - t)^3`. */
  function EaseOutCubic(t: real): real
  {
    1.0 - (1.0 - t) * (1.0 - t) * (1.0 - t)
  }

  /** `(1 - p) * cur + p * target`: the offset a fraction `p` of the way. */
  function Eased(cur: real, target: int, p: real): real
  {
    (1.0 - p) * cur + p * target as real
  }

  /** `max(0, now - t0)` with the clock in seconds. */
  function Elapsed(nowMs: int, t0: real): (e: real)
    ensures e >= 0.0
  {
    var tNow := nowMs as real / 1000.0;
    if tNow - t0 > 0.0 then tNow - t0 else 0.0
  }

  /** The wrapped offset one frame of `_update` gives a reel: eased between
      the current offset and the target while the duration runs, the target
      itself once it has elapsed. */
  function FrameOffset(cur: real, target: int, elapsed: real, dur: real, h: real): real
    requires elapsed >= 0.0 && h > 0.0
  {
    if elapsed < dur then Wrap(Eased(cur, target, EaseOutCubic(elapsed / dur)), h)
    else
      Wrap(target as real, h)
  }

  /** Number of reels whose stopped flag went from false to true. */
  function NewlyStopped(before: seq<bool>, after: seq<bool>): (n: nat)
    requires |before| == |after|
    ensures n <= |after|
  {
    if after == [] then 0
    else NewlyStopped(before[..|before| - 1], after[..|after| - 1])
         + (if !before[|before| - 1] && after[|after| - 1] then 1 else 0)
  }

  /** The bet after the "+" control: `min(1000, bet + 10)`. */
  function BetUp(bet: int): (r: int)
    ensures r <= MAX_BET && r <= bet + BET_STEP
    ensures r == bet + BET_STEP || r == MAX_BET
  {
    if bet + BET_STEP < MAX_BET then bet + BET_STEP else MAX_BET
  }

  /** The bet after the "-" control: `max(10, bet - 10)`. */
  function BetDown(bet: int): (r: int)
    ensures r >= MIN_BET && r >= bet - BET_STEP
    ensures r == bet - BET_STEP || r == MIN_BET
  {
    if bet - BET_STEP > MIN_BET then bet - BET_STEP else MIN_BET
  }

  /** Neither control moves a bet out of `[MIN_BET, MAX_BET]`, and each moves
      it by at most one step in its own direction. */
  lemma BetClampKeepsRange(bet: int)
    requires MIN_BET <= bet <= MAX_BET
    ensures MIN_BET <= BetUp(bet) <= MAX_BET && bet <= BetUp(bet)
    ensures MIN_BET <= BetDown(bet) <= MAX_BET && BetDown(bet) <= bet
  {
  }

  /** The strip loop of `startSpin`: every reel gets a fresh base strip with
      its grid column (rows 0, 1, 2) appended. */
  method RebuildStrips(grid: Grid) returns (strips: seq<seq<Symbol>>)
    requires IsGrid(grid) && Filled(grid)
    ensures |strips| == REELS
    ensures forall c :: 0 <= c < REELS ==> ShowsColumn(strips[c], grid, c)
  {
    strips := [[], [], []];
    for c := 0 to REELS
      invariant |strips| == REELS
      invariant forall k :: 0 <= k < c ==> ShowsColumn(strips[k], grid, k)
    {
      var forced := [grid[0][c].value, grid[1][c].value, grid[2][c].value];
      var strip := BuildSequence(REPEATS);
      strip := strip + forced;
      strips := strips[c := strip];
    }
  }

  /** The scheduling loop of `startSpin`: each reel's offset is reduced into
      its new strip, and it gets the target `extraTurns` turns ahead, the
      common start time and a duration staggered by reel. */
  method ScheduleReels(strips: seq<seq<Symbol>>, offsets0: seq<real>, nowMs: int, d: SpinDraws)
    returns (offsets: seq<real>, targets: seq<int>, durations: seq<real>, starts: seq<real>)
    requires ValidSpinDraws(d) && |strips| == REELS && |offsets0| == REELS
    requires forall i :: 0 <= i < REELS ==> |strips[i]| == STRIP_CELLS && 0.0 <= offsets0[i]
    ensures |offsets| == |targets| == |durations| == |starts| == REELS
    ensures forall i :: 0 <= i < REELS ==>
      offsets[i] == JsFmod(offsets0[i], StripHeight(STRIP_CELLS))
      && 0.0 <= offsets[i] < StripHeight(STRIP_CELLS)
      && targets[i] == TargetOffset(offsets[i], ExtraTurns(i, d.turns[i]))
      && starts[i] == nowMs as real / 1000.0
      && durations[i] == Duration(BaseDuration(d.base), i, d.jitter[i])
    ensures forall i, j :: 0 <= i < j < REELS ==> durations[i] < durations[j]
  {
    offsets, targets, durations, starts := offsets0, [0, 0, 0], [0.0, 0.0, 0.0], [0.0, 0.0, 0.0];
    var t := nowMs as real / 1000.0;
    var base := BaseDuration(d.base);
    for i := 0 to REELS
      invariant |offsets| == |targets| == |durations| == |starts| == REELS
      invariant forall k :: i <= k < REELS ==> offsets[k] == offsets0[k]
      invariant forall k :: 0 <= k < i ==>
        offsets[k] == JsFmod(offsets0[k], StripHeight(STRIP_CELLS))
        && 0.0 <= offsets[k] < StripHeight(STRIP_CELLS)
        && targets[k] == TargetOffset(offsets[k], ExtraTurns(k, d.turns[k]))
        && starts[k] == t
        && durations[k] == Duration(base, k, d.jitter[k])
    {
      var totalCells := |strips[i]|;
      var totalH := StripHeight(totalCells);
      JsFmodRange(offsets[i], totalH);
      var cur := JsFmod(offsets[i], totalH);
      var extraTurns := ExtraTurns(i, d.turns[i]);
      var targetOffset := TargetOffset(cur, extraTurns);
      starts := starts[i := t];
      durations := durations[i := Duration(base, i, d.jitter[i])];
      targets := targets[i := targetOffset];
      offsets := offsets[i := cur];
    }
    forall i, j | 0 <= i < j < REELS
      ensures durations[i] < durations[j]
    {
      DurationsIncrease(d.base, i, j, d.jitter[i], d.jitter[j]);
    }
  }

  /** One reel's step in `_update`: eased toward its target while its
      duration runs, snapped to the target and marked stopped once it has
      elapsed, and wrapped into its strip of `totalCells` cells. */
  method StepReel(totalCells: nat, cur: real, stopped0: bool, target: int, dur: real, t0: real, nowMs: int)
    returns (offset: real, stopped: bool, done: bool)
    requires totalCells == STRIP_CELLS && OnTargetCell(target)
    ensures done <==> Elapsed(nowMs, t0) >= dur
    ensures offset == FrameOffset(cur, target, Elapsed(nowMs, t0), dur, StripHeight(STRIP_CELLS))
    ensures stopped == (stopped0 || done)
    ensures done ==> offset == StripHeight(STRIP_CELLS - 2)
  {
    var totalH := StripHeight(totalCells);
    var elapsed := Elapsed(nowMs, t0);
    var next: real;
    done := true;
    stopped := stopped0;
    if elapsed < dur {
      done := false;
      var p := EaseOutCubic(elapsed / dur);
      next := Eased(cur, target, p);
    } else {
      next := target as real;
      SnapLandsOnTargetCell(target);
      if !stopped {
        stopped := true;
      }
    }
    offset := Wrap(next, totalH);
  }

  /** The per-reel loop of `_update`; `allDone` tells whether every reel's
      duration has elapsed. */
  method AdvanceReels(strips: seq<seq<Symbol>>, offsets0: seq<real>, stopped0: seq<bool>, targets: seq<int>,
                      durations: seq<real>, starts: seq<real>, nowMs: int)
    returns (offsets: seq<real>, stopped: seq<bool>, allDone: bool)
    requires |strips| == |offsets0| == |stopped0| == |targets| == |durations| == |starts| == REELS
    requires forall i :: 0 <= i < REELS ==> |strips[i]| == STRIP_CELLS && OnTargetCell(targets[i])
    ensures |offsets| == |stopped| == REELS
    ensures allDone <==> forall i :: 0 <= i < REELS ==> Elapsed(nowMs, starts[i]) >= durations[i]
    ensures forall i :: 0 <= i < REELS ==>
      offsets[i] == FrameOffset(offsets0[i], targets[i], Elapsed(nowMs, starts[i]), durations[i], StripHeight(STRIP_CELLS))
      && stopped[i] == (stopped0[i] || Elapsed(nowMs, starts[i]) >= durations[i])
      && (Elapsed(nowMs, starts[i]) >= durations[i] ==> offsets[i] == StripHeight(STRIP_CELLS - 2))
  {
    allDone := true;
    offsets, stopped := offsets0, stopped0;
    for i := 0 to REELS
      invariant |offsets| == |stopped| == REELS
      invariant allDone <==> forall k :: 0 <= k < i ==> Elapsed(nowMs, starts[k]) >= durations[k]
      invariant forall k :: i <= k < REELS ==> offsets[k] == offsets0[k] && stopped[k] == stopped0[k]
      invariant forall k :: 0 <= k < i ==>
        offsets[k] == FrameOffset(offsets0[k], targets[k], Elapsed(nowMs, starts[k]), durations[k], StripHeight(STRIP_CELLS))
        && stopped[k] == (stopped0[k] || Elapsed(nowMs, starts[k]) >= durations[k])
        && (Elapsed(nowMs, starts[k]) >= durations[k] ==> offsets[k] == StripHeight(STRIP_CELLS - 2))
    {
      var offset, stoppedNow, done := StepReel(|strips[i]|, offsets[i], stopped[i], targets[i], durations[i], starts[i], nowMs);
      if !done {
        allDone := false;
      }
      offsets, stopped := offsets[i := offset], stopped[i := stoppedNow];
    }
  }

  /** What `startSpin` did. */
  datatype SpinStart = Started | AlreadySpinning | InsufficientFunds

  /** A reel strip that ends in column `c` of the grid: the catalog repeated,
      then grid rows 0, 1, 2 of that column. */
  ghost predicate ShowsColumn(strip: seq<Symbol>, g: Grid, c: nat)
    requires IsGrid(g) && Filled(g) && c < REELS
  {
    |strip| == STRIP_CELLS
    && (forall k :: 0 <= k < STRIP_CELLS - ROWS ==> strip[k] == SYMBOLS[k % |SYMBOLS|])
    && forall rr :: 0 <= rr < ROWS ==> Some(strip[STRIP_CELLS - ROWS + rr]) == g[rr][c]
  }

  class SlotGame {
    var balance: real
    var bet: int
    var freeSpins: nat
    var history: seq<HistoryEntry>
    var spinning: bool
    var reelsSeq: seq<seq<Symbol>>
    var reelOffsets: seq<real>
    var reelTargets: seq<int>
    var reelDurations: seq<real>
    var reelStartTimes: seq<real>
    var reelStopped: seq<bool>
    var targetGrid: Grid
    /** "Reel stopped" cues emitted so far (the ding sound). */
    ghost var dings: nat

    ghost predicate Valid()
      reads this
    {
      |reelsSeq| == REELS && |reelOffsets| == REELS && |reelTargets| == REELS
      && |reelDurations| == REELS && |reelStartTimes| == REELS && |reelStopped| == REELS
      && IsGrid(targetGrid)
      && MIN_BET <= bet <= MAX_BET && 0.0 <= balance && |history| <= HISTORY_LIMIT
      && (forall i :: 0 <= i < REELS ==> 0.0 <= reelOffsets[i] < StripHeight(|reelsSeq[i]|))
      && (spinning ==>
            Filled(targetGrid)
            && forall i :: 0 <= i < REELS ==> ShowsColumn(reelsSeq[i], targetGrid, i) && OnTargetCell(reelTargets[i]))
    }

    constructor ()
      ensures Valid() && !spinning
      ensures balance == START_BALANCE && bet == START_BET && freeSpins == 0 && history == []
      ensures reelOffsets == [0.0, 0.0, 0.0] && reelStopped == [false, false, false] && dings == 0
      ensures |reelsSeq| == REELS
      ensures forall i :: 0 <= i < REELS ==> |reelsSeq[i]| == REPEATS * |SYMBOLS|
      ensures forall i, k :: 0 <= i < REELS && 0 <= k < |reelsSeq[i]| ==> reelsSeq[i][k] == SYMBOLS[k % |SYMBOLS|]
      ensures reelTargets == [0, 0, 0] && reelDurations == [0.0, 0.0, 0.0] && reelStartTimes == [0.0, 0.0, 0.0]
      ensures targetGrid == EmptyGrid()
    {
      var s0 := BuildSequence(REPEATS);
      var s1 := BuildSequence(REPEATS);
      var s2 := BuildSequence(REPEATS);
      balance := START_BALANCE;
      bet := START_BET;
      freeSpins := 0;
      history := [];
      reelsSeq := [s0, s1, s2];
      reelOffsets := [0.0, 0.0, 0.0];
      reelTargets := [0, 0, 0];
      reelDurations := [0.0, 0.0, 0.0];
      reelStartTimes := [0.0, 0.0, 0.0];
      spinning := false;
      targetGrid := EmptyGrid();
      reelStopped := [false, false, false];
      dings := 0;
    }

    /** The reels as `startSpin` leaves them: the grid generated from the
        draws, every strip ending in its grid column, every offset reduced
        into its new strip (from `offsets0`), every target on the target cell
        `ExtraTurns` turns ahead, one start time, and durations staggered by
        reel. */
    ghost predicate Launched(offsets0: seq<real>, nowMs: int, d: SpinDraws)
      requires |offsets0| == REELS && ValidSpinDraws(d)
      reads this
    {
      spinning && reelStopped == [false, false, false]
      && IsGrid(targetGrid) && Filled(targetGrid)
      && FilledFrom(targetGrid, ForcedRow(SelectCase(d.grid.r), d.grid), d.grid.picks)
      && |reelsSeq| == |reelOffsets| == |reelTargets| == |reelStartTimes| == |reelDurations| == REELS
      && (forall i :: 0 <= i < REELS ==>
            ShowsColumn(reelsSeq[i], targetGrid, i)
            && reelOffsets[i] == JsFmod(offsets0[i], StripHeight(STRIP_CELLS))
            && 0.0 <= reelOffsets[i] < StripHeight(STRIP_CELLS)
            && reelTargets[i] == TargetOffset(reelOffsets[i], ExtraTurns(i, d.turns[i]))
            && reelStartTimes[i] == nowMs as real / 1000.0
            && reelDurations[i] == Duration(BaseDuration(d.base), i, d.jitter[i]))
      && forall i, j :: 0 <= i < j < REELS ==> reelDurations[i] < reelDurations[j]
    }

    /** `startSpin`: ignored while spinning, declined without funds, otherwise
        paid (or a free spin consumed) and launched. */
    method StartSpin(nowMs: int, d: SpinDraws) returns (status: SpinStart)
      requires Valid() && ValidSpinDraws(d)
      modifies this
      ensures Valid()
      ensures status == if old(spinning) then AlreadySpinning
                        else if old(freeSpins) == 0 && old(bet) as real > old(balance) then InsufficientFunds
                        else Started
      ensures status != Started ==> unchanged(this)
      ensures status == Started ==>
        Launched(old(reelOffsets), nowMs, d)
        && bet == old(bet) && history == old(history) && dings == old(dings)
        && (old(freeSpins) > 0 ==> freeSpins == old(freeSpins) - 1 && balance == old(balance))
        && (old(freeSpins) == 0 ==> freeSpins == 0 && balance == old(balance) - old(bet) as real)
    {
      if spinning {
        return AlreadySpinning;
      }
      var usingFree := freeSpins > 0;
      if !usingFree {
        if bet as real > balance {
          return InsufficientFunds;
        }
        balance := balance - bet as real;
      } else {
        freeSpins := if freeSpins - 1 > 0 then freeSpins - 1 else 0;
      }
      status := Started;
      Launch(nowMs, d);
    }

    /** The part of `startSpin` after the payment: mark the spin, generate the
        grid, rebuild the strips and schedule the reels. */
    method Launch(nowMs: int, d: SpinDraws)
      requires ValidSpinDraws(d) && |reelOffsets| == REELS
      requires forall i :: 0 <= i < REELS ==> 0.0 <= reelOffsets[i]
      modifies this
      ensures Launched(old(reelOffsets), nowMs, d) && IsGrid(targetGrid)
      ensures balance == old(balance) && bet == old(bet) && freeSpins == old(freeSpins)
      ensures history == old(history) && dings == old(dings)
    {
      var grid, special := BuildTargetGrid(d.grid);
      var strips := RebuildStrips(grid);
      var offsets, targets, durations, starts := ScheduleReels(strips, reelOffsets, nowMs, d);
      spinning, reelStopped, targetGrid, reelsSeq := true, [false, false, false], grid, strips;
      reelOffsets, reelTargets, reelDurations, reelStartTimes := offsets, targets, durations, starts;
    }

    /** `_update` for the clock value `nowMs`: every reel eases toward its
        target or, once its duration has elapsed, snaps to it, is marked
        stopped (with one cue the first time) and is wrapped into its strip;
        when every duration has elapsed the spin is settled. */
    method Update(nowMs: int)
      requires Valid()
      modifies this
      ensures Valid()
      ensures !old(spinning) ==> unchanged(this)
      ensures old(spinning) ==>
        reelsSeq == old(reelsSeq) && reelTargets == old(reelTargets) && targetGrid == old(targetGrid)
        && reelDurations == old(reelDurations) && reelStartTimes == old(reelStartTimes) && bet == old(bet)
        && (forall i :: 0 <= i < REELS ==>
              reelOffsets[i] == FrameOffset(old(reelOffsets[i]), reelTargets[i], Elapsed(nowMs, reelStartTimes[i]),
                                            reelDurations[i], StripHeight(STRIP_CELLS))
              && reelStopped[i] == (old(reelStopped[i]) || Elapsed(nowMs, reelStartTimes[i]) >= reelDurations[i]))
        && (forall i :: 0 <= i < REELS && Elapsed(nowMs, reelStartTimes[i]) >= reelDurations[i] ==>
              reelOffsets[i] == StripHeight(STRIP_CELLS - 2))
        && dings == old(dings) + NewlyStopped(old(reelStopped), reelStopped)
      ensures old(spinning) ==>
        var allDone := forall i :: 0 <= i < REELS ==> Elapsed(nowMs, reelStartTimes[i]) >= reelDurations[i];
        var res := Classify(WinningRow(targetGrid));
        (allDone ==>
           !spinning && balance == old(balance) + Credited(res, bet)
           && freeSpins == old(freeSpins) + FreeAwarded(res)
           && history == PushedHistory(old(history), EntryFor(res, bet, nowMs)))
        && (!allDone ==>
           spinning && balance == old(balance) && freeSpins == old(freeSpins) && history == old(history))
    {
      if !spinning {
        return;
      }
      var offsets, stopped, allDone :=
        AdvanceReels(reelsSeq, reelOffsets, reelStopped, reelTargets, reelDurations, reelStartTimes, nowMs);
      // one "reel stopped" cue per reel that stopped in this frame
      dings := dings + NewlyStopped(reelStopped, stopped);
      reelOffsets, reelStopped := offsets, stopped;
      if allDone {
        FinishSpin(nowMs);
      }
    }

    /** `_finishSpin`: classifies the winning row, credits the balance or the
        free spins, and records one history entry. */
    method FinishSpin(nowMs: int)
      requires Valid() && spinning
      modifies this
      ensures Valid() && !spinning && balance >= old(balance)
      ensures var res := Classify(WinningRow(old(targetGrid)));
        balance == old(balance) + Credited(res, bet)
        && freeSpins == old(freeSpins) + FreeAwarded(res)
        && history == PushedHistory(old(history), EntryFor(res, bet, nowMs))
      ensures bet == old(bet) && targetGrid == old(targetGrid) && reelsSeq == old(reelsSeq)
      ensures reelOffsets == old(reelOffsets) && reelTargets == old(reelTargets) && reelStopped == old(reelStopped)
      ensures reelDurations == old(reelDurations) && reelStartTimes == old(reelStartTimes) && dings == old(dings)
    {
      spinning := false;
      var a, b, c := targetGrid[WIN_ROW][0].value, targetGrid[WIN_ROW][1].value, targetGrid[WIN_ROW][2].value;
      assert WinningRow(targetGrid) == [a, b, c];
      var res, credit, free := Evaluate(a, b, c, bet);
      AwardFacts(res, bet);
      balance := balance + credit;
      freeSpins := freeSpins + free;
      PushHistory(res, credit, free, nowMs);
    }

    /** `_pushHistory`: the new entry goes first, the list is cut to `HISTORY_LIMIT`. */
    method PushHistory(res: Result, payout: real, free: nat, nowMs: int)
      modifies this`history
      ensures history == PushedHistory(old(history), HistoryEntry(res, payout, free, nowMs))
    {
      history := [HistoryEntry(res, payout, free, nowMs)] + history;
      if |history| > HISTORY_LIMIT {
        history := history[..HISTORY_LIMIT];
      }
    }

    /** The "+" control: `bet = Math.min(1000, bet + 10)`. */
    method IncreaseBet()
      requires Valid()
      modifies this`bet
      ensures Valid() && bet == BetUp(old(bet))
    {
      BetClampKeepsRange(bet);
      bet := if MAX_BET < bet + BET_STEP then MAX_BET else bet + BET_STEP;
    }

    /** The "-" control: `bet = Math.max(10, bet - 10)`. */
    method DecreaseBet()
      requires Valid()
      modifies this`bet
      ensures Valid() && bet == BetDown(old(bet))
    {
      BetClampKeepsRange(bet);
      bet := if MIN_BET > bet - BET_STEP then MIN_BET else bet - BET_STEP;
    }
  }
}
