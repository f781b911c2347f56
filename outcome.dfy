/** The outcome generator (`_buildTargetGridWithProbabilities`): one draw picks
    a special case from a cascade of cumulative thresholds, the winning row is
    forced accordingly, and every other cell comes from the weighted picker. */
module Outcome {
  import opened Wrappers
  import opened Symbols

  const REELS: nat := 3
  const ROWS: nat := 3
  /** The row whose three cells decide the payout. */
  const WIN_ROW: nat := 2

  const P_FLAG_TRIPLE: real := 1.0 / 100000.0
  const P_SEVEN_TRIPLE: real := 1.0 / 2000.0
  const P_STRAW_TRIPLE: real := 1.0 / 1200.0
  const P_BANANA_TRIPLE: real := 1.0 / 700.0
  const P_2_BANANA: real := 1.0 / 500.0
  const P_2_STRAW: real := 1.0 / 500.0

  /** The special cases, named after the labels the generator returns. */
  datatype Special = FlagsTriple | SevenTriple | StrawTriple | BananaTriple | BananaDouble | StrawDouble

  /** The cases in the order the cascade tests them. */
  const CASES: seq<Special> := [FlagsTriple, SevenTriple, StrawTriple, BananaTriple, BananaDouble, StrawDouble]

  function Probability(c: Special): real
  {
    match c
    case FlagsTriple => P_FLAG_TRIPLE
    case SevenTriple => P_SEVEN_TRIPLE
    case StrawTriple => P_STRAW_TRIPLE
    case BananaTriple => P_BANANA_TRIPLE
    case BananaDouble => P_2_BANANA
    case StrawDouble => P_2_STRAW
  }

  /** The symbol a case forces onto the winning row. */
  function Designated(c: Special): Symbol
  {
    match c
    case FlagsTriple => Flag
    case SevenTriple => Seven
    case StrawTriple => Strawberry
    case BananaTriple => Banana
    case BananaDouble => Banana
    case StrawDouble => Strawberry
  }

  predicate IsTriple(c: Special)
  {
    c.FlagsTriple? || c.SevenTriple? || c.StrawTriple? || c.BananaTriple?
  }

  /** The cumulative probability after the first `k` cases of the cascade. */
  function Threshold(k: nat): real
    requires k <= |CASES|
  {
    if k == 0 then 0.0 else Threshold(k - 1) + Probability(CASES[k - 1])
  }

  lemma {:induction false} ThresholdIncreasing(j: nat, k: nat)
    requires j < k <= |CASES|
    ensures Threshold(j) < Threshold(k)
  {
    if j < k - 1 {
      ThresholdIncreasing(j, k - 1);
    }
  }

  /** The cascade from case `k` on: the first case whose cumulative threshold
      exceeds `r`, or `None` (the default case) when there is none. */
  function SelectFrom(k: nat, r: real): Option<Special>
    requires k <= |CASES|
    decreases |CASES| - k
  {
    if k == |CASES| then None
    else if r < Threshold(k + 1) then Some(CASES[k])
    else SelectFrom(k + 1, r)
  }

  /** The case the generator selects for the draw `r`. */
  function SelectCase(r: real): Option<Special>
  {
    SelectFrom(0, r)
  }

  lemma {:induction false} SelectFromIsFirst(i: nat, r: real, k: nat)
    requires i <= k < |CASES|
    ensures SelectFrom(i, r) == Some(CASES[k])
        <==> r < Threshold(k + 1) && forall j :: i < j <= k ==> Threshold(j) <= r
    decreases |CASES| - i
  {
    if r < Threshold(i + 1) {
      if k > i {
        assert CASES[i] != CASES[k];
        assert !(Threshold(i + 1) <= r);
      }
    } else if k > i {
      SelectFromIsFirst(i + 1, r, k);
    } else {
      SelectFromNotBefore(i + 1, r, i);
    }
  }

  lemma {:induction false} SelectFromNotBefore(i: nat, r: real, j: nat)
    requires j < i <= |CASES|
    ensures SelectFrom(i, r) != Some(CASES[j])
    decreases |CASES| - i
  {
    if i < |CASES| && !(r < Threshold(i + 1)) {
      SelectFromNotBefore(i + 1, r, j);
    }
  }

  lemma {:induction false} SelectFromDefault(i: nat, r: real)
    requires i <= |CASES|
    ensures SelectFrom(i, r) == None <==> forall j :: i < j <= |CASES| ==> Threshold(j) <= r
    decreases |CASES| - i
  {
    if i < |CASES| {
      SelectFromDefault(i + 1, r);
      if r < Threshold(i + 1) {
        assert !(Threshold(i + 1) <= r);
      }
    }
  }

  /** The selected case is the first one, in the fixed order of `CASES`,
      whose cumulative threshold exceeds `r`. */
  lemma SelectCaseIsFirst(r: real, k: nat)
    requires k < |CASES|
    ensures SelectCase(r) == Some(CASES[k])
        <==> r < Threshold(k + 1) && forall j :: 0 < j <= k ==> Threshold(j) <= r
  {
    SelectFromIsFirst(0, r, k);
  }

  /** The default case (`special = null`) happens exactly when no threshold
      exceeds `r`, that is, when `r` is at least the sum of all six masses. */
  lemma SelectCaseDefault(r: real)
    ensures SelectCase(r) == None <==> Threshold(|CASES|) <= r
  {
    SelectFromDefault(0, r);
    if Threshold(|CASES|) <= r {
      forall j | 0 < j <= |CASES|
        ensures Threshold(j) <= r
      {
        if j < |CASES| {
          ThresholdIncreasing(j, |CASES|);
        }
      }
    }
  }

  /** The catalog without `s` (`SYMBOLS.filter(x => x.key !== key)`), in catalog order. */
  function Others(s: Symbol): (o: seq<Symbol>)
    ensures |o| == |SYMBOLS| - 1
    ensures forall x :: x in o <==> x != s
    ensures forall i, j :: 0 <= i < j < |o| ==> IndexOf(o[i]) < IndexOf(o[j])
  {
    var o := match s
      case Banana => [Strawberry, Flag, Seven]
      case Strawberry => [Banana, Flag, Seven]
      case Flag => [Banana, Strawberry, Seven]
      case Seven => [Banana, Strawberry, Flag];
    assert forall x :: x in o <==> x != s by {
      forall x ensures x in o <==> x != s {
        assert SYMBOLS[IndexOf(x)] == x;
      }
    }
    o
  }

  /** The third symbol of a pair case: entry `f` of the catalog without `s`,
      where `f` is `Math.floor(Math.random() * (SYMBOLS.length - 1))`. */
  function Filler(s: Symbol, f: nat): Symbol
    requires f < |SYMBOLS| - 1
  {
    Others(s)[f]
  }

  /** Swap targets of a Fisher–Yates loop over `n` positions: `swaps[k]` is the
      `j = Math.floor(Math.random() * (i + 1))` drawn at step `i = n - 1 - k`. */
  predicate ValidSwaps(swaps: seq<nat>, n: nat)
  {
    |swaps| == n - 1 && forall k :: 0 <= k < |swaps| ==> swaps[k] <= n - 1 - k
  }

  /** Exchange positions `i` and `j` (`[idx[i], idx[j]] = [idx[j], idx[i]]`). */
  function Swap(s: seq<nat>, i: nat, j: nat): (t: seq<nat>)
    requires i < |s| && j < |s|
    ensures |t| == |s|
  {
    s[i := s[j]][j := s[i]]
  }

  /** The Fisher–Yates loop from position `i` down to 1. */
  function FisherYatesSpec(s: seq<nat>, swaps: seq<nat>, i: nat): seq<nat>
    requires i < |s| && ValidSwaps(swaps, |s|)
    decreases i
  {
    if i == 0 then s
    else FisherYatesSpec(Swap(s, i, swaps[|s| - 1 - i]), swaps, i - 1)
  }

  /** The swap loop only reorders the positions it is given. */
  lemma {:induction false} FisherYatesPermutes(s: seq<nat>, swaps: seq<nat>, i: nat)
    requires i < |s| && ValidSwaps(swaps, |s|)
    ensures |FisherYatesSpec(s, swaps, i)| == |s|
    ensures multiset(FisherYatesSpec(s, swaps, i)) == multiset(s)
    decreases i
  {
    if i > 0 {
      var t := Swap(s, i, swaps[|s| - 1 - i]);
      assert multiset(t) == multiset(s);
      FisherYatesPermutes(t, swaps, i - 1);
    }
  }

  /** The shuffled column positions `idx` of a pair case: a permutation of 0, 1, 2. */
  function Shuffled(swaps: seq<nat>): (p: seq<nat>)
    requires ValidSwaps(swaps, REELS)
    ensures |p| == 3 && p[0] < 3 && p[1] < 3 && p[2] < 3
    ensures p[0] != p[1] && p[1] != p[2] && p[0] != p[2]
  {
    var p := FisherYatesSpec([0, 1, 2], swaps, 2);
    FisherYatesPermutes([0, 1, 2], swaps, 2);
    PermutationOfThree(p);
    p
  }

  lemma PermutationOfThree(p: seq<nat>)
    requires |p| == 3 && multiset(p) == multiset([0, 1, 2])
    ensures p[0] < 3 && p[1] < 3 && p[2] < 3
    ensures p[0] != p[1] && p[1] != p[2] && p[0] != p[2]
  {
    assert p == [p[0], p[1], p[2]];
    assert p[0] in multiset(p) && p[1] in multiset(p) && p[2] in multiset(p);
  }

  /** The Fisher–Yates swap loop over `idx`, in place. */
  method FisherYates(idx: array<nat>, swaps: seq<nat>)
    requires idx.Length > 0 && ValidSwaps(swaps, idx.Length)
    modifies idx
    ensures idx[..] == FisherYatesSpec(old(idx[..]), swaps, idx.Length - 1)
  {
    var i := idx.Length - 1;
    while i > 0
      invariant 0 <= i < idx.Length
      invariant FisherYatesSpec(idx[..], swaps, i) == FisherYatesSpec(old(idx[..]), swaps, idx.Length - 1)
    {
      var j := swaps[idx.Length - 1 - i];
      ghost var before := idx[..];
      assert FisherYatesSpec(before, swaps, i) == FisherYatesSpec(Swap(before, i, j), swaps, i - 1);
      idx[i], idx[j] := idx[j], idx[i];
      assert idx[..] == Swap(before, i, j);
      i := i - 1;
    }
  }

  /** The winning row a pair case forces: the designated symbol at `idx[0]`
      and `idx[1]`, the filler symbol at `idx[2]`. */
  function PairForced(s: Symbol, swaps: seq<nat>, filler: nat): seq<Option<Symbol>>
    requires ValidSwaps(swaps, REELS) && filler < |SYMBOLS| - 1
  {
    var p := Shuffled(swaps);
    [None, None, None][p[0] := Some(s)][p[1] := Some(s)][p[2] := Some(Filler(s, filler))]
  }

  /** The random draws one grid consumes: `r` selects the case, `swaps` and
      `filler` serve a pair case, `picks` feed the weighted picker in call order. */
  datatype GridDraws = GridDraws(r: real, swaps: seq<nat>, filler: nat, picks: seq<real>)

  predicate ValidGridDraws(d: GridDraws)
  {
    ValidSwaps(d.swaps, REELS) && d.filler < |SYMBOLS| - 1 && |d.picks| >= ROWS * REELS
  }

  /** The `forcedRow` handed to `fillRemaining` for a case; the default case
      forces nothing. */
  function ForcedRow(sp: Option<Special>, d: GridDraws): (f: seq<Option<Symbol>>)
    requires ValidGridDraws(d)
    ensures |f| == REELS
  {
    match sp
    case None => [None, None, None]
    case Some(c) =>
      var s := Designated(c);
      if IsTriple(c) then [Some(s), Some(s), Some(s)] else PairForced(s, d.swaps, d.filler)
  }

  /** A 3×3 grid; `None` is a cell not yet filled (`null`). */
  type Grid = seq<seq<Option<Symbol>>>

  predicate IsGrid(g: Grid)
  {
    |g| == ROWS && forall rr :: 0 <= rr < ROWS ==> |g[rr]| == REELS
  }

  /** No cell is `null`. */
  predicate Filled(g: Grid)
    requires IsGrid(g)
  {
    forall rr, c :: 0 <= rr < ROWS && 0 <= c < REELS ==> g[rr][c].Some?
  }

  function EmptyGrid(): (g: Grid)
    ensures IsGrid(g)
  {
    [[None, None, None], [None, None, None], [None, None, None]]
  }

  /** Number of unforced cells among `forced`. */
  function CountNone(forced: seq<Option<Symbol>>): (n: nat)
    ensures n <= |forced|
  {
    if forced == [] then 0
    else CountNone(forced[..|forced| - 1]) + (if forced[|forced| - 1].None? then 1 else 0)
  }

  /** The grid `fillRemaining(forced)` leaves: a forced winning cell keeps its
      symbol, an unforced one takes the next pick; then rows 0 and 1 take the
      following picks, row by row and column by column. */
  ghost predicate FilledFrom(g: Grid, forced: seq<Option<Symbol>>, picks: seq<real>)
  {
    IsGrid(g) && |forced| == REELS && |picks| >= ROWS * REELS
    && (forall c :: 0 <= c < REELS ==>
          g[WIN_ROW][c] == if forced[c].Some? then forced[c] else Some(Pick(picks[CountNone(forced[..c])])))
    && (forall rr, c :: 0 <= rr < ROWS && rr != WIN_ROW && 0 <= c < REELS ==>
          g[rr][c] == Some(Pick(picks[CountNone(forced) + rr * REELS + c])))
  }

  /** The first loop of `fillRemaining`: the winning row takes the forced
      symbol where there is one and a fresh weighted pick elsewhere. */
  method FillWinningRow(grid0: Grid, forced: seq<Option<Symbol>>, picks: seq<real>) returns (grid: Grid)
    requires IsGrid(grid0) && |forced| == REELS && |picks| >= ROWS * REELS
    ensures IsGrid(grid)
    ensures forall rr :: 0 <= rr < ROWS && rr != WIN_ROW ==> grid[rr] == grid0[rr]
    ensures forall c :: 0 <= c < REELS ==>
      grid[WIN_ROW][c] == if forced[c].Some? then forced[c] else Some(Pick(picks[CountNone(forced[..c])]))
  {
    grid := grid0;
    var next := 0;
    for c := 0 to REELS
      invariant IsGrid(grid) && next == CountNone(forced[..c])
      invariant forall rr :: 0 <= rr < ROWS && rr != WIN_ROW ==> grid[rr] == grid0[rr]
      invariant forall k :: 0 <= k < c ==>
        grid[WIN_ROW][k] == if forced[k].Some? then forced[k] else Some(Pick(picks[CountNone(forced[..k])]))
    {
      assert forced[..c + 1][..c] == forced[..c];
      if forced[c].Some? {
        grid := grid[WIN_ROW := grid[WIN_ROW][c := forced[c]]];
      } else {
        var s := WeightedPick(picks[next]);
        grid := grid[WIN_ROW := grid[WIN_ROW][c := Some(s)]];
        next := next + 1;
      }
    }
  }

  /** `fillRemaining`: the winning row as above, then every other row, top to
      bottom and left to right, from the next weighted picks. */
  method FillRemaining(grid0: Grid, forced: seq<Option<Symbol>>, picks: seq<real>) returns (grid: Grid)
    requires IsGrid(grid0) && |forced| == REELS && |picks| >= ROWS * REELS
    ensures IsGrid(grid) && Filled(grid)
    ensures FilledFrom(grid, forced, picks)
  {
    grid := FillWinningRow(grid0, forced, picks);
    var next := CountNone(forced);
    ghost var winning := grid[WIN_ROW];
    for rr := 0 to ROWS
      invariant IsGrid(grid) && grid[WIN_ROW] == winning
      invariant next == CountNone(forced) + (if rr <= WIN_ROW then rr else rr - 1) * REELS
      invariant forall r2, c :: 0 <= r2 < rr && r2 != WIN_ROW && 0 <= c < REELS ==>
        grid[r2][c] == Some(Pick(picks[CountNone(forced) + r2 * REELS + c]))
    {
      if rr == WIN_ROW {
        continue;
      }
      for c := 0 to REELS
        invariant IsGrid(grid) && grid[WIN_ROW] == winning
        invariant next == CountNone(forced) + rr * REELS + c
        invariant forall r2, c2 :: 0 <= r2 < rr && r2 != WIN_ROW && 0 <= c2 < REELS ==>
          grid[r2][c2] == Some(Pick(picks[CountNone(forced) + r2 * REELS + c2]))
        invariant forall c2 :: 0 <= c2 < c ==> grid[rr][c2] == Some(Pick(picks[CountNone(forced) + rr * REELS + c2]))
      {
        var s := WeightedPick(picks[next]);
        grid := grid[rr := grid[rr][c := Some(s)]];
        next := next + 1;
      }
    }
  }

  /** The forced row of a pair case, built as the source does: shuffle the
      column positions in place, then place the pair and the filler. */
  method PairRow(s: Symbol, swaps: seq<nat>, filler: nat) returns (forced: seq<Option<Symbol>>)
    requires ValidSwaps(swaps, REELS) && filler < |SYMBOLS| - 1
    ensures forced == PairForced(s, swaps, filler)
  {
    var idx := new nat[3];
    idx[0], idx[1], idx[2] := 0, 1, 2;
    assert idx[..] == [0, 1, 2];
    FisherYates(idx, swaps);
    assert idx[..] == Shuffled(swaps);
    forced := [None, None, None];
    forced := forced[idx[0] := Some(s)];
    forced := forced[idx[1] := Some(s)];
    forced := forced[idx[2] := Some(Others(s)[filler])];
  }

  /** The cascade of `_buildTargetGridWithProbabilities`: add each case's
      mass to the running total and stop at the first total that exceeds `r`. */
  method SelectSpecial(r: real) returns (special: Option<Special>)
    ensures special == SelectCase(r)
  {
    var cumulative := 0.0;
    special := None;
    cumulative := cumulative + P_FLAG_TRIPLE;
    if r < cumulative {
      return Some(FlagsTriple);
    }
    cumulative := cumulative + P_SEVEN_TRIPLE;
    if r < cumulative {
      return Some(SevenTriple);
    }
    cumulative := cumulative + P_STRAW_TRIPLE;
    if r < cumulative {
      return Some(StrawTriple);
    }
    cumulative := cumulative + P_BANANA_TRIPLE;
    if r < cumulative {
      return Some(BananaTriple);
    }
    cumulative := cumulative + P_2_BANANA;
    if r < cumulative {
      return Some(BananaDouble);
    }
    cumulative := cumulative + P_2_STRAW;
    if r < cumulative {
      return Some(StrawDouble);
    }
  }

  /** `_buildTargetGridWithProbabilities`: select the case, force the winning
      row accordingly, then fill the rest of the grid. */
  method BuildTargetGrid(d: GridDraws) returns (grid: Grid, special: Option<Special>)
    requires ValidGridDraws(d)
    ensures special == SelectCase(d.r)
    ensures IsGrid(grid) && Filled(grid)
    ensures FilledFrom(grid, ForcedRow(special, d), d.picks)
  {
    special := SelectSpecial(d.r);
    var forced: seq<Option<Symbol>>;
    match special {
      case None =>
        forced := [None, None, None];
      case Some(c) =>
        var s := Designated(c);
        if IsTriple(c) {
          forced := [Some(s), Some(s), Some(s)];
        } else {
          forced := PairRow(s, d.swaps, d.filler);
        }
    }
    grid := FillRemaining(EmptyGrid(), forced, d.picks);
  }

  /** The winning row of a filled grid, as symbols. */
  function WinningRow(g: Grid): (row: seq<Symbol>)
    requires IsGrid(g) && Filled(g)
    ensures |row| == REELS && forall c :: 0 <= c < REELS ==> g[WIN_ROW][c] == Some(row[c])
  {
    [g[WIN_ROW][0].value, g[WIN_ROW][1].value, g[WIN_ROW][2].value]
  }

  /** Every grid cell outside the winning row comes from the weighted picker,
      whatever the case; the default case consumes the first three picks for
      the winning row, the forced cases none. */
  lemma OtherRowsArePicked(g: Grid, sp: Option<Special>, d: GridDraws)
    requires ValidGridDraws(d)
    requires FilledFrom(g, ForcedRow(sp, d), d.picks)
    ensures forall rr, c :: 0 <= rr < ROWS && rr != WIN_ROW && 0 <= c < REELS ==>
      g[rr][c] == Some(Pick(d.picks[(if sp.None? then REELS else 0) + rr * REELS + c]))
  {
    var forced := ForcedRow(sp, d);
    PrefixesOfRow(forced);
    if sp.Some? {
      ForcedRowIsFull(sp.value, d);
    }
  }

  /** A special case forces all three winning-row cells. */
  lemma ForcedRowIsFull(c: Special, d: GridDraws)
    requires ValidGridDraws(d)
    ensures forall k :: 0 <= k < REELS ==> ForcedRow(Some(c), d)[k].Some?
  {
    if !IsTriple(c) {
      var p := Shuffled(d.swaps);
      var f := ForcedRow(Some(c), d);
      assert f[p[0]].Some? && f[p[1]].Some? && f[p[2]].Some?;
    }
  }

  /** The winning row the generator produces, case by case: three independent
      picks in the default case, the designated symbol three times in a
      triple case, and in a pair case the designated symbol exactly twice
      with the filler, a different catalog symbol, in the third cell. */
  lemma WinningRowOfCase(g: Grid, sp: Option<Special>, d: GridDraws)
    requires ValidGridDraws(d) && IsGrid(g) && Filled(g)
    requires FilledFrom(g, ForcedRow(sp, d), d.picks)
    ensures sp.None? ==> WinningRow(g) == [Pick(d.picks[0]), Pick(d.picks[1]), Pick(d.picks[2])]
    ensures sp.Some? && IsTriple(sp.value) ==>
      var s := Designated(sp.value); WinningRow(g) == [s, s, s]
    ensures sp.Some? && !IsTriple(sp.value) ==>
      var s := Designated(sp.value);
      Count(WinningRow(g), s) == 2 && Filler(s, d.filler) != s
      && forall c :: 0 <= c < REELS ==> WinningRow(g)[c] in {s, Filler(s, d.filler)}
  {
    var row := WinningRow(g);
    var forced := ForcedRow(sp, d);
    assert row == [row[0], row[1], row[2]];
    PrefixesOfRow(forced);
    if sp.Some? && !IsTriple(sp.value) {
      var s := Designated(sp.value);
      var p := Shuffled(d.swaps);
      var fl := Filler(s, d.filler);
      assert fl in Others(s);
      assert row[p[0]] == s && row[p[1]] == s && row[p[2]] == fl;
      assert Count(row[2..], s) == (if row[2] == s then 1 else 0);
      assert Count(row[1..], s) == (if row[1] == s then 1 else 0) + Count(row[2..], s);
    }
  }

  /** How many cells of each prefix of a three-cell forced row are unforced. */
  lemma PrefixesOfRow(forced: seq<Option<Symbol>>)
    requires |forced| == REELS
    ensures CountNone(forced[..0]) == 0
    ensures CountNone(forced[..1]) == (if forced[0].None? then 1 else 0)
    ensures CountNone(forced[..2]) == CountNone(forced[..1]) + (if forced[1].None? then 1 else 0)
    ensures CountNone(forced) == CountNone(forced[..2]) + (if forced[2].None? then 1 else 0)
  {
    assert forced[..2][..1] == forced[..1];
    assert forced[..1][..0] == forced[..0];
    assert forced[..3] == forced;
  }
}
