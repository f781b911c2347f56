/** Option type standing for the values the game leaves `null` (an empty grid cell,
    the absent special case). */
module Wrappers {
  datatype Option<+T> = None | Some(value: T)
}

/** The symbol catalog, the weighted symbol picker and the base reel strip. */
module Symbols {

  /** The four catalog entries, in catalog order. */
  datatype Symbol = Banana | Strawberry | Flag | Seven

  /** The catalog `SYMBOLS`, fixed at start-up. */
  const SYMBOLS: seq<Symbol> := [Banana, Strawberry, Flag, Seven]

  /** Default number of catalog repetitions in a reel strip (`buildSequence(repeats = 14)`). */
  const REPEATS: nat := 14

  /** Selection weight of a symbol. */
  function Weight(s: Symbol): nat
  {
    match s
    case Banana => 6
    case Strawberry => 5
    case Flag => 4
    case Seven => 2
  }

  /** Multiplier paid on a triple of the symbol (`payout3`). */
  function Payout3(s: Symbol): real
  {
    match s
    case Banana => 1.5
    case Strawberry => 2.0
    case Flag => 0.0
    case Seven => 5.0
  }

  /** Multiplier paid on a pair of the symbol (`payout2`). */
  function Payout2(s: Symbol): real
  {
    match s
    case Banana => 1.0
    case Strawberry => 1.2
    case Flag => 0.0
    case Seven => 0.0
  }

  /** Position of a symbol in the catalog. */
  function IndexOf(s: Symbol): (k: nat)
    ensures k < |SYMBOLS| && SYMBOLS[k] == s
  {
    match s
    case Banana => 0
    case Strawberry => 1
    case Flag => 2
    case Seven => 3
  }

  /** Number of occurrences of `x` in `xs`. */
  function Count(xs: seq<Symbol>, x: Symbol): (n: nat)
    ensures n <= |xs|
  {
    if xs == [] then 0 else (if xs[0] == x then 1 else 0) + Count(xs[1..], x)
  }

  /** Running weight sum of the first `k` catalog entries. */
  function PrefixWeight(k: nat): real
    requires k <= |SYMBOLS|
  {
    if k == 0 then 0.0 else PrefixWeight(k - 1) + Weight(SYMBOLS[k - 1]) as real
  }

  /** The catalog's total weight (the `reduce` at the top of `weightedPick`). */
  function TotalWeight(): real
  {
    PrefixWeight(|SYMBOLS|)
  }

  /** Running sums grow strictly, because every weight is positive. */
  lemma {:induction false} PrefixWeightIncreasing(j: nat, k: nat)
    requires j < k <= |SYMBOLS|
    ensures PrefixWeight(j) < PrefixWeight(k)
  {
    if j < k - 1 {
      PrefixWeightIncreasing(j, k - 1);
    }
  }

  /** The walk of `weightedPick` from catalog entry `i` with remainder `rem`:
      subtract the entry's weight, stop when the remainder goes negative,
      and fall back to the last entry when the catalog runs out. */
  function PickFrom(i: nat, rem: real): Symbol
    requires i < |SYMBOLS|
    decreases |SYMBOLS| - i
  {
    var rest := rem - Weight(SYMBOLS[i]) as real;
    if rest < 0.0 || i == |SYMBOLS| - 1 then SYMBOLS[i] else PickFrom(i + 1, rest)
  }

  /** The symbol `weightedPick` returns when `Math.random()` yields `u`. */
  function Pick(u: real): Symbol
  {
    PickFrom(0, u * TotalWeight())
  }

  /** The walk started at entry `i` with the draw `r` already reduced by the
      first `i` weights returns entry `k` exactly when `r` lies in that
      entry's interval of running sums. */
  lemma {:induction false} PickFromInterval(i: nat, r: real, k: nat)
    requires i <= k < |SYMBOLS|
    requires PrefixWeight(i) <= r < TotalWeight()
    ensures PickFrom(i, r - PrefixWeight(i)) == SYMBOLS[k]
        <==> PrefixWeight(k) <= r < PrefixWeight(k + 1)
    decreases |SYMBOLS| - i
  {
    var rest := r - PrefixWeight(i) - Weight(SYMBOLS[i]) as real;
    assert rest == r - PrefixWeight(i + 1);
    if rest < 0.0 {
      if k > i + 1 {
        PrefixWeightIncreasing(i + 1, k);
      }
    } else if i == |SYMBOLS| - 1 {
      assert false;
    } else if k == i {
      PickFromAfterAll(i + 1, i, r);
    } else {
      PickFromInterval(i + 1, r, k);
    }
  }

  /** A walk started at entry `i` returns an entry at position `i` or later. */
  lemma {:induction false} PickFromAfterAll(i: nat, j: nat, r: real)
    requires j < i < |SYMBOLS|
    ensures PickFrom(i, r - PrefixWeight(i)) != SYMBOLS[j]
    decreases |SYMBOLS| - i
  {
    var rest := r - PrefixWeight(i) - Weight(SYMBOLS[i]) as real;
    if !(rest < 0.0 || i == |SYMBOLS| - 1) {
      assert rest == r - PrefixWeight(i + 1);
      PickFromAfterAll(i + 1, j, r);
    }
  }

  /** For a draw `r = u * TotalWeight()` in `[0, TotalWeight())`, the picked
      symbol is the first catalog entry whose running weight sum exceeds `r`:
      each entry is returned on an interval as wide as its weight. */
  lemma PickIsFirstExceeding(u: real, k: nat)
    requires 0.0 <= u * TotalWeight() < TotalWeight()
    requires k < |SYMBOLS|
    ensures Pick(u) == SYMBOLS[k]
        <==> PrefixWeight(k) <= u * TotalWeight() < PrefixWeight(k) + Weight(SYMBOLS[k]) as real
  {
    PickFromInterval(0, u * TotalWeight(), k);
  }

  /** Past the total weight (a draw the floating-point edge can produce) the
      fallback returns the last catalog entry. */
  lemma {:induction false} PickFallback(u: real)
    requires u * TotalWeight() >= TotalWeight()
    ensures Pick(u) == SYMBOLS[|SYMBOLS| - 1]
  {
    var r := u * TotalWeight();
    PickFallbackFrom(0, r);
    assert r - PrefixWeight(0) == r;
  }

  lemma {:induction false} PickFallbackFrom(i: nat, r: real)
    requires i < |SYMBOLS|
    requires r >= TotalWeight()
    ensures PickFrom(i, r - PrefixWeight(i)) == SYMBOLS[|SYMBOLS| - 1]
    decreases |SYMBOLS| - i
  {
    if i < |SYMBOLS| - 1 {
      PrefixWeightIncreasing(i + 1, |SYMBOLS|);
      assert r - PrefixWeight(i) - Weight(SYMBOLS[i]) as real == r - PrefixWeight(i + 1);
      PickFallbackFrom(i + 1, r);
    }
  }

  /** `weightedPick`: sums the weights, scales the draw `u` by the total and
      walks the catalog subtracting weights until the remainder is negative. */
  method WeightedPick(u: real) returns (s: Symbol)
    ensures s == Pick(u)
  {
    var total := 0.0;
    for i := 0 to |SYMBOLS|
      invariant total == PrefixWeight(i)
    {
      total := total + Weight(SYMBOLS[i]) as real;
    }
    var r := u * total;
    var i := 0;
    while i < |SYMBOLS|
      invariant 0 <= i <= |SYMBOLS|
      invariant r == u * total - PrefixWeight(i)
      invariant i < |SYMBOLS| ==> Pick(u) == PickFrom(i, r)
      invariant i == |SYMBOLS| ==> Pick(u) == SYMBOLS[|SYMBOLS| - 1]
    {
      r := r - Weight(SYMBOLS[i]) as real;
      if r < 0.0 {
        return SYMBOLS[i];
      }
      i := i + 1;
    }
    return SYMBOLS[|SYMBOLS| - 1];
  }

  /** `buildSequence`: the catalog repeated `repeats` times, pushed entry by entry. */
  method BuildSequence(repeats: nat) returns (strip: seq<Symbol>)
    ensures |strip| == repeats * |SYMBOLS|
    ensures forall k :: 0 <= k < |strip| ==> strip[k] == SYMBOLS[k % |SYMBOLS|]
  {
    strip := [];
    for i := 0 to repeats
      invariant |strip| == i * |SYMBOLS|
      invariant forall k :: 0 <= k < |strip| ==> strip[k] == SYMBOLS[k % |SYMBOLS|]
    {
      for j := 0 to |SYMBOLS|
        invariant |strip| == i * |SYMBOLS| + j
        invariant forall k :: 0 <= k < |strip| ==> strip[k] == SYMBOLS[k % |SYMBOLS|]
      {
        strip := strip + [SYMBOLS[j]];
      }
    }
  }
}
