/** The payout evaluator of `_finishSpin` and the bounded result history of
    `_pushHistory`. */
module Payout {
  import opened Wrappers
  import opened Symbols
  import opened Outcome

  /** Free spins awarded for three flags on the winning row. */
  const FREE_SPINS_AWARD: nat := 15
  /** Longest history kept. */
  const HISTORY_LIMIT: nat := 12

  /** The classification of a winning row, in the order it is tested. */
  datatype Result = FlagTriple | Triple(sym: Symbol) | Pair(sym: Symbol) | NoMatch

  /** One history entry: the result (its label), the cash credited, the free
      spins awarded and the time in milliseconds. */
  datatype HistoryEntry = HistoryEntry(result: Result, payout: real, free: nat, time: int)

  /** The classification `_finishSpin` applies to the winning row `[a, b, c]`:
      three flags, then any triple, then the first key (in order of first
      appearance) counted twice, then no match. */
  function Classify(row: seq<Symbol>): Result
    requires |row| == 3
  {
    if row[0] == Flag && row[1] == Flag && row[2] == Flag then FlagTriple
    else if row[0] == row[1] && row[1] == row[2] then Triple(row[0])
    else if Count(row, row[0]) == 2 then Pair(row[0])
    else if Count(row, row[1]) == 2 then Pair(row[1])
    else NoMatch
  }

  lemma CountOfThree(row: seq<Symbol>, x: Symbol)
    requires |row| == 3
    ensures Count(row, x) == (if row[0] == x then 1 else 0) + (if row[1] == x then 1 else 0)
                             + (if row[2] == x then 1 else 0)
  {
    var tail := row[1..];
    assert tail[1..] == [row[2]];
    assert Count(tail[1..], x) == (if row[2] == x then 1 else 0) + Count([], x);
    assert Count(tail, x) == (if row[1] == x then 1 else 0) + Count(tail[1..], x);
  }

  /** The flag triple is recognised exactly when all three cells are flags. */
  lemma ClassifyFlagTriple(row: seq<Symbol>)
    requires |row| == 3
    ensures Classify(row) == FlagTriple <==> row == [Flag, Flag, Flag]
  {
  }

  /** Any other symbol three times is a triple of that symbol. */
  lemma ClassifyTriple(row: seq<Symbol>, s: Symbol)
    requires |row| == 3
    ensures Classify(row) == Triple(s) <==> s != Flag && row == [s, s, s]
  {
    CountOfThree(row, row[0]);
    CountOfThree(row, row[1]);
  }

  /** A row is a pair of `s` exactly when `s` occurs in it exactly twice. */
  lemma ClassifyPair(row: seq<Symbol>, s: Symbol)
    requires |row| == 3
    ensures Classify(row) == Pair(s) <==> Count(row, s) == 2
  {
    CountOfThree(row, s);
    CountOfThree(row, row[0]);
    CountOfThree(row, row[1]);
  }

  /** No match exactly when the three cells are pairwise different. */
  lemma ClassifyNoMatch(row: seq<Symbol>)
    requires |row| == 3
    ensures Classify(row) == NoMatch <==> row[0] != row[1] && row[1] != row[2] && row[0] != row[2]
  {
    CountOfThree(row, row[0]);
    CountOfThree(row, row[1]);
  }

  /** A special case forced onto the winning row is recognised as that case:
      the flag triple as free spins, the other triples as triples of their
      symbol, and the pair cases as pairs of their symbol. */
  lemma SpecialCaseIsRecognised(g: Grid, c: Special, d: GridDraws)
    requires ValidGridDraws(d) && IsGrid(g) && Filled(g)
    requires FilledFrom(g, ForcedRow(Some(c), d), d.picks)
    ensures Classify(WinningRow(g)) ==
      if c == FlagsTriple then FlagTriple
      else if IsTriple(c) then Triple(Designated(c))
      else Pair(Designated(c))
  {
    WinningRowOfCase(g, Some(c), d);
    var row := WinningRow(g);
    if IsTriple(c) {
      ClassifyTriple(row, Designated(c));
    } else {
      ClassifyPair(row, Designated(c));
    }
  }

  /** The cash a result is worth at the given bet (`payout3 * bet`, `payout2 * bet`). */
  function Prize(res: Result, bet: int): real
  {
    match res
    case Triple(s) => Payout3(s) * bet as real
    case Pair(s) => Payout2(s) * bet as real
    case _ => 0.0
  }

  /** What is credited and recorded: the prize when it is positive, else 0. */
  function Credited(res: Result, bet: int): real
  {
    if Prize(res, bet) > 0.0 then Prize(res, bet) else 0.0
  }

  function FreeAwarded(res: Result): nat
  {
    if res == FlagTriple then FREE_SPINS_AWARD else 0
  }

  /** The history entry `_finishSpin` pushes for a result. */
  function EntryFor(res: Result, bet: int, time: int): HistoryEntry
  {
    HistoryEntry(res, Credited(res, bet), FreeAwarded(res), time)
  }

  /** The award never debits, the flag triple pays no cash, and a triple or
      pair pays its multiplier times the bet. */
  lemma AwardFacts(res: Result, bet: int)
    requires bet > 0
    ensures Credited(res, bet) >= 0.0
    ensures res == FlagTriple ==> Credited(res, bet) == 0.0 && FreeAwarded(res) == FREE_SPINS_AWARD
    ensures res != FlagTriple ==> FreeAwarded(res) == 0
    ensures res.Triple? ==> Credited(res, bet) == Payout3(res.sym) * bet as real
    ensures res.Pair? ==> Credited(res, bet) == Payout2(res.sym) * bet as real
    ensures res == NoMatch ==> Credited(res, bet) == 0.0
  {
  }

  /** `history.unshift(item)` followed by truncation to `HISTORY_LIMIT` entries. */
  function PushedHistory(h: seq<HistoryEntry>, e: HistoryEntry): (r: seq<HistoryEntry>)
    ensures |r| == if |h| < HISTORY_LIMIT then |h| + 1 else HISTORY_LIMIT
    ensures r[0] == e
    ensures r[1..] == h[..|r| - 1]
  {
    var pushed := [e] + h;
    if |pushed| > HISTORY_LIMIT then pushed[..HISTORY_LIMIT] else pushed
  }

  /** The counting loop of `_finishSpin`: count each key, then scan the keys in
      order of first appearance for one counted twice. Visiting the keys in
      row order meets them in that same order. */
  method PairKey(keys: seq<Symbol>) returns (p: Option<Symbol>)
    ensures p.Some? ==> Count(keys, p.value) == 2
    ensures p.None? <==> forall k :: k in keys ==> Count(keys, k) != 2
    ensures p.Some? ==> exists i :: 0 <= i < |keys| && keys[i] == p.value
                                    && forall j :: 0 <= j < i ==> Count(keys, keys[j]) != 2
  {
    var counts: map<Symbol, nat> := map[];
    for i := 0 to |keys|
      invariant forall k :: k in counts <==> k in keys[..i]
      invariant forall k :: k in counts ==> counts[k] == Count(keys[..i], k)
    {
      var k := keys[i];
      ghost var done := keys[..i];
      CountAppend(done, k);
      assert keys[..i + 1] == done + [k];
      if k !in counts {
        CountAbsent(done, k);
      }
      counts := counts[k := (if k in counts then counts[k] else 0) + 1];
    }
    assert keys[..|keys|] == keys;
    for i := 0 to |keys|
      invariant forall j :: 0 <= j < i ==> Count(keys, keys[j]) != 2
    {
      if counts[keys[i]] == 2 {
        return Some(keys[i]);
      }
    }
    return None;
  }

  /** The evaluator of `_finishSpin` on the winning row `[a, b, c]`: flags
      award free spins, a triple pays `payout3`, otherwise the counting loop
      looks for a pair paying `payout2`; a non-positive prize is recorded as 0. */
  method Evaluate(a: Symbol, b: Symbol, c: Symbol, bet: int) returns (res: Result, credit: real, free: nat)
    ensures res == Classify([a, b, c])
    ensures credit == Credited(res, bet) && free == FreeAwarded(res)
  {
    if a == Flag && b == Flag && c == Flag {
      return FlagTriple, 0.0, FREE_SPINS_AWARD;
    }
    if a == b && b == c {
      var payout := Payout3(a) * bet as real;
      return Triple(a), if payout > 0.0 then payout else 0.0, 0;
    }
    var pair := PairKey([a, b, c]);
    PairKeyClassifies([a, b, c], pair);
    if pair.Some? {
      var k := pair.value;
      var payout := Payout2(k) * bet as real;
      return Pair(k), if payout > 0.0 then payout else 0.0, 0;
    }
    return NoMatch, 0.0, 0;
  }

  /** On a row that is not a triple, the key the counting loop reports is the
      pair `Classify` finds, and no key means no match. */
  lemma PairKeyClassifies(row: seq<Symbol>, p: Option<Symbol>)
    requires |row| == 3 && !(row[0] == row[1] && row[1] == row[2])
    requires p.Some? ==> Count(row, p.value) == 2
    requires p.None? <==> forall k :: k in row ==> Count(row, k) != 2
    requires p.Some? ==> exists i :: 0 <= i < |row| && row[i] == p.value
                                     && forall j :: 0 <= j < i ==> Count(row, row[j]) != 2
    ensures Classify(row) == if p.Some? then Pair(p.value) else NoMatch
  {
    CountOfThree(row, row[0]);
    CountOfThree(row, row[1]);
    CountOfThree(row, row[2]);
    if p.Some? {
      var i :| 0 <= i < |row| && row[i] == p.value && forall j :: 0 <= j < i ==> Count(row, row[j]) != 2;
    } else {
      assert row[0] in row && row[1] in row;
    }
  }

  lemma {:induction false} CountAppend(xs: seq<Symbol>, x: Symbol)
    ensures forall k :: Count(xs + [x], k) == Count(xs, k) + (if x == k then 1 else 0)
  {
    if xs != [] {
      CountAppend(xs[1..], x);
      assert (xs + [x])[1..] == xs[1..] + [x];
    }
  }

  lemma {:induction false} CountAbsent(xs: seq<Symbol>, x: Symbol)
    requires x !in xs
    ensures Count(xs, x) == 0
  {
    if xs != [] {
      CountAbsent(xs[1..], x);
    }
  }
}
