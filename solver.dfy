/**
 * `KapOptimering.solve` (app.py): the greedy loop that repeatedly picks the
 * best applicable pattern, cuts it as many times as the remaining demand
 * allows and records the application.
 */
module Solver {
  import opened Wrappers
  import opened Stock
  import opened Sorting
  import opened Enumeration
  import opened Generator

  /** An order: piece length in mm to the number of pieces wanted. */
  type Order = map<int, nat>

  /** What `solve` can be given: every ordered length is positive. */
  predicate ValidOrder(order: Order) {
    forall l :: l in order ==> l > 0
  }

  /**
   * One entry of the solution list: `counts` maps each order length to its
   * pieces per bar, `waste` and `used` are in tenths of a millimetre, and
   * `tubeCount` bars are cut this way.
   */
  datatype Application = Application(counts: map<int, nat>, waste: int, used: int, tubeCount: nat, lengths: seq<int>)

  /** `dict(zip(lengths, counts))`. */
  function ZipCounts(lengths: seq<int>, counts: seq<nat>): map<int, nat>
    requires |counts| == |lengths|
  {
    if lengths == [] then map[]
    else
      var n := |lengths|;
      ZipCounts(lengths[..n - 1], counts[..n - 1])[lengths[n - 1] := counts[n - 1]]
  }

  predicate Distinct(lengths: seq<int>) {
    forall i, j :: 0 <= i < j < |lengths| ==> lengths[i] != lengths[j]
  }

  /** `counts.get(l, 0)`. */
  function CountAt(counts: map<int, nat>, l: int): nat {
    if l in counts then counts[l] else 0
  }

  /** The pieces of length `l` the applications produce: their counts times their bars. */
  function Produced(solution: seq<Application>, l: int): nat {
    if solution == [] then 0
    else
      var a := solution[|solution| - 1];
      Produced(solution[..|solution| - 1], l) + CountAt(a.counts, l) * a.tubeCount
  }

  /** `sum(remaining)`. */
  function SumOf(s: seq<int>): int {
    if s == [] then 0 else SumOf(s[..|s| - 1]) + s[|s| - 1]
  }

  function Max(a: int, b: int): int {
    if a >= b then a else b
  }

  /** `sum(min(counts[i], remaining[i]) for i in ...)`: how many still-wanted pieces a pattern cuts. */
  function PiecesUsed(counts: seq<nat>, remaining: seq<int>): int
    requires |counts| == |remaining|
  {
    if counts == [] then 0
    else
      var n := |counts|;
      PiecesUsed(counts[..n - 1], remaining[..n - 1]) + (if counts[n - 1] <= remaining[n - 1] then counts[n - 1] else remaining[n - 1])
  }

  /** A pattern passes both filters of the selection loop (lines 88-93). */
  predicate Candidate(p: Pattern, remaining: seq<int>) {
    |p.counts| == |remaining|
    && (forall i :: 0 <= i < |remaining| ==> p.counts[i] <= remaining[i])
    && PiecesUsed(p.counts, remaining) != 0
  }

  /** The score of line 93, exactly: filled fraction of the bar times 1000 plus the pieces used. */
  function Score(p: Pattern, remaining: seq<int>, usable: int): real
    requires usable > 0 && |p.counts| == |remaining|
  {
    (p.length as real / usable as real) * 1000.0 + PiecesUsed(p.counts, remaining) as real
  }

  /** A candidate that beats the initial `best_score = -1`. */
  predicate Eligible(p: Pattern, remaining: seq<int>, usable: int)
    requires usable > 0
  {
    Candidate(p, remaining) && Score(p, remaining, usable) > -1.0
  }

  /**
   * Pattern number `b` has the highest score among the eligible patterns, and
   * every eligible pattern before it scores strictly less.
   */
  ghost predicate Best(patterns: seq<Pattern>, remaining: seq<int>, usable: int, b: nat)
    requires usable > 0 && b < |patterns|
    requires forall k :: 0 <= k < |patterns| ==> |patterns[k].counts| == |remaining|
  {
    (forall k :: 0 <= k < |patterns| && Eligible(patterns[k], remaining, usable) ==>
       Score(patterns[k], remaining, usable) <= Score(patterns[b], remaining, usable))
    && (forall k :: 0 <= k < b && Eligible(patterns[k], remaining, usable) ==>
       Score(patterns[k], remaining, usable) < Score(patterns[b], remaining, usable))
  }

  /**
   * The selection loop of lines 86-96: the index of the eligible pattern with
   * the highest score, the first one among equals, or None when no pattern is
   * eligible.
   */
  method PickBest(patterns: seq<Pattern>, remaining: seq<int>, usable: int) returns (best: Option<nat>)
    requires usable > 0
    requires forall k :: 0 <= k < |patterns| ==> |patterns[k].counts| == |remaining|
    ensures best.None? <==> forall k :: 0 <= k < |patterns| ==> !Eligible(patterns[k], remaining, usable)
    ensures best.Some? ==> best.value < |patterns| && Eligible(patterns[best.value], remaining, usable)
    ensures best.Some? ==> Best(patterns, remaining, usable, best.value)
  {
    best := None;
    var bestScore := -1.0;
    for k := 0 to |patterns|
      invariant best.None? ==> bestScore == -1.0
      invariant best.None? <==> forall j :: 0 <= j < k ==> !Eligible(patterns[j], remaining, usable)
      invariant best.Some? ==> best.value < k && Eligible(patterns[best.value], remaining, usable)
                               && bestScore == Score(patterns[best.value], remaining, usable)
      invariant forall j :: 0 <= j < k && Eligible(patterns[j], remaining, usable) ==>
                  Score(patterns[j], remaining, usable) <= bestScore
      invariant best.Some? ==> forall j :: 0 <= j < best.value && Eligible(patterns[j], remaining, usable) ==>
                  Score(patterns[j], remaining, usable) < bestScore
    {
      var p := patterns[k];
      if !(forall i :: 0 <= i < |remaining| ==> p.counts[i] <= remaining[i]) {
        continue;
      }
      var piecesUsed := PiecesUsed(p.counts, remaining);
      if piecesUsed == 0 {
        continue;
      }
      var score := (p.length as real / usable as real) * 1000.0 + piecesUsed as real;
      if score > bestScore {
        bestScore := score;
        best := Some(k);
      }
    }
  }

  /**
   * A reference for the selection loop: the first pattern, among the first
   * `n`, that is eligible and scores strictly more than every eligible one
   * before it.
   */
  function FirstBest(patterns: seq<Pattern>, remaining: seq<int>, usable: int, n: nat): (r: Option<nat>)
    requires usable > 0 && n <= |patterns|
    requires forall k :: 0 <= k < |patterns| ==> |patterns[k].counts| == |remaining|
    ensures r.Some? ==> r.value < n
  {
    if n == 0 then None
    else
      var prev := FirstBest(patterns, remaining, usable, n - 1);
      var p := patterns[n - 1];
      if Eligible(p, remaining, usable)
         && (prev.None? || Score(p, remaining, usable) > Score(patterns[prev.value], remaining, usable))
      then Some(n - 1)
      else prev
  }

  /** `FirstBest` finds nothing exactly when nothing is eligible, and otherwise the first maximum. */
  lemma {:induction false} FirstBestSpec(patterns: seq<Pattern>, remaining: seq<int>, usable: int, n: nat)
    requires usable > 0 && n <= |patterns|
    requires forall k :: 0 <= k < |patterns| ==> |patterns[k].counts| == |remaining|
    ensures var r := FirstBest(patterns, remaining, usable, n);
            (r.None? <==> forall k :: 0 <= k < n ==> !Eligible(patterns[k], remaining, usable))
    ensures var r := FirstBest(patterns, remaining, usable, n);
            r.Some? ==> (Eligible(patterns[r.value], remaining, usable)
                         && (forall k :: 0 <= k < n && Eligible(patterns[k], remaining, usable) ==>
                               Score(patterns[k], remaining, usable) <= Score(patterns[r.value], remaining, usable))
                         && (forall k :: 0 <= k < r.value && Eligible(patterns[k], remaining, usable) ==>
                               Score(patterns[k], remaining, usable) < Score(patterns[r.value], remaining, usable)))
  {
    if n > 0 {
      FirstBestSpec(patterns, remaining, usable, n - 1);
    }
  }

  /** At most one eligible pattern is the best: the first one with the highest score. */
  lemma BestUnique(patterns: seq<Pattern>, remaining: seq<int>, usable: int, b: nat, c: nat)
    requires usable > 0 && b < |patterns| && c < |patterns|
    requires forall k :: 0 <= k < |patterns| ==> |patterns[k].counts| == |remaining|
    requires Eligible(patterns[b], remaining, usable) && Best(patterns, remaining, usable, b)
    requires Eligible(patterns[c], remaining, usable) && Best(patterns, remaining, usable, c)
    ensures b == c
  {
  }

  /** What `PickBest` returns is the reference choice. */
  lemma PickedIsFirstBest(patterns: seq<Pattern>, remaining: seq<int>, usable: int, best: Option<nat>)
    requires usable > 0
    requires forall k :: 0 <= k < |patterns| ==> |patterns[k].counts| == |remaining|
    requires best.None? <==> forall k :: 0 <= k < |patterns| ==> !Eligible(patterns[k], remaining, usable)
    requires best.Some? ==> best.value < |patterns| && Eligible(patterns[best.value], remaining, usable)
                            && Best(patterns, remaining, usable, best.value)
    ensures best == FirstBest(patterns, remaining, usable, |patterns|)
  {
    var r := FirstBest(patterns, remaining, usable, |patterns|);
    FirstBestSpec(patterns, remaining, usable, |patterns|);
    if best.Some? {
      BestUnique(patterns, remaining, usable, best.value, r.value);
    }
  }

  /** `min(remaining[i] // counts[i] for i ... if counts[i] > 0)`. */
  function MinQuotient(counts: seq<nat>, remaining: seq<int>): (m: int)
    requires |counts| == |remaining| && Pieces(counts) > 0
    ensures exists i :: 0 <= i < |counts| && counts[i] > 0 && m == remaining[i] / counts[i]
    ensures forall i :: 0 <= i < |counts| && counts[i] > 0 ==> m <= remaining[i] / counts[i]
  {
    var n := |counts|;
    var initC, initR := counts[..n - 1], remaining[..n - 1];
    assert forall i :: 0 <= i < n - 1 ==> counts[i] == initC[i] && remaining[i] == initR[i];
    if Pieces(initC) == 0 then
      PiecesZero(initC);
      remaining[n - 1] / counts[n - 1]
    else
      var m := MinQuotient(initC, initR);
      if counts[n - 1] > 0 && remaining[n - 1] / counts[n - 1] < m then remaining[n - 1] / counts[n - 1] else m
  }

  /** The remaining demand after cutting `counts` `times` times. */
  function Cut(before: seq<int>, counts: seq<nat>, times: int): seq<int>
    requires |counts| == |before|
  {
    seq(|before|, i requires 0 <= i < |before| => before[i] - counts[i] * times)
  }

  /** Lines 105-106: takes `times` bars' worth of `counts` off the remaining demand. */
  method CutPattern(remaining: seq<int>, counts: seq<nat>, times: int) returns (after: seq<int>)
    requires |counts| == |remaining|
    ensures after == Cut(remaining, counts, times)
  {
    after := remaining;
    for i := 0 to |remaining|
      invariant |after| == |remaining|
      invariant forall j :: 0 <= j < i ==> after[j] == remaining[j] - counts[j] * times
      invariant forall j :: i <= j < |remaining| ==> after[j] == remaining[j]
    {
      after := after[i := after[i] - counts[i] * times];
    }
    assert forall j :: 0 <= j < |remaining| ==> after[j] == Cut(remaining, counts, times)[j];
  }

  // ---------------------------------------------------------------------
  // Facts the loop of `solve` rests on.

  /** A pattern that cuts no more than is wanted uses all its pieces. */
  lemma {:induction false} PiecesUsedOfCandidate(counts: seq<nat>, remaining: seq<int>)
    requires |counts| == |remaining| && forall i :: 0 <= i < |counts| ==> counts[i] <= remaining[i]
    ensures PiecesUsed(counts, remaining) == Pieces(counts)
  {
    if counts != [] {
      PiecesUsedOfCandidate(counts[..|counts| - 1], remaining[..|remaining| - 1]);
    }
  }

  /** The pattern applied is cut at least once and never cuts more than is wanted. */
  lemma TimesFits(counts: seq<nat>, remaining: seq<int>)
    requires |counts| == |remaining| && forall i :: 0 <= i < |counts| ==> counts[i] <= remaining[i]
    requires Pieces(counts) > 0
    ensures MinQuotient(counts, remaining) >= 1
    ensures forall i :: 0 <= i < |counts| ==> counts[i] * MinQuotient(counts, remaining) <= remaining[i]
  {
    var m := MinQuotient(counts, remaining);
    forall i | 0 <= i < |counts| ensures counts[i] * m <= remaining[i] {
      if counts[i] > 0 {
        QuotientBound(counts[i], remaining[i], m);
      }
    }
    var i :| 0 <= i < |counts| && counts[i] > 0 && m == remaining[i] / counts[i];
    FloorBound(1, counts[i], remaining[i]);
  }

  lemma QuotientBound(c: int, r: int, m: int)
    requires c > 0 && m <= r / c
    ensures c * m <= r
  {
    var q := r / c;
    assert q * c <= r;
    MulMonotone(m, q, c);
  }

  lemma {:induction false} ZipCountsAt(lengths: seq<int>, counts: seq<nat>, i: nat)
    requires |counts| == |lengths| && Distinct(lengths) && i < |lengths|
    ensures lengths[i] in ZipCounts(lengths, counts) && ZipCounts(lengths, counts)[lengths[i]] == counts[i]
  {
    var n := |lengths|;
    if i < n - 1 {
      ZipCountsAt(lengths[..n - 1], counts[..n - 1], i);
    }
  }

  lemma {:induction false} ZipCountsKeys(lengths: seq<int>, counts: seq<nat>)
    requires |counts| == |lengths|
    ensures forall l :: l in ZipCounts(lengths, counts) <==> l in lengths
  {
    if lengths != [] {
      var n := |lengths|;
      ZipCountsKeys(lengths[..n - 1], counts[..n - 1]);
      assert lengths == lengths[..n - 1] + [lengths[n - 1]];
    }
  }

  lemma ProducedSnoc(solution: seq<Application>, a: Application, l: int)
    ensures Produced(solution + [a], l) == Produced(solution, l) + CountAt(a.counts, l) * a.tubeCount
  {
    assert (solution + [a])[..|solution|] == solution;
  }

  /** Cutting `counts` `times` times lowers the remaining total by that many pieces. */
  lemma {:induction false} SumAfterCut(before: seq<int>, counts: seq<nat>, times: int, after: seq<int>)
    requires |before| == |counts| == |after|
    requires forall i :: 0 <= i < |before| ==> after[i] == before[i] - counts[i] * times
    ensures SumOf(after) == SumOf(before) - Pieces(counts) * times
  {
    if before != [] {
      var n := |before|;
      SumAfterCut(before[..n - 1], counts[..n - 1], times, after[..n - 1]);
      assert (Pieces(counts[..n - 1]) + counts[n - 1]) * times == Pieces(counts[..n - 1]) * times + counts[n - 1] * times;
    }
  }

  lemma PositiveProduct(a: int, b: int)
    requires a > 0 && b > 0
    ensures a * b > 0
  {
  }

  lemma {:induction false} SumNonNegative(s: seq<int>)
    requires forall i :: 0 <= i < |s| ==> s[i] >= 0
    ensures SumOf(s) >= 0
  {
    if s != [] {
      SumNonNegative(s[..|s| - 1]);
    }
  }

  /** Every generated pattern is eligible once it cuts no more than is wanted and something still is. */
  lemma FeasibleCandidateEligible(o: Optimizer, lengths: seq<int>, p: Pattern, remaining: seq<int>)
    requires o.Valid() && PositiveLengths(lengths) && IsFeasiblePattern(o, lengths, p) && |remaining| == |lengths|
    requires forall i :: 0 <= i < |remaining| ==> p.counts[i] <= remaining[i]
    ensures Eligible(p, remaining, o.UsableLength())
  {
    FeasiblePatternWellFormed(o, lengths, p);
    PiecesUsedOfCandidate(p.counts, remaining);
  }

  /** What `solve` uses of the generated list: only feasible patterns, and the single-piece pattern of every length that fits. */
  ghost predicate PatternsFor(o: Optimizer, lengths: seq<int>, patterns: seq<Pattern>) {
    (forall k :: 0 <= k < |patterns| ==> IsFeasiblePattern(o, lengths, patterns[k]))
    && forall i :: 0 <= i < |lengths| && FitsAlone(o, lengths[i]) ==> MkPattern(o, lengths, Unit(|lengths|, i)) in patterns
  }

  lemma GeneratedPatternsFor(o: Optimizer, lengths: seq<int>)
    requires o.Valid() && PositiveLengths(lengths)
    ensures PatternsFor(o, lengths, Generated(o, lengths))
  {
    var g := Generated(o, lengths);
    forall k | 0 <= k < |g| ensures IsFeasiblePattern(o, lengths, g[k]) {
      GeneratedWellFormed(o, lengths, g[k]);
    }
    forall i | 0 <= i < |lengths| && FitsAlone(o, lengths[i]) ensures MkPattern(o, lengths, Unit(|lengths|, i)) in g {
      UnitPatternGenerated(o, lengths, i);
    }
  }

  /**
   * When no pattern is eligible, every length still wanted is one that does
   * not fit on a bar: otherwise its single-piece pattern would be eligible.
   */
  lemma StuckOnlyOnUnfit(o: Optimizer, lengths: seq<int>, patterns: seq<Pattern>, remaining: seq<int>)
    requires o.Valid() && PositiveLengths(lengths) && PatternsFor(o, lengths, patterns) && |remaining| == |lengths|
    requires forall j :: 0 <= j < |remaining| ==> remaining[j] >= 0
    requires forall k :: 0 <= k < |patterns| ==> !Eligible(patterns[k], remaining, o.UsableLength())
    ensures forall i :: 0 <= i < |lengths| && remaining[i] > 0 ==> !FitsAlone(o, lengths[i])
  {
    forall i | 0 <= i < |lengths| && remaining[i] > 0 ensures !FitsAlone(o, lengths[i]) {
      if FitsAlone(o, lengths[i]) {
        var u := MkPattern(o, lengths, Unit(|lengths|, i));
        var k :| 0 <= k < |patterns| && patterns[k] == u;
        FeasibleCandidateEligible(o, lengths, u, remaining);
      }
    }
  }

  /** The per-bar counts of an application, in the order of its lengths. */
  function CountsVector(a: Application): (v: seq<nat>)
    ensures |v| == |a.lengths|
  {
    seq(|a.lengths|, i requires 0 <= i < |a.lengths| => CountAt(a.counts, a.lengths[i]))
  }

  /**
   * An application is cut at least once, covers exactly the order's lengths
   * (longest first), and records a generated pattern: a feasible one, with its
   * own length and waste.
   */
  ghost predicate WellFormedApplication(o: Optimizer, order: Order, a: Application) {
    (forall l :: l in a.lengths <==> l in order)
    && (forall i, j :: 0 <= i < j < |a.lengths| ==> a.lengths[i] > a.lengths[j])
    && a.tubeCount >= 1
    && (forall l :: l in a.counts <==> l in order)
    && IsFeasiblePattern(o, a.lengths, Pattern(CountsVector(a), a.waste, a.used))
  }

  /** `[order[l] for l in lengths]`: the initial remaining demand. */
  function Demand(order: Order, lengths: seq<int>): (d: seq<int>)
    requires forall i :: 0 <= i < |lengths| ==> lengths[i] in order
    ensures |d| == |lengths|
  {
    seq(|lengths|, i requires 0 <= i < |lengths| => order[lengths[i]] as int)
  }

  /** The lengths `solve` works with: the order's lengths, longest first. */
  ghost predicate OrderLengths(order: Order, lengths: seq<int>) {
    (forall l :: l in lengths <==> l in order)
    && (forall i, j :: 0 <= i < j < |lengths| ==> lengths[i] > lengths[j])
    && PositiveLengths(lengths)
  }

  /** Appending an application of `p` adds its counts times its bars to every length's production. */
  lemma StepProduced(o: Optimizer, order: Order, lengths: seq<int>, solution: seq<Application>, p: Pattern, times: nat, i: nat)
    requires o.Valid() && OrderLengths(order, lengths)
    requires |p.counts| == |lengths| && i < |lengths|
    ensures Produced(solution + [Application(ZipCounts(lengths, p.counts), p.waste, p.length, times, lengths)], lengths[i])
         == Produced(solution, lengths[i]) + p.counts[i] * times
  {
    var a := Application(ZipCounts(lengths, p.counts), p.waste, p.length, times, lengths);
    assert Distinct(lengths);
    ProducedSnoc(solution, a, lengths[i]);
    ZipCountsAt(lengths, p.counts, i);
  }

  /** The application of a generated pattern to the order's lengths is well formed. */
  lemma StepWellFormed(o: Optimizer, order: Order, lengths: seq<int>, p: Pattern, times: nat)
    requires o.Valid() && OrderLengths(order, lengths)
    requires IsFeasiblePattern(o, lengths, p) && times >= 1
    ensures WellFormedApplication(o, order, Application(ZipCounts(lengths, p.counts), p.waste, p.length, times, lengths))
  {
    var a := Application(ZipCounts(lengths, p.counts), p.waste, p.length, times, lengths);
    assert Distinct(lengths);
    ZipCountsKeys(lengths, p.counts);
    forall i | 0 <= i < |lengths| ensures CountsVector(a)[i] == p.counts[i] {
      ZipCountsAt(lengths, p.counts, i);
    }
    assert CountsVector(a) == p.counts;
  }

  /**
   * What the loop of `solve` keeps about the demand: nothing is over-cut,
   * every ordered piece is either produced or still remaining, and lengths
   * that do not fit on a bar are never touched.
   */
  ghost predicate Accounted(o: Optimizer, order: Order, lengths: seq<int>, remaining: seq<int>, solution: seq<Application>) {
    |remaining| == |lengths|
    && (forall i :: 0 <= i < |lengths| ==> lengths[i] in order)
    && (forall i :: 0 <= i < |remaining| ==> remaining[i] >= 0)
    && (forall i :: 0 <= i < |lengths| ==> Produced(solution, lengths[i]) + remaining[i] == order[lengths[i]])
    && (forall i :: 0 <= i < |lengths| && !FitsAlone(o, lengths[i]) ==> remaining[i] == order[lengths[i]])
  }

  ghost predicate AllWellFormed(o: Optimizer, order: Order, solution: seq<Application>) {
    forall a :: a in solution ==> WellFormedApplication(o, order, a)
  }

  /** Cutting a feasible pattern `times` times, within the remaining demand, keeps the demand accounted for. */
  lemma StepAccounted(o: Optimizer, order: Order, lengths: seq<int>, before: seq<int>, after: seq<int>,
                      solution: seq<Application>, p: Pattern, times: nat)
    requires o.Valid() && OrderLengths(order, lengths) && Accounted(o, order, lengths, before, solution)
    requires IsFeasiblePattern(o, lengths, p)
    requires forall i :: 0 <= i < |lengths| ==> p.counts[i] * times <= before[i]
    requires |after| == |lengths| && forall i :: 0 <= i < |lengths| ==> after[i] == before[i] - p.counts[i] * times
    ensures Accounted(o, order, lengths, after, solution + [Application(ZipCounts(lengths, p.counts), p.waste, p.length, times, lengths)])
  {
    var a := Application(ZipCounts(lengths, p.counts), p.waste, p.length, times, lengths);
    var next := solution + [a];
    forall i | 0 <= i < |lengths|
      ensures Produced(next, lengths[i]) == Produced(solution, lengths[i]) + p.counts[i] * times
      ensures !FitsAlone(o, lengths[i]) ==> p.counts[i] == 0
    {
      StepProduced(o, order, lengths, solution, p, times, i);
      if !FitsAlone(o, lengths[i]) {
        FeasibleOnlyFitting(o, lengths, p.counts, i);
      }
    }
  }

  /** Cutting a feasible pattern at least once lowers the remaining total. */
  lemma StepLowersSum(o: Optimizer, lengths: seq<int>, before: seq<int>, after: seq<int>, p: Pattern, times: nat)
    requires o.Valid() && PositiveLengths(lengths) && IsFeasiblePattern(o, lengths, p) && times >= 1
    requires |before| == |lengths| && |after| == |lengths|
    requires forall i :: 0 <= i < |lengths| ==> after[i] == before[i] - p.counts[i] * times
    ensures SumOf(after) < SumOf(before)
  {
    FeasiblePatternWellFormed(o, lengths, p);
    SumAfterCut(before, p.counts, times, after);
    PositiveProduct(Pieces(p.counts), times);
  }

  lemma StepAllWellFormed(o: Optimizer, order: Order, solution: seq<Application>, a: Application)
    requires AllWellFormed(o, order, solution) && WellFormedApplication(o, order, a)
    ensures AllWellFormed(o, order, solution + [a])
  {
    assert forall b :: b in solution + [a] ==> b in solution || b == a;
  }

  /**
   * Lines 101-124: the selected pattern is cut `times` times, the minimum over
   * its lengths of how often the remaining demand holds it (and at least
   * once), and recorded. This keeps the loop's invariant and lowers the
   * remaining total, which stays non-negative.
   */
  method ApplyPattern(o: Optimizer, order: Order, lengths: seq<int>, patterns: seq<Pattern>,
                      remaining: seq<int>, solution: seq<Application>, k: nat)
    returns (after: seq<int>, next: seq<Application>, times: nat)
    requires o.Valid() && OrderLengths(order, lengths) && PatternsFor(o, lengths, patterns)
    requires Accounted(o, order, lengths, remaining, solution) && AllWellFormed(o, order, solution)
    requires SumOf(remaining) + |solution| <= SumOf(Demand(order, lengths))
    requires k < |patterns| && Eligible(patterns[k], remaining, o.UsableLength())
    ensures var p := patterns[k];
            Pieces(p.counts) > 0 && times == Max(1, MinQuotient(p.counts, remaining)) && times >= 1
            && after == Cut(remaining, p.counts, times)
            && next == solution + [Application(ZipCounts(lengths, p.counts), p.waste, p.length, times, lengths)]
    ensures Accounted(o, order, lengths, after, next) && AllWellFormed(o, order, next)
    ensures SumOf(after) + |next| <= SumOf(Demand(order, lengths))
    ensures 0 <= SumOf(after) < SumOf(remaining)
  {
    var p := patterns[k];
    FeasiblePatternWellFormed(o, lengths, p);
    TimesFits(p.counts, remaining);
    times := Max(1, MinQuotient(p.counts, remaining));
    after := CutPattern(remaining, p.counts, times);
    assert forall i :: 0 <= i < |lengths| ==> after[i] == remaining[i] - p.counts[i] * times;
    var a := Application(ZipCounts(lengths, p.counts), p.waste, p.length, times, lengths);
    StepAccounted(o, order, lengths, remaining, after, solution, p, times);
    StepLowersSum(o, lengths, remaining, after, p, times);
    StepWellFormed(o, order, lengths, p, times);
    StepAllWellFormed(o, order, solution, a);
    SumNonNegative(after);
    next := solution + [a];
  }

  /** `any(r > 0 for r in remaining)`. */
  predicate SomeWanted(remaining: seq<int>) {
    exists i :: 0 <= i < |remaining| && remaining[i] > 0
  }

  /**
   * The reference schedule of the greedy loop from the demand `remaining`:
   * while something is wanted and some pattern is eligible, the best one
   * is cut `max(1, min quotient)` times and the loop goes on from what is
   * left.
   */
  ghost function GreedyFrom(o: Optimizer, lengths: seq<int>, patterns: seq<Pattern>, remaining: seq<int>): seq<Application>
    requires o.Valid() && PositiveLengths(lengths) && PatternsFor(o, lengths, patterns)
    requires |remaining| == |lengths| && forall i :: 0 <= i < |remaining| ==> remaining[i] >= 0
    decreases SumOf(remaining)
  {
    PatternsCounts(o, lengths, patterns);
    FirstBestSpec(patterns, remaining, o.UsableLength(), |patterns|);
    if !SomeWanted(remaining) then []
    else
      match FirstBest(patterns, remaining, o.UsableLength(), |patterns|)
      case None => []
      case Some(b) =>
        var p := patterns[b];
        var times := StepTimes(o, lengths, patterns, remaining, b);
        var after := Cut(remaining, p.counts, times);
        StepOnCut(o, lengths, patterns, remaining, b);
        [Application(ZipCounts(lengths, p.counts), p.waste, p.length, times, lengths)]
          + GreedyFrom(o, lengths, patterns, after)
  }

  /** Every pattern of the list has a count per length. */
  lemma PatternsCounts(o: Optimizer, lengths: seq<int>, patterns: seq<Pattern>)
    requires o.Valid() && PositiveLengths(lengths) && PatternsFor(o, lengths, patterns)
    ensures forall k :: 0 <= k < |patterns| ==> |patterns[k].counts| == |lengths|
  {
    forall k | 0 <= k < |patterns| ensures |patterns[k].counts| == |lengths| {
      FeasiblePatternWellFormed(o, lengths, patterns[k]);
    }
  }

  /** Lines 101-103: how many bars the chosen pattern is cut on. */
  function StepTimes(o: Optimizer, lengths: seq<int>, patterns: seq<Pattern>, remaining: seq<int>, b: nat): (t: nat)
    requires o.Valid() && PositiveLengths(lengths) && PatternsFor(o, lengths, patterns) && |remaining| == |lengths|
    requires b < |patterns| && Eligible(patterns[b], remaining, o.UsableLength())
    ensures t >= 1
  {
    var p := patterns[b];
    FeasiblePatternWellFormed(o, lengths, p);
    PiecesUsedOfCandidate(p.counts, remaining);
    Max(1, MinQuotient(p.counts, remaining))
  }

  /** Cutting the chosen pattern keeps the demand non-negative and lowers its total. */
  lemma StepOnCut(o: Optimizer, lengths: seq<int>, patterns: seq<Pattern>, remaining: seq<int>, b: nat)
    requires o.Valid() && PositiveLengths(lengths) && PatternsFor(o, lengths, patterns) && |remaining| == |lengths|
    requires b < |patterns| && Eligible(patterns[b], remaining, o.UsableLength())
    ensures var p := patterns[b];
            var after := Cut(remaining, p.counts, StepTimes(o, lengths, patterns, remaining, b));
            (forall i :: 0 <= i < |after| ==> after[i] >= 0) && 0 <= SumOf(after) < SumOf(remaining)
  {
    var p := patterns[b];
    FeasiblePatternWellFormed(o, lengths, p);
    PiecesUsedOfCandidate(p.counts, remaining);
    TimesFits(p.counts, remaining);
    var times := StepTimes(o, lengths, patterns, remaining, b);
    var after := Cut(remaining, p.counts, times);
    StepLowersSum(o, lengths, remaining, after, p, times);
    SumNonNegative(after);
  }

  /** One round of the reference schedule: the chosen application, then the schedule from what is left. */
  lemma GreedyFromStep(o: Optimizer, lengths: seq<int>, patterns: seq<Pattern>, remaining: seq<int>,
                       solution: seq<Application>, target: seq<Application>, b: nat)
    requires o.Valid() && PositiveLengths(lengths) && PatternsFor(o, lengths, patterns)
    requires |remaining| == |lengths| && forall i :: 0 <= i < |remaining| ==> remaining[i] >= 0
    requires SomeWanted(remaining) && FirstBest(patterns, remaining, o.UsableLength(), |patterns|) == Some(b)
    requires solution + GreedyFrom(o, lengths, patterns, remaining) == target
    ensures b < |patterns| && Eligible(patterns[b], remaining, o.UsableLength())
    ensures var after := Cut(remaining, patterns[b].counts, StepTimes(o, lengths, patterns, remaining, b));
            forall i :: 0 <= i < |after| ==> after[i] >= 0
    ensures var p := patterns[b];
            var times := StepTimes(o, lengths, patterns, remaining, b);
            (solution + [Application(ZipCounts(lengths, p.counts), p.waste, p.length, times, lengths)])
              + GreedyFrom(o, lengths, patterns, Cut(remaining, p.counts, times)) == target
  {
    PatternsCounts(o, lengths, patterns);
    FirstBestSpec(patterns, remaining, o.UsableLength(), |patterns|);
    StepOnCut(o, lengths, patterns, remaining, b);
    var p := patterns[b];
    var times := StepTimes(o, lengths, patterns, remaining, b);
    var a := Application(ZipCounts(lengths, p.counts), p.waste, p.length, times, lengths);
    var rest := GreedyFrom(o, lengths, patterns, Cut(remaining, p.counts, times));
    assert GreedyFrom(o, lengths, patterns, remaining) == [a] + rest;
    assert (solution + [a]) + rest == solution + ([a] + rest);
  }

  /** The reference schedule is empty once nothing is wanted or nothing is eligible. */
  lemma GreedyFromDone(o: Optimizer, lengths: seq<int>, patterns: seq<Pattern>, remaining: seq<int>)
    requires o.Valid() && PositiveLengths(lengths) && PatternsFor(o, lengths, patterns)
    requires |remaining| == |lengths| && forall i :: 0 <= i < |remaining| ==> remaining[i] >= 0
    requires !SomeWanted(remaining) || FirstBest(patterns, remaining, o.UsableLength(), |patterns|).None?
    ensures GreedyFrom(o, lengths, patterns, remaining) == []
  {
  }

  /** How the loop of `solve` ends: every length still wanted does not fit on a bar. */
  lemma FinishedProduced(o: Optimizer, order: Order, lengths: seq<int>, remaining: seq<int>, solution: seq<Application>)
    requires o.Valid() && OrderLengths(order, lengths) && Accounted(o, order, lengths, remaining, solution)
    requires SumOf(remaining) + |solution| <= SumOf(Demand(order, lengths))
    requires forall i :: 0 <= i < |lengths| && remaining[i] > 0 ==> !FitsAlone(o, lengths[i])
    ensures forall l :: l in order ==> Produced(solution, l) == if FitsAlone(o, l) then order[l] else 0
    ensures solution == [] <==> forall l :: l in order ==> order[l] == 0 || !FitsAlone(o, l)
  {
    forall l | l in order ensures Produced(solution, l) == if FitsAlone(o, l) then order[l] else 0 {
      assert l in lengths;
      var i :| 0 <= i < |lengths| && lengths[i] == l;
    }
    if solution == [] {
      forall l | l in order ensures order[l] == 0 || !FitsAlone(o, l) {
        assert l in lengths;
        var i :| 0 <= i < |lengths| && lengths[i] == l;
      }
    }
    if forall l :: l in order ==> order[l] == 0 || !FitsAlone(o, l) {
      assert remaining == Demand(order, lengths) by {
        forall i | 0 <= i < |lengths| ensures remaining[i] == Demand(order, lengths)[i] {
          assert lengths[i] in order;
        }
      }
    }
  }

  /** Before the first pass nothing is produced and the whole demand remains. */
  lemma StartAccounted(o: Optimizer, order: Order, lengths: seq<int>)
    requires OrderLengths(order, lengths)
    ensures forall i :: 0 <= i < |lengths| ==> lengths[i] in order
    ensures Accounted(o, order, lengths, Demand(order, lengths), [])
  {
    assert forall i :: 0 <= i < |lengths| ==> lengths[i] in lengths;
  }

  /**
   * One pass of the loop of `solve`: pick the best pattern and cut it, or
   * report that no pattern is eligible, keeping to the reference schedule.
   */
  method GreedyRound(o: Optimizer, order: Order, lengths: seq<int>, patterns: seq<Pattern>,
                     remaining: seq<int>, solution: seq<Application>, ghost target: seq<Application>)
    returns (stuck: bool, after: seq<int>, next: seq<Application>)
    requires o.Valid() && OrderLengths(order, lengths) && PatternsFor(o, lengths, patterns)
    requires Accounted(o, order, lengths, remaining, solution) && AllWellFormed(o, order, solution)
    requires SumOf(remaining) + |solution| <= SumOf(Demand(order, lengths))
    requires SomeWanted(remaining) && solution + GreedyFrom(o, lengths, patterns, remaining) == target
    ensures Accounted(o, order, lengths, after, next) && AllWellFormed(o, order, next)
    ensures SumOf(after) + |next| <= SumOf(Demand(order, lengths))
    ensures next + GreedyFrom(o, lengths, patterns, after) == target
    ensures stuck ==> (GreedyFrom(o, lengths, patterns, after) == []
                       && forall i :: 0 <= i < |lengths| && after[i] > 0 ==> !FitsAlone(o, lengths[i]))
    ensures !stuck ==> 0 <= SumOf(after) < SumOf(remaining)
  {
    PatternsCounts(o, lengths, patterns);
    var best := PickBest(patterns, remaining, o.UsableLength());
    PickedIsFirstBest(patterns, remaining, o.UsableLength(), best);
    if best.None? {
      StuckOnlyOnUnfit(o, lengths, patterns, remaining);
      GreedyFromDone(o, lengths, patterns, remaining);
      return true, remaining, solution;
    }
    GreedyFromStep(o, lengths, patterns, remaining, solution, target, best.value);
    var times;
    after, next, times := ApplyPattern(o, order, lengths, patterns, remaining, solution, best.value);
    stuck := false;
  }

  /**
   * The greedy loop of `solve` (lines 81-126) over the order's lengths and a
   * pattern list holding only feasible patterns and every single-piece one:
   * it produces exactly the ordered quantity of every length that fits on a
   * bar, and nothing of any other, and its schedule is the reference one.
   */
  method Greedy(o: Optimizer, order: Order, lengths: seq<int>, patterns: seq<Pattern>) returns (solution: seq<Application>)
    requires o.Valid() && OrderLengths(order, lengths) && PatternsFor(o, lengths, patterns)
    ensures AllWellFormed(o, order, solution)
    ensures forall l :: l in order ==> Produced(solution, l) == if FitsAlone(o, l) then order[l] else 0
    ensures solution == [] <==> forall l :: l in order ==> order[l] == 0 || !FitsAlone(o, l)
    ensures solution == GreedyFrom(o, lengths, patterns, Demand(order, lengths))
  {
    StartAccounted(o, order, lengths);
    var remaining := Demand(order, lengths);
    ghost var target := GreedyFrom(o, lengths, patterns, remaining);
    solution := [];

    while SomeWanted(remaining)
      invariant Accounted(o, order, lengths, remaining, solution)
      invariant AllWellFormed(o, order, solution)
      invariant SumOf(remaining) + |solution| <= SumOf(Demand(order, lengths))
      invariant solution + GreedyFrom(o, lengths, patterns, remaining) == target
      decreases SumOf(remaining)
    {
      var stuck;
      stuck, remaining, solution := GreedyRound(o, order, lengths, patterns, remaining, solution, target);
      if stuck {
        break;
      }
    }
    if !SomeWanted(remaining) {
      GreedyFromDone(o, lengths, patterns, remaining);
    }
    FinishedProduced(o, order, lengths, remaining, solution);
  }

  /**
   * The schedule `solve` computes for a non-empty order: the reference
   * greedy schedule over the lengths in descending order and the patterns
   * `generate_patterns` lists for them.
   */
  ghost function GreedyRef(o: Optimizer, order: Order): seq<Application>
    requires o.Valid() && ValidOrder(order)
  {
    var lengths := Descending(order.Keys);
    DescendingSpec(order.Keys);
    assert PositiveLengths(lengths) by {
      forall i | 0 <= i < |lengths| ensures lengths[i] > 0 {
        assert lengths[i] in lengths;
      }
    }
    GeneratedPatternsFor(o, lengths);
    assert forall i :: 0 <= i < |lengths| ==> lengths[i] in lengths;
    GreedyFrom(o, lengths, Generated(o, lengths), Demand(order, lengths))
  }

  /** What `solve` returns: None for an empty order, otherwise the reference schedule. */
  ghost function SolveRef(o: Optimizer, order: Order): Option<seq<Application>>
    requires o.Valid() && ValidOrder(order)
  {
    if order == map[] then None else Some(GreedyRef(o, order))
  }

  /**
   * `solve(order)`: None for an empty order; otherwise the reference greedy
   * schedule, whose applications of generated patterns produce exactly the
   * ordered quantity of every length that fits on a bar, and nothing of any other.
   */
  method Solve(o: Optimizer, order: Order) returns (result: Option<seq<Application>>)
    requires o.Valid() && ValidOrder(order)
    ensures result == SolveRef(o, order)
    ensures result.None? <==> order == map[]
    ensures result.Some? ==> forall a :: a in result.value ==> WellFormedApplication(o, order, a)
    ensures result.Some? ==> forall l :: l in order ==>
              Produced(result.value, l) == if FitsAlone(o, l) then order[l] else 0
    ensures result.Some? ==> (result.value == [] <==> forall l :: l in order ==> order[l] == 0 || !FitsAlone(o, l))
  {
    if order == map[] {
      return None;
    }
    var lengths := SortedDescending(order.Keys);
    assert OrderLengths(order, lengths) by {
      forall i | 0 <= i < |lengths| ensures lengths[i] > 0 {
        assert lengths[i] in lengths;
      }
    }
    var patterns := GeneratePatterns(o, lengths);
    GeneratedPatternsFor(o, lengths);
    var solution := Greedy(o, order, lengths, patterns);
    return Some(solution);
  }
}
