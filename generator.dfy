/**
 * `KapOptimering.generate_patterns` and `_generate_recursive` as the
 * imperative code they are: a depth-first search that writes counts into one
 * shared array and appends to one shared list, and a loop over the product.
 */
module Generator {
  import opened Stock
  import opened Sorting
  import opened Enumeration

  /**
   * The leaf check of lines 37-45 and 52-59: a count vector with pieces whose
   * kerf-charged length fits is appended with its waste and length; any
   * other vector appends nothing.
   */
  method AppendIfFeasible(o: Optimizer, lengths: seq<int>, counts: seq<nat>, patterns: seq<Pattern>)
    returns (out: seq<Pattern>)
    requires |counts| == |lengths|
    ensures Feasible(o, lengths, counts) ==> out == patterns + [MkPattern(o, lengths, counts)]
    ensures !Feasible(o, lengths, counts) ==> out == patterns
  {
    out := patterns;
    if Pieces(counts) > 0 {
      var length := PatternLength(o, counts, lengths);
      if length <= o.UsableLength() {
        out := patterns + [Pattern(counts, o.UsableLength() - length, length)];
      }
    }
  }

  /**
   * `_generate_recursive(lengths, max_counts, current, idx, patterns)`: with
   * `current[..idx]` committed and the rest zero, appends every pattern below
   * that prefix and leaves `current` as it found it.
   */
  method GenerateRecursive(o: Optimizer, lengths: seq<int>, maxCounts: seq<int>, current: array<nat>,
                           idx: nat, patterns: seq<Pattern>) returns (out: seq<Pattern>)
    requires o.Valid() && PositiveLengths(lengths) && |maxCounts| == |lengths|
    requires current.Length == |lengths| && idx <= |lengths|
    requires forall i :: idx <= i < current.Length ==> current[i] == 0
    modifies current
    ensures current[..] == old(current[..])
    ensures out == patterns + Rec(o, lengths, maxCounts, old(current[..idx]))
    decreases |lengths| - idx, 1
  {
    if idx == |lengths| {
      var counts := current[..];
      assert counts == current[..idx];
      assert Rec(o, lengths, maxCounts, counts) == Leaf(o, lengths, counts);
      out := AppendIfFeasible(o, lengths, counts, patterns);
      return;
    }
    ghost var prefix := current[..idx];
    ghost var before := current[..];
    var maxThis := MaxThis(o, lengths, maxCounts, current[..idx]);
    out := patterns;
    var count := 0;
    while count < maxThis + 1
      invariant 0 <= count && (count <= maxThis + 1 || count == 0)
      invariant current[..idx] == prefix
      invariant forall i :: idx < i < current.Length ==> current[i] == 0
      invariant out == patterns + RecUpTo(o, lengths, maxCounts, prefix, count)
    {
      out := TryCount(o, lengths, maxCounts, current, idx, count, prefix, out);
      RecUpToStep(o, lengths, maxCounts, prefix, count);
      count := count + 1;
    }
    current[idx] := 0;
    assert current[..] == before by {
      forall i | 0 <= i < current.Length ensures current[i] == before[i] {
        if i < idx {
          assert current[i] == current[..idx][i];
        }
      }
    }
  }

  /** One iteration of the loop above: fixes `count` copies of the current length and recurses. */
  method TryCount(o: Optimizer, lengths: seq<int>, maxCounts: seq<int>, current: array<nat>,
                  idx: nat, count: nat, ghost prefix: seq<nat>, patterns: seq<Pattern>) returns (out: seq<Pattern>)
    requires o.Valid() && PositiveLengths(lengths) && |maxCounts| == |lengths|
    requires current.Length == |lengths| && idx < |lengths| && current[..idx] == prefix
    requires forall i :: idx < i < current.Length ==> current[i] == 0
    modifies current
    ensures current[..idx] == prefix
    ensures forall i :: idx < i < current.Length ==> current[i] == 0
    ensures out == patterns + Rec(o, lengths, maxCounts, prefix + [count])
    decreases |lengths| - idx, 0
  {
    current[idx] := count;
    assert current[..idx + 1] == prefix + [count];
    out := GenerateRecursive(o, lengths, maxCounts, current, idx + 1, patterns);
    assert current[..idx] == current[..idx + 1][..idx];
  }

  lemma RecUpToStep(o: Optimizer, lengths: seq<int>, ms: seq<int>, prefix: seq<nat>, count: nat)
    requires o.Valid() && PositiveLengths(lengths) && |ms| == |lengths| && |prefix| < |lengths|
    ensures RecUpTo(o, lengths, ms, prefix, count + 1)
         == RecUpTo(o, lengths, ms, prefix, count) + Rec(o, lengths, ms, prefix + [count])
  {
  }

  /** `generate_patterns(lengths)`: the feasible patterns, sorted stably by waste. */
  method GeneratePatterns(o: Optimizer, lengths: seq<int>) returns (patterns: seq<Pattern>)
    requires o.Valid() && PositiveLengths(lengths)
    ensures patterns == Generated(o, lengths)
  {
    var maxCounts := MaxCounts(o, lengths);
    var found: seq<Pattern> := [];
    if |lengths| > 3 {
      var current := new nat[|lengths|](i => 0);
      assert current[..0] == [];
      found := GenerateRecursive(o, lengths, maxCounts, current, 0, []);
      RecAgrees(o, lengths, maxCounts, []);
      assert found == Rec(o, lengths, maxCounts, []);
    } else {
      var candidates := Product(maxCounts);
      ProductShape(maxCounts);
      var i := 0;
      while i < |candidates|
        invariant 0 <= i <= |candidates|
        invariant found == FilterMap(o, lengths, candidates[..i])
      {
        found := AppendIfFeasible(o, lengths, candidates[i], found);
        assert candidates[..i + 1][..i] == candidates[..i];
        i := i + 1;
      }
      assert candidates[..i] == candidates;
    }
    patterns := SortBy(found, WasteKey);
  }
}
