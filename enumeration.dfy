/**
 * What `generate_patterns` and `_generate_recursive` (app.py) compute, as
 * values: the Cartesian-product enumeration used for at most three lengths,
 * the pruned recursion used otherwise, and the list both produce once sorted
 * by waste.
 */
module Enumeration {
  import opened Stock
  import opened Sorting

  /** A generated pattern, the dictionary `{'counts', 'waste', 'length'}`; lengths in tenths of a millimetre. */
  datatype Pattern = Pattern(counts: seq<nat>, waste: int, length: int)

  /** The pattern the generator appends for the count vector `counts`. */
  function MkPattern(o: Optimizer, lengths: seq<int>, counts: seq<nat>): Pattern
    requires |counts| == |lengths|
  {
    var length := PatternLength(o, counts, lengths);
    Pattern(counts, o.UsableLength() - length, length)
  }

  /** A count vector is feasible when it is not all zero and its kerf-charged length fits the usable length. */
  predicate Feasible(o: Optimizer, lengths: seq<int>, counts: seq<nat>) {
    |counts| == |lengths| && Pieces(counts) > 0 && PatternLength(o, counts, lengths) <= o.UsableLength()
  }

  /** `p` is the pattern generated for a feasible count vector. */
  predicate IsFeasiblePattern(o: Optimizer, lengths: seq<int>, p: Pattern) {
    Feasible(o, lengths, p.counts) && p == MkPattern(o, lengths, p.counts)
  }

  /** The leaf test both strategies apply to a complete count vector (lines 37-45 and 52-59). */
  function Leaf(o: Optimizer, lengths: seq<int>, counts: seq<nat>): seq<Pattern>
    requires |counts| == |lengths|
  {
    if Pieces(counts) == 0 then []
    else
      var length := PatternLength(o, counts, lengths);
      if length <= o.UsableLength() then [Pattern(counts, o.UsableLength() - length, length)] else []
  }

  predicate AllOfLength(vs: seq<seq<nat>>, n: nat) {
    forall i :: 0 <= i < |vs| ==> |vs[i]| == n
  }

  /** The patterns appended while walking the count vectors `vs` in order. */
  function FilterMap(o: Optimizer, lengths: seq<int>, vs: seq<seq<nat>>): seq<Pattern>
    requires AllOfLength(vs, |lengths|)
  {
    if vs == [] then [] else FilterMap(o, lengths, vs[..|vs| - 1]) + Leaf(o, lengths, vs[|vs| - 1])
  }

  /** `max_counts` (line 29): how many pieces of each length fit on a bar on their own. */
  function MaxCounts(o: Optimizer, lengths: seq<int>): (ms: seq<int>)
    requires o.Valid() && PositiveLengths(lengths)
    ensures |ms| == |lengths|
  {
    seq(|lengths|, i requires 0 <= i < |lengths| => o.UsableLength() / Charge(o, lengths[i]))
  }

  /** `v` extends `prefix` and stays within the bounds `ms` after it. */
  ghost predicate InBox(ms: seq<int>, prefix: seq<nat>, v: seq<nat>) {
    |v| == |ms| && |prefix| <= |v| && v[..|prefix|] == prefix
    && forall i :: |prefix| <= i < |ms| ==> v[i] <= ms[i]
  }

  /** The vectors `itertools.product` yields below `prefix`, in its order (last index fastest). */
  function ProdFrom(ms: seq<int>, prefix: seq<nat>): seq<seq<nat>>
    requires |prefix| <= |ms|
    decreases |ms| - |prefix|, 1, 0
  {
    if |prefix| == |ms| then [prefix] else ProdUpTo(ms, prefix, ms[|prefix|] + 1)
  }

  /** The vectors below `prefix` whose next count is below `k`. */
  function ProdUpTo(ms: seq<int>, prefix: seq<nat>, k: int): seq<seq<nat>>
    requires |prefix| < |ms|
    decreases |ms| - |prefix|, 0, k
  {
    if k <= 0 then [] else ProdUpTo(ms, prefix, k - 1) + ProdFrom(ms, prefix + [k - 1])
  }

  /** `product(*[range(m + 1) for m in ms])`. */
  function Product(ms: seq<int>): seq<seq<nat>> {
    ProdFrom(ms, [])
  }

  function Min(a: int, b: int): int {
    if a <= b then a else b
  }

  /** `max_this` (lines 63-67): the largest count tried at depth |prefix|. */
  function MaxThis(o: Optimizer, lengths: seq<int>, ms: seq<int>, prefix: seq<nat>): int
    requires o.Valid() && PositiveLengths(lengths) && |ms| == |lengths| && |prefix| < |lengths|
  {
    var idx := |prefix|;
    var currentLength := PatternLength(o, prefix + Zeros(|lengths| - idx), lengths[..idx]);
    var remaining := o.UsableLength() - currentLength;
    Min(ms[idx], TruncDiv(remaining, Charge(o, lengths[idx])) + 1)
  }

  /** The patterns `_generate_recursive` appends once `prefix` is committed. */
  function Rec(o: Optimizer, lengths: seq<int>, ms: seq<int>, prefix: seq<nat>): seq<Pattern>
    requires o.Valid() && PositiveLengths(lengths) && |ms| == |lengths| && |prefix| <= |lengths|
    decreases |lengths| - |prefix|, 1, 0
  {
    if |prefix| == |lengths| then Leaf(o, lengths, prefix)
    else RecUpTo(o, lengths, ms, prefix, MaxThis(o, lengths, ms, prefix) + 1)
  }

  /** The patterns the loop of line 69 appends for the counts below `k`. */
  function RecUpTo(o: Optimizer, lengths: seq<int>, ms: seq<int>, prefix: seq<nat>, k: int): seq<Pattern>
    requires o.Valid() && PositiveLengths(lengths) && |ms| == |lengths| && |prefix| < |lengths|
    decreases |lengths| - |prefix|, 0, k
  {
    if k <= 0 then [] else RecUpTo(o, lengths, ms, prefix, k - 1) + Rec(o, lengths, ms, prefix + [k - 1])
  }

  /** The sort key of `patterns.sort(key=lambda p: p['waste'])`. */
  function WasteKey(p: Pattern): Key {
    Key(p.waste as real, 0)
  }

  /** The patterns in generation order, before sorting. */
  function Enumerated(o: Optimizer, lengths: seq<int>): seq<Pattern>
    requires o.Valid() && PositiveLengths(lengths)
  {
    var ms := MaxCounts(o, lengths);
    ProductShape(ms);
    FilterMap(o, lengths, Product(ms))
  }

  /** The list `generate_patterns` returns. */
  function Generated(o: Optimizer, lengths: seq<int>): seq<Pattern>
    requires o.Valid() && PositiveLengths(lengths)
  {
    SortBy(Enumerated(o, lengths), WasteKey)
  }

  // ---------------------------------------------------------------------
  // The product enumeration lists every vector in the box exactly once.

  lemma InBoxSnoc(ms: seq<int>, prefix: seq<nat>, c: nat, v: seq<nat>)
    requires |prefix| < |ms| && c <= ms[|prefix|]
    ensures InBox(ms, prefix + [c], v) <==> InBox(ms, prefix, v) && v[|prefix|] == c
  {
    var q := prefix + [c];
    if InBox(ms, q, v) {
      assert v[..|prefix|] == v[..|q|][..|prefix|] == prefix;
      assert v[|prefix|] == v[..|q|][|prefix|] == c;
    }
    if InBox(ms, prefix, v) && v[|prefix|] == c {
      assert v[..|q|] == v[..|prefix|] + [v[|prefix|]];
    }
  }

  lemma {:induction false} ProdFromCount(ms: seq<int>, prefix: seq<nat>, v: seq<nat>)
    requires |prefix| <= |ms|
    ensures multiset(ProdFrom(ms, prefix))[v] == if InBox(ms, prefix, v) then 1 else 0
    decreases |ms| - |prefix|, 1, 0
  {
    if |prefix| == |ms| {
      if InBox(ms, prefix, v) {
        assert v == v[..|prefix|];
      }
    } else {
      ProdUpToCount(ms, prefix, ms[|prefix|] + 1, v);
    }
  }

  lemma {:induction false} ProdUpToCount(ms: seq<int>, prefix: seq<nat>, k: int, v: seq<nat>)
    requires |prefix| < |ms| && k <= ms[|prefix|] + 1
    ensures multiset(ProdUpTo(ms, prefix, k))[v]
         == if InBox(ms, prefix, v) && v[|prefix|] < k then 1 else 0
    decreases |ms| - |prefix|, 0, k
  {
    if k > 0 {
      ProdUpToCount(ms, prefix, k - 1, v);
      ProdFromCount(ms, prefix + [k - 1], v);
      InBoxSnoc(ms, prefix, k - 1, v);
    }
  }

  lemma ProductShape(ms: seq<int>)
    ensures AllOfLength(Product(ms), |ms|)
  {
    var vs := Product(ms);
    forall i | 0 <= i < |vs| ensures |vs[i]| == |ms| {
      ProdFromCount(ms, [], vs[i]);
    }
  }

  lemma ProdFromShape(ms: seq<int>, prefix: seq<nat>, v: seq<nat>)
    requires |prefix| <= |ms| && v in ProdFrom(ms, prefix)
    ensures InBox(ms, prefix, v)
  {
    ProdFromCount(ms, prefix, v);
  }

  // ---------------------------------------------------------------------
  // Walking a list of vectors.

  lemma {:induction false} FilterMapAppend(o: Optimizer, lengths: seq<int>, a: seq<seq<nat>>, b: seq<seq<nat>>)
    requires AllOfLength(a, |lengths|) && AllOfLength(b, |lengths|)
    ensures AllOfLength(a + b, |lengths|)
    ensures FilterMap(o, lengths, a + b) == FilterMap(o, lengths, a) + FilterMap(o, lengths, b)
  {
    if b == [] {
      assert a + b == a;
    } else {
      assert (a + b)[..|a + b| - 1] == a + b[..|b| - 1];
      FilterMapAppend(o, lengths, a, b[..|b| - 1]);
    }
  }

  lemma {:induction false} FilterMapNone(o: Optimizer, lengths: seq<int>, vs: seq<seq<nat>>)
    requires AllOfLength(vs, |lengths|)
    requires forall i :: 0 <= i < |vs| ==> Leaf(o, lengths, vs[i]) == []
    ensures FilterMap(o, lengths, vs) == []
  {
    if vs != [] {
      FilterMapNone(o, lengths, vs[..|vs| - 1]);
    }
  }

  lemma LeafIsFeasible(o: Optimizer, lengths: seq<int>, v: seq<nat>)
    requires |v| == |lengths|
    ensures Leaf(o, lengths, v) == if Feasible(o, lengths, v) then [MkPattern(o, lengths, v)] else []
  {
  }

  /** Walking `vs` appends the feasible pattern of each vector once per occurrence, and nothing else. */
  lemma {:induction false} FilterMapCount(o: Optimizer, lengths: seq<int>, vs: seq<seq<nat>>, x: Pattern)
    requires AllOfLength(vs, |lengths|)
    ensures multiset(FilterMap(o, lengths, vs))[x]
         == if IsFeasiblePattern(o, lengths, x) then multiset(vs)[x.counts] else 0
  {
    if vs != [] {
      var init := vs[..|vs| - 1];
      var w := vs[|vs| - 1];
      assert vs == init + [w];
      FilterMapCount(o, lengths, init, x);
      LeafIsFeasible(o, lengths, w);
    }
  }

  // ---------------------------------------------------------------------
  // The recursion with its bound produces exactly the product's patterns.

  /** No vector below `prefix + [c]` fits when `c` pieces of the next length overrun the room left. */
  lemma NoFit(o: Optimizer, lengths: seq<int>, ms: seq<int>, prefix: seq<nat>, c: nat)
    requires o.Valid() && PositiveLengths(lengths) && |ms| == |lengths| && |prefix| < |lengths|
    requires c * Charge(o, lengths[|prefix|]) > o.UsableLength() - Charged(o, prefix, lengths[..|prefix|])
    ensures AllOfLength(ProdFrom(ms, prefix + [c]), |lengths|)
    ensures FilterMap(o, lengths, ProdFrom(ms, prefix + [c])) == []
  {
    var q := prefix + [c];
    var vs := ProdFrom(ms, q);
    forall i | 0 <= i < |vs| ensures |vs[i]| == |lengths| && Leaf(o, lengths, vs[i]) == [] {
      var v := vs[i];
      ProdFromShape(ms, q, v);
      ChargedPrefixBound(o, v, lengths, |q|);
      ChargedSnoc(o, prefix, c, lengths);
      PatternLengthIsCharged(o, v, lengths);
    }
    FilterMapNone(o, lengths, vs);
  }

  /**
   * The extra count `int(remaining / (l + kerf)) + 1` that line 67 lets the
   * recursion try only leads to vectors the leaf check of line 54 rejects.
   */
  lemma PlusOneRejected(o: Optimizer, lengths: seq<int>, ms: seq<int>, prefix: seq<nat>, c: nat)
    requires o.Valid() && PositiveLengths(lengths) && |ms| == |lengths| && |prefix| < |lengths|
    requires c == TruncDiv(o.UsableLength() - Charged(o, prefix, lengths[..|prefix|]), Charge(o, lengths[|prefix|])) + 1
    ensures Rec(o, lengths, ms, prefix + [c]) == []
  {
    OverCapacityRejected(o, lengths, ms, prefix, c);
    RecAgrees(o, lengths, ms, prefix + [c]);
  }

  lemma {:induction false} RecAgrees(o: Optimizer, lengths: seq<int>, ms: seq<int>, prefix: seq<nat>)
    requires o.Valid() && PositiveLengths(lengths) && |ms| == |lengths| && |prefix| <= |lengths|
    ensures AllOfLength(ProdFrom(ms, prefix), |lengths|)
    ensures FilterMap(o, lengths, ProdFrom(ms, prefix)) == Rec(o, lengths, ms, prefix)
    decreases |lengths| - |prefix|, 1, 0
  {
    if |prefix| == |lengths| {
      LeafAgrees(o, lengths, ms, prefix);
    } else {
      var m := ms[|prefix|];
      MaxThisInBox(o, lengths, ms, prefix);
      RecUpToAgrees(o, lengths, ms, prefix, m + 1);
      assert ProdFrom(ms, prefix) == ProdUpTo(ms, prefix, m + 1);
      assert Rec(o, lengths, ms, prefix) == RecUpTo(o, lengths, ms, prefix, MaxThis(o, lengths, ms, prefix) + 1);
    }
  }

  /** At full depth both strategies apply the leaf check to the one complete vector. */
  lemma LeafAgrees(o: Optimizer, lengths: seq<int>, ms: seq<int>, prefix: seq<nat>)
    requires o.Valid() && PositiveLengths(lengths) && |ms| == |lengths| && |prefix| == |lengths|
    ensures AllOfLength(ProdFrom(ms, prefix), |lengths|)
    ensures FilterMap(o, lengths, ProdFrom(ms, prefix)) == Rec(o, lengths, ms, prefix)
  {
    assert ProdFrom(ms, prefix) == [prefix];
    assert [prefix][..0] == [];
  }

  lemma {:induction false} RecUpToAgrees(o: Optimizer, lengths: seq<int>, ms: seq<int>, prefix: seq<nat>, k: int)
    requires o.Valid() && PositiveLengths(lengths) && |ms| == |lengths| && |prefix| < |lengths|
    requires k <= ms[|prefix|] + 1
    ensures AllOfLength(ProdUpTo(ms, prefix, k), |lengths|)
    ensures FilterMap(o, lengths, ProdUpTo(ms, prefix, k))
         == RecUpTo(o, lengths, ms, prefix, Min(k, MaxThis(o, lengths, ms, prefix) + 1))
    decreases |lengths| - |prefix|, 0, k
  {
    if k > 0 {
      var c: nat := k - 1;
      RecUpToAgrees(o, lengths, ms, prefix, c);
      RecAgrees(o, lengths, ms, prefix + [c]);
      RecUpToStepAgrees(o, lengths, ms, prefix, c);
    }
  }

  /**
   * One more count at the current depth: the product's vectors below it
   * filter to what the recursion appends for it, which is nothing beyond
   * the bound of line 67.
   */
  lemma RecUpToStepAgrees(o: Optimizer, lengths: seq<int>, ms: seq<int>, prefix: seq<nat>, c: nat)
    requires o.Valid() && PositiveLengths(lengths) && |ms| == |lengths| && |prefix| < |lengths|
    requires c <= ms[|prefix|]
    requires AllOfLength(ProdUpTo(ms, prefix, c), |lengths|)
    requires FilterMap(o, lengths, ProdUpTo(ms, prefix, c))
          == RecUpTo(o, lengths, ms, prefix, Min(c, MaxThis(o, lengths, ms, prefix) + 1))
    requires AllOfLength(ProdFrom(ms, prefix + [c]), |lengths|)
    requires FilterMap(o, lengths, ProdFrom(ms, prefix + [c])) == Rec(o, lengths, ms, prefix + [c])
    ensures AllOfLength(ProdUpTo(ms, prefix, c + 1), |lengths|)
    ensures FilterMap(o, lengths, ProdUpTo(ms, prefix, c + 1))
         == RecUpTo(o, lengths, ms, prefix, Min(c + 1, MaxThis(o, lengths, ms, prefix) + 1))
  {
    var mt := MaxThis(o, lengths, ms, prefix);
    var k := c + 1;
    FilterMapAppend(o, lengths, ProdUpTo(ms, prefix, c), ProdFrom(ms, prefix + [c]));
    var before := FilterMap(o, lengths, ProdUpTo(ms, prefix, c));
    var here := FilterMap(o, lengths, ProdFrom(ms, prefix + [c]));
    assert FilterMap(o, lengths, ProdUpTo(ms, prefix, k)) == before + here;
    if c > mt {
      AboveMaxThis(o, lengths, ms, prefix, c);
      OverCapacityRejected(o, lengths, ms, prefix, c);
      assert here == [];
      assert Min(k, mt + 1) == Min(c, mt + 1);
      assert before + here == before;
    } else {
      assert Min(k, mt + 1) == k && Min(c, mt + 1) == c;
      assert RecUpTo(o, lengths, ms, prefix, k) == RecUpTo(o, lengths, ms, prefix, c) + Rec(o, lengths, ms, prefix + [c]);
    }
  }

  /** The bound of line 67 never exceeds the box of line 29. */
  lemma MaxThisInBox(o: Optimizer, lengths: seq<int>, ms: seq<int>, prefix: seq<nat>)
    requires o.Valid() && PositiveLengths(lengths) && |ms| == |lengths| && |prefix| < |lengths|
    ensures MaxThis(o, lengths, ms, prefix) <= ms[|prefix|]
  {
  }

  /** A count in the box above the bound of line 67 overruns what the committed prefix leaves of the bar. */
  lemma AboveMaxThis(o: Optimizer, lengths: seq<int>, ms: seq<int>, prefix: seq<nat>, c: int)
    requires o.Valid() && PositiveLengths(lengths) && |ms| == |lengths| && |prefix| < |lengths|
    requires c <= ms[|prefix|] && c > MaxThis(o, lengths, ms, prefix)
    ensures c >= TruncDiv(o.UsableLength() - Charged(o, prefix, lengths[..|prefix|]), Charge(o, lengths[|prefix|])) + 1
  {
    PaddedPrefixLength(o, prefix, lengths);
  }

  /** A count that overruns what the committed prefix leaves of the bar only leads to vectors the leaf check rejects. */
  lemma OverCapacityRejected(o: Optimizer, lengths: seq<int>, ms: seq<int>, prefix: seq<nat>, c: nat)
    requires o.Valid() && PositiveLengths(lengths) && |ms| == |lengths| && |prefix| < |lengths|
    requires c >= TruncDiv(o.UsableLength() - Charged(o, prefix, lengths[..|prefix|]), Charge(o, lengths[|prefix|])) + 1
    ensures AllOfLength(ProdFrom(ms, prefix + [c]), |lengths|)
    ensures FilterMap(o, lengths, ProdFrom(ms, prefix + [c])) == []
  {
    TruncDivExceeded(o.UsableLength() - Charged(o, prefix, lengths[..|prefix|]), Charge(o, lengths[|prefix|]), c);
    NoFit(o, lengths, ms, prefix, c);
  }

  // ---------------------------------------------------------------------
  // Soundness, completeness and uniqueness of the generated list.

  /** Every piece count of a feasible vector is within the bound of line 29. */
  lemma FeasibleInBox(o: Optimizer, lengths: seq<int>, v: seq<nat>)
    requires o.Valid() && PositiveLengths(lengths) && Feasible(o, lengths, v)
    ensures InBox(MaxCounts(o, lengths), [], v)
  {
    var ms := MaxCounts(o, lengths);
    PatternLengthIsCharged(o, v, lengths);
    forall i | 0 <= i < |ms| ensures v[i] <= ms[i] {
      ChargedAtLeastEntry(o, v, lengths, i);
      FloorBound(v[i], Charge(o, lengths[i]), o.UsableLength());
    }
  }

  /** In generation order, every feasible pattern appears exactly once and nothing else appears. */
  lemma EnumeratedExactlyOnce(o: Optimizer, lengths: seq<int>, x: Pattern)
    requires o.Valid() && PositiveLengths(lengths)
    ensures multiset(Enumerated(o, lengths))[x] == if IsFeasiblePattern(o, lengths, x) then 1 else 0
  {
    var ms := MaxCounts(o, lengths);
    ProductShape(ms);
    FilterMapCount(o, lengths, Product(ms), x);
    if IsFeasiblePattern(o, lengths, x) {
      ProdFromCount(ms, [], x.counts);
      FeasibleInBox(o, lengths, x.counts);
    }
  }

  /**
   * The generated list holds every non-zero count vector whose kerf-charged
   * length fits, each exactly once, and no other pattern.
   */
  lemma GeneratedExactlyOnce(o: Optimizer, lengths: seq<int>, x: Pattern)
    requires o.Valid() && PositiveLengths(lengths)
    ensures multiset(Generated(o, lengths))[x] == if IsFeasiblePattern(o, lengths, x) then 1 else 0
  {
    EnumeratedExactlyOnce(o, lengths, x);
    SortByPermutes(Enumerated(o, lengths), WasteKey);
  }

  /** A feasible pattern is well formed: non-zero, within the usable length, and its waste is what is left. */
  lemma FeasiblePatternWellFormed(o: Optimizer, lengths: seq<int>, p: Pattern)
    requires o.Valid() && PositiveLengths(lengths) && IsFeasiblePattern(o, lengths, p)
    ensures |p.counts| == |lengths| && Pieces(p.counts) > 0
    ensures 0 < p.length <= o.UsableLength()
    ensures p.waste == o.UsableLength() - p.length && 0 <= p.waste < o.UsableLength()
  {
    PatternLengthIsCharged(o, p.counts, lengths);
    PiecesZero(p.counts);
    var i :| 0 <= i < |p.counts| && p.counts[i] != 0;
    ChargedAtLeastEntry(o, p.counts, lengths, i);
    MulMonotone(1, p.counts[i], Charge(o, lengths[i]));
  }

  /** Every generated pattern is feasible and well formed. */
  lemma GeneratedWellFormed(o: Optimizer, lengths: seq<int>, p: Pattern)
    requires o.Valid() && PositiveLengths(lengths) && p in Generated(o, lengths)
    ensures IsFeasiblePattern(o, lengths, p)
    ensures |p.counts| == |lengths| && Pieces(p.counts) > 0
    ensures 0 < p.length <= o.UsableLength()
    ensures p.waste == o.UsableLength() - p.length && 0 <= p.waste < o.UsableLength()
  {
    GeneratedExactlyOnce(o, lengths, p);
    assert p in multiset(Generated(o, lengths));
    FeasiblePatternWellFormed(o, lengths, p);
  }

  /** The generated list is sorted by waste, and patterns of equal waste keep their generation order. */
  lemma GeneratedSortedStably(o: Optimizer, lengths: seq<int>, w: int)
    requires o.Valid() && PositiveLengths(lengths)
    ensures var g := Generated(o, lengths);
            forall i, j :: 0 <= i < j < |g| ==> g[i].waste <= g[j].waste
    ensures KeyClass(Generated(o, lengths), WasteKey, Key(w as real, 0))
         == KeyClass(Enumerated(o, lengths), WasteKey, Key(w as real, 0))
  {
    var g := Generated(o, lengths);
    SortBySorted(Enumerated(o, lengths), WasteKey);
    forall i, j | 0 <= i < j < |g| ensures g[i].waste <= g[j].waste {
      assert KeyLe(WasteKey(g[i]), WasteKey(g[j]));
    }
    SortByIsStable(Enumerated(o, lengths), WasteKey, Key(w as real, 0));
  }

  /** The count vector with a single piece of length number `i`. */
  function Unit(n: nat, i: nat): (u: seq<nat>)
    requires i < n
    ensures |u| == n
  {
    Zeros(n)[i := 1]
  }

  lemma {:induction false} ChargedZeros(o: Optimizer, lengths: seq<int>)
    ensures Charged(o, Zeros(|lengths|), lengths) == 0
  {
    if lengths != [] {
      var n := |lengths|;
      assert Zeros(n)[..n - 1] == Zeros(n - 1);
      ChargedZeros(o, lengths[..n - 1]);
    }
  }

  lemma {:induction false} ChargedUnit(o: Optimizer, lengths: seq<int>, i: nat)
    requires i < |lengths|
    ensures Charged(o, Unit(|lengths|, i), lengths) == Charge(o, lengths[i])
    ensures Pieces(Unit(|lengths|, i)) == 1
  {
    var n := |lengths|;
    var u := Unit(n, i);
    if i == n - 1 {
      assert u[..n - 1] == Zeros(n - 1);
      ChargedZeros(o, lengths[..n - 1]);
      PiecesZero(Zeros(n - 1));
    } else {
      assert u[..n - 1] == Unit(n - 1, i);
      ChargedUnit(o, lengths[..n - 1], i);
    }
  }

  /** Every length that fits on a bar on its own has its single-piece pattern generated. */
  lemma UnitPatternGenerated(o: Optimizer, lengths: seq<int>, i: nat)
    requires o.Valid() && PositiveLengths(lengths) && i < |lengths| && FitsAlone(o, lengths[i])
    ensures MkPattern(o, lengths, Unit(|lengths|, i)) in Generated(o, lengths)
  {
    var u := Unit(|lengths|, i);
    ChargedUnit(o, lengths, i);
    PatternLengthIsCharged(o, u, lengths);
    GeneratedExactlyOnce(o, lengths, MkPattern(o, lengths, u));
    assert MkPattern(o, lengths, u) in multiset(Generated(o, lengths));
  }

  /** A length that does not fit on a bar on its own never occurs in a feasible count vector. */
  lemma FeasibleOnlyFitting(o: Optimizer, lengths: seq<int>, counts: seq<nat>, i: nat)
    requires o.Valid() && PositiveLengths(lengths) && Feasible(o, lengths, counts)
    requires i < |lengths| && !FitsAlone(o, lengths[i])
    ensures counts[i] == 0
  {
    PatternLengthIsCharged(o, counts, lengths);
    ChargedAtLeastEntry(o, counts, lengths, i);
    OverrunIsZero(Charge(o, lengths[i]), counts[i], o.UsableLength());
  }

  /** A count whose charge fits in `room` while one charge alone does not is zero. */
  lemma OverrunIsZero(d: int, c: int, room: int)
    requires d > 0 && c >= 0 && d * c <= room && room < d
    ensures c == 0
  {
    if c >= 1 {
      MulMonotone(1, c, d);
      assert false;
    }
  }

  /** A length that does not fit on a bar on its own never occurs in a generated pattern. */
  lemma OnlyFittingLengths(o: Optimizer, lengths: seq<int>, p: Pattern, i: nat)
    requires o.Valid() && PositiveLengths(lengths) && p in Generated(o, lengths)
    requires i < |lengths| && !FitsAlone(o, lengths[i])
    ensures |p.counts| == |lengths| && p.counts[i] == 0
  {
    GeneratedWellFormed(o, lengths, p);
    FeasibleOnlyFitting(o, lengths, p.counts, i);
  }

  /** When no length fits on its own, nothing is generated. */
  lemma NothingFitsNothingGenerated(o: Optimizer, lengths: seq<int>)
    requires o.Valid() && PositiveLengths(lengths)
    requires forall i :: 0 <= i < |lengths| ==> !FitsAlone(o, lengths[i])
    ensures Generated(o, lengths) == []
  {
    var g := Generated(o, lengths);
    if g != [] {
      var p := g[0];
      GeneratedWellFormed(o, lengths, p);
      PiecesZero(p.counts);
      var i :| 0 <= i < |p.counts| && p.counts[i] != 0;
      OnlyFittingLengths(o, lengths, p, i);
    }
  }
}
