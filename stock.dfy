/**
 * The optimiser's configuration (class KapOptimering, app.py) and the
 * kerf-charged length of a cutting pattern.
 *
 * Units. Stock length, fixture rest, saw kerf, usable length and every
 * pattern length and waste are integers in tenths of a millimetre, so the
 * default kerf of 2.5 mm is exactly 25. Piece lengths (the keys of an
 * order) are whole millimetres, as the request layer makes them, and are
 * scaled by TenthsPerMm wherever they meet a bar length.
 */
module Stock {

  const TenthsPerMm := 10

  /** An optimiser; the defaults are 6000 mm stock, 50 mm fixture rest and a 2.5 mm kerf. */
  datatype Optimizer = Optimizer(stockLength: int := 60000, fixtureRest: int := 500, sawKerf: int := 25)
  {
    /** `usable_length`: the part of a bar that can be cut. */
    function UsableLength(): int {
      stockLength - fixtureRest
    }

    /** What the optimiser assumes of its configuration: a positive usable length and a kerf that is not negative. */
    predicate Valid() {
      UsableLength() > 0 && sawKerf >= 0
    }
  }

  /** Every piece length is positive. */
  predicate PositiveLengths(lengths: seq<int>) {
    forall i :: 0 <= i < |lengths| ==> lengths[i] > 0
  }

  /** `sum(counts)`: the number of pieces in a pattern. */
  function Pieces(counts: seq<nat>): nat {
    if counts == [] then 0 else Pieces(counts[..|counts| - 1]) + counts[|counts| - 1]
  }

  /** `sum(lengths[i] * counts[i] for i in range(len(lengths)))`, in tenths of a millimetre. */
  function Dot(counts: seq<nat>, lengths: seq<int>): int
    requires |lengths| <= |counts|
  {
    if lengths == [] then 0
    else Dot(counts, lengths[..|lengths| - 1]) + TenthsPerMm * lengths[|lengths| - 1] * counts[|lengths| - 1]
  }

  /** `pattern_length`: the pieces plus one kerf per piece, or 0 when there are no pieces. */
  function PatternLength(o: Optimizer, counts: seq<nat>, lengths: seq<int>): int
    requires |lengths| <= |counts|
  {
    var total := Dot(counts, lengths);
    var numPieces := Pieces(counts);
    if numPieces == 0 then 0 else total + numPieces * o.sawKerf
  }

  /** What one piece of `length` mm takes out of a bar: the piece and its kerf. */
  function Charge(o: Optimizer, length: int): int {
    TenthsPerMm * length + o.sawKerf
  }

  /** A single piece of `length` mm fits on a bar. */
  predicate FitsAlone(o: Optimizer, length: int) {
    Charge(o, length) <= o.UsableLength()
  }

  /** The reference definition of a pattern's length: every piece charged with its kerf. */
  function Charged(o: Optimizer, counts: seq<nat>, lengths: seq<int>): int
    requires |counts| == |lengths|
  {
    if counts == [] then 0
    else
      var n := |counts|;
      Charged(o, counts[..n - 1], lengths[..n - 1]) + Charge(o, lengths[n - 1]) * counts[n - 1]
  }

  function Zeros(n: nat): (z: seq<nat>)
    ensures |z| == n
  {
    seq(n, _ => 0)
  }

  /** `int(a / b)` for a positive divisor: the quotient truncated toward zero. */
  function TruncDiv(a: int, b: int): int
    requires b > 0
  {
    if a >= 0 then a / b else -((-a) / b)
  }

  lemma {:induction false} PiecesZero(counts: seq<nat>)
    ensures Pieces(counts) == 0 <==> forall i :: 0 <= i < |counts| ==> counts[i] == 0
  {
    if counts != [] {
      var n := |counts|;
      PiecesZero(counts[..n - 1]);
      assert forall i :: 0 <= i < n - 1 ==> counts[..n - 1][i] == counts[i];
    }
  }

  lemma {:induction false} PiecesAppend(a: seq<nat>, b: seq<nat>)
    ensures Pieces(a + b) == Pieces(a) + Pieces(b)
  {
    if b == [] {
      assert a + b == a;
    } else {
      assert (a + b)[..|a + b| - 1] == a + b[..|b| - 1];
      PiecesAppend(a, b[..|b| - 1]);
    }
  }

  lemma {:induction false} DotZero(counts: seq<nat>, lengths: seq<int>)
    requires |lengths| <= |counts|
    requires forall i :: 0 <= i < |counts| ==> counts[i] == 0
    ensures Dot(counts, lengths) == 0
  {
    if lengths != [] {
      DotZero(counts, lengths[..|lengths| - 1]);
    }
  }

  /** Dot only looks at the first |lengths| counts. */
  lemma {:induction false} DotPrefix(counts: seq<nat>, other: seq<nat>, lengths: seq<int>)
    requires |lengths| <= |counts| && |lengths| <= |other|
    requires counts[..|lengths|] == other[..|lengths|]
    ensures Dot(counts, lengths) == Dot(other, lengths)
  {
    if lengths != [] {
      var m := |lengths| - 1;
      assert counts[m] == counts[..|lengths|][m] == other[..|lengths|][m] == other[m];
      assert counts[..m] == counts[..|lengths|][..m];
      assert other[..m] == other[..|lengths|][..m];
      DotPrefix(counts, other, lengths[..m]);
    }
  }

  /**
   * The length of a pattern is the sum of its pieces plus one kerf for every
   * piece, the last one included; the empty pattern has length 0.
   */
  lemma PatternLengthFormula(o: Optimizer, counts: seq<nat>, lengths: seq<int>)
    requires |lengths| <= |counts|
    ensures PatternLength(o, counts, lengths) == Dot(counts, lengths) + o.sawKerf * Pieces(counts)
    ensures (forall i :: 0 <= i < |counts| ==> counts[i] == 0) ==> PatternLength(o, counts, lengths) == 0
  {
    PiecesZero(counts);
    if Pieces(counts) == 0 {
      DotZero(counts, lengths);
    }
  }

  /** Dot plus one kerf per piece is the per-piece charge summed over the pattern. */
  lemma {:induction false} DotPlusKerfIsCharged(o: Optimizer, counts: seq<nat>, lengths: seq<int>)
    requires |counts| == |lengths|
    ensures Dot(counts, lengths) + o.sawKerf * Pieces(counts) == Charged(o, counts, lengths)
  {
    if counts != [] {
      var n := |counts|;
      DotPrefix(counts, counts[..n - 1], lengths[..n - 1]);
      DotPlusKerfIsCharged(o, counts[..n - 1], lengths[..n - 1]);
    }
  }

  /** For a full count vector, pattern_length is the charged length. */
  lemma PatternLengthIsCharged(o: Optimizer, counts: seq<nat>, lengths: seq<int>)
    requires |counts| == |lengths|
    ensures PatternLength(o, counts, lengths) == Charged(o, counts, lengths)
  {
    PatternLengthFormula(o, counts, lengths);
    DotPlusKerfIsCharged(o, counts, lengths);
  }

  /**
   * The call on line 63 pads the committed prefix with zeros and passes only
   * the prefix's lengths; that is the charged length of the prefix.
   */
  lemma PaddedPrefixLength(o: Optimizer, prefix: seq<nat>, lengths: seq<int>)
    requires |prefix| <= |lengths|
    ensures PatternLength(o, prefix + Zeros(|lengths| - |prefix|), lengths[..|prefix|])
         == Charged(o, prefix, lengths[..|prefix|])
  {
    var padded := prefix + Zeros(|lengths| - |prefix|);
    PatternLengthFormula(o, padded, lengths[..|prefix|]);
    assert padded[..|prefix|] == prefix;
    DotPrefix(padded, prefix, lengths[..|prefix|]);
    PiecesAppend(prefix, Zeros(|lengths| - |prefix|));
    PiecesZero(Zeros(|lengths| - |prefix|));
    DotPlusKerfIsCharged(o, prefix, lengths[..|prefix|]);
  }

  /** Committing one more count adds that many charged pieces. */
  lemma ChargedSnoc(o: Optimizer, prefix: seq<nat>, c: nat, lengths: seq<int>)
    requires |prefix| < |lengths|
    ensures Charged(o, prefix + [c], lengths[..|prefix| + 1])
         == Charged(o, prefix, lengths[..|prefix|]) + Charge(o, lengths[|prefix|]) * c
  {
    var q := prefix + [c];
    assert q[..|q| - 1] == prefix;
    assert lengths[..|prefix| + 1][..|prefix|] == lengths[..|prefix|];
  }

  /** With positive lengths and a non-negative kerf, a prefix is never charged more than the whole pattern. */
  lemma {:induction false} ChargedPrefixBound(o: Optimizer, counts: seq<nat>, lengths: seq<int>, j: nat)
    requires o.Valid() && PositiveLengths(lengths)
    requires |counts| == |lengths| && j <= |counts|
    ensures Charged(o, counts[..j], lengths[..j]) <= Charged(o, counts, lengths)
    decreases |counts| - j
  {
    if j < |counts| {
      var n := |counts|;
      assert Charge(o, lengths[n - 1]) * counts[n - 1] >= 0;
      assert counts[..n - 1][..j] == counts[..j];
      assert lengths[..n - 1][..j] == lengths[..j];
      ChargedPrefixBound(o, counts[..n - 1], lengths[..n - 1], j);
    } else {
      assert counts[..j] == counts && lengths[..j] == lengths;
    }
  }

  /** Each entry's own charge is part of the pattern's charged length. */
  lemma {:induction false} ChargedAtLeastEntry(o: Optimizer, counts: seq<nat>, lengths: seq<int>, i: nat)
    requires o.Valid() && PositiveLengths(lengths)
    requires |counts| == |lengths| && i < |counts|
    ensures Charge(o, lengths[i]) * counts[i] <= Charged(o, counts, lengths)
  {
    var n := |counts|;
    if i == n - 1 {
      ChargedPrefixBound(o, counts[..n - 1], lengths[..n - 1], 0);
    } else {
      ChargedAtLeastEntry(o, counts[..n - 1], lengths[..n - 1], i);
      assert Charge(o, lengths[n - 1]) * counts[n - 1] >= 0;
    }
  }

  /** Multiplying by a non-negative factor keeps an order. */
  lemma MulMonotone(a: int, b: int, d: int)
    requires a <= b && d >= 0
    ensures a * d <= b * d
  {
    assert (b - a) * d >= 0;
  }

  /** A count whose charge fits in `room` is at most the floor quotient `room / charge`. */
  lemma FloorBound(c: int, d: int, room: int)
    requires d > 0 && c >= 0 && c * d <= room
    ensures c <= room / d
  {
    var q := room / d;
    assert room < q * d + d;
    if c > q {
      MulMonotone(q + 1, c, d);
      assert false;
    }
  }

  /**
   * A count one above the truncated quotient `int(room / d)` already overruns
   * `room`, whatever the sign of `room`.
   */
  lemma TruncDivExceeded(room: int, d: int, c: int)
    requires d > 0 && c >= 0 && c >= TruncDiv(room, d) + 1
    ensures c * d > room
  {
    if room >= 0 {
      var q := room / d;
      assert room < q * d + d;
      MulMonotone(q + 1, c, d);
    } else {
      MulMonotone(0, c, d);
    }
  }
}
