/**
 * The totals, the production check and the utilisation that `optimize`
 * (app.py) computes from a solution, and the current results it hands to
 * the buffer search.
 */
module Evaluation {
  import opened Stock
  import opened Sorting
  import opened Enumeration
  import opened Solver

  /** `sum(s['tube_count'] for s in solution)`. */
  function TotalTubes(solution: seq<Application>): nat {
    if solution == [] then 0
    else TotalTubes(solution[..|solution| - 1]) + solution[|solution| - 1].tubeCount
  }

  /** `sum(s['waste'] * s['tube_count'] for s in solution)`, in tenths of a millimetre. */
  function TotalWaste(solution: seq<Application>): int {
    if solution == [] then 0
    else
      var a := solution[|solution| - 1];
      TotalWaste(solution[..|solution| - 1]) + a.waste * a.tubeCount
  }

  /**
   * Line 253 without the rounding: the percentage of the cut bars' usable
   * length that ends up in pieces, or 0 when no bar is cut. With a waste
   * between nothing and all of every bar it is a percentage.
   */
  function Utilization(tubes: nat, waste: int, usable: int): (u: real)
    requires usable > 0
    ensures tubes == 0 ==> u == 0.0
    ensures 0 <= waste <= tubes * usable ==> 0.0 <= u <= 100.0
    ensures tubes > 0 ==> (u == 100.0 <==> waste == 0)
  {
    if tubes > 0 then
      var capacity := tubes as real * usable as real;
      var fraction := waste as real / capacity;
      assert capacity > 0.0;
      assert 0 <= waste <= tubes * usable ==> 0.0 <= fraction <= 1.0 by {
        if 0 <= waste <= tubes * usable {
          assert waste as real <= (tubes * usable) as real == capacity;
        }
      }
      assert fraction == 0.0 <==> waste == 0;
      (1.0 - fraction) * 100.0
    else
      0.0
  }

  /** Every bar of a well-formed solution has a waste between nothing and its whole usable length. */
  lemma {:induction false} WasteBound(o: Optimizer, order: Order, solution: seq<Application>)
    requires o.Valid() && ValidOrder(order)
    requires forall a :: a in solution ==> WellFormedApplication(o, order, a)
    ensures 0 <= TotalWaste(solution) <= TotalTubes(solution) * o.UsableLength()
  {
    if solution != [] {
      var n := |solution|;
      var a := solution[n - 1];
      assert a in solution;
      forall b | b in solution[..n - 1] ensures WellFormedApplication(o, order, b) {
        assert b in solution;
      }
      WasteBound(o, order, solution[..n - 1]);
      assert PositiveLengths(a.lengths) by {
        forall i | 0 <= i < |a.lengths| ensures a.lengths[i] > 0 {
          assert a.lengths[i] in a.lengths;
        }
      }
      FeasiblePatternWellFormed(o, a.lengths, Pattern(CountsVector(a), a.waste, a.used));
      var u := o.UsableLength();
      assert 0 <= a.waste * a.tubeCount <= a.tubeCount * u by {
        assert 0 <= a.waste <= u;
        assert (u - a.waste) * a.tubeCount >= 0;
      }
      assert TotalTubes(solution) * u == TotalTubes(solution[..n - 1]) * u + a.tubeCount * u;
    }
  }

  /** Every application cuts at least one bar, so a solution with applications cuts bars. */
  lemma {:induction false} TubesPositive(o: Optimizer, order: Order, solution: seq<Application>)
    requires forall a :: a in solution ==> WellFormedApplication(o, order, a)
    ensures solution != [] <==> TotalTubes(solution) > 0
  {
    if solution != [] {
      var n := |solution|;
      assert solution[n - 1] in solution;
    }
  }

  /** The utilisation of a solution `solve` returns is a percentage. */
  lemma SolutionUtilization(o: Optimizer, order: Order, solution: seq<Application>)
    requires o.Valid() && ValidOrder(order)
    requires forall a :: a in solution ==> WellFormedApplication(o, order, a)
    ensures 0.0 <= Utilization(TotalTubes(solution), TotalWaste(solution), o.UsableLength()) <= 100.0
  {
    WasteBound(o, order, solution);
  }

  /**
   * Line 236 for every length of one application, in any order: each length
   * receives that application's pieces of it.
   */
  method AddApplication(produced: map<int, nat>, a: Application) returns (sum: map<int, nat>)
    ensures forall l :: CountAt(sum, l) == CountAt(produced, l) + CountAt(a.counts, l) * a.tubeCount
    ensures forall l :: l in sum <==> l in produced || l in a.counts
  {
    sum := produced;
    var todo := a.counts.Keys;
    while todo != {}
      invariant todo <= a.counts.Keys
      invariant forall l :: CountAt(sum, l) == CountAt(produced, l) + (if l !in todo then CountAt(a.counts, l) * a.tubeCount else 0)
      invariant forall l :: l in sum <==> l in produced || (l in a.counts && l !in todo)
      decreases todo
    {
      HasElement(todo);
      var l :| l in todo;
      sum := sum[l := CountAt(sum, l) + a.counts[l] * a.tubeCount];
      todo := todo - {l};
    }
  }

  /**
   * Lines 233-236: the `produced` dictionary, accumulated over the
   * applications. Every length receives the pieces the solution produces of
   * it, and only lengths some application counts appear.
   */
  method ComputeProduced(solution: seq<Application>) returns (produced: map<int, nat>)
    ensures forall l :: CountAt(produced, l) == Produced(solution, l)
    ensures forall l :: l in produced <==> exists k :: 0 <= k < |solution| && l in solution[k].counts
  {
    produced := map[];
    for k := 0 to |solution|
      invariant forall l :: CountAt(produced, l) == Produced(solution[..k], l)
      invariant forall l :: l in produced <==> exists j :: 0 <= j < k && l in solution[j].counts
    {
      produced := AddApplication(produced, solution[k]);
      assert solution[..k + 1][..k] == solution[..k];
    }
    assert solution[..|solution|] == solution;
  }

  /** One row of the verification table: how many of `length` were wanted and produced. */
  datatype Row = Row(length: int, needed: nat, produced: nat, ok: bool)

  /** A row reports an ordered length, its wanted and produced counts, and is ok exactly when enough was produced. */
  predicate RowFor(order: Order, produced: map<int, nat>, r: Row) {
    r.length in order && r.needed == order[r.length] && r.produced == CountAt(produced, r.length)
    && (r.ok <==> r.produced >= r.needed)
  }

  /**
   * Lines 238-247: one row per ordered length, longest first, that is ok
   * exactly when at least the wanted number was produced.
   */
  method VerificationRows(order: Order, produced: map<int, nat>) returns (rows: seq<Row>)
    ensures forall i, j :: 0 <= i < j < |rows| ==> rows[i].length > rows[j].length
    ensures forall l :: l in order <==> exists i :: 0 <= i < |rows| && rows[i].length == l
    ensures forall i :: 0 <= i < |rows| ==> RowFor(order, produced, rows[i])
  {
    var lengths := SortedDescending(order.Keys);
    rows := [];
    for k := 0 to |lengths|
      invariant |rows| == k
      invariant forall i :: 0 <= i < k ==> rows[i].length == lengths[i]
      invariant forall i :: 0 <= i < k ==> RowFor(order, produced, rows[i])
    {
      assert lengths[k] in lengths;
      var length := lengths[k];
      var needed := order[length];
      var got := CountAt(produced, length);
      rows := rows + [Row(length, needed, got, got >= needed)];
    }
    forall l | l in order ensures exists i :: 0 <= i < |rows| && rows[i].length == l {
      assert l in lengths;
      var i :| 0 <= i < |lengths| && lengths[i] == l;
      assert rows[i].length == l;
    }
  }

  /** `current_results`: what the buffer search compares against. */
  datatype CurrentResults = CurrentResults(totalTubes: nat, totalWaste: int, utilization: real)
}
