/**
 * The computation behind the `/optimize` endpoint (app.py), once the order
 * is parsed: solve, total, check the production, compute the utilisation
 * and, when it is low, search for buffer suggestions.
 */
module Optimize {
  import opened Wrappers
  import opened Stock
  import opened Solver
  import opened Evaluation
  import opened Buffers

  /** The two error answers: nothing ordered, and no bar can be cut. */
  datatype OptimizeError = EmptyOrder | NoSolution

  /** What a successful answer reports, apart from the echoed parameters and the metre and rounding conversions. */
  datatype Report = Report(patterns: seq<Application>, totalTubes: nat, totalWaste: int, utilization: real,
                           verification: seq<Row>, buffers: seq<Suggestion>)

  /** Buffer suggestions are searched for only below this utilisation. */
  const BufferThreshold: real := 97.0

  /** The parsed order keeps only positive quantities. */
  predicate PositiveQuantities(order: Order) {
    forall l :: l in order ==> order[l] > 0
  }

  /** The current results the buffer search is given for a report. */
  function CurrentOf(rep: Report): CurrentResults {
    CurrentResults(rep.totalTubes, rep.totalWaste, rep.utilization)
  }

  /** A verification row shows the schedule's production of its length, and is ok exactly when that length fits. */
  lemma RowsReportProduction(o: Optimizer, order: Order, solution: seq<Application>, produced: map<int, nat>, rows: seq<Row>)
    requires o.Valid() && PositiveQuantities(order)
    requires forall l :: l in order ==> Produced(solution, l) == if FitsAlone(o, l) then order[l] else 0
    requires forall l :: CountAt(produced, l) == Produced(solution, l)
    requires forall i :: 0 <= i < |rows| ==> RowFor(order, produced, rows[i])
    ensures forall i :: 0 <= i < |rows| ==>
              rows[i].length in order && rows[i].needed == order[rows[i].length]
              && rows[i].produced == Produced(solution, rows[i].length)
    ensures forall i :: 0 <= i < |rows| ==> (rows[i].ok <==> FitsAlone(o, rows[i].length))
  {
    forall i | 0 <= i < |rows|
      ensures rows[i].length in order && rows[i].needed == order[rows[i].length]
              && rows[i].produced == Produced(solution, rows[i].length)
      ensures rows[i].ok <==> FitsAlone(o, rows[i].length)
    {
      assert RowFor(order, produced, rows[i]);
      assert order[rows[i].length] > 0;
    }
  }

  method Optimize(o: Optimizer, order: Order) returns (r: Result<Report, OptimizeError>)
    requires o.Valid() && ValidOrder(order) && PositiveQuantities(order)
    ensures r == Failure(EmptyOrder) <==> order == map[]
    ensures r == Failure(NoSolution) <==> order != map[] && forall l :: l in order ==> !FitsAlone(o, l)
    ensures r.Success? ==> r.value.patterns == GreedyRef(o, order)
    ensures r.Success? ==> forall a :: a in r.value.patterns ==> WellFormedApplication(o, order, a)
    ensures r.Success? ==> forall l :: l in order ==>
              Produced(r.value.patterns, l) == if FitsAlone(o, l) then order[l] else 0
    ensures r.Success? ==> r.value.totalTubes == TotalTubes(r.value.patterns) > 0
    ensures r.Success? ==> r.value.totalWaste == TotalWaste(r.value.patterns)
    ensures r.Success? ==> 0 <= r.value.totalWaste <= r.value.totalTubes * o.UsableLength()
    ensures r.Success? ==> r.value.utilization == Utilization(r.value.totalTubes, r.value.totalWaste, o.UsableLength())
    ensures r.Success? ==> 0.0 <= r.value.utilization <= 100.0
    ensures r.Success? ==> forall l :: l in order <==>
              exists i :: 0 <= i < |r.value.verification| && r.value.verification[i].length == l
    ensures r.Success? ==> forall i, j :: 0 <= i < j < |r.value.verification| ==>
              r.value.verification[i].length > r.value.verification[j].length
    ensures r.Success? ==> forall i :: 0 <= i < |r.value.verification| ==>
              r.value.verification[i].length in order
              && r.value.verification[i].needed == order[r.value.verification[i].length]
              && r.value.verification[i].produced == Produced(r.value.patterns, r.value.verification[i].length)
    ensures r.Success? ==> forall i :: 0 <= i < |r.value.verification| ==>
              (r.value.verification[i].ok <==> FitsAlone(o, r.value.verification[i].length))
    ensures r.Success? && r.value.utilization >= BufferThreshold ==> r.value.buffers == []
    ensures r.Success? && r.value.utilization < BufferThreshold ==>
              KeptSoFar(Ranked(o, order, CurrentOf(r.value)), r.value.buffers, |Ranked(o, order, CurrentOf(r.value))|)
    ensures r.Success? ==> |r.value.buffers| <= MaxSuggestions
    ensures r.Success? ==> forall i :: 0 <= i < |r.value.buffers| ==>
              Admissible(o, order, CurrentOf(r.value), r.value.buffers[i])
  {
    if order == map[] {
      return Failure(EmptyOrder);
    }
    var solved := Solve(o, order);
    var solution := solved.value;
    if solution == [] {
      forall l | l in order ensures !FitsAlone(o, l) {
        assert order[l] > 0;
      }
      return Failure(NoSolution);
    }
    assert exists l :: l in order && FitsAlone(o, l);
    var tubes := TotalTubes(solution);
    var waste := TotalWaste(solution);
    TubesPositive(o, order, solution);
    WasteBound(o, order, solution);
    var produced := ComputeProduced(solution);
    var rows := VerificationRows(order, produced);
    RowsReportProduction(o, order, solution, produced, rows);
    var utilization := Utilization(tubes, waste, o.UsableLength());
    var current := CurrentResults(tubes, waste, utilization);
    var buffers := [];
    if utilization < BufferThreshold {
      buffers := CalculateBufferSuggestions(o, order, current);
    }
    r := Success(Report(solution, tubes, waste, utilization, rows, buffers));
  }
}
