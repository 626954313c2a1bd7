/**
 * `calculate_buffer_suggestions` (app.py): the search for a filler length
 * and quantity that, added to the order, raises the utilisation by more
 * than 1.5 percentage points, ranked and cut down to five varied
 * suggestions.
 */
module Buffers {
  import opened Wrappers
  import opened Stock
  import opened Sorting
  import opened Solver
  import opened Evaluation

  /** The standard filler lengths of line 155, in mm. */
  const StandardLengths: seq<int> := [100, 150, 200, 250, 300, 400, 500]

  /** The filler quantities tried for every length (line 162). */
  const BufferQuantities: seq<nat> := [5, 10, 15, 20, 30, 50]

  /** At or above this utilisation no filler is looked for (line 136). */
  const TargetUtilization := 98.0

  /** A suggestion must raise the utilisation by more than this (line 177). */
  const MinImprovement := 1.5

  /** At most this many suggestions are returned (line 194). */
  const MaxSuggestions := 5

  /** Filler lengths below this many mm are not tried (line 159). */
  const MinBufferLength := 50

  /** A complement must be longer than this many mm to be tried (line 150). */
  const MinComplement := 100

  /** `l > usable * 0.4`, for `l` in mm and the usable length in tenths of a mm. */
  predicate IsLong(o: Optimizer, l: int) {
    25 * l > o.UsableLength()
  }

  /** `int(usable - l - saw_kerf * 2)`: what is left of a bar, in whole mm, beside one long piece and two kerfs. */
  function Complement(o: Optimizer, l: int): int {
    TruncDiv(o.UsableLength() - TenthsPerMm * l - 2 * o.sawKerf, TenthsPerMm)
  }

  /** The candidates an ordered length `l` adds (lines 147-152): its half, and its complement when `l` is long. */
  predicate DerivedFrom(o: Optimizer, l: int, x: int) {
    x == l / 2 || (IsLong(o, l) && Complement(o, l) > MinComplement && x == Complement(o, l))
  }

  /**
   * A length is tried as filler when it is ordered, derived from an ordered
   * length, or standard (lines 144-156).
   */
  ghost predicate CandidateLength(o: Optimizer, order: Order, x: int) {
    x in order || (exists l :: l in order && DerivedFrom(o, l, x)) || x in StandardLengths
  }

  /** The set `test_lengths` of lines 144-156, as a value. */
  ghost function Candidates(o: Optimizer, order: Order): set<int> {
    order.Keys + (set l | l in order :: l / 2)
    + (set l | l in order && IsLong(o, l) && Complement(o, l) > MinComplement :: Complement(o, l))
    + (set x | x in StandardLengths)
  }

  lemma CandidatesMembers(o: Optimizer, order: Order)
    ensures forall x :: x in Candidates(o, order) <==> CandidateLength(o, order, x)
  {
  }

  /** Line 159 lets a length through: at least 50 mm and at most 0.4 of the usable length. */
  predicate InBufferRange(o: Optimizer, x: int) {
    MinBufferLength <= x && 25 * x <= o.UsableLength()
  }

  /** Lines 146-152: every length of `lengths` adds its half, and its complement when it is long. */
  method AddDerived(o: Optimizer, lengths: seq<int>, start: set<int>) returns (test: set<int>)
    ensures forall x :: x in test <==> x in start || exists j :: 0 <= j < |lengths| && DerivedFrom(o, lengths[j], x)
  {
    test := start;
    for k := 0 to |lengths|
      invariant forall x :: x in test <==> x in start || exists j :: 0 <= j < k && DerivedFrom(o, lengths[j], x)
    {
      var l := lengths[k];
      if IsLong(o, l) {
        var complement := Complement(o, l);
        if complement > MinComplement {
          test := test + {complement};
        }
      }
      test := test + {l / 2};
    }
  }

  /** Lines 155-156: the standard lengths are added. */
  method AddStandard(start: set<int>) returns (test: set<int>)
    ensures forall x :: x in test <==> x in start || x in StandardLengths
  {
    test := start;
    for k := 0 to |StandardLengths|
      invariant forall x :: x in test <==> x in start || exists j :: 0 <= j < k && StandardLengths[j] == x
    {
      test := test + {StandardLengths[k]};
    }
  }

  /** Lines 140-156: the set `test_lengths`. */
  method CandidateLengths(o: Optimizer, order: Order) returns (test: set<int>)
    ensures forall x :: x in test <==> CandidateLength(o, order, x)
    ensures test == Candidates(o, order)
  {
    var lengths := SortedAscending(order.Keys);
    var derived := AddDerived(o, lengths, order.Keys);
    forall x | x in derived && x !in order ensures exists l :: l in order && DerivedFrom(o, l, x) {
      var j :| 0 <= j < |lengths| && DerivedFrom(o, lengths[j], x);
      assert lengths[j] in lengths;
    }
    forall l, x | l in order && DerivedFrom(o, l, x) ensures x in derived {
      assert l in lengths;
      var j :| 0 <= j < |lengths| && lengths[j] == l;
    }
    test := AddStandard(derived);
    CandidatesMembers(o, order);
    assert forall x :: x in test <==> x in Candidates(o, order);
  }

  /**
   * One suggestion. `wasteReduction` is in tenths of a millimetre, and the
   * utilisations and the improvement are exact.
   */
  datatype Suggestion = Suggestion(length: int, quantity: nat, newUtilization: real, improvement: real,
                                   extraTubes: int, wasteReduction: int)

  /** What `solve` promises of a non-empty solution of `order`. */
  ghost predicate SolvesOrder(o: Optimizer, order: Order, solution: seq<Application>) {
    solution != []
    && (forall a :: a in solution ==> WellFormedApplication(o, order, a))
    && forall l :: l in order ==> Produced(solution, l) == if FitsAlone(o, l) then order[l] else 0
  }

  /** The figures of a suggestion are those of `solution` measured against the current results. */
  ghost predicate MeasuredOn(o: Optimizer, current: CurrentResults, s: Suggestion, solution: seq<Application>)
    requires o.Valid()
  {
    s.newUtilization == Utilization(TotalTubes(solution), TotalWaste(solution), o.UsableLength())
    && s.extraTubes == TotalTubes(solution) - current.totalTubes
    && s.wasteReduction == current.totalWaste - TotalWaste(solution)
  }

  /**
   * What every collected suggestion satisfies (lines 159-185): a tried length
   * and quantity, whose order with the filler added has a solution that
   * raises the utilisation by more than 1.5 points.
   */
  ghost predicate Admissible(o: Optimizer, order: Order, current: CurrentResults, s: Suggestion)
    requires o.Valid()
  {
    CandidateLength(o, order, s.length) && InBufferRange(o, s.length)
    && s.quantity in BufferQuantities
    && (exists solution :: SolvesOrder(o, WithBuffer(order, s.length, s.quantity), solution)
                          && MeasuredOn(o, current, s, solution))
    && 0.0 <= s.newUtilization <= 100.0
    && s.improvement == s.newUtilization - current.utilization
    && s.improvement > MinImprovement
  }

  /** The sort key of line 188: improvement descending, then quantity ascending. */
  function RankKey(s: Suggestion): Key {
    Key(-s.improvement, s.quantity)
  }

  /** `order.copy()` with `qty` more pieces of `length` (lines 163-164). */
  function WithBuffer(order: Order, length: int, qty: nat): (r: Order)
    ensures r.Keys == order.Keys + {length}
    ensures r[length] == qty + (if length in order then order[length] else 0)
    ensures forall l :: l in order && l != length ==> r[l] == order[l]
  {
    order[length := (if length in order then order[length] else 0) + qty]
  }

  /**
   * Lines 163-185 for one length and quantity: the suggestion `solve`'s
   * answer for the order with the filler added yields, or None when that
   * answer is empty or raises the utilisation by at most 1.5 points.
   */
  ghost function Trial(o: Optimizer, order: Order, current: CurrentResults, length: int, qty: nat): (r: Option<Suggestion>)
    requires o.Valid() && ValidOrder(order) && length > 0
    ensures r.Some? ==> r.value.length == length && r.value.quantity == qty && r.value.improvement > MinImprovement
  {
    TrialOn(o, current, length, qty, SolveRef(o, WithBuffer(order, length, qty)))
  }

  /** The suggestion `answer`, the answer of `solve` for the order with the filler added, yields. */
  function TrialOn(o: Optimizer, current: CurrentResults, length: int, qty: nat,
                   answer: Option<seq<Application>>): (r: Option<Suggestion>)
    requires o.Valid()
    ensures r.Some? ==> r.value.length == length && r.value.quantity == qty && r.value.improvement > MinImprovement
  {
    match answer
    case None => None
    case Some(solution) =>
      if solution == [] then None
      else
        var tubes := TotalTubes(solution);
        var waste := TotalWaste(solution);
        var util := Utilization(tubes, waste, o.UsableLength());
        var improvement := util - current.utilization;
        if improvement > MinImprovement then
          Some(Suggestion(length, qty, util, improvement, tubes - current.totalTubes, current.totalWaste - waste))
        else None
  }

  /** The suggestion of a trial, as a list of none or one. */
  function AsSeq(r: Option<Suggestion>): seq<Suggestion> {
    if r.Some? then [r.value] else []
  }

  /** The suggestions the quantities `qs`, in turn, yield for `length`. */
  ghost function CollectQty(o: Optimizer, order: Order, current: CurrentResults, length: int, qs: seq<nat>): seq<Suggestion>
    requires o.Valid() && ValidOrder(order) && length > 0
  {
    if qs == [] then []
    else CollectQty(o, order, current, length, qs[..|qs| - 1]) + AsSeq(Trial(o, order, current, length, qs[|qs| - 1]))
  }

  /** The suggestions one candidate length yields: none outside the range of line 159. */
  ghost function CollectAt(o: Optimizer, order: Order, current: CurrentResults, length: int): seq<Suggestion>
    requires o.Valid() && ValidOrder(order)
  {
    if InBufferRange(o, length) then CollectQty(o, order, current, length, BufferQuantities) else []
  }

  /** The suggestions the candidate lengths `lens`, in turn, yield. */
  ghost function Collected(o: Optimizer, order: Order, current: CurrentResults, lens: seq<int>): seq<Suggestion>
    requires o.Valid() && ValidOrder(order)
  {
    if lens == [] then []
    else Collected(o, order, current, lens[..|lens| - 1]) + CollectAt(o, order, current, lens[|lens| - 1])
  }

  /** The list `suggestions` after the sort of line 188: every candidate length ascending, every quantity, ranked. */
  ghost function Ranked(o: Optimizer, order: Order, current: CurrentResults): seq<Suggestion>
    requires o.Valid() && ValidOrder(order)
  {
    SortBy(Collected(o, order, current, Ascending(Candidates(o, order))), RankKey)
  }

  /** The position of the first suggestion of `length` in `s`, or |s| when there is none. */
  function FirstIndex(s: seq<Suggestion>, length: int): (r: nat)
    ensures r <= |s|
    ensures r < |s| ==> s[r].length == length
    ensures forall q :: 0 <= q < r ==> s[q].length != length
  {
    if s == [] then 0
    else if s[0].length == length then 0
    else 1 + FirstIndex(s[1..], length)
  }

  /** The lengths of a list of suggestions. */
  function LengthsOf(s: seq<Suggestion>): (ls: set<int>)
    ensures forall x :: x in ls <==> exists i :: 0 <= i < |s| && s[i].length == x
  {
    set i | 0 <= i < |s| :: s[i].length
  }

  /**
   * After the first `k` ranked suggestions: at most five are kept, of
   * pairwise different lengths, each the first of its length and in ranked
   * order, and a length was passed over only when five earlier ones were
   * already kept.
   */
  ghost predicate KeptSoFar(ranked: seq<Suggestion>, unique: seq<Suggestion>, k: nat) {
    k <= |ranked| && |unique| <= MaxSuggestions
    && (forall i, j :: 0 <= i < j < |unique| ==> unique[i].length != unique[j].length)
    && (forall i :: 0 <= i < |unique| ==>
          FirstIndex(ranked, unique[i].length) < k && unique[i] == ranked[FirstIndex(ranked, unique[i].length)])
    && (forall i, j :: 0 <= i < j < |unique| ==>
          FirstIndex(ranked, unique[i].length) < FirstIndex(ranked, unique[j].length))
    && (forall p :: 0 <= p < k && ranked[p].length !in LengthsOf(unique) ==>
          |unique| == MaxSuggestions && forall i :: 0 <= i < |unique| ==> FirstIndex(ranked, unique[i].length) < p)
  }

  /** Keeping a suggestion of a new length while fewer than five are kept. */
  lemma KeepTake(ranked: seq<Suggestion>, unique: seq<Suggestion>, k: nat)
    requires KeptSoFar(ranked, unique, k) && k < |ranked|
    requires ranked[k].length !in LengthsOf(unique) && |unique| < MaxSuggestions
    ensures KeptSoFar(ranked, unique + [ranked[k]], k + 1)
    ensures LengthsOf(unique + [ranked[k]]) == LengthsOf(unique) + {ranked[k].length}
  {
    LengthsOfSnoc(unique, ranked[k]);
    TakeDistinct(ranked, unique, k);
    TakeFirsts(ranked, unique, k);
    TakeOrdered(ranked, unique, k);
    TakeNonePassed(ranked, unique, k);
  }

  /** The taken suggestion's length is new, so the lengths stay pairwise different. */
  lemma TakeDistinct(ranked: seq<Suggestion>, unique: seq<Suggestion>, k: nat)
    requires KeptSoFar(ranked, unique, k) && k < |ranked|
    requires ranked[k].length !in LengthsOf(unique) && |unique| < MaxSuggestions
    ensures var u := unique + [ranked[k]]; forall i, j :: 0 <= i < j < |u| ==> u[i].length != u[j].length
  {
    TakeFirst(ranked, unique, k);
  }

  /** Every kept suggestion, the taken one too, is the first of its length among the first k + 1. */
  lemma TakeFirsts(ranked: seq<Suggestion>, unique: seq<Suggestion>, k: nat)
    requires KeptSoFar(ranked, unique, k) && k < |ranked|
    requires ranked[k].length !in LengthsOf(unique) && |unique| < MaxSuggestions
    ensures var u := unique + [ranked[k]];
            forall i :: 0 <= i < |u| ==>
              FirstIndex(ranked, u[i].length) < k + 1 && u[i] == ranked[FirstIndex(ranked, u[i].length)]
  {
    TakeFirst(ranked, unique, k);
  }

  /** The taken suggestion comes after every kept one in ranked order. */
  lemma TakeOrdered(ranked: seq<Suggestion>, unique: seq<Suggestion>, k: nat)
    requires KeptSoFar(ranked, unique, k) && k < |ranked|
    requires ranked[k].length !in LengthsOf(unique) && |unique| < MaxSuggestions
    ensures var u := unique + [ranked[k]];
            forall i, j :: 0 <= i < j < |u| ==> FirstIndex(ranked, u[i].length) < FirstIndex(ranked, u[j].length)
  {
    TakeFirst(ranked, unique, k);
  }

  /** Once the taken one is kept, no length among the first k + 1 is passed over. */
  lemma TakeNonePassed(ranked: seq<Suggestion>, unique: seq<Suggestion>, k: nat)
    requires KeptSoFar(ranked, unique, k) && k < |ranked|
    requires ranked[k].length !in LengthsOf(unique) && |unique| < MaxSuggestions
    ensures forall p :: 0 <= p < k + 1 ==> ranked[p].length in LengthsOf(unique + [ranked[k]])
  {
    LengthsOfSnoc(unique, ranked[k]);
    TakePassed(ranked, unique, k);
  }

  /** The taken suggestion is the first of its length, after the first of every kept length. */
  lemma TakeFirst(ranked: seq<Suggestion>, unique: seq<Suggestion>, k: nat)
    requires KeptSoFar(ranked, unique, k) && k < |ranked|
    requires ranked[k].length !in LengthsOf(unique) && |unique| < MaxSuggestions
    ensures FirstIndex(ranked, ranked[k].length) == k
    ensures forall i :: 0 <= i < |unique| ==> FirstIndex(ranked, unique[i].length) < k
    ensures forall i :: 0 <= i < |unique| ==> unique[i].length != ranked[k].length
  {
  }

  /** While fewer than five are kept, every length met so far is kept. */
  lemma TakePassed(ranked: seq<Suggestion>, unique: seq<Suggestion>, k: nat)
    requires KeptSoFar(ranked, unique, k) && k < |ranked| && |unique| < MaxSuggestions
    ensures forall p :: 0 <= p < k ==> ranked[p].length in LengthsOf(unique)
  {
  }

  lemma LengthsOfSnoc(unique: seq<Suggestion>, s: Suggestion)
    ensures LengthsOf(unique + [s]) == LengthsOf(unique) + {s.length}
  {
    var next := unique + [s];
    forall x ensures x in LengthsOf(next) <==> x in LengthsOf(unique) || x == s.length {
      if x in LengthsOf(unique) {
        var i :| 0 <= i < |unique| && unique[i].length == x;
        assert next[i].length == x;
      }
      if x == s.length {
        assert next[|unique|].length == x;
      }
    }
  }

  /** Passing over a suggestion whose length is kept already, or once five are kept. */
  lemma KeepSkip(ranked: seq<Suggestion>, unique: seq<Suggestion>, k: nat)
    requires KeptSoFar(ranked, unique, k) && k < |ranked|
    requires ranked[k].length in LengthsOf(unique) || |unique| == MaxSuggestions
    ensures KeptSoFar(ranked, unique, k + 1)
  {
  }

  /**
   * Lines 191-198: walks the ranked suggestions and keeps the first one of
   * every length until five are kept. Every kept suggestion is the first of
   * its length, they keep their ranked order, and a length is passed over
   * only once five earlier ones are kept.
   */
  method KeepVaried(ranked: seq<Suggestion>) returns (unique: seq<Suggestion>)
    ensures KeptSoFar(ranked, unique, |ranked|)
  {
    unique := [];
    var seen: set<int> := {};
    for k := 0 to |ranked|
      invariant seen == LengthsOf(unique)
      invariant KeptSoFar(ranked, unique, k)
    {
      var s := ranked[k];
      if s.length !in seen && |unique| < MaxSuggestions {
        KeepTake(ranked, unique, k);
        unique := unique + [s];
        seen := seen + {s.length};
      } else {
        KeepSkip(ranked, unique, k);
      }
    }
  }

  /**
   * Lines 163-185 for one tried length and quantity: solve the order with
   * the filler added and return the suggestion it yields, if any.
   */
  method TryBuffer(o: Optimizer, order: Order, current: CurrentResults, bufferLen: int, qty: nat)
    returns (t: Option<Suggestion>)
    requires o.Valid() && ValidOrder(order)
    requires CandidateLength(o, order, bufferLen) && InBufferRange(o, bufferLen) && qty in BufferQuantities
    ensures t == Trial(o, order, current, bufferLen, qty)
    ensures t.Some? ==> Admissible(o, order, current, t.value)
  {
    var testOrder := WithBuffer(order, bufferLen, qty);
    var testSolution := Solve(o, testOrder);
    t := TrialOn(o, current, bufferLen, qty, testSolution);
    TrialOnAdmissible(o, order, current, bufferLen, qty, testSolution);
  }

  /** A suggestion a non-empty answer of `solve` yields for a tried length and quantity is admissible. */
  lemma TrialOnAdmissible(o: Optimizer, order: Order, current: CurrentResults, bufferLen: int, qty: nat,
                          answer: Option<seq<Application>>)
    requires o.Valid() && ValidOrder(order)
    requires CandidateLength(o, order, bufferLen) && InBufferRange(o, bufferLen) && qty in BufferQuantities
    requires answer.Some? && answer.value != [] ==> SolvesOrder(o, WithBuffer(order, bufferLen, qty), answer.value)
    ensures TrialOn(o, current, bufferLen, qty, answer).Some? ==>
              Admissible(o, order, current, TrialOn(o, current, bufferLen, qty, answer).value)
  {
    var t := TrialOn(o, current, bufferLen, qty, answer);
    if t.Some? {
      var testOrder := WithBuffer(order, bufferLen, qty);
      var solution := answer.value;
      TubesPositive(o, testOrder, solution);
      SolutionUtilization(o, testOrder, solution);
      assert MeasuredOn(o, current, t.value, solution);
    }
  }

  /** A ranked list keeps the best-ranked suggestion of every length first, so the kept ones are the best of theirs. */
  lemma KeptAreBest(ranked: seq<Suggestion>, unique: seq<Suggestion>)
    requires SortedBy(ranked, RankKey) && KeptSoFar(ranked, unique, |ranked|)
    ensures forall i, p :: 0 <= i < |unique| && 0 <= p < |ranked| && ranked[p].length == unique[i].length ==>
              KeyLe(RankKey(unique[i]), RankKey(ranked[p]))
  {
    forall i, p | 0 <= i < |unique| && 0 <= p < |ranked| && ranked[p].length == unique[i].length
      ensures KeyLe(RankKey(unique[i]), RankKey(ranked[p]))
    {
      var f := FirstIndex(ranked, unique[i].length);
      if f != p {
        assert f < p;
      }
    }
  }

  /** One more quantity appends its trial's suggestion, if any, to what the earlier ones collected. */
  lemma CollectQtySnoc(o: Optimizer, order: Order, current: CurrentResults, length: int, qs: seq<nat>, q: nat,
                       suggestions: seq<Suggestion>, next: seq<Suggestion>)
    requires o.Valid() && ValidOrder(order) && length > 0 && q < |qs|
    requires next == suggestions + CollectQty(o, order, current, length, qs[..q])
    ensures next + AsSeq(Trial(o, order, current, length, qs[q]))
            == suggestions + CollectQty(o, order, current, length, qs[..q + 1])
  {
    assert qs[..q + 1][..q] == qs[..q];
  }

  /** One more candidate length appends what it yields to what the earlier ones collected. */
  lemma CollectedSnoc(o: Optimizer, order: Order, current: CurrentResults, lens: seq<int>, k: nat)
    requires o.Valid() && ValidOrder(order) && k < |lens|
    ensures Collected(o, order, current, lens[..k + 1])
            == Collected(o, order, current, lens[..k]) + CollectAt(o, order, current, lens[k])
  {
    assert lens[..k + 1][..k] == lens[..k];
  }

  /** Lines 162-185 for one tried length: every quantity in turn, appending the suggestions they yield. */
  method TryQuantities(o: Optimizer, order: Order, current: CurrentResults, bufferLen: int,
                       suggestions: seq<Suggestion>) returns (next: seq<Suggestion>)
    requires o.Valid() && ValidOrder(order) && CandidateLength(o, order, bufferLen) && InBufferRange(o, bufferLen)
    requires forall s :: s in suggestions ==> Admissible(o, order, current, s)
    ensures next == suggestions + CollectQty(o, order, current, bufferLen, BufferQuantities)
    ensures forall s :: s in next ==> Admissible(o, order, current, s)
  {
    next := suggestions;
    for q := 0 to |BufferQuantities|
      invariant next == suggestions + CollectQty(o, order, current, bufferLen, BufferQuantities[..q])
      invariant forall s :: s in next ==> Admissible(o, order, current, s)
    {
      var qty := BufferQuantities[q];
      var t := TryBuffer(o, order, current, bufferLen, qty);
      CollectQtySnoc(o, order, current, bufferLen, BufferQuantities, q, suggestions, next);
      if t.Some? {
        next := next + [t.value];
      } else {
        assert next + AsSeq(t) == next;
      }
    }
    assert BufferQuantities[..|BufferQuantities|] == BufferQuantities;
  }

  /**
   * Lines 188-198: rank the suggestions by improvement descending and then
   * quantity ascending, and keep the first of every length until five are
   * kept; each kept one ranks at least as high as every suggestion of its length.
   */
  method RankAndKeep(o: Optimizer, order: Order, current: CurrentResults, suggestions: seq<Suggestion>)
    returns (unique: seq<Suggestion>)
    requires o.Valid()
    requires forall s :: s in suggestions ==> Admissible(o, order, current, s)
    ensures KeptSoFar(SortBy(suggestions, RankKey), unique, |SortBy(suggestions, RankKey)|)
    ensures forall i, p :: (0 <= i < |unique| && 0 <= p < |SortBy(suggestions, RankKey)|
                            && SortBy(suggestions, RankKey)[p].length == unique[i].length) ==>
              KeyLe(RankKey(unique[i]), RankKey(SortBy(suggestions, RankKey)[p]))
    ensures forall i :: 0 <= i < |unique| ==> Admissible(o, order, current, unique[i])
    ensures forall i, j :: 0 <= i < j < |unique| ==>
              unique[i].improvement > unique[j].improvement
              || (unique[i].improvement == unique[j].improvement && unique[i].quantity <= unique[j].quantity)
  {
    var ranked := SortBy(suggestions, RankKey);
    SortByPermutes(suggestions, RankKey);
    SortBySorted(suggestions, RankKey);
    unique := KeepVaried(ranked);
    KeptAreBest(ranked, unique);
    forall i | 0 <= i < |unique| ensures Admissible(o, order, current, unique[i]) {
      var p := FirstIndex(ranked, unique[i].length);
      assert ranked[p] in multiset(ranked);
    }
    forall i, j | 0 <= i < j < |unique|
      ensures KeyLe(RankKey(unique[i]), RankKey(unique[j]))
    {
      assert FirstIndex(ranked, unique[i].length) < FirstIndex(ranked, unique[j].length);
    }
  }

  /**
   * `calculate_buffer_suggestions(order, optimizer, current_results)`:
   * nothing when the current utilisation is already at least 98 %;
   * otherwise the first suggestion of every length, in ranked order, from
   * the ranked list of all suggestions every tried length and quantity
   * yields, until five are kept.
   */
  method CalculateBufferSuggestions(o: Optimizer, order: Order, current: CurrentResults) returns (unique: seq<Suggestion>)
    requires o.Valid() && ValidOrder(order)
    ensures current.utilization >= TargetUtilization ==> unique == []
    ensures current.utilization < TargetUtilization ==>
              KeptSoFar(Ranked(o, order, current), unique, |Ranked(o, order, current)|)
    ensures current.utilization < TargetUtilization ==>
              forall i, p :: (0 <= i < |unique| && 0 <= p < |Ranked(o, order, current)|
                              && Ranked(o, order, current)[p].length == unique[i].length) ==>
                KeyLe(RankKey(unique[i]), RankKey(Ranked(o, order, current)[p]))
    ensures |unique| <= MaxSuggestions
    ensures forall i :: 0 <= i < |unique| ==> Admissible(o, order, current, unique[i])
    ensures forall i, j :: 0 <= i < j < |unique| ==> unique[i].length != unique[j].length
    ensures forall i, j :: 0 <= i < j < |unique| ==>
              unique[i].improvement > unique[j].improvement
              || (unique[i].improvement == unique[j].improvement && unique[i].quantity <= unique[j].quantity)
  {
    if current.utilization >= TargetUtilization {
      return [];
    }
    var usable := o.UsableLength();
    var test := CandidateLengths(o, order);
    var ordered := SortedAscending(test);
    var suggestions: seq<Suggestion> := [];
    for k := 0 to |ordered|
      invariant suggestions == Collected(o, order, current, ordered[..k])
      invariant forall s :: s in suggestions ==> Admissible(o, order, current, s)
    {
      var bufferLen := ordered[k];
      assert bufferLen in ordered;
      CollectedSnoc(o, order, current, ordered, k);
      if bufferLen < MinBufferLength || 25 * bufferLen > usable {
        assert suggestions + CollectAt(o, order, current, bufferLen) == suggestions;
        continue;
      }
      suggestions := TryQuantities(o, order, current, bufferLen, suggestions);
    }
    assert ordered[..|ordered|] == ordered;
    unique := RankAndKeep(o, order, current, suggestions);
  }
}
