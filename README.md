# Kapoptimering: a verified model of the cutting-stock optimiser

Kapoptimering plans how to cut ordered pieces of tube out of
stock bars. Each bar has a fixture rest that cannot be used. Every cut
costs one saw kerf. The optimiser has four parts, all in `app.py`, and
this project models each of them in Dafny and proves what it promises:

- **Pattern length** (`KapOptimering.pattern_length`): the length of the
  pieces plus one kerf per piece. Module `Stock`.
- **Pattern enumeration** (`generate_patterns`, `_generate_recursive`): every
  non-zero vector of piece counts that fits on a bar, sorted stably by
  waste. It comes in two strategies: a Cartesian product for up to three
  lengths, and a pruned recursion over an array that it changes in place.
  Modules `Enumeration` (the reference definitions and their lemmas) and
  `Generator` (the imperative code).
- **Greedy solver** (`solve`): it repeatedly applies the best-scoring
  pattern that still fits the remaining demand. Module `Solver`.
- **Post-processing** in `optimize` and `calculate_buffer_suggestions`:
  the totals, the production check and the utilisation, and then the search
  for a filler length that would raise the utilisation. Modules
  `Evaluation`, `Buffers` and `Optimize`.

`Sorting` models Python's stable `list.sort` with a tuple key and `sorted`
on a set of integers. `Wrappers` holds `Option` and `Result`.

Units: stock length, fixture rest, kerf, usable length and every pattern
length and waste are integers in tenths of a millimetre. This makes the
default kerf of 2.5 mm exactly 25. Piece lengths are whole millimetres,
as the request layer makes them.

Division: `int(x / y)` on line 67 can meet a negative numerator, because
a prefix can already be over capacity after the recursion's extra count.
It is therefore modelled as truncation toward zero (`Stock.TruncDiv`), as
is `int(...)` on line 149. The numerator on line 29 is never negative, so
Dafny's `/` matches it there.

Three facts about the code, which the model keeps:

- `max(1, …)` on line 103 never makes the greedy step over-produce. A
  pattern is only chosen when `counts[i] <= remaining[i]` for every `i`
  (line 88), so the minimum quotient is already at least 1, and
  `remaining` never goes negative (`Solver.TimesFits`,
  `Solver.ApplyPattern`).
- Line 67 tries one count beyond the capacity bound (the `+ 1`). The
  model keeps the extra count and proves that the leaf check rejects every
  pattern it adds (`Enumeration.PlusOneRejected`).
- Line 152 adds the half `l // 2` for every ordered length, long or not,
  because it lies outside the `if` on line 148. So does the model
  (`Buffers.DerivedFrom`).

## Model

| member | source | states |
|---|---|---|
| Stock.PatternLengthFormula | app.py:20-25 | The pattern length is Σ 10·lengths[i]·counts[i] plus the kerf times the number of pieces, and it is 0 for the all-zero vector. |
| Stock.PatternLengthIsCharged | app.py:20-25 | The pattern length equals the reference definition, in which each piece is charged its length plus one kerf. |
| Stock.PaddedPrefixLength | app.py:63 | The length of the committed prefix, padded with zeros, is the charge of the prefix alone. |
| Stock.Optimizer.UsableLength | app.py:14-18 | Definition (no contract): the stock length less the fixture rest. |
| Stock.PatternLength | app.py:20-25 | Definition (no contract): Σ lengths[i]·counts[i] plus a kerf per piece, 0 when there are no pieces. Its properties are the two lemmas above. |
| Stock.Pieces | app.py:22 | Definition (no contract): `sum(counts)`, the number of pieces. |
| Stock.Dot | app.py:21 | Definition (no contract): `sum(lengths[i] * counts[i])`, in tenths of a millimetre. |
| Stock.TruncDiv | app.py:67 | Definition (no contract): `int(a / b)` for a positive divisor, truncated toward zero for a negative numerator; also used for line 149. |
| Enumeration.FeasibleInBox | app.py:29 | Every count vector that fits lies within the per-length bounds `max_counts`. |
| Enumeration.MaxCounts | app.py:29 | Definition: `int(usable / (l + kerf))` for every length. Its contract gives one entry per length. |
| Enumeration.MaxThis | app.py:63-67 | Definition (no contract): the smaller of `max_counts[idx]` and one more than the truncated quotient of the room the prefix leaves. |
| Enumeration.Rec | app.py:50-72 | Definition (no contract): the reference recursion, with the leaf check at the end and the counts `0..max_this` in turn elsewhere. Its meaning is `RecAgrees`. |
| Enumeration.RecUpTo | app.py:69-71 | Definition (no contract): the loop over the first `k` counts. Its meaning is `RecUpToAgrees`. |
| Enumeration.Enumerated | app.py:36-45 | Definition (no contract): the product branch, the filtered product of the ranges. Its meaning is `EnumeratedExactlyOnce`. |
| Enumeration.Generated | app.py:47 | Definition (no contract): the enumerated list sorted stably by waste. Its meaning is `GeneratedExactlyOnce` and `GeneratedSortedStably`. |
| Enumeration.MkPattern | app.py:39-45 | Definition (no contract): the pattern record of a count vector, with its length and `waste = usable - length`. |
| Enumeration.Leaf | app.py:51-60 | Definition (no contract): the leaf test of both strategies, the vector's pattern when it has a piece and fits, else nothing. |
| Enumeration.FilterMap | app.py:36-45 | Definition (no contract): the leaf test applied to every listed vector in turn. |
| Enumeration.ProdFrom | app.py:36 | Definition (no contract): `itertools.product` of the ranges `0..ms[i]` extending `prefix`, in its order. |
| Enumeration.ProdUpTo | app.py:36 | Definition (no contract): the product vectors whose entry after `prefix` is below `k`, in order. |
| Enumeration.Product | app.py:36 | Definition (no contract): `product(*[range(m + 1) for m in max_counts])`. |
| Enumeration.WasteKey | app.py:47 | Definition (no contract): the sort key `p['waste']`. |
| Enumeration.ProdFromCount | app.py:36 | The product enumeration lists every vector inside the bounds exactly once, and nothing else. |
| Enumeration.ProdUpToCount | app.py:36 | The first `k` values of a position list exactly the in-bounds vectors whose entry there is below `k`, each once. |
| Enumeration.FilterMapCount | app.py:36-45 | The product loop keeps each listed vector exactly when it is a non-zero vector that fits, turning it into its pattern. |
| Enumeration.EnumeratedExactlyOnce | app.py:27-46 | Before sorting, every feasible pattern appears exactly once and no other pattern appears. |
| Enumeration.GeneratedExactlyOnce | app.py:27-48 | The returned list contains every feasible pattern exactly once and nothing else. |
| Enumeration.GeneratedWellFormed | app.py:37-47 | Every returned pattern has a count per length and at least one piece, with `0 < length <= usable` and `waste == usable - length`, so `0 <= waste < usable`. |
| Enumeration.GeneratedSortedStably | app.py:47 | The list is ascending by waste, and the patterns of equal waste keep their generation order. |
| Enumeration.RecAgrees | app.py:50-72 | The recursion from any prefix produces exactly the product branch's filtered list for the vectors that extend that prefix, in the same order. |
| Enumeration.RecUpToAgrees | app.py:69-71 | The loop's first `k` counts produce what the product lists for those counts, with counts above the recursion's bound adding nothing. |
| Enumeration.PlusOneRejected | app.py:67 | The extra count `int(remaining / (l + kerf)) + 1` adds no pattern: the leaf check rejects everything below it. |
| Enumeration.OverCapacityRejected | app.py:67-71 | Every count beyond the capacity left by the prefix leads only to vectors that do not fit. |
| Enumeration.NoFit | app.py:54 | A count whose pieces alone exceed the room left by the prefix yields no feasible vector. |
| Enumeration.UnitPatternGenerated | app.py:27-48 | A single piece of any length that fits on a bar is one of the generated patterns. |
| Enumeration.OnlyFittingLengths | app.py:27-48 | No generated pattern uses a length that does not fit on a bar alone. |
| Enumeration.NothingFitsNothingGenerated | app.py:27-48 | When no length fits on a bar, no pattern is generated. |
| Generator.AppendIfFeasible | app.py:37-45 | A count vector's pattern, with its waste and length, is appended exactly when the vector is non-zero and fits. |
| Generator.GenerateRecursive | app.py:50-72 | It appends exactly the reference recursion's patterns for the current prefix, and leaves `current` as it found it. |
| Generator.TryCount | app.py:69-71 | One loop step: fixing `count` at position `idx` and recursing appends that extended prefix's patterns, and keeps the prefix and the zero tail. |
| Generator.GeneratePatterns | app.py:27-48 | Both branches return the reference list: every feasible pattern exactly once, sorted stably by waste. |
| Solver.PickBest | app.py:84-96 | It returns no pattern exactly when none is eligible. Otherwise the pattern it returns fits the remaining demand, uses at least one piece, has the highest score, and is the first pattern with that score. |
| Solver.PiecesUsed | app.py:90 | Definition (no contract): Σ min(counts[i], remaining[i]). `PiecesUsedOfCandidate` states its value for an eligible pattern. |
| Solver.Score | app.py:93 | Definition (no contract): `length / usable * 1000 + pieces_used`, as an exact real. |
| Solver.Candidate | app.py:87-91 | Definition (no contract): every count within the remaining demand and at least one piece used. |
| Solver.Eligible | app.py:84-94 | Definition (no contract): a candidate whose score beats the initial `best_score = -1`. |
| Solver.StepTimes | app.py:101-103 | `max(1, min quotient)` for the chosen pattern; its contract says it is at least 1. |
| Solver.Cut | app.py:105-106 | Definition (no contract): `remaining[i] - counts[i] * times` for every `i`. |
| Solver.ZipCounts | app.py:118 | Definition (no contract): `dict(zip(lengths, counts))`; `ZipCountsAt` states its entries. |
| Solver.Produced | app.py:232-236 | Definition (no contract): the pieces of one length that a list of applications produces, each count times its bars. |
| Solver.SomeWanted | app.py:83 | Definition (no contract): the main loop guard `any(r > 0 for r in remaining)`, some entry of the remaining demand is positive. |
| Solver.Demand | app.py:78-79 | `[order[l] for l in lengths]`; its contract gives one entry per length. |
| Solver.FirstBest | app.py:84-96 | Reference choice: the loop over the first `n` patterns, keeping an eligible pattern when its score is strictly higher than the best so far. Its contract bounds the index; `FirstBestSpec` states its meaning. |
| Solver.GreedyFrom | app.py:83-124 | Reference schedule (no contract): while something is wanted and `FirstBest` finds a pattern, cut it `max(1, min quotient)` times and go on from what is left. |
| Solver.GreedyRef | app.py:78-126 | Reference schedule of an order (no contract): `GreedyFrom` over the lengths in descending order, the generated patterns and the whole demand. |
| Solver.SolveRef | app.py:75-126 | Reference answer of `solve` (no contract): None for an empty order, otherwise `GreedyRef`. |
| Solver.FirstBestSpec | app.py:86-96 | The reference choice among the first `n` patterns is None exactly when none of them is eligible. Otherwise it is eligible, scores at least as high as every eligible one, and strictly higher than every eligible one before it. |
| Solver.PickedIsFirstBest | app.py:84-96 | Any choice meeting the loop's contract is the reference choice, so the loop's pick is determined. |
| Solver.GreedyRound | app.py:84-124 | One pass keeps demand accounted for and keeps the schedule on the reference one. When it reports being stuck, the rest of the reference schedule is empty and every length still wanted does not fit. |
| Solver.MinQuotient | app.py:101-102 | It is the smallest `remaining[i] // counts[i]` over the positions with a non-zero count, and is attained at one of them. |
| Solver.TimesFits | app.py:101-103 | For a pattern that fits the remaining demand, the quotient is at least 1, and applying the pattern that many times never takes more than remains. |
| Solver.CutPattern | app.py:105-106 | Each `remaining[i]` is lowered by `counts[i] * times`. |
| Solver.PiecesUsedOfCandidate | app.py:90 | For a pattern that fits the remaining demand, the pieces used are all of its pieces. |
| Solver.ZipCountsAt | app.py:118 | `dict(zip(lengths, counts))` maps each length to its count. |
| Solver.StepLowersSum | app.py:105-106 | Applying a pattern at least once strictly lowers the total remaining demand. |
| Solver.StepAccounted | app.py:101-124 | After an application, produced plus remaining is still the ordered quantity for every length, and nothing is negative. |
| Solver.ApplyPattern | app.py:101-124 | The loop body: `times = max(1, min quotient) >= 1`, the new remaining demand and the appended application are as the code builds them, demand stays non-negative and is conserved, and the total remaining strictly decreases. |
| Solver.StuckOnlyOnUnfit | app.py:98-99 | The loop stops early only when every length still in demand cannot fit on a bar. |
| Solver.FinishedProduced | app.py:83-126 | When the loop ends, every length that fits is produced exactly as ordered, and the others not at all. The solution is empty exactly when nothing that fits was ordered. |
| Solver.Greedy | app.py:81-126 | The solution is well formed, produces exactly the ordered count of every length that fits and none of the others, and is empty exactly when no ordered length fits. It is the reference schedule `GreedyFrom` of the whole demand, application by application. |
| Solver.GeneratedPatternsFor | app.py:80 | The generated patterns are all feasible and include the single piece of every length that fits. |
| Solver.Solve | app.py:74-126 | It returns `None` exactly for an empty order, and otherwise the reference schedule `GreedyRef` over the lengths in descending order and the generated patterns. That solution meets the demand of every length that fits and produces none of the others. |
| Evaluation.TubesPositive | app.py:229-230 | A solution cuts bars exactly when it has an application. |
| Evaluation.WasteBound | app.py:229-230 | The total waste is between nothing and the whole usable length of every bar cut. |
| Evaluation.TotalTubes | app.py:229 | Definition (no contract): the sum of `tube_count` over the solution. |
| Evaluation.TotalWaste | app.py:230 | Definition (no contract): the sum of `waste * tube_count` over the solution. |
| Evaluation.Utilization | app.py:253 | Utilisation is 0 when no bar is cut, and lies in [0, 100] when the waste is within bounds. With bars cut, it is 100 exactly when there is no waste. |
| Evaluation.SolutionUtilization | app.py:250-254 | The utilisation of a solution lies in [0, 100]. |
| Evaluation.AddApplication | app.py:235-236 | The dictionary gains each length's count times the application's bars, and no other lengths. |
| Evaluation.ComputeProduced | app.py:232-236 | `produced` holds, for every length, the pieces the whole solution produces of it, and holds only lengths that appear in an application. |
| Evaluation.VerificationRows | app.py:238-247 | There is one row per ordered length, longest first. Each row holds the wanted and produced counts and is ok exactly when enough was produced. |
| Buffers.AddDerived | app.py:146-152 | Every ordered length adds its half, and adds its complement when it is long and the complement exceeds 100 mm. |
| Buffers.AddStandard | app.py:155-156 | The standard filler lengths are added. |
| Buffers.IsLong | app.py:148 | Definition (no contract): `l > usable * 0.4`, cleared of the fraction. |
| Buffers.Complement | app.py:149 | Definition (no contract): `int(usable - l - 2 * kerf)`, truncated toward zero. |
| Buffers.DerivedFrom | app.py:147-152 | Definition (no contract): the half of `l`, and its complement when `l` is long and the complement exceeds 100 mm. |
| Buffers.Candidates | app.py:140-156 | Reference set of tried lengths (no contract): the ordered lengths, their halves, the qualifying complements and the standard lengths. |
| Buffers.InBufferRange | app.py:159 | Definition (no contract): at least 50 mm and at most 0.4 of the usable length. |
| Buffers.RankKey | app.py:188 | Definition (no contract): improvement descending, then quantity ascending. |
| Buffers.TryBuffer | app.py:163-185 | The suggestion one length and quantity yields is the reference `Trial`, which uses `solve`'s own answer for the extended order. Any suggestion it returns is admissible. |
| Buffers.TrialOnAdmissible | app.py:166-185 | A suggestion that a non-empty answer of `solve` yields is a tried length and quantity, measured on that answer, with an improvement above 1.5 points. |
| Buffers.Trial | app.py:163-185 | Reference trial: what `TrialOn` yields on `SolveRef` of the extended order. Its contract says a suggestion has the tried length and quantity and an improvement above 1.5. |
| Buffers.TrialOn | app.py:166-185 | The suggestion an answer of `solve` yields: none for an empty answer or an improvement of at most 1.5, otherwise the measured figures. Its contract says a suggestion has the tried length and quantity and an improvement above 1.5. |
| Buffers.CollectQty | app.py:162-185 | Reference list (no contract): the suggestions of the quantities in turn. |
| Buffers.CollectAt | app.py:158-185 | Reference list (no contract): a length outside the range of line 159 yields nothing, any other yields `CollectQty` over every quantity. |
| Buffers.Collected | app.py:158-185 | Reference list (no contract): the suggestions of the candidate lengths in turn. |
| Buffers.Ranked | app.py:158-188 | Reference ranking (no contract): `Collected` over the candidates in ascending order, sorted stably by `RankKey`. |
| Buffers.TryQuantities | app.py:162-185 | Trying every quantity appends exactly the reference suggestions of that length, in quantity order. |
| Buffers.RankAndKeep | app.py:188-198 | The kept suggestions are what the filter keeps of the ranked list, in ranked order, and each ranks at least as high as every suggestion of its length. |
| Buffers.KeptAreBest | app.py:188-198 | In a ranked list, every kept suggestion ranks at least as high as every other suggestion of its length. |
| Buffers.CandidateLengths | app.py:140-156 | The tried lengths are exactly the ordered lengths, their halves, the qualifying complements and the standard lengths. |
| Buffers.WithBuffer | app.py:163-164 | The test order adds `qty` pieces of the filler length and leaves every other length unchanged. |
| Buffers.KeepTake | app.py:193-196 | Keeping a suggestion of a new length while fewer than five are kept preserves the filter's invariant, and its length joins the seen set. |
| Buffers.KeepSkip | app.py:193-194 | Skipping a seen length, or any suggestion once five are kept, preserves the filter's invariant. |
| Buffers.KeepVaried | app.py:190-198 | At most five suggestions with distinct lengths are kept. Each is the first ranked one of its length, they keep their ranked order, and a new length is passed over only once five are kept. |
| Buffers.CalculateBufferSuggestions | app.py:134-198 | It returns `[]` when utilisation is at least 98. Otherwise it returns exactly what the filter of lines 191-198 keeps from `Ranked`, the ranked suggestions of every tried length, ascending, and every quantity. Every kept suggestion ranks at least as high as every suggestion of its length. At most five are kept, of distinct lengths, best improvement first and then smallest quantity. Each is a tried length between 50 mm and 0.4 of the usable length, with a tried quantity and a non-empty solution of the extended order. It reports that solution's utilisation, extra bars and waste reduction, with an improvement above 1.5 points. |
| Sorting.InsertPermutes | app.py:47 | Insertion adds exactly the inserted element. |
| Sorting.SortByPermutes | app.py:47 | Sorting only reorders. |
| Sorting.SortBySorted | app.py:47 | The sorted list is in ascending key order. |
| Sorting.SortByIsStable | app.py:47 | Elements with equal keys keep their input order. |
| Sorting.SortedAscending | app.py:140 | `sorted` of a set lists exactly its elements in strictly ascending order. |
| Sorting.SortedDescending | app.py:78 | `sorted(..., reverse=True)` lists exactly the set's elements in strictly descending order. |
| Sorting.AscendingSpec | app.py:140 | The reference ascending listing of a set is strictly ascending and holds exactly the set's elements. |
| Sorting.DescendingSpec | app.py:78 | The reference descending listing of a set is strictly descending and holds exactly the set's elements. |
| Sorting.Ascending | app.py:140 | Reference listing (no contract): the least element first, then the rest. `AscendingSpec` states its meaning. |
| Sorting.Descending | app.py:78 | Reference listing (no contract): `Ascending` reversed. `DescendingSpec` states its meaning. |
| Optimize.Optimize | app.py:217-258 | It fails with `EmptyOrder` exactly for an empty order, and with `NoSolution` exactly when no ordered length fits on a bar. Otherwise it reports the reference greedy schedule. That schedule is well formed and meets the demand of every length that fits. The report also holds the bar and waste totals and a utilisation in [0, 100]. Its verification rows, longest first, give each ordered length with its ordered quantity and the number of pieces the schedule produces of it, and are ok exactly for the lengths that fit. Below 97 % utilisation the buffer suggestions are what the filter keeps of the ranked suggestions; at or above it there are none. |

## Left out

- Flask plumbing (the app object, routes, templates, `jsonify`, HTTP codes, `app.run`) and the timestamp: web I/O and the clock.
- Request parsing, the `float`/`int` coercions and the merging of repeated items. `Optimize.Optimize` takes an already merged order whose lengths and quantities are positive, as the parsing loop guarantees.
- Floating point. The configuration must be a whole number of tenths of a millimetre, and utilisations, scores and improvements are exact reals.
- Optimize.Optimize: `round(..., 2)` on the utilisation (line 253) is left out, so the reported value, the `< 97` gate and the value handed to the buffer search are unrounded. Rounding moves the current utilisation by up to 0.005. That can flip the `< 97` gate. It also shifts every improvement computed on line 175 by the same amount, which can flip the `> 1.5` filter on line 177 for any suggestion near that threshold, so the model's suggestions can differ from the code's.
- Buffers.CalculateBufferSuggestions: line 188 ranks the rounded improvement. The model ranks the exact one, so two suggestions whose improvements differ by less than the rounding can come out in the other order. `new_utilization`, `improvement` and `waste_reduction` are unrounded, and `waste_reduction` is kept in tenths of a millimetre rather than metres.
- The metre conversions and `total_material_m` in the response: presentation only.
- The `pieces` and `label` lists of each application (lines 109-115): presentation only.
- `Stock.Optimizer.Valid`: the model assumes a positive usable length and a non-negative kerf.
- In-place sorting: `list.sort` is modelled as a function on sequences, a stable insertion sort, not as an update of the list in place.
- The solver's `remaining` list and the buffer search's lists are sequence values reassigned by the methods. `current` in `_generate_recursive` is an array updated in place.
- Generator.GenerateRecursive and Generator.TryCount: the shared list `patterns` that `_generate_recursive` appends to in place (lines 50-72) is passed in and returned as a sequence value, so the model does not capture its aliasing between the recursive calls; only `current` is an array.
- Any optimality claim for the greedy heuristic, and the running time of the enumeration.
