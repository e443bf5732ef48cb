# C-fast commodity release tooling: verified model

A Dafny model of the hard parts of the C-fast commodity release scripts, with proofs of what they promise.
Weights, prices and errors are exact reals, times are integer microseconds, hashes are injective.

| part | files | what it covers |
|---|---|---|
| weight caps | `Book`, `WeightCaps` | centring scores into two legs, product, sector and gross caps, the balance to zero net, the tighter buffer |
| integer allocator | `Candidates`, `BeamSearch`, `BeamLoops`, `BeamOptimality`, `AllocatorModel`, `AllocationResults`, `Allocator` | lot candidates, suffix bounds, the truncating beam, the choice among finalists, the report |
| source view | `SourceHistory`, `SourceView`, `SourceViewLaws` | header, source bindings and ten products: validation, the normal form, listing order, the seven bindings |
| signal | `RollIndex` | the point-in-time main contract, the roll-safe index and its trend signs |
| tick audit | `TickRows`, `TickMetrics`, `TickQuality`, `TickDistribution`, `Coverage`, `SessionWindows`, `TickAudit`, `AuditVerdict`, `AuditRun` | one-pass counters against their definitions, summaries, gap coverage, session windows, the verdict of a day and what it says about the ticks |
| archive chain | `ArchiveChain`, `MigrationPreflight` | rebuilding one linear chain from an unordered set of sessions, and the eligibility report |
| one-shot consume | `CustodyProtocol`, `CustodySafety`, `CustodyExecution`, `DeploymentOutcome` | several runners over a create-only directory, crashes and any clock, the sequential code, and reading a deployment outcome back against custody |
| bundle install | `BundleInstall`, `BundleSafety`, `BundleRuns`, `BundleExecution` | competing installers on one parent directory with a failure at any step, and the sequential code |
| key domains | `KeyDomains` | keyring loading and the separation of eight signing authorities |
| shared | `Sorting`, `RealMath`, `Optional`, `Clock`, `Identifiers` | keyed sorting, rounding and sums, absent values, the China clock and dates, the shapes of ids and digests |

Where the source changes state step by step the model does too: loops with invariants, the tick accumulator, the
custody directory and the parent directory as classes. Each such member is proved against a specification
function or predicate, and the main results are lemmas about those specifications. The two concurrent protocols
are state machines over the steps of any number of runners; separate modules prove that the sequential code of the
admission runner and of the installer ends, for every answer of the environment, where its own schedule of the
machine ends.

## Main results

- **Allocator.** What the search can return is exactly the vectors next to the target under the strict caps: every
  entry zero or, on the side of a target worth trading, within two and a half lots of it (`AllocationResults.ChoiceExact`).
  The result is one of them for every accepted input. Only a vector that reaches the bound of something truncated can
  beat it, so a result at most every truncated bound is the global optimum; with at most four non-negligible targets it
  always comes first, ties included. The search never dead-ends, and the fallback needs truncation (`AllocationSafe`,
  `AllocationGap`, `AllocationCertificate` and `FourTargetsOptimal`, and `Allocator.FallbackMeansTruncation`).
- **Caps.** Both stages end exactly net zero and inside every cap, only shrink, never flip a sign; a weight over the
  product cap is cut to exactly the cap and the lighter leg then stays; the "removed one leg" error and the gross
  branch of the source stage are unreachable; the buffer is idempotent.
- **Source view.** Acceptance, the normal form and every point-in-time main are the same for every listing of bindings,
  products, days and contracts together; normalizing twice changes nothing; no accepted view looks ahead of its
  research day or its cutoff (`SourceViewLaws.ViewOrderIndependent`, `MainsAgree`, `NormalizingViewTwice`,
  `NoLookAhead`).
- **Index.** Level ratios are products of old-main ratios, and while one contract is the main they are its own price
  ratios; the risk score times the floored volatility is the source score (`RollIndex.HeldMainTelescopes`,
  `ScoreAndRiskExact`); per-contract rescaling, listing order and later days cannot change them.
- **Tick audit.** Every counter equals its definition, and every grade is an exact set of inequalities between
  counts (`TickQuality.ClassifiedByCounts`); `p0_pass` holds exactly when the ticks of all ten products
  meet a stated condition, which includes no stretch over five seconds without a tick in any session of the
  current contract (`AuditRun.Audit`, `AuditRun.PassMeansDenseTicks`).
- **Archive chain.** Success exactly when the sessions form one chain, which is then unique and independent of
  listing order; the preflight reports exactly the codes that apply, and an eligible report means that expected,
  archived and live positions agree on every instrument.
- **One-shot.** At most one runner ever consumes an attempt, and an attempt whose owner stopped anywhere past its
  create, a torn marker included, never runs and never closes afterwards (`CustodySafety.StoppedAttemptNeverRuns`); a
  closing file hashes the marker beside it; complete files never change. Alone, an admission
  succeeds and a deployment is received exactly when stated conditions on clocks, answers and windows hold
  (`CustodyExecution.SuccessExactly`, `DeploymentExactly`).
- **Outcome.** Over custody states the protocol can reach, an outcome is accepted exactly when a receipt exists, the
  release files still verify to the consumed release, and the outcome's own times and signature are right; it stays
  accepted. The room checked at consume is not quite enough: every prompt deployment of at most the signed duration
  fits exactly when that duration ends strictly before expiry, and the check lets it end at expiry
  (`DeploymentOutcome.PromptDeploymentsFit`, `LastInstantReached`).
- **Install.** The destination is absent or holds one complete bundle, for ever; cleanup never touches it.
- **Keys.** The chained checks accept exactly eight pairwise disjoint valid keyrings.

## Where a threshold or a branch is redundant

- The 20-row session minimum never changes a verdict in a canonical window, where coverage already forces 24 ticks.
- The 11-row window minimum follows from coverage exactly when the half-width is at least 28 seconds; below that ten
  evenly spaced ticks pass coverage and fail the minimum (`Coverage.SpacedPasses`).
- The blocker list of the tick audit never decides `p0_pass`: the overall grade alone does.
- The overlap check on session windows can never be the one that refuses.
- When an outcome is verified, the release's time rules at its consume instant and the bindings between marker and
  receipt never refuse; the release, evidence and keyring files as they read then still can.
- No archive directory reaches the cycle verdict: the checksum of a session covers its id, which is its file name.
- A source view whose parts are valid has exactly seven bindings and uses them all, so neither the check for unused
  bindings nor the limit of seven refuses it.
- The independent-signer check of signed acceptance can never be the one that refuses.

## Model

| member | source | states |
|---|---|---|
| `Book.ExposuresWrittenOut` | scripts/commodity_c_fast_pure_producer_kernel.py:41-52 | Net, long, short, gross and each sector of the ten products written out term by term: which products a sector holds and how a weight counts |
| `WeightCaps.LegsHalf` | scripts/commodity_c_fast_pure_producer_kernel.py:1086-1100 | When both legs exist after centring, the starting long leg and the starting short leg weigh exactly one half each |
| `WeightCaps.SectorsMeetCapExactly` | scripts/commodity_c_fast_pure_producer_kernel.py:1108-1114 | A sector above its cap lands exactly on the cap; a sector inside it keeps its gross |
| `WeightCaps.ProductsMeetCapExactly` | scripts/commodity_c_fast_pure_producer_kernel.py:1101-1107 | A weight over the product cap is cut back to exactly the cap on its own side; a weight inside it is unchanged |
| `WeightCaps.CapsKeepSectorProportions` | scripts/commodity_c_fast_pure_producer_kernel.py:1108-1114 | Two products of one sector keep their relative size through the sector shrink |
| `WeightCaps.GrossMeetsCapExactly` | scripts/commodity_c_fast_pure_producer_kernel.py:1150-1153 | A book above the gross cap lands exactly on it; a book inside it is unchanged |
| `WeightCaps.GrossKeepsProportions` | scripts/commodity_c_fast_pure_producer_kernel.py:1150-1153 | Any two products keep their relative size through the gross shrink |
| `WeightCaps.CappedWithinCaps` | scripts/commodity_c_fast_pure_producer_kernel.py:1135-1153 | After the three cap stages every product, sector and gross cap holds, no weight grew, no sign flipped and no non-zero weight vanished |
| `WeightCaps.BalanceExact` | scripts/commodity_c_fast_pure_producer_kernel.py:1154-1169 | Balancing keeps every cap, only shrinks, and ends with two equal legs, so net zero |
| `WeightCaps.BalanceByLeg` | scripts/commodity_c_fast_pure_producer_kernel.py:1154-1169 | Balancing leaves every weight of the lighter leg as it is and scales every weight of the heavier one by lighter over heavier |
| `WeightCaps.CentredExact` | scripts/commodity_c_fast_pure_producer_kernel.py:1087-1088 | Centring keeps every difference between two scores and leaves a net of zero |
| `WeightCaps.LegsProportional` | scripts/commodity_c_fast_pure_producer_kernel.py:1093-1100 | A starting weight has the sign of its centred score, and two on one side are in the proportion of their scores |
| `WeightCaps.CappedLegsSurvive` | scripts/commodity_c_fast_pure_producer_kernel.py:1121-1125 | The caps never remove a leg: both capped legs are positive whenever the starting legs exist, so the "removed one portfolio leg" error cannot occur |
| `WeightCaps.SourceGrossBranchDead` | scripts/commodity_c_fast_pure_producer_kernel.py:1115-1120 | In exact arithmetic the gross of the source stage never exceeds its cap after the sector shrink: the gross branch is dead |
| `WeightCaps.CapSourceSafe` | scripts/commodity_c_fast_pure_producer_kernel.py:1086-1132 | For every score vector the source stage ends exactly net zero and inside every cap, and every weight is the starting leg weight moved toward zero without a sign flip |
| `WeightCaps.CapSourceKeepsCappedLegs` | scripts/commodity_c_fast_pure_producer_kernel.py:1086-1132 | Starting weights already inside every cap come out untouched |
| `WeightCaps.BufferSafe` | scripts/commodity_c_fast_pure_producer_kernel.py:1135-1171 | For every input vector, balanced or not, the buffer ends net zero and inside the buffer caps, never growing or flipping a weight |
| `WeightCaps.CapSourceByWeight` | scripts/commodity_c_fast_pure_producer_kernel.py:1086-1132 | Where no sector and not the gross is over its cap, each weight of the lighter clipped leg comes out as the starting weight cut to exactly the product cap, the other leg in proportion |
| `WeightCaps.BufferByWeight` | scripts/commodity_c_fast_pure_producer_kernel.py:1135-1171 | The same of the buffer stage, or zero when a clipped leg is negligible |
| `WeightCaps.BufferFixedPoints` | scripts/commodity_c_fast_pure_producer_kernel.py:1135-1171 | The buffer returns its input exactly when the input is inside the caps, net zero, and empty or not negligible |
| `WeightCaps.BufferIdempotent` | scripts/commodity_c_fast_pure_producer_kernel.py:1135-1171 | Buffering twice is buffering once, for every input |
| `WeightCaps.CapSourceOdd` | scripts/commodity_c_fast_pure_producer_kernel.py:1086-1132 | Negating every score negates every source weight |
| `WeightCaps.BufferOdd` | scripts/commodity_c_fast_pure_producer_kernel.py:1135-1171 | Negating the input of the buffer negates its output |
| `WeightCaps.CapSourceTranslationInvariant` | scripts/commodity_c_fast_pure_producer_kernel.py:1086-1132 | Adding one constant to every score leaves the source weights unchanged |
| `WeightCaps.ShrinkSectorsInOrder` | scripts/commodity_c_fast_pure_producer_kernel.py:1108-1114 | The in-place loop, sector by sector and member by member, gives the simultaneous shrink of all sectors |
| `WeightCaps.CapSourceWeights` | scripts/commodity_c_fast_pure_producer_kernel.py:1086-1132 | The source stage as written; it never reports an error and its result is the specified weights under the caps 0.20, 0.35 and 1.00 |
| `WeightCaps.BufferWeights` | scripts/commodity_c_fast_pure_producer_kernel.py:1135-1196 | The buffer stage as written, final checks included; the checks never fail and the result is the specified weights under the caps 0.12, 0.27 and 0.80 |
| `WeightCaps.VerifyExact` | scripts/commodity_c_fast_pure_producer_kernel.py:1174-1196 | The final check accepts exactly the weights within tolerance of every cap and of zero net |
| `Candidates.OptionsSafe` | scripts/commodity_c_fast_pure_producer_kernel.py:1239-1252 | Every candidate is on the side of the target, within 500 lots and strictly under the product cap |
| `Candidates.OptionsListed` | scripts/commodity_c_fast_pure_producer_kernel.py:1224-1253 | Zero is always a candidate, and candidates are strictly ascending |
| `Candidates.ListedExactly` | scripts/commodity_c_fast_pure_producer_kernel.py:1224-1253 | For a target worth trading the non-zero candidates are exactly the lots less than two and a half from the raw quantity (or exactly that far and even) on the side of the target, at most 500, and lighter than the strict product cap |
| `Candidates.AtMostSix` | scripts/commodity_c_fast_pure_producer_kernel.py:1224-1253 | There are never more than six candidates |
| `Candidates.RoundingsAdjacent` | scripts/commodity_c_fast_pure_producer_kernel.py:1224-1238 | Floor, ceiling and truncation are all within one lot of the rounded quantity |
| `Candidates.TruncateBelow` | scripts/commodity_c_fast_pure_producer_kernel.py:1224-1238 | Rounding toward zero never overshoots the target and misses it by less than one lot |
| `Candidates.TowardZeroIsOption` | scripts/commodity_c_fast_pure_producer_kernel.py:1208-1253 | A target inside the strict product cap always keeps its toward-zero rounding as a candidate |
| `BeamSearch.GrowTracks` | scripts/commodity_c_fast_pure_producer_kernel.py:1320-1354 | The running error, net, gross and sector totals carried by the search equal the totals recomputed from the quantities |
| `BeamSearch.PassesIffAdmits` | scripts/commodity_c_fast_pure_producer_kernel.py:1323-1332 | The two running cap tests pass exactly when the longer choice meets the gross cap and every sector cap |
| `BeamSearch.PrefixAdmits` | scripts/commodity_c_fast_pure_producer_kernel.py:1323-1332 | A choice within the caps has only prefixes within the caps: pruning early loses no admissible choice |
| `BeamSearch.BoundMonotone` | scripts/commodity_c_fast_pure_producer_kernel.py:1335-1347 | Extending a choice by one product never lowers its lower bound |
| `BeamSearch.BoundAtEnd` | scripts/commodity_c_fast_pure_producer_kernel.py:1335-1347 | At the last product the lower bound equals the objective |
| `BeamSearch.BoundAdmissible` | scripts/commodity_c_fast_pure_producer_kernel.py:1301-1347 | The lower bound of a partial choice never exceeds the objective of any of its completions |
| `BeamSearch.BoundReached` | scripts/commodity_c_fast_pure_producer_kernel.py:1301-1347 | The lower bound is as tight as its parts allow: some completion has its error, and its penalty is the square of the least positive or greatest negative net any completion reaches, or nothing |
| `BeamLoops.SuffixTables` | scripts/commodity_c_fast_pure_producer_kernel.py:1301-1311 | The three arrays filled from the last product to the first hold the least and greatest net and the least error still to come |
| `BeamLoops.ExpandStates` | scripts/commodity_c_fast_pure_producer_kernel.py:1318-1355 | The nested loops over states and candidates collect exactly the admissible extensions, each with its bound, in order |
| `BeamLoops.SearchBeam` | scripts/commodity_c_fast_pure_producer_kernel.py:1314-1366 | The whole search loop ends with the specified beam of complete choices |
| `BeamOptimality.LayerGenuine` | scripts/commodity_c_fast_pure_producer_kernel.py:1314-1366 | Every state in any beam is a choice of candidates within the running caps, with true totals |
| `BeamOptimality.DroppedAreWorst` | scripts/commodity_c_fast_pure_producer_kernel.py:1358-1366 | The truncation drops only from a full beam, and nothing it drops comes before anything it keeps by bound, error, absolute net and lots |
| `BeamOptimality.TrackChoice` | scripts/commodity_c_fast_pure_producer_kernel.py:1317-1366 | A feasible choice is still in the beam after any number of products, or the truncation dropped something whose bound is at most its objective |
| `BeamOptimality.ChosenFeasible` | scripts/commodity_c_fast_pure_producer_kernel.py:1368-1397 | The chosen quantities, the all-zero fallback included, meet every strict cap, whatever was truncated |
| `BeamOptimality.BeamGap` | scripts/commodity_c_fast_pure_producer_kernel.py:1301-1412 | Only a choice whose objective reaches the bound of something truncated can do better than the result |
| `BeamOptimality.BeamCertificate` | scripts/commodity_c_fast_pure_producer_kernel.py:1301-1412 | If the returned objective is at most every truncated bound, no feasible choice has a smaller objective |
| `BeamOptimality.ExhaustiveIsBest` | scripts/commodity_c_fast_pure_producer_kernel.py:1301-1397 | If nothing was truncated the result is least among all feasible choices in the whole tie-break order |
| `BeamOptimality.FallbackNeedsTruncation` | scripts/commodity_c_fast_pure_producer_kernel.py:1374-1387 | The all-zero fallback for lack of finalists is reached only when something was truncated |
| `BeamOptimality.NeverDeadEnds` | scripts/commodity_c_fast_pure_producer_kernel.py:1356-1357 | No product ever empties the beam, so the search never breaks off early |
| `BeamOptimality.SmallBookExhaustive` | scripts/commodity_c_fast_pure_producer_kernel.py:1317-1366 | A book with no more candidate tuples than the beam is wide is searched without truncation |
| `BeamOptimality.SixPerOpenLine` | scripts/commodity_c_fast_pure_producer_kernel.py:1317-1366 | The number of candidate tuples is at most six to the number of products with a non-zero target |
| `AllocatorModel.OrderPermutes` | scripts/commodity_c_fast_pure_producer_kernel.py:1292-1292 | The search order is a permutation of the ten products from the heaviest lot to the lightest, equal ones in product order |
| `AllocatorModel.ExposureByProduct` | scripts/commodity_c_fast_pure_producer_kernel.py:1397-1412 | Net, gross and sector totals in search order equal those in product order |
| `AllocatorModel.ErrorByProduct` | scripts/commodity_c_fast_pure_producer_kernel.py:1397-1412 | The squared error in search order equals the squared error over products |
| `AllocatorModel.FeasibleIffChoice` | scripts/commodity_c_fast_pure_producer_kernel.py:1284-1373 | The search is feasible on exactly the quantity vectors that take candidates and meet every strict cap |
| `AllocationResults.ChoiceExact` | scripts/commodity_c_fast_pure_producer_kernel.py:1208-1253 | What the search can return is exactly: every entry zero or on the side of a target worth trading, within two and a half lots of it and at most 500, and all product, sector, gross and net caps held strictly |
| `AllocationResults.ObjectiveOfOneMoreLot` | scripts/commodity_c_fast_pure_producer_kernel.py:1333-1347 | One more lot of a product changes the objective by exactly the two quadratic increments of its own miss and of the net |
| `AllocationResults.ObjectiveZeroExactly` | scripts/commodity_c_fast_pure_producer_kernel.py:1388-1397 | The objective is never negative, and zero exactly when the weights are the targets and these net to zero |
| `AllocationResults.AllocationSafe` | scripts/commodity_c_fast_pure_producer_kernel.py:1256-1412 | For every accepted input the result is within 500 lots, on the target side, and strictly inside the product, sector, gross and net caps |
| `AllocationResults.AllocationGap` | scripts/commodity_c_fast_pure_producer_kernel.py:1256-1412 | For every accepted input and every vector next to the target under the strict caps, either the result is at most that vector, or the truncation dropped something whose bound is at most it |
| `AllocationResults.AllocationCertificate` | scripts/commodity_c_fast_pure_producer_kernel.py:1301-1412 | A result no worse than every truncated bound is the global optimum over all vectors next to the target under the strict caps |
| `AllocationResults.FourTargetsExhaustive` | scripts/commodity_c_fast_pure_producer_kernel.py:1208-1366 | With at most four non-negligible targets the 2048-wide beam truncates nothing |
| `AllocationResults.FourTargetsOptimal` | scripts/commodity_c_fast_pure_producer_kernel.py:1256-1412 | With at most four non-negligible targets the result is itself next to the target under the strict caps, and comes first among all such vectors by objective, error, residual net and then lots in search order |
| `AllocationResults.HeadroomForTowardZero` | scripts/commodity_c_fast_pure_producer_kernel.py:1135-1355 | For a buffered target the all-toward-zero vector is made of candidates and is strictly under the product, sector and gross caps |
| `AllocationResults.TowardZeroNeverPruned` | scripts/commodity_c_fast_pure_producer_kernel.py:1317-1355 | No prefix of the all-toward-zero vector of a buffered target is ever pruned |
| `AllocationResults.SmallLotsLeaveAChoice` | scripts/commodity_c_fast_pure_producer_kernel.py:1135-1373 | When one lot of every product together, with a negligible margin, weighs strictly less than the net cap, the all-toward-zero vector of a buffered target is feasible |
| `Allocator.JointIntegerAllocate` | scripts/commodity_c_fast_pure_producer_kernel.py:1256-1412 | The allocator as written: it accepts exactly ten positive lot weights with no target worth trading over 500 lots; its report is what a recomputation from its quantities says, its quantities lie next to the target under every strict cap, and with at most four non-negligible targets they come first among all such vectors |
| `Allocator.AcceptedExactly` | scripts/commodity_c_fast_pure_producer_kernel.py:1260-1284 | The inputs not refused are ten targets with ten positive lot weights and no target worth trading of more than 500 lots |
| `Allocator.FallbackMeansTruncation` | scripts/commodity_c_fast_pure_producer_kernel.py:1374-1387 | The fallback for lack of finalists needs more than four non-negligible targets |
| `SourceHistory.NormalizeDay` | scripts/commodity_c_fast_pure_producer_kernel.py:702-786 | The loop over the contracts of a day accepts exactly the days bound to a market source of their exchange with valid, distinct contract names, and returns the contracts sorted by name |
| `SourceHistory.NormalizeHistory` | scripts/commodity_c_fast_pure_producer_kernel.py:700-791 | The loop over days accepts exactly the valid histories that cover the official days, and returns the normal form and the source bindings used |
| `SourceHistory.OrderIndependent` | scripts/commodity_c_fast_pure_producer_kernel.py:700-791 | Reordering days, and contracts within days, changes neither acceptance of a history nor its normal form |
| `SourceHistory.NormalizingTwice` | scripts/commodity_c_fast_pure_producer_kernel.py:700-791 | The normal form of a history is accepted and is its own normal form |
| `SourceHistory.NormalFormDays` | scripts/commodity_c_fast_pure_producer_kernel.py:727-791 | A normal form has the official days in order, each with at least three contracts by name and no contract twice |
| `SourceHistory.SpelledNames` | scripts/commodity_c_fast_pure_producer_kernel.py:441-458 | A name spelled from exchange, product, year and month is a name of them, and spells its own delivery month when the month is one |
| `SourceHistory.NamesAreSpelled` | scripts/commodity_c_fast_pure_producer_kernel.py:441-446 | There are no other names of a product on an exchange |
| `SourceHistory.TextLeqMeans` | scripts/commodity_c_fast_pure_producer_kernel.py:775-786 | Names and ids are ordered by the first character in which they differ |
| `SourceView.IndexExact` | scripts/commodity_c_fast_pure_producer_kernel.py:636-642 | With distinct ids the index by id finds exactly the listed bindings |
| `SourceView.OneCalendar` | scripts/commodity_c_fast_pure_producer_kernel.py:654-658 | Distinct roles leave room for one calendar binding, so the check that there is exactly one can only refuse a view without any |
| `SourceView.ScanBindings` | scripts/commodity_c_fast_pure_producer_kernel.py:636-658 | One pass decides whether every binding is valid and collects the index, the roles and the calendars |
| `SourceView.IndexBindings` | scripts/commodity_c_fast_pure_producer_kernel.py:633-666 | The bindings are accepted exactly when each is valid and available by the cutoff, no id and no class and scope repeat, and a calendar covers the first history day to the day after execution |
| `SourceView.NormalizeProduct` | scripts/commodity_c_fast_pure_producer_kernel.py:681-914 | A product is accepted exactly when exchange, history, reference and contract specification are; it yields the normal form of the product and every binding it uses |
| `SourceView.NormalizeProducts` | scripts/commodity_c_fast_pure_producer_kernel.py:676-914 | The loop over the products accepts exactly when every product is valid, and collects the normal forms and the bindings used |
| `SourceView.NormalizeView` | scripts/commodity_c_fast_pure_producer_kernel.py:558-934 | Validation accepts exactly the valid views and returns the normal form: bindings by id, products by name, days by date, contracts by name |
| `SourceViewLaws.ViewOrderIndependent` | scripts/commodity_c_fast_pure_producer_kernel.py:633-934 | Listing bindings, products, days and contracts in any other order changes neither acceptance of the view nor its normal form |
| `SourceViewLaws.NormalizingViewTwice` | scripts/commodity_c_fast_pure_producer_kernel.py:920-934 | A normal form is accepted, is its own normal form, lists the ten products in their frozen order and the bindings by id |
| `SourceViewLaws.MainsAgree` | scripts/commodity_c_fast_pure_producer_kernel.py:937-962 | In any two listings of one accepted view each product has on each day the same ranking of eligible contracts, so the same point-in-time main |
| `SourceViewLaws.SevenBindings` | scripts/commodity_c_fast_pure_producer_kernel.py:915-918 | A view whose parts are valid has exactly seven bindings, one for each class and exchange and one calendar, and uses every one: the last check, and the limit of seven, never refuse it |
| `SourceViewLaws.NoLookAhead` | scripts/commodity_c_fast_pure_producer_kernel.py:581-731 | In an accepted view every binding was cut off and generated by the view cutoff, every daily row lies on or before the research day inside a market window that ends by it, every reference price was observed by the cutoff, and the research month is over |
| `SourceViewLaws.WarmupNeverRefuses` | scripts/commodity_c_fast_pure_producer_kernel.py:1026-1037 | Every product of an accepted view has all official days up to the research day, at least 127, so the warm-up checks of the signal never refuse it |
| `SourceViewLaws.ProductTerms` | scripts/commodity_c_fast_pure_producer_kernel.py:662-904 | A product of an accepted view has its frozen exchange, multiplier and tick, an open of whole ticks, prices never negative, delivery months as spelled, and reference and specification bound on the execution day |
| `SourceViewLaws.CalendarSpans` | scripts/commodity_c_fast_pure_producer_kernel.py:654-666 | The calendar binding reaches from the first official day to the one after the execution day |
| `SourceViewLaws.ShapesHold` | scripts/commodity_c_fast_pure_producer_kernel.py:461-530 | Every id and digest an accepted view carries has its shape |
| `Identifiers.Sha256Exact` | scripts/commodity_c_fast_pure_producer_kernel.py:118-118 | A digest is sixty-four of the sixteen lower-case hexadecimal digits |
| `SourceViewLaws.BelongsExactly` | scripts/commodity_c_fast_pure_producer_kernel.py:395-412 | The instants that belong to an execution day are its whole China day and the last four hours of the China day of the official day before it |
| `SourceViewLaws.GeneratedOnExecutionDay` | scripts/commodity_c_fast_pure_producer_kernel.py:625-630 | An accepted view was generated, and its reference prices observed, in those instants |
| `SourceViewLaws.AlignedExactly` | scripts/commodity_c_fast_pure_producer_kernel.py:868-880 | A price counts as aligned exactly when some whole number of ticks is within 1e-9 of it, in ticks |
| `Clock.CivilIncreases` | scripts/commodity_c_fast_pure_producer_kernel.py:395-412 | Later China days have later Gregorian dates, so a date belongs to one day |
| `Clock.TomorrowAndBack` | scripts/commodity_c_fast_pure_producer_kernel.py:395-412 | The day after a date is a later date, and the day before that is the date itself |
| `RollIndex.MainIsBest` | scripts/commodity_c_fast_pure_producer_kernel.py:937-962 | The main contract delivers after the month of the day and trades; among all such contracts it has the largest open interest, then the earliest delivery, then the first name |
| `RollIndex.RankingExact` | scripts/commodity_c_fast_pure_producer_kernel.py:943-962 | There is a ranking exactly when at least three listed contracts deliver after the month of the day with positive price and open interest, and it lists exactly those |
| `RollIndex.RankingOrderIndependent` | scripts/commodity_c_fast_pure_producer_kernel.py:937-962 | The ranking of eligible contracts does not depend on their listing order |
| `RollIndex.BuildIndex` | scripts/commodity_c_fast_pure_producer_kernel.py:985-1016 | The loop succeeds exactly when every day has a main contract and every old main is priced the day after; its levels and ratios are the specified ones |
| `RollIndex.BuildProductSignal` | scripts/commodity_c_fast_pure_producer_kernel.py:985-1058 | The signal is defined exactly for indexable histories with warm-up and positive volatility, and equals the specified signal; its risk score times the volatility, or times 0.05 where that is larger, is the source score |
| `RollIndex.ScoreAndRiskExact` | scripts/commodity_c_fast_pure_producer_kernel.py:1040-1041 | Three times the source score is the rising horizons less the falling ones; the risk score times the volatility of the last sixty ratios, or times 0.05 where that is larger, is the source score |
| `RollIndex.VolatilityWindow` | scripts/commodity_c_fast_pure_producer_kernel.py:1035-1039 | The volatility input is the last sixty ratios: histories equal over their last sixty-one days have the same one |
| `RollIndex.LevelRatio` | scripts/commodity_c_fast_pure_producer_kernel.py:985-1034 | The level ratio over any horizon is the product of the old-main settlement ratios over it |
| `RollIndex.HeldMainTelescopes` | scripts/commodity_c_fast_pure_producer_kernel.py:997-1016 | While one contract stays the main, the level moves exactly as that contract settles |
| `RollIndex.CompoundSplits` | scripts/commodity_c_fast_pure_producer_kernel.py:1003-1015 | Compounding over two adjacent stretches is compounding over both |
| `RollIndex.TrendExact` | scripts/commodity_c_fast_pure_producer_kernel.py:1030-1034 | A trend sign is plus one, minus one or zero exactly as the compounded old-main ratios of the horizon are above, below or equal to one |
| `RollIndex.RiskBounded` | scripts/commodity_c_fast_pure_producer_kernel.py:1037-1041 | The volatility floor keeps every raw risk score within twenty of zero |
| `RollIndex.PrefixIndexable` | scripts/commodity_c_fast_pure_producer_kernel.py:985-1027 | A history that can be indexed can be indexed from any earlier day |
| `RollIndex.LevelsAreCausal` | scripts/commodity_c_fast_pure_producer_kernel.py:985-1027 | Two histories equal up to a day have equal levels up to that day |
| `RollIndex.RollAloneMovesNothing` | scripts/commodity_c_fast_pure_producer_kernel.py:1000-1016 | If the old main settles unchanged the level does not move, whichever contract is main next |
| `RollIndex.SignalRescaled` | scripts/commodity_c_fast_pure_producer_kernel.py:937-1058 | Multiplying the whole price history of each contract by its own positive constant changes neither whether there is a signal nor the signal |
| `ArchiveChain.WalkProgress` | scripts/commodity_c_fast_runtime_migration_preflight.py:154-165 | Every step of the walk sees a checksum not seen before, so the loop ends |
| `ArchiveChain.VerdictExact` | scripts/commodity_c_fast_runtime_migration_preflight.py:149-168 | Every verdict after the root check is the verdict read off the one forced path at its end: fork, cycle, disconnection or a whole chain |
| `ArchiveChain.EarlyVerdicts` | scripts/commodity_c_fast_runtime_migration_preflight.py:143-151 | The predecessor verdict is given exactly when some session names a predecessor that is no digest, the root verdict exactly when all do and not exactly one session names none |
| `ArchiveChain.ReconstructSound` | scripts/commodity_c_fast_runtime_migration_preflight.py:143-168 | A returned chain has one root, each session naming the one before it, and holds exactly the archived sessions |
| `ArchiveChain.ReconstructExact` | scripts/commodity_c_fast_runtime_migration_preflight.py:143-168 | Reconstruction returns a chain exactly when the sessions can be arranged as that chain |
| `ArchiveChain.ReconstructOrderIndependent` | scripts/commodity_c_fast_runtime_migration_preflight.py:143-168 | The verdict, chain included, is the same for every listing order of the sessions |
| `ArchiveChain.ChainUnique` | scripts/commodity_c_fast_runtime_migration_preflight.py:143-168 | A set of sessions has at most one arrangement as a chain |
| `ArchiveChain.NoCycleWhenDistinct` | scripts/commodity_c_fast_runtime_migration_preflight.py:162-163 | With distinct checksums the cycle verdict is never given |
| `ArchiveChain.LoadChain` | scripts/commodity_c_fast_runtime_migration_preflight.py:143-168 | The grouping loop and the walking loop return the specified verdict |
| `MigrationPreflight.NormalizedAgree` | scripts/commodity_c_fast_runtime_migration_preflight.py:103-113 | Normalized positions are equal exactly when every instrument has the same quantity, an absent one counting as flat |
| `MigrationPreflight.ReconciledExact` | scripts/commodity_c_fast_runtime_migration_preflight.py:210-238 | The reconciliation check passes exactly when the reconciliation matched without active orders and expected, archived and live positions are all present and agree on every instrument |
| `MigrationPreflight.SealedExact` | scripts/commodity_c_fast_runtime_migration_preflight.py:48-101 | The three checksum checks pass exactly when plan, execution and closing fields are what was hashed |
| `MigrationPreflight.SessionNameExact` | scripts/commodity_c_fast_runtime_migration_preflight.py:20-20 | A session file is named by its prefix, thirty-two hexadecimal digits and its suffix, and in no other way |
| `MigrationPreflight.SameChecksumSameName` | scripts/commodity_c_fast_runtime_migration_preflight.py:85-140 | Two archived entries with one terminal checksum have one file name: the checksum covers the session id, which must be the file stem |
| `MigrationPreflight.ArchivedChecksumsDistinct` | scripts/commodity_c_fast_runtime_migration_preflight.py:121-140 | The sessions a directory yields all have different checksums, whatever the directory holds |
| `MigrationPreflight.ArchiveNeverCycles` | scripts/commodity_c_fast_runtime_migration_preflight.py:149-168 | No directory listing brings the walk to its cycle verdict |
| `MigrationPreflight.SoundIffNotBlocked` | scripts/commodity_c_fast_runtime_migration_preflight.py:116-168 | An archive draws no code exactly when it is a directory without a spoiled entry whose sessions form a chain |
| `MigrationPreflight.ReadEntries` | scripts/commodity_c_fast_runtime_migration_preflight.py:121-140 | The loop over the directory yields exactly the archived sessions in order, and exactly the codes of the spoiled entries |
| `MigrationPreflight.LoadArchive` | scripts/commodity_c_fast_runtime_migration_preflight.py:116-168 | The codes are exactly those of the directory, its spoiled entries or its chain, the rows come in chain order when there are none, and the cycle code never comes up |
| `MigrationPreflight.TipOfReconstruction` | scripts/commodity_c_fast_runtime_migration_preflight.py:190-200 | The tip the pointer is compared with is the last session of the one chain the archive forms |
| `MigrationPreflight.EligibleIffUnreported` | scripts/commodity_c_fast_runtime_migration_preflight.py:171-268 | The state the report vouches for holds exactly when no code is reported |
| `MigrationPreflight.CheckFacts` | scripts/commodity_c_fast_runtime_migration_preflight.py:181-242 | The checks on account, pointer, tip, orders, positions and ownership yield exactly the codes of those that fail |
| `MigrationPreflight.Preflight` | scripts/commodity_c_fast_runtime_migration_preflight.py:171-268 | The blockers are exactly the reported codes; the report is eligible exactly when there are none, and exactly when the archive is one chain whose last session has the compared fields of the pointer, everything hashes as recorded, account and orders agree, and all three positions agree on every instrument; a disagreement is always reported |
| `CustodySafety.NextSafe` | scripts/commodity_c_fast_execution_quality_collection_admission.py:922-1067 | Every step of every runner, under any clock reading, revalidation answer, crash or write failure, keeps the protocol invariant and every complete file |
| `CustodySafety.RunSafe` | scripts/commodity_c_fast_execution_quality_collection_admission.py:922-1067 | The same over whole schedules of any number of runners of both protocols |
| `CustodySafety.CompleteFilesArePermanent` | scripts/commodity_c_fast_execution_quality_collection_admission.py:974-1062 | A complete marker or closing file is byte for byte the same in every later state |
| `CustodySafety.OneConsumerEver` | scripts/commodity_c_fast_readonly_deployment_release.py:1541-1583 | Once a marker is complete, or its owner stopped while writing it, no other runner of the attempt is past its consume in any later state |
| `CustodySafety.OneConsumerAtATime` | scripts/commodity_c_fast_execution_quality_collection_admission.py:929-980 | At any one moment at most one runner is past the consume of an attempt |
| `CustodySafety.ClosingNamesItsMarker` | scripts/commodity_c_fast_readonly_deployment_release.py:1584-1664 | A terminal or receipt exists only beside the complete marker whose exact hash it records, from the same runner and verified release |
| `CustodySafety.TerminalTimeline` | scripts/commodity_c_fast_execution_quality_collection_admission.py:937-1062 | A written terminal started inside the signed window, with the margin left, on a release issued no earlier than its acceptance, and ended no earlier; a success terminal was finally revalidated with the margin left, less than 600 seconds after issue |
| `CustodySafety.ReceiptLeavesRoom` | scripts/commodity_c_fast_readonly_deployment_release.py:525-589 | A receipt was consumed inside a signed window of at most two hours with room for the longest deployment before expiry |
| `CustodySafety.StoppedStaysStopped` | scripts/commodity_c_fast_execution_quality_collection_admission.py:1064-1067 | A failed, finished or crashed runner never acts again |
| `CustodySafety.StoppedAttemptNeverRuns` | scripts/commodity_c_fast_readonly_deployment_release.py:1541-1583 | When the runner that owns the marker of an attempt, complete or torn, has crashed, failed or finished, both files of the attempt stay as they are in every later state, a missing closing file included, and nobody else gets past the consume |
| `CustodyExecution.CustodyDirectory.CreateOnly` | scripts/commodity_c_fast_execution_quality_collection_admission.py:974-980 | A name is written once or not at all, and nothing else changes |
| `CustodyExecution.CustodyDirectory.WriteCreateOnly` | scripts/commodity_c_fast_execution_quality_collection_admission.py:974-980 | A write that completes, fails and cleans up, or fails and leaves a torn file: each way exactly that one name changes, and only if it was free |
| `CustodyExecution.DriveIsRun` | scripts/commodity_c_fast_execution_quality_collection_admission.py:903-1067 | Replaying the steps of one runner is a schedule of the whole protocol |
| `CustodyExecution.DriveSolo` | scripts/commodity_c_fast_execution_quality_collection_admission.py:924-1063 | The undisturbed schedule of one runner leads to the closed-form outcome for every answer of the environment |
| `CustodyExecution.OutcomeExact` | scripts/commodity_c_fast_execution_quality_collection_admission.py:998-1040 | Whether a run finishes, whether it succeeds and its error code, in terms of the clock readings, revalidation answers and write answers alone |
| `CustodyExecution.SuccessExactly` | scripts/commodity_c_fast_execution_quality_collection_admission.py:903-1067 | A run succeeds exactly when both files are new, every check and write comes back well, the clock never runs back, and the run fits between not-before and the margin before expiry; it then leaves the marker and a terminal with its three instants |
| `CustodyExecution.DeploymentExactly` | scripts/commodity_c_fast_readonly_deployment_release.py:1541-1664 | A deployment consume left alone ends with marker and receipt exactly when both files are new, its bindings hold and the longest deployment still fits before expiry, and otherwise changes nothing |
| `CustodyExecution.ExecuteOfflineAdmission` | scripts/commodity_c_fast_execution_quality_collection_admission.py:903-1067 | For every answer of the environment, failing and torn writes included, the sequential code leaves the custody directory as the schedule of its runner does, raises exactly when the run does not finish, and exits zero exactly when every check held |
| `BundleSafety.NextSafe` | scripts/commodity_c_fast_shakedown_artifact.py:524-640 | Every step of every installer, succeeding, failing, or committing and then failing, keeps the invariant and any bound destination |
| `BundleSafety.RunSafe` | scripts/commodity_c_fast_shakedown_artifact.py:524-640 | The same over whole schedules of competing installers |
| `BundleSafety.NeverHalfInstalled` | scripts/commodity_c_fast_shakedown_artifact.py:580-610 | In every reachable state the destination is absent or holds exactly one installer snapshot and its matching checksum |
| `BundleSafety.InstalledForEver` | scripts/commodity_c_fast_shakedown_artifact.py:605-610 | Once bound, the destination keeps its directory and its bytes in every later state |
| `BundleSafety.ReturnedMeansInstalled` | scripts/commodity_c_fast_shakedown_artifact.py:617-630 | An installer that returned has its own snapshot at the destination, and at most one installer ever returns |
| `BundleSafety.CleanupNeverHoldsPublished` | scripts/commodity_c_fast_shakedown_artifact.py:304-348 | An installer in cleanup never holds the published directory, even after a rename that committed and then reported failure |
| `BundleSafety.CleanupLeavesNoTrace` | scripts/commodity_c_fast_shakedown_artifact.py:304-348 | An undisturbed cleanup removes the staging name and directory and nothing else |
| `BundleSafety.LostResponseKeepsBundle` | scripts/commodity_c_fast_shakedown_artifact.py:318-322 | After a committed rename whose response was lost, cleanup finds nothing to remove and the bundle stays |
| `BundleSafety.UndisturbedInstall` | scripts/commodity_c_fast_shakedown_artifact.py:524-640 | Left alone, an installer publishes its bundle, returns its digest, and leaves no staging name behind |
| `BundleInstall.InstalledExactly` | scripts/commodity_c_fast_shakedown_artifact.py:502-521 | Validation yields a digest exactly of a directory with the snapshot and its own checksum and nothing else |
| `BundleInstall.StagingNamesDiffer` | scripts/commodity_c_fast_shakedown_artifact.py:538-540 | Installers with different tokens stage under different hidden names, none of them the destination |
| `BundleRuns.InstallRuns` | scripts/commodity_c_fast_shakedown_artifact.py:524-640 | For every way the system can answer one installer, its own schedule of the state machine ends in the stated closed form: raised without a trace, an empty directory it could not open, a bundle published with a lost response, or a bundle returned |
| `BundleExecution.ParentDirectory.CleanupStagingIfUnpublished` | scripts/commodity_c_fast_shakedown_artifact.py:304-348 | Removes the staging directory exactly when its name still leads to the inode the installer made |
| `BundleExecution.ParentDirectory.WritePrivateFile` | scripts/commodity_c_fast_shakedown_artifact.py:283-301 | One file of the staging directory is written, or left out or torn as the write was answered, and nothing else changes |
| `BundleExecution.ParentDirectory.StageBundle` | scripts/commodity_c_fast_shakedown_artifact.py:560-588 | The staging directory ends with both files, or with what a refused or torn write left |
| `BundleExecution.ParentDirectory.InstallSnapshotBundle` | scripts/commodity_c_fast_shakedown_artifact.py:524-640 | For every answer of every system call, the sequential code ends in the file system and phase of its own schedule of the state machine; it raises exactly when the destination or staging name is taken or a call failed, and otherwise returns the checksum of its installed snapshot |
| `TickRows.CountImplies` | scripts/commodity_c_fast_l1_l5_audit.py:391-407 | A fact that implies another is counted at most as often |
| `TickRows.CountSplits` | scripts/commodity_c_fast_l1_l5_audit.py:316-329 | A fact that is exactly one of two exclusive facts is counted as often as both together |
| `TickRows.SequenceConservation` | scripts/commodity_c_fast_l1_l5_audit.py:316-329 | Regressions and repeats add up to the non-increasing sequence numbers, and resets are at most regressions |
| `TickRows.DepthConservation` | scripts/commodity_c_fast_l1_l5_audit.py:391-413 | L5-complete rows are at most L1-complete rows, which are at most all rows |
| `TickRows.FullBookIsTenLevels` | scripts/commodity_c_fast_l1_l5_audit.py:374-407 | A full level has a price and a volume, a full book is ten full levels, and a full top its first two |
| `TickRows.TopOfBook` | scripts/commodity_c_fast_l1_l5_audit.py:409-413 | Two priced tops are crossed exactly when the bid is above the ask and locked exactly when they are equal |
| `TickRows.OrderedBookNotCounted` | scripts/commodity_c_fast_l1_l5_audit.py:1727-1748 | A book whose priced bids never rise and priced asks never fall adds to neither inversion count |
| `TickRows.InvertedExactly` | scripts/commodity_c_fast_l1_l5_audit.py:1727-1748 | A side with five priced levels is counted as inverted exactly when two of them, neighbours or not, are out of order |
| `TickRows.MatchedRise` | scripts/commodity_c_fast_l1_l5_audit.py:430-446 | In whole lots a rise of the cumulative volume is matched exactly when the last volume is that rise |
| `TickRows.IntervalConservation` | scripts/commodity_c_fast_l1_l5_audit.py:331-350 | In a time-ordered stream the intervals, the repeated timestamps and one add up to the number of rows |
| `TickRows.RepeatedTsSeqWhenOrdered` | scripts/commodity_c_fast_l1_l5_audit.py:331-335 | In a time-ordered stream a repeated sequence number at one instant is exactly two rows with equal time and number, a missing number counting as zero |
| `TickRows.IdConservation` | scripts/commodity_c_fast_l1_l5_audit.py:297-304 | Missing, distinct and duplicate ids add up to the number of rows |
| `TickRows.RepeatedMeansSeen` | scripts/commodity_c_fast_l1_l5_audit.py:297-304 | A duplicate id is exactly a present id seen earlier in the stream |
| `TickMetrics.AddIdentity` | scripts/commodity_c_fast_l1_l5_audit.py:288-312 | Adding a row moves every identity counter and the set of seen ids to their definitions over the longer stream |
| `TickMetrics.AddSequence` | scripts/commodity_c_fast_l1_l5_audit.py:314-329 | Adding a row moves every sequence counter to its definition over the longer stream |
| `TickMetrics.AddCadence` | scripts/commodity_c_fast_l1_l5_audit.py:331-351 | Adding a row moves the timestamp, gap and interval counters and the remembered last instant to their definitions |
| `TickMetrics.AddLatency` | scripts/commodity_c_fast_l1_l5_audit.py:353-359 | Adding a row moves the latency list and its two counters to their definitions |
| `TickMetrics.AddDepth` | scripts/commodity_c_fast_l1_l5_audit.py:391-415 | Adding a row moves the completeness, crossing and inversion counters to their definitions |
| `TickMetrics.AddLevels` | scripts/commodity_c_fast_l1_l5_audit.py:374-389 | The inner loop over five levels moves the price, volume and pair counters of each level to their definitions |
| `TickMetrics.AddVolume` | scripts/commodity_c_fast_l1_l5_audit.py:418-446 | Adding a row moves the cumulative-volume counters and the remembered day and volume to their definitions |
| `TickMetrics.MetricsAccumulator.Add` | scripts/commodity_c_fast_l1_l5_audit.py:284-446 | After any sequence of rows every counter, set and list of the accumulator equals its declarative definition over those rows |
| `TickQuality.WorstExact` | scripts/commodity_c_fast_l1_l5_audit.py:2071-2078 | The worst of a list is a member, bounds every severity in it, and is the best grade exactly when the list is non-empty and all of it is |
| `TickQuality.WorstLadder` | scripts/commodity_c_fast_l1_l5_audit.py:2071-2078 | Unusable outweighs L1-only, which outweighs degraded, which outweighs usable |
| `TickQuality.Result` | scripts/commodity_c_fast_l1_l5_audit.py:448-614 | The classification read off the counters is the declarative classification of the rows added, and what the counts of those rows say when every share is compared without division or rounding |
| `TickQuality.ClassifiedByCounts` | scripts/commodity_c_fast_l1_l5_audit.py:536-615 | Each grade holds exactly under inequalities between counts: full tops and books, stale, skewed, crossed, locked and inverted rows and matched rises against 0.995, 0.95, 0.01, 0.001, 0.0001, 0.05, 0.001 and 0.95 of the rows or rises, to half a unit of the ninth decimal, with the zero counts |
| `TickQuality.ShareExact` | scripts/commodity_c_fast_l1_l5_audit.py:1698-1699 | A share rounded to nine decimals is at most, or at least, an even number of those units exactly when the count is, with half a unit to spare |
| `TickQuality.UsableShares` | scripts/commodity_c_fast_l1_l5_audit.py:536-615 | A usable segment keeps every share within its limit, in counts of its rows |
| `TickQuality.NoneCounted` | scripts/commodity_c_fast_l1_l5_audit.py:559-567 | A fact counted zero times holds of no row |
| `TickQuality.UsableMeansIdentified` | scripts/commodity_c_fast_l1_l5_audit.py:536-570 | A usable segment has rows, and every row has a receipt time, a unique id, the signed day, a positive price and a positive sequence number that grows with time |
| `Coverage.MaxGapBounds` | scripts/commodity_c_fast_l1_l5_audit.py:1751-1761 | The largest gap is within a limit exactly when every gap between neighbours is |
| `Coverage.PassesIffDense` | scripts/commodity_c_fast_l1_l5_audit.py:1016-1026 | Coverage passes exactly when there is a tick and every stretch of the window longer than the limit contains one |
| `Coverage.PassingForcesTicks` | scripts/commodity_c_fast_l1_l5_audit.py:1764-1807 | Passing coverage takes at least the window length over the limit, less one, ticks |
| `Coverage.CoverageForcesSessionRows` | scripts/commodity_c_fast_l1_l5_audit.py:95-100 | In any window the canonical-clock check accepts, passing the five-second coverage takes at least 24 ticks |
| `Coverage.WindowMinimumRedundantExactly` | scripts/commodity_c_fast_l1_l5_audit.py:1055-1065 | In an execution window the 11-row minimum follows from coverage exactly when the half-width is at least 28 seconds |
| `TickAudit.SelectedExact` | scripts/commodity_c_fast_l1_l5_audit.py:996-1003 | The rows fed to a session or window are exactly the stream rows whose time lies in it |
| `TickAudit.SelectedByTime` | scripts/commodity_c_fast_l1_l5_audit.py:996-1003 | A session takes the rows from its start up to but not including its end, a window those up to and including its end |
| `TickAudit.SessionShortfall` | scripts/commodity_c_fast_l1_l5_audit.py:1022-1032 | A session that falls short is unusable when empty, degraded when its ticks were usable, and keeps its grade otherwise |
| `TickAudit.ContractVerdictLadder` | scripts/commodity_c_fast_l1_l5_audit.py:1035-1049 | A contract is as bad as the worst of its stream and, when current, its sessions |
| `TickAudit.SessionMinimumRedundant` | scripts/commodity_c_fast_l1_l5_audit.py:1016-1032 | In canonical windows the 20-row minimum never changes a session verdict |
| `TickAudit.SessionUsableExact` | scripts/commodity_c_fast_l1_l5_audit.py:1016-1032 | A session is usable exactly when its ticks classify as usable, number at least the minimum, and leave no stretch over five seconds empty |
| `TickAudit.WindowUsableExact` | scripts/commodity_c_fast_l1_l5_audit.py:1043-1068 | An execution window is usable exactly when its ticks classify as usable, number at least eleven, lie on both sides of the execution time, and leave no stretch over five seconds empty |
| `TickAudit.StreamRows` | scripts/commodity_c_fast_l1_l5_audit.py:979-1003 | One pass feeds every accumulator exactly its own rows, and refuses a stream over the limit |
| `TickAudit.AuditContract` | scripts/commodity_c_fast_l1_l5_audit.py:937-1132 | One pass per contract gives the declarative contract, session and window verdicts, and refuses exactly the streams over the row limit |
| `AuditVerdict.FirstFitExact` | scripts/commodity_c_fast_l1_l5_audit.py:1150-1168 | The current or previous contract used is the first one listed for the product in that role |
| `AuditVerdict.GradeRole` | scripts/commodity_c_fast_l1_l5_audit.py:1157-1195 | The grades a role adds are exactly those of the windows of its first contract, or one for having none; the shortfall says which |
| `AuditVerdict.RoleBlockersExact` | scripts/commodity_c_fast_l1_l5_audit.py:1157-1195 | A role without a window of its first contract draws one blocker, which for the previous role says whether there is a contract |
| `AuditVerdict.TotalRowsAdds` | scripts/commodity_c_fast_l1_l5_audit.py:1143-1150 | The rows of a product add up over its contracts |
| `AuditVerdict.GradeSessions` | scripts/commodity_c_fast_l1_l5_audit.py:1196-1217 | The missing sessions are exactly those without ticks, the insufficient exactly those with ticks and not usable |
| `AuditVerdict.SummarizeProduct` | scripts/commodity_c_fast_l1_l5_audit.py:1143-1236 | The grade is the worst of everything that contributes to it, so the best exactly when contracts, current windows, expected roll windows and sessions are all usable; the blockers are exactly the shortfalls |
| `AuditRun.AuditContracts` | scripts/commodity_c_fast_l1_l5_audit.py:825-842 | Auditing every contract gives exactly the window results of each contract on its own windows |
| `AuditRun.SummarizeProducts` | scripts/commodity_c_fast_l1_l5_audit.py:1135-1237 | Every product line has its worst contributing grade, its rows and session shortfalls, and the blockers are the shortfalls of each product; all ten get the best grade exactly when each meets its own condition |
| `AuditRun.SessionSegmentUsable` | scripts/commodity_c_fast_l1_l5_audit.py:1004-1034 | A session segment is usable exactly when the ticks of the stream inside it are accepted |
| `AuditRun.WindowOutcomeUsable` | scripts/commodity_c_fast_l1_l5_audit.py:1060-1087 | A window result is usable exactly when the ticks of the stream inside it are accepted |
| `AuditRun.ContractUsableExact` | scripts/commodity_c_fast_l1_l5_audit.py:1035-1049 | A contract is usable exactly when its whole stream is and, for a current contract, every session is accepted |
| `AuditRun.ProductPassesExact` | scripts/commodity_c_fast_l1_l5_audit.py:1135-1237 | A product passes exactly when its ticks are accepted; the rows blocker adds nothing |
| `AuditRun.Audit` | scripts/commodity_c_fast_l1_l5_audit.py:794-854 | The verdict passes exactly when the ticks of all ten products are accepted, and exactly when the overall grade is the best: the blockers never decide it |
| `AuditRun.PassMeansDenseTicks` | scripts/commodity_c_fast_l1_l5_audit.py:843-854 | A pass gives every product a current contract with well-identified ticks, every share within its limit in counts of rows, no stretch over five seconds empty in any session, and an accepted execution window |
| `KeyDomains.LoadKeyring` | scripts/commodity_c_fast_p0_acceptance_v2.py:264-322 | A keyring is accepted exactly when its version, purposes, ids and keys are valid and distinct and the signer is listed; it yields one key per entry and the signer key |
| `KeyDomains.RingValidExactly` | scripts/commodity_c_fast_p0_acceptance_v2.py:264-322 | A ring is valid exactly when its entries decode to distinct 32-byte points under distinct ids for the demanded purpose and it lists its signer |
| `KeyDomains.RingKeysExactly` | scripts/commodity_c_fast_p0_acceptance_v2.py:264-322 | The keys of a valid ring are exactly what its entries decode to |
| `KeyDomains.ReadPolicyKeyring` | scripts/commodity_c_fast_execution_quality_collection_admission.py:225-263 | The policy keyring is accepted exactly when its ids, purposes and keys are valid and no key repeats |
| `KeyDomains.DisjointAppend` | scripts/commodity_c_fast_execution_quality_collection_admission.py:762-765 | A further ring is separated from all before it exactly when it avoids their union |
| `KeyDomains.DisjointIffCounted` | scripts/commodity_c_fast_p0_acceptance_v2.py:907-914 | Rings share no key exactly when the number of distinct keys equals the sum of the ring sizes |
| `KeyDomains.Separated` | scripts/commodity_c_fast_p0_acceptance_v2.py:907-914 | The double loop over pairs accepts exactly pairwise disjoint domains |
| `KeyDomains.VerifyKeyDomains` | scripts/commodity_c_fast_p0_acceptance_v2.py:885-914 | The upstream rings are accepted exactly when each is valid and they are pairwise disjoint; the result is their union |
| `KeyDomains.VerifyAcceptanceKeys` | scripts/commodity_c_fast_p0_acceptance_v2.py:1835-1851 | Signed acceptance adds one more disjoint ring; the separate independent-signer check can never be the one that refuses |
| `KeyDomains.VerifyAdmissionKeys` | scripts/commodity_c_fast_execution_quality_collection_admission.py:305-409 | The chained checks accept exactly when all eight rings are valid and pairwise disjoint |
| `KeyDomains.KeysEqualEntries` | scripts/commodity_c_fast_execution_quality_collection_admission.py:762-765 | For eight valid rings, separation means exactly that there are as many distinct keys as keyring entries |
| `SessionWindows.CanonicalApart` | scripts/commodity_c_fast_l1_l5_audit.py:95-100 | Canonical windows of two different sessions lie strictly apart, on whichever nights their dates put them |
| `SessionWindows.CanonicalClock` | scripts/commodity_c_fast_l1_l5_audit.py:95-100 | The accepted windows are 21:00:00 to 21:02:05 and 21:10:00 to 21:20:00 of one of the three nights before the trading date, and 09:00:00 to 09:02:05 and 09:10:00 to 09:20:00 of the date itself |
| `SessionWindows.ManifestSessionWindows` | scripts/commodity_c_fast_l1_l5_audit.py:1864-1905 | The manifest windows are accepted exactly when each is in range and canonical; the overlap check can never be the one that refuses |
| `SessionWindows.MinimumNeverDecides` | scripts/commodity_c_fast_l1_l5_audit.py:1016-1032 | In accepted windows every session verdict is the same with and without the 20-row minimum |
| `TickDistribution.AtBetween` | scripts/commodity_c_fast_l1_l5_audit.py:1713-1724 | An interpolated value lies between the two values it interpolates |
| `TickDistribution.AtProportional` | scripts/commodity_c_fast_l1_l5_audit.py:1713-1724 | Between two neighbours the value moves in proportion to the position |
| `TickDistribution.QuantileOfEvenSteps` | scripts/commodity_c_fast_l1_l5_audit.py:1713-1724 | A quantile of evenly spaced values lies the same share of the way from the first to the last |
| `TickDistribution.AtMonotone` | scripts/commodity_c_fast_l1_l5_audit.py:1713-1724 | In an ordered list a later position never has a smaller interpolated value |
| `TickDistribution.QuantilesOrdered` | scripts/commodity_c_fast_l1_l5_audit.py:1713-1724 | Rounded quantiles grow with the percentile and lie between the least and the greatest value |
| `TickDistribution.DistributionOrdered` | scripts/commodity_c_fast_l1_l5_audit.py:1702-1710 | For every list p50, p95, p99 and max are in order, max is the greatest value, and all are absent exactly for the empty list |
| `TickDistribution.DistributionOrderIndependent` | scripts/commodity_c_fast_l1_l5_audit.py:1702-1710 | A summary does not depend on the listing order of its values |
| `DeploymentOutcome.VerifyPostTimes` | scripts/commodity_c_fast_readonly_deployment_outcome.py:663-845 | The time checks accept exactly when the deployment steps are in order inside the signed window and duration and every post evidence was captured after the restart and in time |
| `DeploymentOutcome.TimesOnOneLine` | scripts/commodity_c_fast_readonly_deployment_outcome.py:663-845 | The times hold exactly when not-before, consume, start, secret, restart, end, signature and now follow one another, the end within expiry and signed duration, the signature within a day, and every capture between restart and end, the health capture within two minutes |
| `DeploymentOutcome.VerifySignedOutcome` | scripts/commodity_c_fast_readonly_deployment_outcome.py:1026-1065 | An outcome is accepted exactly when the custody chain verifies against the release files as they read now, the post times hold, it was issued after the end, within 24 hours and not in the future, and it is signed |
| `DeploymentOutcome.ReachableChainHolds` | scripts/commodity_c_fast_readonly_deployment_outcome.py:387-526 | In every state the one-shot protocol can reach, the custody chain verifies exactly when a receipt is there and the release files still verify to the release it records: the time rules at the consume instant and the bindings between marker and receipt never refuse |
| `DeploymentOutcome.AcceptedExactly` | scripts/commodity_c_fast_readonly_deployment_outcome.py:387-430 | Over reachable custody states acceptance is exactly a receipt, release files unchanged since the consume, right times of the outcome itself, and its signature |
| `DeploymentOutcome.AcceptanceLasts` | scripts/commodity_c_fast_readonly_deployment_outcome.py:1026-1065 | An accepted outcome stays accepted on the same release files, whatever runners do afterwards and however late it is read |
| `DeploymentOutcome.OutcomeSpan` | scripts/commodity_c_fast_readonly_deployment_release.py:692-702 | From the evidence a release was issued on to the signature of its accepted outcome takes less than 27 hours |
| `DeploymentOutcome.PromptDeploymentsFit` | scripts/commodity_c_fast_readonly_deployment_outcome.py:686-705 | For a release open at its consume: every deployment that starts there and keeps the signed duration meets the time chain exactly when that duration ends strictly before expiry |
| `DeploymentOutcome.LastInstantReached` | scripts/commodity_c_fast_readonly_deployment_outcome.py:686-705 | A release of one minute consumed at its start meets the check at consume, and its full-length deployment is refused |

## Left out

- Signatures, SHA-256, base64, PEM and JSON parsing, JSON Schema: library calls; a hash is what it hashes, decoding and key validity are parameters.
- File reading, ownership and permission checks, `fsync`, DSN handling, database queries: only create-only files and the no-replace rename are kept, and a query is the list of rows it returns.
- Floating point: `math.fsum` and products are exact reals, so the tolerances of the final weight checks are never used up; non-finite inputs do not exist.
- `math.log`, `math.exp` and the volatility formula: the index is kept as ratios, a trend sign compares a ratio with one, and volatility is an arbitrary function of the ratios.
- Field-by-field payload equalities, authority flags and keyring digests and pins: one equality each; verified releases are compared as whole values.
- BundleInstall: one validation, and one check of the paths and identities around it, is a single step that may refuse; the installers never write a file outside their own staging directory.
- BundleExecution.ParentDirectory.InstallSnapshotBundle: one installer run alone; competing installers and crashes are covered by the state machine.
- CustodyProtocol: a file write is two steps, opening and completing, and a failed write may or may not remove its own unfinished file; all checks on bindings at one instant are one answer of the environment.
- CustodyExecution.ExecuteOfflineAdmission: covers the admission runner run alone; other runners, and a crash between two steps, are covered by the state machine.
- CustodyExecution.DeploymentExactly: a deployment consume run alone whose writes complete; its failing writes and crashes are covered by the state machine.
- TickDistribution: values are exact reals given as a list; the conversion of the accumulator's microseconds to milliseconds is not modelled.
- DeploymentOutcome.VerifySignedOutcome: times and the custody chain only; what the release, evidence and keyring files verify to is one input, the outcome's own signature and keyring one flag, and the field equalities of the post bundle are not modelled.
- TickAudit.AuditContract: rows of a query are given in order and as one list; batches of 5000 are not modelled, and row values that fail to convert do not occur.
- AuditVerdict.SummarizeProduct: the text of a blocker is its kind and the session numbers.
- AuditRun.SummarizeProducts: states which blockers each product has, not their order across products.
- AuditRun.Audit: Markdown and CSV rendering, row totals and classification counts of the report are not part of this model.
- Clock: China time has a fixed offset of eight hours; the parsing of manifest dates is not modelled.
- SourceView.NormalizeView: fields hold parsed values, so malformed dates, instants and numbers, missing or extra fields and values of the wrong type do not occur; all errors are one refusal.
- The size limits on the source view and its canonical JSON bytes: counts compared with constants before validation.
- MigrationPreflight.Preflight: blockers are stated as a set of codes, not as a sorted list; what the plan and execution checksums cover is opaque text, and documents with missing fields or fields that are not strings do not occur.
- ArchiveChain: a predecessor is a string or absent; other JSON values in that field are not modelled.
- KeyDomains.VerifyAdmissionKeys: signature checks, raw-file rereads and the second load of the same files are not modelled; versions and purposes are parameters.
- WeightCaps: the dictionary of weights is a list in the order of the ten products, rebuilt where the source assigns into it.
- `scripts/commodity_c_fast_l1_l5_audit_v4.py`, the older P0 acceptance and the signing and permit scripts: equalities and thin wrappers that would only add easy members.
