# Inventory-combination search

A Dafny model of the outbound-combination search in `main.cpp` of
knight-kun/learnCpp. An order quantity must be met exactly by taking
packages from an ordered list of stock batches. Each batch holds
`packageNum` packages of `packageSize` units.

The search works batch by batch. It keeps a frontier: the C++
`set<ObInfo, greater<ObInfo>>` of combinations, one per distinct total,
largest first. For each batch it does four things:

1. It computes the range of package counts to try.
2. It scans the frontier from the top. It stops at a member above the order,
   or at one more than the window below `min(curMax, order)`.
3. It extends each scanned member by every candidate count. It returns at
   once on an exact hit; otherwise it inserts the extension.
4. It prunes every member more than the window below the new maximum.

The model's modules follow the program's entities:

- `Inventory`: `InvBatch` as `Batch`, `GetWareNum`, `MakeNo` (an in-place
  loop over an array), and the stock total.
- `Combination`: `ObInfo`, its two constructors as `Single` and `Extend`, and
  its comparison operators. It also defines `Total`, the quantity a list of
  picks really takes.
- `Frontier`: the ordered set as a strictly descending sequence. `Insert` is
  `set::insert`. `Prune` is the erase loop, proved against the function
  `Keep`.
- `Expansion`: the candidate range, the loop filling `batch_ob_infos`, and
  the scan. The scan has two parts:
  - the reference functions `ExtendAll` (inner loop) and `Scan` (outer loop);
  - the methods `ExtendMember` and `ExpandBatch`, which walk the live,
    growing frontier the way the C++ iterator does, and are proved equal to
    those functions.
- `Soundness`: what every combination the search builds satisfies.
- `Search`: the body of `main` as a method `Search`, proved equal to the
  reference function `Run`, and the properties of `Run`. The batch loop is
  the method `BatchLoop`, proved equal to the reference function `Loop`,
  which `Run` calls after validation.
- `Scenarios`: three concrete searches worked through.

The hard-coded window (`optimal_ware_num_max`), order quantity and inventory
of `main` become parameters. A `const InvBatch*` in a combination becomes
the batch's index in the inventory; after `MakeNo` that index is also the
batch's `no`. The order and the window are fixed during a search.
`cur_max_ware_num` is fixed during each batch's scan; it is read again from
the first member at line 186, before the prune.

The key subtlety is proved, not assumed. `ExpandBatch` iterates over the
frontier while inserting into it. Every insertion lands strictly above the
member being expanded (`Frontier.InsertKeepsSuffix`). So the iterator only
ever reaches members that were present when the batch started, and
`ExpandBatch` equals `Scan` over the original frontier.

## Model

| member | source | states |
|---|---|---|
| Inventory.WareNumPackages | main.cpp:22 | the batch quantity is a whole number of packages: divided by the package size it gives back the package count, with no remainder |
| Inventory.MakeNo | main.cpp:24-31 | afterwards batch `i` carries number `i`, and every size and count is as before |
| Combination.Single | main.cpp:40-44 | the one-batch combination holds exactly the pick (batch, count), and its total is what that pick takes |
| Combination.ExtendConsistent | main.cpp:45-50 | the extending constructor keeps the base's picks, appends the added combination's first pick, and its total is again what its picks take |
| Combination.Greater | main.cpp:52-53 | `operator>` is the converse of `operator<` |
| Combination.Same | main.cpp:51-53 | `operator==` holds exactly when neither combination is greater than the other, whatever their picks |
| Frontier.Insert | main.cpp:178 | `set::insert` loses no member, and adds nothing but the inserted combination |
| Frontier.InsertAdds | main.cpp:178 | a combination whose total no member shares is added by `set::insert` |
| Frontier.InsertGrows | main.cpp:178 | an insertion adds at most one member and removes none |
| Frontier.InsertOrdered | main.cpp:178 | insertion keeps the frontier strictly descending, so no two members share a total |
| Frontier.InsertFirstWins | main.cpp:178 | insertion changes nothing exactly when a member with the same total is present, so the selection stored first for a total wins |
| Frontier.InsertKeepsSuffix | main.cpp:138-178 | inserting a total above the member `n` from the end leaves the last `n` members in place, so a live iterator still sees the same members after it |
| Frontier.KeepMembers | main.cpp:187-198 | the prune keeps exactly the members no more than the window below the maximum |
| Frontier.KeepOrdered | main.cpp:187-198 | the prune keeps the frontier strictly descending |
| Frontier.KeepIsPrefix | main.cpp:186-198 | on a descending frontier the prune keeps a prefix, and with the first total as maximum it keeps at least the maximum member |
| Frontier.Keep | main.cpp:186-198 | the prune leaves no more members than it had, adds none (every kept member was in the frontier), and with the first total as maximum it leaves at least one |
| Frontier.KeepAll | main.cpp:187-198 | if the smallest member survives the prune, every member does |
| Frontier.ZeroWindowKeepsOnlyMax | main.cpp:186-198 | with a zero window only the maximum member is left |
| Frontier.Prune | main.cpp:186-198 | the erase loop leaves what `Keep` specifies for the maximum taken before the walk, and counts one erasure per removed member |
| Expansion.CeilDivCovers | main.cpp:121 | the result is the fewest packages of the given size that reach the order |
| Expansion.CandidateRange | main.cpp:121-129 | counts start at 1 or above and end within the stock |
| Expansion.CandidateRangeFacts | main.cpp:121-129 | the end is the stock count or the first count that covers the order. The start is `max((batchTotal - window) / size, 1)` exactly when the batch exceeds the window and the maximum plus the whole batch stays below the order, and 1 otherwise; when it rises above 1 the end is the stock count. The range is non-empty when the batch and the order are |
| Expansion.Candidates | main.cpp:130-135 | one combination per count from begin to end, in ascending order, each a single pick of the batch with a true total |
| Expansion.BatchObInfos | main.cpp:130-135 | the `push_back` loop builds exactly `Candidates` |
| Expansion.ExtendAll | main.cpp:149-181 | an exact hit makes up the order and counts between none and all candidates, and a full pass counts every candidate, whether or not the insert added anything (the exact count on a hit is in `Soundness.ExtendAllFirstHit`; what a full pass inserts is in `Soundness.ExtendAllInserts` and `Soundness.ExtendAllOnlyExtends`) |
| Expansion.Scan | main.cpp:138-182 | an exact hit makes up the order, and the attempt counter never falls (what a scan without a hit inserts and counts is in `Soundness.ScanInserts`, `Soundness.ScanOnlyExtends` and `Soundness.ScanCount`) |
| Expansion.ExtendAllGrows | main.cpp:149-181 | the inner loop never shrinks the frontier |
| Expansion.ScanGrows | main.cpp:138-182 | a batch's scan never shrinks the frontier |
| Expansion.InsertAbove | main.cpp:138-178 | an insertion above the member under the iterator keeps the frontier in order and the members from the iterator on |
| Expansion.ExtendMember | main.cpp:149-181 | the inner loop over `batch_ob_infos` equals `ExtendAll`; the frontier stays descending, and the members from the iterator on are untouched |
| Expansion.ExpandBatch | main.cpp:138-182 | the scan over the live frontier, with both `break`s and the exact-hit exit, equals `Scan` over the members present when the batch started |
| Soundness.CandidatesOfBatch | main.cpp:121-135 | every candidate is one pick of the batch, of between one package and the whole batch, with a positive total |
| Soundness.ExtendValid | main.cpp:45-50 | extending a valid combination of earlier batches by a candidate of this batch gives a valid combination |
| Soundness.ExtendAllValid | main.cpp:149-181 | the inner loop inserts only valid combinations, and its hit is valid |
| Soundness.ScanValid | main.cpp:138-182 | a batch's scan keeps every member valid, and its hit is a valid selection |
| Soundness.KeepReached | main.cpp:187-198 | the prune keeps only valid members |
| Soundness.ExtendAllOrdered | main.cpp:149-181 | the inner loop keeps the frontier descending and loses no member |
| Soundness.ScanOrdered | main.cpp:138-182 | a batch's scan keeps the frontier descending and loses no member |
| Soundness.ExtendAllFirstHit | main.cpp:149-181 | the inner loop hits exactly when some candidate completes the order with the member; the hit is the member extended by the first such candidate in ascending package count, and the counter has advanced by that candidate's position |
| Soundness.ScanMisses | main.cpp:138-182 | when a batch's scan ends without a hit, no candidate completes the order with any member the scan reached |
| Soundness.ScanFirstHit | main.cpp:138-182 | a batch's hit is at the first reached member, in descending total, that some candidate completes, with the first such candidate; the member was present when the batch started, never one inserted during the scan |
| Soundness.InsertHasTotal | main.cpp:178 | after `set::insert` the inserted total is held by some member, the new one or the one that blocked it |
| Soundness.ExtendAllInserts | main.cpp:148-180 | an inner loop without a hit keeps every member and leaves, for every candidate, a member whose total is the member's plus the candidate's |
| Soundness.ExtendAllOnlyExtends | main.cpp:148-180 | an inner loop without a hit adds nothing but extensions of the member by its candidates |
| Soundness.ScanInserts | main.cpp:137-181 | a batch's scan without a hit keeps every member and leaves, for every reached member and every candidate, a member with their combined total |
| Soundness.ScanOnlyExtends | main.cpp:137-181 | a batch's scan without a hit adds nothing but extensions of reached members by candidates |
| Soundness.ScanCount | main.cpp:137-181 | a batch's scan without a hit counts exactly one attempt per reached member and candidate |
| Soundness.WithinStock | main.cpp:86-90 | a valid selection of the first `i` batches takes no more than those batches hold |
| Search.Validate | main.cpp:86-99 | the order is accepted exactly when it is positive and no more than the whole stock |
| Search.BatchStep | main.cpp:115-182 | one batch's scan never shrinks the frontier |
| Search.LoopNext | main.cpp:184-200 | without a hit the search goes on from the frontier pruned below its first total, with the scan's attempts and the prune's erasures added, and that frontier is again non-empty and in set order |
| Search.BatchStepValid | main.cpp:115-182 | a batch's scan over valid combinations keeps every member valid, and its hit is a valid selection adding up to the order |
| Search.LoopValid | main.cpp:113-200 | from a frontier of valid combinations the search ends in a valid exact selection, or exhausted with a best total other than the order |
| Search.RunValid | main.cpp:86-200 | the order is refused exactly when it is zero or above the stock. A found selection uses each batch at most once, in batch order, with one package up to the whole batch each, and adds up to the order. An exhausted search reports a best total that misses the order |
| Search.NothingAboveStock | main.cpp:95 | no valid selection exceeds the stock, so the refusal loses no selection |
| Search.MaxNeverDecreases | main.cpp:115-186 | the frontier's maximum after a batch's prune is at least the maximum when the batch started |
| Search.OvershootStopsScan | main.cpp:141-142 | once the maximum is above the order, a batch's scan stops at once and leaves the frontier and counters as they were |
| Search.BatchTurn | main.cpp:113-199 | one turn of the batch loop equals one step of `Loop`: the hit ends it, otherwise the pruned frontier is non-empty, in set order, and the search goes on from it |
| Search.BatchLoop | main.cpp:109-200 | the batch loop, seeded with the empty combination, equals `Loop` from the first batch |
| Search.ProcessBatch | main.cpp:115-182 | one batch up to the prune equals `BatchStep` |
| Search.Search | main.cpp:86-200 | the whole search equals `Run`, with `RunValid`'s guarantees on its outcome |
| Scenarios.FirstBatch | main.cpp:113-182 | for order 9 the first batch tries one to three packages of 2, none of which hits |
| Scenarios.SecondBatch | main.cpp:113-174 | on the second batch 6 + 5 and 6 + 10 overshoot, then 4 + 5 hits 9 |
| Scenarios.ExactHit | main.cpp:113-174 | two packages of 2 and one package of 5 make 9 after five attempts and no erasure |
| Scenarios.OrderAboveStock | main.cpp:95-99 | an order of 5 against one package of 2 is refused |
| Scenarios.NarrowHasSelection | main.cpp:45-50 | one package of 3 and two packages of 4 are a valid selection making 11 |
| Scenarios.NarrowFirstBatch | main.cpp:121-135 | with a zero window the raised range start tries only both packages of 3 on the first batch |
| Scenarios.NarrowSecondBatch | main.cpp:138-182 | on the second batch 6 + 4 and 6 + 8 miss 11 |
| Scenarios.NarrowFromSecondBatch | main.cpp:184-200 | after the zero-window prune only 14 is left, and the search ends exhausted |
| Scenarios.ZeroWindowMissesOrder | main.cpp:184-200 | with a zero window the search for 11 ends exhausted at 14, although a valid selection making 11 exists: the window trades completeness for a small frontier |

## Left out

- Timing: `TimeMeter` (time_meter.h, time_meter.cpp) and the `core_time` and `erase_time` accumulators. They are wall-clock reads and floating point. time_meter.h and time_meter.cpp are not part of this model.
- Console output: the progress lines, the result listing with its "all"/"some" column, and the final statistics. The model returns the outcome (`Search.Outcome`) with the selection or best total, `core_cnt` and `erase_cnt`.
- Expansion.CeilDiv: models `ceil((float)order / size)` as exact integer ceiling division. The single-precision path can round wrongly for large quantities.
- Inventory.WareNum: does not model 32-bit unsigned wrap-around of `package_size * package_num`. The same holds for the sums at lines 47 and 125 and for the signed `int` stock total at line 86. All quantities are unbounded naturals.
- Search.Search: requires every package size to be positive. The code never checks this, but divides by the size at lines 121 and 127.
- The `reserve` call at line 130 is an allocation hint. It has no effect on the result and is not modelled.
- Pointer identity of `const InvBatch*` in `ObInfo::info` is replaced by the batch's index in the inventory.
- The frontier is held as a value in local variables of `Search.BatchLoop` and of `Expansion.ExpandBatch` and `Expansion.ExtendMember`, which it is passed to and returned from, not as a shared tree. Node allocation and iterator invalidation are not modelled; the live iterator is modelled by its distance from the end of the frontier.
- The hard-coded inputs at lines 59, 63 and 64-82 are parameters. The sample inventory itself is not reproduced.
