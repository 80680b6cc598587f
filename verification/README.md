# Sampled page hashing, adaptive strength, and the stable tree: a verified model

UKSM merges identical memory pages. `dirtPages.c` finds out whether a page changed by hashing
a sample of its 32-bit words; how many words are sampled (the *strength*) is tuned round by
round, and each time it moves, the whole tree of shared pages is rehashed. `fast_hash.h` and
`hashalg.c` hold a 64-bit hash of 128- and 4096-byte blocks and a chained table over it. This
project states what that code computes and proves what it is for.

C's unsigned arithmetic is written out: words are bounded integers, sums, products and left
shifts reduce modulo 2^32 or 2^64, right shifts divide, and `^` and `&` work bit by bit
(`Words.dfy`). The `BUG_ON` of `encode_benefit` is a value (`Bug`), so that its absence is
something to prove. The three of the tree are not: that a sub-tree with two nodes has a root
(dirtPages.c:1520) is asserted in `InsertAmong`, that the list to build into starts empty
(dirtPages.c:1594) is part of `Settled`, which every rebuild and removal restores, and that the
old list ends empty (dirtPages.c:1627) is what `FinishRebuild` does, all its tree nodes being
freed. State
that the code updates in place is updated in place here (`BenefitMeter`, `HashController`,
`StableForest`, `Scanner`, `Table`); each such method is tied to a function of the old state,
and the long-run results are proved about those functions.

| module | what it covers |
|---|---|
| `Words` | fixed-width words, shifts, xor folds |
| `Lists` | lists without repetitions |
| `Counting` | sums of permutations modulo an even number |
| `PageHash` | the sampled hash, and moving a hash between strengths |
| `Sampling` | the shuffle, what a hash can see of a changed word, the zero page |
| `Benefit` | charges, scaled totals, page counts, runs without a crash |
| `Limits` | exactly when the counters lose what they count, and runs that get there |
| `Collision` | hashing with its cost, `check_collision` |
| `Controller` | the five-state strength controller |
| `Laws` | its laws over runs, on the counters and the history of the rounds |
| `RbTree` | in-order reasoning for a linked or erased node |
| `StableTree` | the two-level tree and its rebuild |
| `Uksm` | one round: counters, controller and tree together |
| `BlockHash` | the 64-bit hash in its three forms |
| `HashTable` | the chained table |

The page hash is proved for any HASH_STRENGTH_FULL of at least ten; the controller fixes it
at 1024, the number of words of a 4096-byte page.

## Where the code and its own comments part ways

- A strength past HASH_STRENGTH_FULL is described as "a stronger hash". Of a change in a single
  word it is a weaker one: at HASH_STRENGTH_FULL every such change shows, and beyond it every word
  read twice has a change that does not, whatever the rest of the page (`Sampling.TwiceReadHides`).
  `Sampling.SureIffReadOnce` says it for every strength: a word is watched without fail if and
  only if it is sampled once, and `Sampling.OneWordUnseenIff` which changes go unseen. The reason is arithmetic: the state before the second reading is a
  permutation of the word's 2^32 contents, and adding to each number its image under a permutation
  is never a permutation modulo an even number (`Counting.SumsCollide`).
- MERGE_ERR_COLLI is described as "page content is unchanged". It does not mean that. With a
  full-strength hash cached, only the words past the current strength are read again; without
  one, only those before it. At every strength `Collision.CachedOneWord` and
  `Collision.UncachedOneWord` say exactly which one-word changes each branch reports.
  `Collision.BranchesDisagree` gives changes on which they answer differently, and
  `Collision.CachedSureOfNoUnsampled` shows that the cached branch can be relied on for no word
  the strength does not sample.
- A sweep is said to find the strength of highest benefit. It ignores a probe on the way down
  that earns more than the round that began the sweep but less than the stable benefit.
  `Controller.SweepOptimalIff` has the exact condition, `Controller.Overlooked` a continuation
  that misses its best probe, and `Controller.StartupOverlooks` rounds from startup, numbered
  from one, that end in such a sweep.
- The table of zero-page hashes has no entry for HASH_STRENGTH_MAX, a strength the controller
  reaches from startup (`Uksm.ZeroTableFallsShort`).
- Counting pages across wraps is to work "without losing information". The store is exact up to
  the first wrap and short from the second on, in every run: `Limits.PagesLostIff`, and
  `Limits.PagesLost` for a run that gets there.
- The negative ratio is described as negative to total; it is negative to positive, and zero
  means less than one per cent, not that the hash was never wrong
  (`Controller.NegRatioZeroIff`). On large counters it can be one per cent too high
  (`Controller.NegRatioRoundsUpIff`).
- With a cached hash, `check_collision` charges the rest of the page twice, once itself and
  once in `page_hash_max`; `Collision.CheckCollision` states both charges.

## Model

| member | source | states |
|---|---|---|
| Words.XorBits | dirtPages.c:208-208 | the exclusive or of the model is the bitwise one, bit for bit |
| Words.AndBits | fast_hash.h:187-187 | and so is the conjunction |
| Words.ShrBits | dirtPages.c:209-209 | a right shift moves each bit down |
| Words.BitsTell | dirtPages.c:208-209 | words with the same bits are the same, so laws on bits fix values |
| PageHash.UnmixMix | dirtPages.c:204-225 | one step down takes back one step up, for every hash and word |
| PageHash.MixUnmix | dirtPages.c:204-225 | and the other way round: the step is a bijection of 32-bit hashes |
| PageHash.MixInjective | dirtPages.c:204-210 | equal results mean: the hashes were equal exactly if the words were |
| PageHash.MixBits | dirtPages.c:204-210 | one step bit by bit: 257 times the sum of hash and word modulo 2^32, each bit taken against the one 12 places up |
| PageHash.SampleHashSteps | dirtPages.c:584-601 | at strength 0 the hash is 0xdeadbeef, and one strength more is one step on the next word, past HASH_STRENGTH_FULL from the head of the table |
| PageHash.UnmixMixAll | dirtPages.c:217-225 | the down loop undoes the up loop over any run of words |
| PageHash.MixUnmixAll | dirtPages.c:217-225 | the up loop undoes the down loop |
| PageHash.MixAllSeesOneChange | dirtPages.c:204-210 | two runs that differ in one place never end in the same hash |
| PageHash.WindowWraps | dirtPages.c:595-598 | past HASH_STRENGTH_FULL the words read are those at the head of the table |
| PageHash.HashFromTo | dirtPages.c:204-210 | the loop mixes exactly the sampled words [from, to) in order |
| PageHash.HashFromDownTo | dirtPages.c:217-225 | the signed down loop takes out exactly the sampled words [to, from), last first |
| PageHash.RandomSampleHash | dirtPages.c:584-601 | both loops together mix the words at virtual indices 0 to strength, wrapped or not |
| PageHash.DeltaHash | dirtPages.c:617-647 | all six branches compute one move between two strengths, from any hash |
| PageHash.IncrementalIsFromScratch | dirtPages.c:603-647 | moving a page's hash between any two strengths gives the hash sampled at the new one |
| PageHash.RehashPathIndependent | dirtPages.c:617-647 | from any 32-bit hash, a to b to c equals a to c |
| PageHash.RehashUndoes | dirtPages.c:603-647 | from any 32-bit hash, b to a undoes a to b |
| PageHash.RehashFromOrigin | dirtPages.c:617-647 | the same agreement for hashes begun at any value instead of the seed |
| Sampling.ShufflePermutes | dirtPages.c:1904-1914 | whatever is drawn, the table ends as a permutation |
| Sampling.ShuffleReaches | dirtPages.c:1904-1914 | from any table every permutation that agrees so far is reached by some offsets |
| Sampling.ShuffleDistinguishes | dirtPages.c:1904-1914 | different offsets end in different permutations |
| Sampling.ShuffleIsBijective | dirtPages.c:1886-1914 | offset vectors and permutations correspond one to one, so no permutation is favoured by the swaps |
| Sampling.ShuffleTraces | dirtPages.c:1904-1914 | each entry at the end comes from where its trades, followed back one by one, lead |
| Sampling.OffsetIsRemainder | dirtPages.c:1909-1910 | the offset at a place is below the places left and differs from the draw by a multiple of them |
| Sampling.EveryPermutationDrawn | dirtPages.c:1909-1910 | every permutation comes out for some 32-bit draws, remainders included |
| Sampling.InitRandomNums | dirtPages.c:1901-1914 | the two loops in place leave the shuffled identity, a permutation |
| Sampling.OneReadTells | dirtPages.c:204-210 | a changed word read once in a stretch of the table changes what the stretch mixes to |
| Sampling.NoReadHides | dirtPages.c:204-210 | one that is not read changes nothing |
| Sampling.OneWordDetected | dirtPages.c:572-601 | up to HASH_STRENGTH_FULL a one-word change shows if and only if its position is sampled |
| Sampling.OneWordDetectedBeyondFull | dirtPages.c:572-601 | above it, a change of a word that is sampled once always shows |
| Sampling.EveryStateTaken | dirtPages.c:204-210 | over a stretch that reads a word once, its content can bring about any hash |
| Sampling.TwiceReadIff | dirtPages.c:204-210 | over a stretch that reads a word twice, a change of it is hidden exactly if state and content at the second reading come to the same sum |
| Sampling.SecondReadCollides | dirtPages.c:595-598 | whatever the rest of the page, two contents of a word do come to the same sum |
| Sampling.TwiceReadHides | dirtPages.c:572-601 | so in any stretch that reads a word twice, from any hash, some change of it goes unseen |
| Sampling.OneWordUnseenIff | dirtPages.c:572-601 | at every strength: a one-word change goes unseen exactly if the word is not sampled, or sampled twice and its change cancels |
| Sampling.SureIffReadOnce | dirtPages.c:572-601 | at every strength up to HASH_STRENGTH_MAX, on every page: all changes of a word show if and only if it is sampled exactly once |
| Sampling.InitZeropageHashTable | dirtPages.c:1853-1879 | the table holds the zero page's hash at each strength below HASH_STRENGTH_MAX; no table if and only if one of the two allocations fails |
| Sampling.ZeroPageAccepted | dirtPages.c:916-926 | the zero page is accepted at each such strength, and any entry moves to any other |
| Sampling.AlmostZeroPage | dirtPages.c:916-926 | at each strength in the table, a page with one non-zero word passes for zero exactly if that word is not sampled, or sampled twice and cancels |
| Benefit.CounterStep | dirtPages.c:675-699 | one counter through one encode, halved or not, still stands for its exact total |
| Benefit.OverflowNeedsEncodes | dirtPages.c:684-686 | a sum that would overflow at unit 2^base takes at least 2^base encodes |
| Benefit.CrowdedNeedsEncodes | dirtPages.c:684-694 | so the unit stays in step with the number of encodes |
| Benefit.AddedNeverWraps | dirtPages.c:684-698 | whatever the counters and charges, none of the three additions wraps |
| Benefit.AddedTracks | dirtPages.c:670-703 | scaled totals never exceed the exact ones, fall short by less than n units after n encodes, and the unit is below 2n |
| Benefit.EncodeSound | dirtPages.c:670-706 | encoding keeps all of that, loses no examined page and leaves none pending; it reports pages exactly if there were any |
| Benefit.StoredSound | dirtPages.c:877-886 | the stored count never exceeds the pages counted out, and is short by less than one unit a wrap |
| Benefit.CountOutSound | dirtPages.c:874-888 | at the wrap nothing examined is lost or counted twice |
| Benefit.ExamineSound | dirtPages.c:870-891 | encoded plus pending pages equal the pages examined, across wraps |
| Benefit.ChargeSound | dirtPages.c:726-747 | a charge, with or without an early encode, keeps it |
| Benefit.EndRoundSound | dirtPages.c:1654-1760 | a round's encode and reset keep it and leave nothing pending |
| Benefit.ScannedSurvives | dirtPages.c:684-700 | with at most k units charged a page the scaled page count stays above zero, halving included |
| Benefit.EncodeSafe | dirtPages.c:700-700 | so the BUG_ON does not fire, and the charges stay covered by pages |
| Benefit.ChargePosSafe | dirtPages.c:726-732 | a positive charge within its room does not wrap, and the units due grow by just that |
| Benefit.ChargeNegSafe | dirtPages.c:741-747 | the same for a negative charge |
| Benefit.DisciplinedRunSafe | dirtPages.c:670-891 | over any run of pages, charges and rounds within the discipline: no BUG_ON, sound counters, every unit accounted for |
| Benefit.StartupRunSafe | dirtPages.c:670-891 | in particular from the initial state |
| Limits.ChargeLostIff | dirtPages.c:726-747 | a charge of either kind goes missing if and only if it would overflow the running counter and no page is pending |
| Limits.ChargeEncodesIff | dirtPages.c:726-747 | a charge encodes if and only if it would overflow the running counter and a page is pending; else only that counter changes |
| Limits.UnitDoublesIff | dirtPages.c:684-698 | the unit doubles if and only if one of the three sums would not fit in 64 bits; else the totals are those sums |
| Limits.UnitDoubled | dirtPages.c:687-698 | when it does, every total and every scaled charge is halved before they are added |
| Limits.UnpagedChargesWrap | dirtPages.c:726-732 | equal charges of any size, those of page_hash included, wrap the counter from startup if no page is counted |
| Limits.EncodeBugsIff | dirtPages.c:684-700 | the BUG_ON fires if and only if pages are pending, a total would overflow, and the scaled page count and what is added to it are both at most one |
| Limits.HeavyChargesHalt | dirtPages.c:684-732 | equal charges of any size reach it from startup, with enough of them on two pages |
| Limits.StoreExactIff | dirtPages.c:874-888 | after any number of wraps: the store stands for all pages counted out if and only if there was at most one |
| Limits.SecondWrapLoses | dirtPages.c:877-886 | the second wrap drops two pages |
| Limits.PagesLostIff | dirtPages.c:860-891 | over every run from startup: store and counter together tell the pages examined if and only if the counter wrapped at most once |
| Limits.PagesLost | dirtPages.c:860-891 | a run from startup in which they do not |
| Limits.ShortRunSafe | dirtPages.c:670-891 | the discipline read off the charges alone: within the room and with k times the events below 2^63, no BUG_ON and every unit accounted for |
| Benefit.BenefitMeter.EncodeBenefit | dirtPages.c:670-706 | the counters in place become the encoded ones, or the BUG_ON fires exactly when the function says |
| Benefit.BenefitMeter.AddScaled | dirtPages.c:680-698 | shifting charges and totals in the code's order adds up to the scaled sum |
| Benefit.BenefitMeter.ResetBenefit | dirtPages.c:710-716 | only the totals start over |
| Benefit.BenefitMeter.IncRshashPos | dirtPages.c:726-732 | the counters become those of one positive charge |
| Benefit.BenefitMeter.IncRshashNeg | dirtPages.c:741-747 | the counters become those of one negative charge |
| Benefit.BenefitMeter.IncUksmPagesScanned | dirtPages.c:870-891 | the counters become those of one page more, wrap and store included |
| Collision.ExtendedMaxIsFull | dirtPages.c:805-820 | extending from any strength gives one value, the full-strength hash with zero mapped to one |
| Collision.NeverCriesWolf | dirtPages.c:1092-1133 | an unchanged page is never reported as changed, with the cache empty or filled at any strength |
| Collision.UncachedOneWord | dirtPages.c:1119-1130 | without a cache, at every strength, exactly which one-word changes are reported |
| Collision.CachedMissesUnread | dirtPages.c:1107-1118 | with one, a change the extension does not read is taken for a collision |
| Collision.CachedSeesReadOnce | dirtPages.c:1107-1118 | one it reads once is reported unless the sentinel makes zero and one equal, and only then |
| Collision.CachedOneWord | dirtPages.c:1107-1118 | with one, at every strength and by the word's place in the table, exactly which one-word changes get past |
| Collision.CachedSureOfNoUnsampled | dirtPages.c:1107-1118 | on every page, each word the strength does not sample has a change that gets past: one that cancels, or one that hits the sentinel |
| Collision.BranchesDisagree | dirtPages.c:1099-1133 | at every strength the two branches answer differently on a sampled word outside the first ten |
| Collision.HashPage | dirtPages.c:769-789 | the sampled hash, and with accounting a charge of the words not read |
| Collision.HashPageMax | dirtPages.c:805-820 | the extended hash, never zero, and its charge |
| Collision.CheckCollision | dirtPages.c:1102-1133 | the answer of each branch and all of its charges, the double one included |
| Collision.CollisionChargesSafe | dirtPages.c:1107-1124 | within its room a check never halts, and its units are all accounted for |
| Collision.HashChargeSafe | dirtPages.c:779-785 | nor does the credit for a hash |
| Controller.NegRatioIsPercentage | dirtPages.c:1181-1197 | between 0 and 100, and the exact quotient rounded down, or one more in the scaled branch |
| Controller.NegRatioZeroIff | dirtPages.c:1173-1197 | zero if and only if nothing was wasted or less than one per cent of what was saved; one in 101 gives zero |
| Controller.NegRatioRoundsUpIff | dirtPages.c:1192-1197 | exactly when the scaled branch gives one more |
| Laws.NetBenefitIs | dirtPages.c:1207-1217 | the benefit is the number x with x * scanned <= pos - neg < (x + 1) * scanned, or zero where neg exceeds pos |
| Laws.RatioAboveNinety | dirtPages.c:1181-1197 | the ratio is above 90 exactly under an inequality on pos and neg, and 100 where neg exceeds pos |
| Laws.Verdicts | dirtPages.c:1230-1289 | each verdict if and only if the round is of a kind told from its number and counters, and for GO_DOWN and the odd OBSCURE if at least two of the kind came before in the run |
| Laws.RunRemembered | dirtPages.c:1650-1768 | over every run the two run lengths are those of the rounds judged so far, modulo 2^64 |
| Controller.DownLowers | dirtPages.c:1156-1171 | above strength one a step down lowers strictly and uses up one of the rounds left |
| Controller.UpRaises | dirtPages.c:1149-1171 | below the maximum a step up raises strictly and uses up one of the rounds left |
| Laws.UpsReach | dirtPages.c:1658-1668 | so many wasteful rounds in a row reach min(1034, s + stride), the stride from the step in force, or from the smallest after a move down; stable benefit and step as the last round leaves them |
| Laws.DownsReach | dirtPages.c:1670-1680 | the mirror law for wasteless rounds, down to one |
| Laws.StrideFromOne | dirtPages.c:1149-1171 | the stride of k moves from the smallest step: 2^k - 1 up to five, then 32 more a move |
| Laws.StillStays | dirtPages.c:1657-1696 | a still state begins a sweep exactly on a probing or blank round or the third odd one, and else keeps everything but its run lengths |
| Laws.FirstRound | dirtPages.c:400-448 | the first round leaves it still at strength 64 with the smallest step and an empty history |
| Laws.CalmRound | dirtPages.c:1752-1756 | after startup and after a sweep a round only takes its benefit for stable, with the smallest step |
| Laws.DownTurnsIff | dirtPages.c:1698-1724 | a sweep turns round exactly on the third poor round of its window of five, on a wasteful round or at strength one, and then stands one above its start; until then it is down by its stride |
| Laws.UpSettlesIff | dirtPages.c:1726-1750 | it settles exactly on the third round of a window below the best of the way down, on the third wasteless round in a row or at the maximum; until then it is up by its stride |
| Controller.AdjustSafe | dirtPages.c:1657-1758 | each round keeps strength, step, turning points, window and count of rounds below in range |
| Controller.ReachableSafe | dirtPages.c:1650-1768 | so does every run |
| Controller.RankFalls | dirtPages.c:1698-1750 | a sweep comes closer to its end with each round, and leaves only to settle |
| Controller.SweepEnds | dirtPages.c:1698-1750 | whatever the rounds show, a sweep is over within 77 of them |
| Controller.SweepSettlesOnBest | dirtPages.c:1680-1750 | it settles on the strength of the first weighed probe that earned as much as any |
| Controller.SweepOptimalIff | dirtPages.c:1680-1750 | every continuation settles on the best of all probes if and only if the stable benefit is at most one above the first round's |
| Controller.Overlooked | dirtPages.c:1702-1707 | otherwise, however the rounds are numbered, a continuation that misses its best probe |
| Controller.StartupOverlooks | dirtPages.c:1650-1768 | rounds from startup, numbered from one, that start such a sweep and settle below its best probe |
| Controller.MaximumReachable | dirtPages.c:1657-1750 | HASH_STRENGTH_MAX can be reached from every still state in range, however the rounds are numbered |
| Controller.BenefitBounded | dirtPages.c:1207-1217 | k units a page bound the benefit by k(n + 1), and its divisor is not zero |
| Controller.JudgeProductFits | dirtPages.c:1270-1275 | then the judge's product with 100 does not wrap and the gap is the true percentage |
| Controller.HashController.constructor | dirtPages.c:400-448 | the initial state, before the first round |
| Controller.HashController.IncHashStrength | dirtPages.c:1149-1171 | strength and step up by one move, clamped |
| Controller.HashController.DecHashStrength | dirtPages.c:1156-1171 | strength down and step up by one move, clamped at one |
| Controller.HashController.JudgeRshashDirection | dirtPages.c:1230-1289 | the direction and both run lengths, early returns included |
| Controller.HashController.AdjustStillState | dirtPages.c:1658-1696 | the still state's step |
| Controller.HashController.AdjustTryDownState | dirtPages.c:1698-1724 | the step of the way down, the judge asked only if fewer than three rounds were below |
| Controller.HashController.AdjustTryUpState | dirtPages.c:1726-1750 | the step of the way up |
| Controller.HashController.AdjustState | dirtPages.c:1657-1758 | the whole switch |
| StableTree.FindTreeNode | dirtPages.c:1474-1489 | the walk ends at the tree node of the hash, or at the one link where it keeps the order |
| StableTree.FindSlot | dirtPages.c:1521-1541 | the walk ends at a double collision, or at the one link where the new hash keeps the order |
| StableTree.Rebalance | dirtPages.c:1320-1334 | shared still counts the nodes with items, and shared plus sharing all items, after a node goes |
| StableTree.StableForest.UncountItems | dirtPages.c:1320-1334 | the nested loops take off all the node's items but one, and one shared page |
| StableTree.StableForest.UnlinkNode | dirtPages.c:1336-1349 | out of its sub-tree, and the tree node with it or its count less one |
| StableTree.StableForest.RemoveNodeFromStableTree | dirtPages.c:1313-1353 | list, tree and counters after a removal, for every combination of the two flags |
| StableTree.StableForest.GetUksmPage | dirtPages.c:1372-1429 | a stale page takes its node off, a live one changes nothing |
| StableTree.StableForest.StableNodeHashMax | dirtPages.c:1064-1073 | an empty cache becomes the extended hash, charged once; a filled one stays, without a charge |
| StableTree.StableForest.FillCache | dirtPages.c:1064-1073 | with the node's own hash and no page pending, the cache is its full-strength hash afterwards and no other counter moved |
| StableTree.StableForest.InsertAtSole | dirtPages.c:1494-1516 | the frame of the sole node is looked at: live, it is cached and stands beside the new one in order or as a double collision; gone, it gives up its tree node, its cache untouched |
| StableTree.StableForest.InsertAmong | dirtPages.c:1518-1542 | among two or more: linked in order, or unlinked only if a linked node has both hashes |
| StableTree.StableForest.InsertNew | dirtPages.c:1545-1566 | a new tree node where its hash belongs, or unlinked if and only if the one allocation fails |
| StableTree.StableForest.StableNodeReinsert | dirtPages.c:1459-1566 | one insertion keeps both levels ordered and counted; which caches it fills, which frame it looks at, whether it allocates; unlinked if and only if another linked node has both hashes or there is no memory |
| StableTree.StableForest.NewHash | dirtPages.c:1604-1619 | moved or sampled afresh, the hash is the page's hash at the new strength |
| StableTree.StableForest.LookAtNode | dirtPages.c:1600-1602 | the look the loop body begins with: a page gone takes its node off, and the rebuild goes on |
| StableTree.StableForest.RebuildLive | dirtPages.c:1604-1624 | the loop body for a page that is there |
| StableTree.StableForest.RebuildStep | dirtPages.c:1595-1625 | the loop body for any page: everything a rebuild keeps, carried one node on, with its looks, allocations and caches |
| StableTree.StableForest.FilledAlong | dirtPages.c:1491-1501 | seen along the list, an insertion fills only caches of nodes with the hash of another |
| StableTree.StableForest.TwinsStep | dirtPages.c:1491-1501 | with liveness fixed and memory: the live nodes cached stay exactly those that were before or share their hash with another |
| StableTree.StableForest.LinkedApart | dirtPages.c:1489-1542 | no two linked nodes have both hashes the same |
| StableTree.StableForest.ExactlyOnePlace | dirtPages.c:1584-1629 | a linked node is in one place of one sub-tree, that of its own tree node |
| StableTree.StableForest.NewestComplete | dirtPages.c:1489-1566 | with liveness fixed and memory: a node is linked if and only if no live node before it has its hashes |
| StableTree.StableForest.RebuildAll | dirtPages.c:1595-1625 | the loop over all nodes, with removals on the way |
| StableTree.StableForest.StableTreeDeltaHash | dirtPages.c:1584-1629 | any hashes of the old strength end as a settled tree at the new one; only nodes that a look of this rebuild found stale are gone; the page counters keep their balance; a cache is filled, and charged once, only if another node has the same hash, and with liveness fixed and memory exactly then |
| StableTree.StableForest.RemoveSettledNode | dirtPages.c:1313-1353 | a removal with both flags keeps the tree settled over the rest |
| StableTree.PaidFits | dirtPages.c:1064-1073 | below 2^64 a rebuild's charge is exact: HASH_STRENGTH_MAX - strength for each cache filled |
| Uksm.Scanner.constructor | dirtPages.c:400-469 | at startup controller, counters and tree agree, and rounds count from one |
| Uksm.Scanner.RshashAdjust | dirtPages.c:1650-1768 | a round keeps the tree's hashes at the strength in force and returns true exactly if it moved; nothing pending, nothing done; what a rebuild costs |
| Uksm.Scanner.RshashAdjustInRoom | dirtPages.c:1650-1768 | on disciplined counters, with room for rehashing every node in full, a round does not halt and leaves the counters disciplined |
| Uksm.Scanner.Rebuild | dirtPages.c:1764-1765 | the tree follows the strength, and no counter but the negative charges moves |
| Uksm.ZeroTableFallsShort | dirtPages.c:1867-1875 | some rounds from startup, numbered from one, reach the strength for which the zero table has no entry |
| BlockHash.FastHash128 | fast_hash.h:64-76 | the unrolled form computes the hash of its block |
| BlockHash.FastHash4096Scalar | fast_hash.h:86-98 | so does the loop by byte offset |
| BlockHash.FastHashLooped | hashalg.c:45-68 | and the loop by word index, for either length: the forms agree |
| BlockHash.FastHash | fast_hash.h:150-153 | and the dispatcher |
| BlockHash.TimesInverse | fast_hash.h:29-31 | multiplying by each constant is undone by its inverse modulo 2^64 |
| BlockHash.FhMixInjective | fast_hash.h:46-53 | the finalizer maps different words to different words |
| BlockHash.AbsorbInjective | fast_hash.h:67-67 | equal lanes after a step mean: the lanes were equal exactly if the words were |
| BlockHash.FhMixByBits | fast_hash.h:46-53 | the finalizer by its bits: folds by 33, 29 and 32 places and the two products between |
| BlockHash.LanesAtStart | fast_hash.h:66-66 | the four lanes before the first round, as numbers |
| BlockHash.LaneStep | fast_hash.h:67-71 | one round of a lane: against its word bit by bit, then times its constant |
| BlockHash.HashByBits | fast_hash.h:73-76 | the lanes combined in turn and the length of the block taken in last |
| BlockHash.LoadBits | fast_hash.h:34-38 | a word of the block has its bytes' bits, low byte first |
| BlockHash.OneWordSensitivity | hashalg.c:45-68 | two blocks of either length that differ in one aligned word never share a hash |
| BlockHash.OneWordOfBytes | hashalg.c:83-97 | the same in bytes: any change within one aligned word, one flipped bit included |
| HashTable.ChainMembers | fast_hash.h:180-191 | a chain holds exactly the insertions that hash to its bucket |
| HashTable.ChainDistinct | fast_hash.h:180-191 | no entry twice, so chains do not cycle |
| HashTable.ChainOrder | fast_hash.h:187-188 | what was inserted later into a bucket stands before |
| HashTable.ChainsHoldAll | fast_hash.h:189-189 | the chain lengths add up to the number of insertions |
| HashTable.Table.InitHashTable | fast_hash.h:170-178 | the least power of two no less than the request, all chains empty; or no table without memory |
| HashTable.Table.HashTableInsert | fast_hash.h:180-191 | one more entry at the end of the log and the head of its bucket; nothing changes without memory |
| HashTable.Table.HashTableLookup | fast_hash.h:193-202 | the newest entry with equal hash, length and bytes, and NULL exactly if there is none; by bytes alone while no inserted block changed |
| HashTable.Table.UntouchedMatches | fast_hash.h:197-197 | while no inserted block changed, the hash comparison rejects no entry with equal bytes |
| HashTable.Table.FreeHashTable | fast_hash.h:204-217 | every entry is freed, once |

## The charging discipline

`Benefit.DisciplinedRunSafe` needs a bound on what is charged. `k` units of either kind are
allowed for each page examined, and as much once more after a round that encoded something,
because the rebuild that follows charges the full-strength hashes it fills in while no page is
pending. `k` times the encodes of a round, plus one, stays below 2^63; `Limits.ShortRunSafe`
asks for `k` times the events of the run instead. The charges of the code fit: a hash is
credited with at most HASH_STRENGTH_FULL units (`Collision.HashChargeSafe`), a check costs at
most memcmp_cost and twice HASH_STRENGTH_MAX (`Collision.CollisionChargesSafe`), and a rebuild at
most HASH_STRENGTH_MAX for each node (`Uksm.Scanner.RshashAdjustInRoom`).

Without a bound the claims fail. `Limits.ChargeLostIff` says exactly when a charge goes missing
and `Limits.EncodeBugsIff` exactly when the BUG_ON fires; `Limits.UnpagedChargesWrap` and
`Limits.HeavyChargesHalt` have runs from startup that get there with charges of any one size,
the at most 1023 units that page_hash credits included. They take many hashes for few pages
counted: it is up to the scanner, which is not part of this model, to count every page it hashes.

## Left out

- Kernel primitives (kmap, page locks and reference counts, memory caches, RCU and barriers): whether a frame still belongs to its node is an arbitrary answer for each look (`live`), whether an allocation succeeds an arbitrary answer for each request (`memory`).
- Red-black balancing: a node is hung on the link the walk found, and the shape of the tree is otherwise left as it is; erasing keeps the order of the rest.
- StableTree.StableForest.GetUksmPage: leaves out the retry when a page migrates meanwhile, because the frame number of a node is fixed here.
- A stable node's page words and its list of sharers are fixed: the page is write-protected, and attaching or detaching single rmap_items is not part of this model.
- StableTree.StableForest.RemoveNodeFromStableTree: leaves out the address flags of the rmap_items and the anon_vma references they drop, because only the counts of items are modelled.
- `write_protect_page`: its meaning is in page-table operations that are not part of this model.
- `cal_positive_negative_costs`: a timing; memcmp_cost is a parameter.
- StableTree.StableForest.RemoveSettledNode: covers removal with both flags set only, because a tree node kept without nodes is not a settled tree; the other combinations are in RemoveNodeFromStableTree.
- StableTree.StableForest.StableTreeDeltaHash: says which nodes are linked only with liveness fixed and memory available, because otherwise a node may be left out for a look or an allocation that failed.
- Controller.SweepSettlesOnBest: leaves out the probes on the way down that stay below the stable benefit, because the code does not weigh them; SweepOptimalIff says when they matter.
- Shifts by 64 or more: the unit 2^base stays below twice the number of encodes (or wraps), so they would take 2^63 of those.
- The random source: draws are parameters, and the slight bias of a remainder is not modelled.
- Sampling.InitRandomNums: leaves out the failure to allocate the table and the result of the cost measurement, which come before and after the loops it models.
- The AES-NI hash path and the assembly comparison helpers: the scalar forms carry the properties.
- Hashes of other lengths than 128 and 4096 bytes, and requests for more than 2^63 buckets: outside what the header supports.
- `hashalg.cu`, `PageTransfer.c`, `VCstring.h`, `whichPages.c` and the small allocation demos: plumbing around the same hash, or only easy claims.
