# Verified model of the unfirehose core

A Dafny model of the parts of `packages/core` whose answers other people rely on: provenance of journals,
the price ledger and what past usage cost, energy attribution, the scanners that must lose nothing, and
the folding of project rows. Each loop or mutable object of the program is a method or a class here,
proved against a specification; the promises of the program are lemmas about those specifications, over
every input, every run or every reachable state. `dafny verify dfyconfig.toml` checks everything.

| file | what it holds |
|---|---|
| `Common.dfy` | options, sequences, bytes, hexadecimal, UTF-8, white space |
| `HashTree.dfy`, `Merkle.dfy` | the Merkle tree with self-paired odd nodes; proofs, completeness, soundness, injectivity |
| `Chain.dfy`, `ChainTheorems.dfy` | the incremental chain verifier; what a verdict, a last hash and a root commit to |
| `Journal.dfy` | the writer; every run of it is accepted by the verifier |
| `PriceLedger.dfy` | a sync as a step over price intervals; what every run keeps |
| `PriceLookup.dfy`, `PriceCost.dfy`, `PricePast.dfy`, `PriceMoves.dfy` | prices at an instant, costs of usage, what is frozen, and exactly when the past moves |
| `EnergyCounters.dfy` | wrap-around counters and the reset guard |
| `EnergySamples.dfy`, `EnergyBuckets.dfy`, `EnergyMetering.dfy`, `EnergyChunk.dfy` | samples to intervals to buckets to rows; conservation; what the counters say of a bucket |
| `EnergyRefresh.dfy`, `EnergyHistory.dfy` | the budget-limited refresh; equality with a from-scratch rebuild over every run |
| `ShellSplit.dfy`, `ShellHereString.dfy`, `Aider.dfy`, `Gemini.dfy`, `Redact.dfy` | the scanners: losslessness, exact resumption, refinement, exact splicing |
| `ProjectRollup.dfy`, `ProjectAccounts.dfy`, `ProjectFold.dfy`, `ProjectList.dfy`, `ProjectName.dfy` | folding without loss; the name decoder as an inverse |
| `ChainMeaning.dfy`, `SyncMeaning.dfy`, `CostMeaning.dfy`, `CounterMeaning.dfy`, `SampleMeaning.dfy`, `EnergyMeaning.dfy`, `EnergyRows.dfy`, `RefreshMeaning.dfy`, `ShellMeaning.dfy`, `AiderMeaning.dfy`, `AiderItems.dfy`, `GeminiMeaning.dfy`, `RedactMeaning.dfy`, `ProjectMeaning.dfy` | what the specifications of each part come to on the texts, numbers and rows themselves, constants written out and none of the specification's own functions in the answer; a concrete case beside the harder ones |

## What is a parameter

SHA-256 (FIPS 180-4) is a function from bytes to 32 bytes. Commitment results assume it free of collisions
on the finite set of preimages they name, never injective outright. JSON printing and parsing, lower-casing,
alias candidates, price tables, idle baselines, regular-expression
matches and the directory test are parameters too; where a result needs something of them, such as that a
printed object parses back and holds no raw line feed (RFC 8259, section 7), it is a stated hypothesis.
Money and energy are real numbers. Strings are sequences of Unicode scalar values.

## Where the program and its words differ

- The repository's README says a closed month does not move when an oracle changes its mind. A past quote, its
  price, source, id, promotion and flag, stands if and only if no later sync overtakes it, or a free listing
  replaces a backdated free answer under the same id (`RunPastStandsIff`). A sync overtakes an answer when it lists, for the
  first time, a candidate of the model that no candidate known before precedes in order of preference; what
  it makes known is read off its feed (`SyncMakesKnown`). In `ClosedMonthMoves` a row costs 1 and later 2;
  in `FreeListingStands` an overtaken quote stands. The date an answer is effective from always tells the two
  apart, where the syncs are dated after those before them (`RunMovesPastIffOvertaken`).
- The shell splitter means to leave here-strings alone. Its guard looks only ahead, so the second sign of
  `<<<` opens a heredoc exactly when a bare or closed, non-empty quoted word follows, and stops the scan
  exactly when a quote that never closes does (`HereStringOpensHeredocIff`). After a line `cat <<< x` the
  lines up to the first `x` become its body (`HereStringTakesTheNextLines`), and with no such line the whole
  text is left as it came (`HereStringLeftAlone`). Nothing is lost either way.
- The project-name decoder inverts the encoder exactly on names with a leading dash and no empty piece. A
  path through a hidden directory encodes to a name with an empty piece, and what is found for it encodes
  to something else (`FoundPathEncodesBack`, `HiddenDirectoriesDoNotRoundTrip`).
- The comment on a row's cost breakdown says that a self-hosted row carries its electricity in the total and
  nothing in the four classes. The code puts the market price there, whoever served the row, and keeps the
  electricity and what it saved beside it (`BoughtRow`).
- The percentile is documented as the value below which a share of the weight lies. The code gives the least
  value at or below which it lies: strictly below it lies less, whenever the share is positive (`PercentileParts`).
- A list of leaves and the same list with its odd last leaf repeated share a Merkle root, unlike the tree of
  RFC 6962, section 2.1. Lanes are safe because a sound chain never repeats a hash (`SoundHashesAreDistinct`).

## Model

| member | source | states |
|---|---|---|
| `Bytes.ToHexFromHex` | packages/core/provenance.ts:117-119 | A line hash survives the trip through raw bytes and back, so the root is over what the lines claim |
| `Bytes.Utf8Injective` | packages/core/provenance.ts:158-160 | Two different lines never hash the same bytes: the text of a line is determined by its UTF-8 encoding |
| `HashTree.AuditPathClimbsToRoot` | packages/core/provenance.ts:60-114 | In any tree of any size, odd layers included, every leaf's audit path climbs to the root |
| `HashTree.ClimbStartsAtItsSlot` | packages/core/provenance.ts:86-114 | A climb that ends at the root through height-many siblings starts at the leaf its turns spell, or a collision is in hand |
| `HashTree.RootsAgreeExactlyWhen` | packages/core/provenance.ts:60-84 | Two lists share a root if and only if they have the same height and the same leaf at the end of every path of turns |
| `HashTree.FullTreeDeterminesList` | packages/core/provenance.ts:60-84 | On duplicate-free lists, of any two lengths, the full tree determines the list |
| `HashTree.OddTailRepeatIsInvisible` | packages/core/provenance.ts:66-72 | Repeating the last leaf of an odd list never changes the root |
| `Merkle.BuildTree` | packages/core/provenance.ts:60-75 | The layers built in the loop are the layers of the recursive tree, bottom to root; one empty layer for no leaves |
| `Merkle.TreeRoot` | packages/core/provenance.ts:77-80 | The last layer's only digest is the root, and no leaves hash to the digest of nothing |
| `Merkle.MerkleRoot` | packages/core/provenance.ts:82-84 | The root of the tree over domain-prefixed leaves |
| `Merkle.ProofFor` | packages/core/provenance.ts:86-105 | The siblings and sides printed are the audit path of the leaf; an index out of range is an error |
| `Merkle.VerifyProof` | packages/core/provenance.ts:107-114 | Accepts exactly when climbing from the leaf through the siblings ends at the claimed root |
| `Merkle.ProofsAreComplete` | packages/core/provenance.ts:86-114 | For every list and every index, the proof printed for it is accepted |
| `Merkle.ProofsAreSound` | packages/core/provenance.ts:86-114 | An accepted proof with height-many siblings has a leaf that is in the list, at the place its turns spell, absent collisions among the preimages involved |
| `Merkle.ShortProofOfTheRoot` | packages/core/provenance.ts:107-114 | The height condition is needed: the root itself with no siblings is always accepted |
| `Merkle.RootsAgreeIff` | packages/core/provenance.ts:47-84 | Roots of two non-empty lists agree if and only if the lists fill the same full tree, absent collisions among their own preimages |
| `Merkle.RootDeterminesContents` | packages/core/provenance.ts:47-84 | The root is injective on duplicate-free lists of any lengths, the empty list included |
| `Merkle.RepeatedTailSharesRoot` | packages/core/provenance.ts:47-84 | Without the duplicate-free condition it fails: [a, b, c] and [a, b, c, c] share a root |
| `Chain.ChainState.RecordBreak` | packages/core/provenance.ts:227-234 | One more break, the first position kept, the log capped |
| `Chain.ChainState.RecordClose` | packages/core/provenance.ts:255-270 | A closing record is checked against the root of all hashes before it, and each fault is a break of its own kind |
| `Chain.ChainState.RecordLink` | packages/core/provenance.ts:245-254 | The first fault of a link, and only the first, is recorded |
| `Chain.ChainState.Feed` | packages/core/provenance.ts:237-277 | One line takes the verifier to exactly the next state of the reference machine, persisted data, leaves and break log alike |
| `Chain.VerifyLines` | packages/core/provenance.ts:288-292 | Blank lines aside, the verdict is that of the machine run over all lines |
| `ChainTheorems.VerdictMeans` | packages/core/provenance.ts:237-292 | Open or verified if and only if the lines are a sound chain from index 0; verified if and only if some record closed it; unchained if and only if no line carries a hash |
| `ChainTheorems.JoinUndoesSplit` | packages/core/provenance.ts:148-156 | A chained line, trailing CR and LF aside, is its preimage and its hash and nothing else |
| `ChainTheorems.LastHashCommitsToHistory` | packages/core/provenance.ts:148-156 | Two non-corrupted chains with hashed lines and the same last hash are equal line by line, blank lines and trailing CR or LF aside |
| `ChainTheorems.SoundHashesAreDistinct` | packages/core/provenance.ts:237-277 | In a break-free chain the line hashes are pairwise distinct |
| `ChainTheorems.RootCommitsToLane` | packages/core/provenance.ts:47-84 | Two verified journals with equal session roots have identical lines before the closing record |
| `ChainTheorems.OneBadRowIsOneBreak` | packages/core/provenance.ts:227-276 | A row that keeps its claimed hash but not its bytes gives exactly one break, at that index, whatever follows it, a closing root included |
| `ChainTheorems.PassesAreOnePass` | packages/core/provenance.ts:208-276 | However a file is cut into passes, each resuming from the data and leaves the last one left, data, leaves and verdict are those of one pass |
| `Journal.ChainedJournal.Recover` | packages/core/provenance.ts:332-342 | Re-opening finds on disk every hash in the file, in order, and the last of them |
| `Journal.ChainedJournal.AppendEntry` | packages/core/provenance.ts:344-351 | One line more in the file, chained to the last; the hashes in memory follow the file |
| `Journal.ChainedJournal.CloseJournal` | packages/core/provenance.ts:354-357 | The closing record carries the root over all hashes before it |
| `Journal.SplitUndoesJoin` | packages/core/provenance.ts:304-311 | Splitting a line the writer joined gives back its preimage and its hash |
| `Journal.AppendWritesOneLine` | packages/core/provenance.ts:304-351 | An append adds one line that splits back into what was chained, and changes no earlier line |
| `Journal.ChainedLineIsSound` | packages/core/provenance.ts:304-311 | A line chained to the head of a sound chain keeps it sound |
| `Journal.AppendKeepsConsistent` | packages/core/provenance.ts:344-351 | File, memory and verifier agree after every append |
| `Journal.EveryRunIsConsistent` | packages/core/provenance.ts:326-358 | They agree after every run of appends, re-opens and closes |
| `Journal.WriterAndVerifierAgree` | packages/core/provenance.ts:326-358 | Any such run on a new file leaves zero breaks, verdict open until the first close and verified ever after |
| `ChainMeaning.SplitIff` | packages/core/provenance.ts:148-156 | A line splits into a preimage and a hash if and only if it is the preimage without its brace, `,"hash":"`, 64 lower-case hex digits, `"}` and ends of line |
| `ChainMeaning.VerdictIs` | packages/core/provenance.ts:237-292 | All four verdicts, for every lane: which hash stands where, what may be absent, and what a closing record may name, in the literals of the format |
| `ChainMeaning.UnknownRulesCorrupt` | packages/core/provenance.ts:255-270 | A closing record that names a non-empty merkle, encoding or root rule other than merkle-v1, jsonl-bytes-v1 and SEQUENCE corrupts its lane, wherever it stands |
| `ChainMeaning.FaultIs` | packages/core/provenance.ts:250-253 | Which of the four link faults is recorded, each with the exact condition under which it is |
| `ChainMeaning.ClosingIsReported` | packages/core/provenance.ts:254-272 | After a closing record the data hold its position, the root claimed, the root found and the four rules it names |
| `ChainMeaning.RootOfThree` | packages/core/provenance.ts:37-119 | The root over three hashes byte by byte: leaf prefix 0x00, node prefix 0x03, the odd leaf beside itself |
| `ChainMeaning.RootOfNone` | packages/core/provenance.ts:77-119 | The root over no hashes is thirty-two zero bytes |
| `ChainMeaning.AppendWrites` | packages/core/provenance.ts:304-351 | An append writes the entry with `hash` gone and `prevHash` set to the last hash known, and the tail before its brace |
| `ChainMeaning.CloseWrites` | packages/core/provenance.ts:313-357 | The closing record written: every field of it, the root and the four rule names in full |
| `PriceLedger.PriceBook.OpenIndex` | packages/core/pricing-sync.ts:447-453 | The index finds exactly the open rows of a source, each under its id |
| `PriceLedger.PriceBook.BookListing` | packages/core/pricing-sync.ts:454-478 | A new id is inserted, an unmoved price confirmed, a changed one closed and a new row opened |
| `PriceLedger.PriceBook.BookListings` | packages/core/pricing-sync.ts:454-478 | The listing loop, repeats skipped, leaves exactly the declarative picture of the book, its tally and its changes |
| `PriceLedger.PriceBook.DelistMissing` | packages/core/pricing-sync.ts:480-484 | Open rows of ids no longer listed are stamped once, and counted |
| `PriceLedger.PriceBook.BookFeed` | packages/core/pricing-sync.ts:447-488 | The whole transaction is the sync function, and its counters are the sizes of the sets of ids they claim to count |
| `PriceLedger.PriceBook.SyncSource` | packages/core/pricing-sync.ts:400-497 | A failed or empty fetch changes no row and reports its error; any other accounts for every distinct id |
| `PriceLedger.SyncPricing` | packages/core/pricing-sync.ts:390-500 | A run over many oracles leaves the book of that run, with a truthful report for each; what that book holds is `EveryRunBooksItsPrices` |
| `PriceLedger.FatesPartitionTheFeed` | packages/core/pricing-sync.ts:454-478 | Added, changed and unchanged partition the distinct ids of the feed |
| `PriceLedger.SyncHistory` | packages/core/pricing-sync.ts:447-488 | What one sync does to one id: the open end is rewritten, and at most one row follows |
| `PriceLedger.SyncKeepsWellFormed` | packages/core/pricing-sync.ts:447-488 | A sync keeps every history contiguous with exactly its last row open |
| `PriceLedger.WellFormedMeansUniqueOpen` | packages/core/db/migrate.ts:766-767 | A well-formed book never violates the partial unique index |
| `PriceLedger.EveryRunKeepsTheLedger` | packages/core/pricing-sync.ts:390-500 | After every run with a clock that never runs back, the ledger is well formed |
| `PriceLedger.RunsOnlyExtend` | packages/core/pricing-sync.ts:390-500 | Append-only over every run: closed rows, prices, starts and keys stay as they were booked |
| `PriceLedger.FailedFetchBooksNothing` | packages/core/pricing-sync.ts:437-445 | Corollary: a failed fetch changes no row at all |
| `SyncMeaning.SamePriceIsNear` | packages/core/pricing-sync.ts:377-384 | Two prices are the same if and only if each of the four lies within 1e-9 of the other, relative to 1 and to both |
| `SyncMeaning.FateMeans` | packages/core/pricing-sync.ts:454-478 | A listing confirms the open row of its id exactly when none of the four prices moved, and closes it exactly when one did |
| `SyncMeaning.SyncBooks` | packages/core/pricing-sync.ts:447-488 | One sync, row by row: confirmed, closed at its date, delisted or untouched, and a new row for exactly the first listings that are new or moved |
| `SyncMeaning.ListedPricesAreInForce` | packages/core/pricing-sync.ts:447-488 | After a sync every listed id has an open row whose four prices are those of its first listing, to within that distance |
| `SyncMeaning.AttemptBooks` | packages/core/pricing-sync.ts:437-488 | The same of any attempt; a failed or empty one leaves every row |
| `SyncMeaning.EveryRunBooksItsPrices` | packages/core/pricing-sync.ts:390-500 | And of every attempt of every run, with the comparison the book is made with |
| `SyncMeaning.OutputPriceAloneIsAChange` | packages/core/pricing-sync.ts:379-383 | 3 in and 15 out against 3 in and 12 out is a change |
| `PriceLookup.PriceMemory.SetPriceCatalog` | packages/core/pricing.ts:123-127 | The catalog of one oracle becomes the last entry per lower-cased id |
| `PriceLookup.PriceMemory.SetPriceHistory` | packages/core/pricing.ts:134-144 | The history of one oracle becomes its entries grouped by lower-cased id, each group sorted by start |
| `PriceLookup.SortSorts` | packages/core/pricing.ts:134-144 | Whatever order the rows arrive in, each list ends sorted by start with the same entries |
| `PriceLookup.LookupReadsHistory` | packages/core/pricing.ts:187-205 | On a well-formed ledger the lookup reads exactly the id's own history |
| `PriceLookup.ExactlyOneRowInForce` | packages/core/pricing.ts:187-205 | For every instant at or after the first start exactly one row covers, even with zero-length intervals, and the gap fallback is never taken |
| `PriceLookup.SameAnswerUntil` | packages/core/pricing.ts:187-205 | Two lists that agree up to an instant answer alike before it |
| `PriceLookup.PastPricesAreFrozen` | packages/core/pricing.ts:187-205 | For an id already in the book, a sync changes neither prices nor the backdated flag of any earlier instant |
| `PriceCost.CostForUsageRows` | packages/core/pricing.ts:1085-1118 | The accumulating loop is the sum of the rows' costs; what each row costs is `BoughtRow`, `UnboughtRow` and `InvoicedRow` |
| `PriceCost.SumMeans` | packages/core/pricing.ts:1085-1118 | Totals add up, parts make the whole wherever each row's do, and the sum names its first real source with invoices outranking |
| `PriceCost.InvoiceParts` | packages/core/pricing.ts:1071-1082 | An invoice is split so that its parts make it, unless it is non-zero over an estimate that is not positive |
| `PriceCost.PartsMakeTotalIff` | packages/core/pricing.ts:1030-1082 | A row's parts make its total if and only if it is not such an invoice |
| `PriceCost.FreeModelInvoiced` | packages/core/pricing.ts:1071-1082 | Such a row: a free model invoiced at 1 has a total of 1 and parts that make nothing |
| `CostMeaning.BoughtRow` | packages/core/pricing.ts:867-965 | For every priced row without an invoice each class costs its own tokens times its own price over a million, the total is their sum, and electricity and savings stand beside it |
| `CostMeaning.UnboughtRow` | packages/core/pricing.ts:905-1053 | A made-up model costs nothing as synthetic; one nobody prices costs nothing as unknown |
| `CostMeaning.InvoicedRow` | packages/core/pricing.ts:1071-1082 | An invoice is the total; each class stands to it as it stood to the estimate, and all else of the estimate is kept |
| `CostMeaning.BoughtRows` | packages/core/pricing.ts:1085-1118 | Over any such rows each class of the sum is the sum of tokens times prices of that class |
| `CostMeaning.FourPrices` | packages/core/pricing.ts:867-879 | Four amounts of tokens at four different prices cost 6, 15, 0.3 and 15, and 36.3 in all |
| `CostMeaning.PriceInMeans` | packages/core/pricing.ts:187-205 | The first row in force answers; before the first and after the last row that row does, flagged as backdated |
| `CostMeaning.FirstKnownAnswers` | packages/core/pricing.ts:490-525 | The most preferred source that knows a candidate answers, for the first candidate it knows, times a positive promotion |
| `CostMeaning.UnlistedIsTabled` | packages/core/pricing.ts:490-525 | A model no source lists is priced from the table without date or flag, or not at all; a synthetic one is zero without asking |
| `CostMeaning.TodaysEntryIsTheOpenRow` | packages/core/pricing.ts:123-127 | With no time asked for, an id is quoted from the open row of that id |
| `PricePast.SourceIsHistory` | packages/core/pricing.ts:490-525 | With a time asked for, a source's answer is its history's, the catalog adding none, and there is one exactly when some candidate is known |
| `PricePast.CandidateIsFrozen` | packages/core/pricing.ts:490-525 | Per candidate and source over one sync: priced the same if it was known, else priced exactly if it now is |
| `PricePast.SyncMakesKnown` | packages/core/pricing-sync.ts:454-478 | After a sync a book knows an id if and only if it did before or the feed of that source lists it |
| `PricePast.RunKeepsPastAnswers` | packages/core/pricing.ts:490-525 | Over any further run of syncs an answer not overtaken stands: price, source, id, promotion, flag and the date it is effective from |
| `PriceMoves.NewcomerQuotes` | packages/core/pricing.ts:187-205 | A row under an id new to its source quotes as an older row did exactly when both are free, under one id, and the older answer was flagged too |
| `PriceMoves.PastStandsIff` | packages/core/pricing.ts:490-525 | One sync leaves price, source, id, promotion and flag of a past answer as they were if and only if it does not overtake it, or both answers are free under one id and the older was flagged |
| `PriceMoves.RunPastStandsIff` | packages/core/pricing.ts:490-525 | Over any run, those five fields of the price resolved for a past instant are the same before and after if and only if the model is never looked up, or its answer is not overtaken, or it is such a free twin |
| `PriceMoves.FreeListingStands` | packages/core/pricing.ts:490-525 | The free twin is real: two free listings, one overtaking the other, quote alike |
| `PriceMoves.LateListingRewritesThePast` | packages/core/pricing.ts:490-525 | An overtaken answer is, wherever in the order of preference, a row of the overtaking sync, backdated and effective from its date, which the old answer was not |
| `PriceMoves.PastMovesIffOvertaken` | packages/core/pricing.ts:490-525 | With the date it is effective from among the fields, one sync later than those before leaves a past answer as it was if and only if it does not overtake it |
| `PriceMoves.RunMovesPastIffOvertaken` | packages/core/pricing.ts:490-525 | The same over any run: date included, the price resolved for a past instant is the same if and only if the model is never looked up or its answer is not overtaken |
| `PriceMoves.SettledCostsNeverMove` | packages/core/pricing.ts:1085-1118 | So the sum over any past rows whose quotes stand is the same number: the closed month stands |
| `PriceMoves.LateListingIsBackdated` | packages/core/pricing.ts:187-205 | An id first listed by a sync answers, backdated, for every instant before it |
| `PriceMoves.ClosedMonthMoves` | packages/core/pricing.ts:1030-1069 | The same usage costs 1 under its first listing and 2 once a preferred source lists its model too |
| `EnergyCounters.CounterDeltaWh` | packages/core/energy-counters.ts:62-84 | Known exactly when packages match, every step is valid and no reset is suspected; then the summed steps |
| `EnergyCounters.MeasuredIntervalWh` | packages/core/energy-counters.ts:118-127 | Measured exactly when the CPU difference is accepted and the GPU's is known wherever there is one; then their sum, and the GPU's part |
| `EnergyCounters.StepIsRiseIff` | packages/core/energy-counters.ts:66-75 | A step never exceeds the true rise, and equals it if and only if the rise is under one range |
| `EnergyCounters.SumIsRiseIff` | packages/core/energy-counters.ts:66-75 | Over all packages: equal if and only if none rose a whole range |
| `EnergyCounters.DeltaIsTrueEnergyIff` | packages/core/energy-counters.ts:62-84 | An accepted difference is the true energy if and only if no package wrapped a full range, and is never more |
| `EnergyCounters.IntervalsTelescope` | packages/core/energy-counters.ts:62-84 | Accepted consecutive intervals sum to the true energy between first and last sample |
| `EnergyCounters.AcceptedWrapIsPlausible` | packages/core/energy-counters.ts:97-111 | An accepted wrap with known duration and draw implies at most three times the larger sampled draw |
| `EnergyCounters.ResetsAreRefused` | packages/core/energy-counters.ts:97-111 | Corollary: a reboot seen by the uptime, or every package of several stepping back, is never taken for a wrap |
| `CounterMeaning.ResetIff` | packages/core/energy-counters.ts:97-111 | A counter that ran back was reset if and only if the uptime, all of several packages, or a draw over three times the peak seen (a kilowatt a package if none was) says so |
| `CounterMeaning.AcceptedIff` | packages/core/energy-counters.ts:62-84 | An interval is accepted if and only if each package stepped by nothing to one range and no counter that ran back was reset |
| `CounterMeaning.MeasuredIff` | packages/core/energy-counters.ts:118-127 | Measured if and only if accepted and, wherever there is a GPU, its counter moved; 3.6 million millijoules to the watt hour |
| `CounterMeaning.PlausibleWrapIsAccepted` | packages/core/energy-counters.ts:62-111 | A package of a 20 W box that passes its range within 15 seconds is taken for a wrap, and its energy known |
| `EnergySamples.HostIntervals` | packages/core/energy-attribution.ts:121-145 | The intervals are those of the sorted live rows, each with what its counters measure, and of the archived ones, in time order |
| `EnergySamples.HotIntervalsDoNotOverlap` | packages/core/energy-attribution.ts:121-136 | Live intervals never overlap, never outlast the trusted gap, never reach past the last sample |
| `EnergySamples.HoursAreTheTrustedGaps` | packages/core/energy-attribution.ts:121-136 | Their hours are exactly the gaps that can be trusted |
| `EnergySamples.WeightedPercentile` | packages/core/energy-attribution.ts:148-159 | None exactly when nothing has weight; otherwise the least value at or below which the clamped share of the weight lies |
| `EnergySamples.PercentileParts` | packages/core/energy-attribution.ts:148-159 | Less than a positive share lies strictly below the percentile and no less at or below it; a share of nothing gives the least value |
| `SampleMeaning.LiveIff` | packages/core/energy-attribution.ts:121-136 | An interval is there if and only if two neighbouring live rows, at most five minutes apart, give it: start, hours, draws and what the counters measured |
| `SampleMeaning.ArchivedIff` | packages/core/energy-attribution.ts:137-144 | An archived row with samples gives a quarter hour or, under sixty samples, its share of one; no other interval comes of them |
| `SampleMeaning.TargetIs` | packages/core/energy-attribution.ts:148-153 | The share asked for is nothing at or below zero, all from one up, its part of the total between |
| `EnergyBuckets.IntegrateBuckets` | packages/core/energy-attribution.ts:200-232 | The loop over the insertion-ordered map is the integration function, graded |
| `EnergyBuckets.SharesAreTheDraw` | packages/core/energy-attribution.ts:218-227 | An interval's idle and active shares are its whole draw |
| `EnergyBuckets.EnergyIsConserved` | packages/core/energy-attribution.ts:200-232 | Every bucket is idle plus active, and the buckets together are the direct integral over the intervals |
| `EnergyBuckets.BucketsAreLocal` | packages/core/energy-attribution.ts:200-232 | A bucket inside the range holds exactly its own intervals, one outside holds none |
| `EnergyBuckets.SplittingARangeChangesNothing` | packages/core/energy-attribution.ts:200-232 | Cutting a range at a bucket boundary changes no bucket |
| `EnergyBuckets.SharesSumToActive` | packages/core/energy-attribution.ts:239-246 | Shares are non-negative and sum to the active energy whenever any group exists |
| `EnergyMeaning.NodeBucketMeans` | packages/core/energy-attribution.ts:200-232 | A bucket exists exactly when an interval began in it; each of its amounts is that sum over those intervals, active energy the draw above idle, graded B from 95% coverage |
| `EnergyMeaning.SplitActiveIff` | packages/core/energy-attribution.ts:239-246 | The split is the one list of shares that sums to the active energy and stands as the positive weights do, as the message counts if no weight is positive, evenly if neither is |
| `EnergyMeaning.ThreeToOne` | packages/core/energy-attribution.ts:239-246 | Weights 3 and 1 split 4 Wh into 3 and 1, whatever the message counts |
| `EnergyMetering.BucketMeasuresItsSamples` | packages/core/energy-attribution.ts:121-232 | A bucket's measured energy is what the counters say between its own samples, plus what its archived rows recorded |
| `EnergyMetering.MeteredIsDrawnIff` | packages/core/energy-counters.ts:62-127 | That is never more than was drawn between them, and all of it if and only if no package rose a whole range from one sample to the next |
| `EnergyChunk.MinuteKeepsBucket` | packages/core/energy-attribution.ts:489-503 | Folding messages to the minute moves none to another bucket |
| `EnergyChunk.EnergyTables.BuildEnergyChunk` | packages/core/energy-attribution.ts:396-585 | Every bucket of the range holds what rebuilding it alone would give, and no other bucket changes |
| `EnergyChunk.ChunkIsFromScratch` | packages/core/energy-attribution.ts:512-583 | Whatever range a rebuild covers, each bucket depends on its own samples and messages only |
| `EnergyChunk.EnergyReachesTheRows` | packages/core/energy-attribution.ts:552-583 | Standing, attributed and unattributed energy of a rebuilt bucket add up to the integral of its nodes' draw over it |
| `EnergyChunk.ActiveIsAllOrNothing` | packages/core/energy-attribution.ts:556-571 | A node that served any message has all its active energy attributed, and no other has any |
| `EnergyChunk.TokensReachTheRows` | packages/core/energy-attribution.ts:552-583 | Sampled or not, every located message's tokens reach exactly one row of its bucket |
| `EnergyRows.ChunkRowsMean` | packages/core/energy-attribution.ts:396-585 | Every row of a rebuilt quarter hour: one per node sampled, with its sums; one per key served, counting exactly its messages; energies on a node in proportion to weights; unsampled nodes unmeasured |
| `EnergyRows.FromScratchMeans` | packages/core/energy-attribution.ts:396-585 | The same of the from-scratch rows that every rebuild and every run of refreshes ends with |
| `EnergyRefresh.Attribution.Refresh` | packages/core/energy-attribution.ts:595-651 | Start, chunks built, cursor, watermark and rules version after a refresh, for any clock and budget |
| `EnergyRefresh.Attribution.Sweep` | packages/core/energy-attribution.ts:634-641 | The chunk loop rebuilds exactly the range it passes over and stops where the budget says |
| `RefreshMeaning.RefreshMeans` | packages/core/energy-attribution.ts:595-651 | One refresh in numbers: starts at the cursor, the first sample or the oldest news, whichever its rules of age allow; rebuilds so many whole days but never past the clock's quarter hour; watermark the greatest id |
| `EnergyHistory.StartsBeforeNews` | packages/core/energy-attribution.ts:616-631 | No message past the watermark lies before the bucket a refresh starts at |
| `EnergyHistory.SkippedBucketsAreFinal` | packages/core/energy-attribution.ts:616-631 | Buckets a refresh leaves alone already hold their final rows |
| `EnergyHistory.RefreshKeepsSound` | packages/core/energy-attribution.ts:595-651 | After any refresh every bucket behind the cursor is from scratch over all messages |
| `EnergyHistory.IngestKeepsSound` | packages/core/energy-attribution.ts:625-631 | Ingesting messages, however late their timestamps, keeps it |
| `EnergyHistory.EveryRunIsFromScratch` | packages/core/energy-attribution.ts:595-651 | Over every interleaving of ingests and refreshes the incremental tables equal a from-scratch rebuild behind the cursor |
| `EnergyHistory.OlderRulesAreASoundStart` | packages/core/energy-attribution.ts:609-612 | Whatever older rules left behind, the next refresh starts from a sound state |
| `EnergyHistory.RefreshAdvances` | packages/core/energy-attribution.ts:634-646 | A refresh moves the cursor at least a day on, or to the clock's bucket; never past it |
| `EnergyHistory.RefreshesCatchUp` | packages/core/energy-attribution.ts:595-651 | With no further ingest, refreshes that keep pace with the clock, however short of time, reach its last bucket with all before it from scratch |
| `EnergyHistory.DailyRefreshesKeepPace` | packages/core/energy-attribution.ts:634-646 | When the clock moves at most a day between refreshes, keeping pace only asks for a refresh per day of distance |
| `EnergyHistory.SlowestCatchUpIff` | packages/core/energy-attribution.ts:634-646 | The pace is exact: refreshes with time for one day each reach the clock if and only if they keep it |
| `EnergyHistory.RealRowsAreQuiet` | packages/core/energy-attribution.ts:396-585 | The hypothesis on rows before the first sample holds of the rows really built |
| `ShellSplit.SplitTopLevel` | packages/core/shell-pretty.ts:28-168 | Terminates; returns nothing if and only if some reading gets stuck, at a quote that never closes or an end inside a bracket or heredoc body, and pieces if and only if a reading completes with them; they rejoin to the source exactly |
| `ShellSplit.ScanDoubleQuoted` | packages/core/shell-pretty.ts:66-73 | The loop finds the closing quote the recursive definition names |
| `ShellSplit.ScanHeredoc` | packages/core/shell-pretty.ts:98-118 | Dash, spaces, bare or quoted tag are read as the grammar says |
| `ShellSplit.NothingIsLost` | packages/core/shell-pretty.ts:36-168 | Joining each text with its joiner gives back the source, for every complete reading |
| `ShellSplit.TextIsKept` | packages/core/shell-pretty.ts:36-168 | At every point of the scan, pieces, joiners and the pending text are exactly the characters read |
| `ShellSplit.CutsAreExactlyTheOperators` | packages/core/shell-pretty.ts:137-163 | Cuts happen only outside quotes, comments, brackets and heredoc bodies, and no top-level separator is passed over |
| `ShellSplit.CountsAgree` | packages/core/shell-pretty.ts:120-135 | One piece per cut; the brackets owed are those opened and not closed |
| `ShellSplit.ReadingDecides` | packages/core/shell-pretty.ts:28-168 | A text has one reading: however far one gets, stuck or complete, settles what becomes of the text |
| `ShellSplit.DoubleQuotesAreWhole` | packages/core/shell-pretty.ts:66-73 | The scan stops at a quote if and only if what precedes it is characters and backslash pairs |
| `ShellMeaning.LexemeMeans` | packages/core/shell-pretty.ts:42-163 | Wherever the scanner stands, what it reads is a body line, quote, escape, comment, heredoc, bracket, operator or character as spelled out on the text, or a quote there never closes |
| `ShellMeaning.DepthIsOwed` | packages/core/shell-pretty.ts:120-135 | The brackets owed are, in order, those that close the brackets opened and not closed |
| `ShellMeaning.PendingIsTheLast` | packages/core/shell-pretty.ts:98-118 | The heredoc still to come is the last one read since a body began |
| `ShellMeaning.HereIsTheBodyStarted` | packages/core/shell-pretty.ts:44-53 | The body the scanner is inside is that of the heredoc that waited when its line ended, until a line ends it |
| `ShellHereString.HeredocOpensIff` | packages/core/shell-pretty.ts:98-118 | `<<` opens a heredoc if and only if a tag follows, and stops the scan if and only if an unclosed quote does |
| `ShellHereString.HereStringOpensHeredocIff` | packages/core/shell-pretty.ts:98-118 | The guard against `<<<` looks only ahead, so the same holds of the second sign of a here-string |
| `ShellHereString.UnendedBodyIsLeftAlone` | packages/core/shell-pretty.ts:44-53 | A heredoc body that no line ends takes the rest of the text, which is left alone |
| `ShellHereString.HereStringLeftAlone` | packages/core/shell-pretty.ts:44-118 | `cat <<< x` before lines none of which is `x` leaves the whole text alone |
| `ShellHereString.HereStringTakesTheNextLines` | packages/core/shell-pretty.ts:44-118 | Before lines only the last of which is `x`, they are all taken for its body and the text is one piece |
| `ShellHereString.HereStringAlone` | packages/core/shell-pretty.ts:98-168 | With nothing after it the line is one piece, its heredoc never begun |
| `ShellHereString.ThreeCommandsOnePiece` | packages/core/shell-pretty.ts:44-118 | `cat <<< x`, `y` and `x` on three lines come out as one piece |
| `Aider.SplitAiderLines` | packages/core/aider-adapter.ts:69-117 | The loop, its fence flag and its re-opened runs are the fold over the lines; what its items say is `SplitMeans` |
| `Aider.TakeLine` | packages/core/aider-adapter.ts:80-114 | One line takes the splitter to exactly the next state |
| `Aider.ResumeIsExact` | packages/core/aider-adapter.ts:64-117 | With distinct offsets, splitting from any item's first line gives that item and all after it |
| `Aider.SplitResumes` | packages/core/aider-adapter.ts:64-117 | From any line that opens an item, the rest splits the same on its own |
| `Aider.ItemsAreInOrder` | packages/core/aider-adapter.ts:69-117 | Item offsets strictly increase |
| `Aider.EveryLineLandsOnce` | packages/core/aider-adapter.ts:73-114 | What the items hold, in order, is what the lines contribute, in order |
| `Aider.BlankLinesAlone` | packages/core/aider-adapter.ts:80-114 | A line contributes exactly once if it is not blank, and otherwise not at all |
| `AiderMeaning.ReadSays` | packages/core/aider-adapter.ts:37-82 | What each line is by its text alone: header, input, output, hard-broken, blank, fence, each in literals, marker and trailing white space gone |
| `AiderItems.SplitMeans` | packages/core/aider-adapter.ts:69-117 | For every log there is a cut into stretches, one per item: input items are consecutive `####` lines, output items `>` lines with blanks between, headers stamped lines, replies their own lines up to the last that is not blank; and each cut has its reason |
| `AiderItems.PromptIsInput` | packages/core/aider-adapter.ts:59-95 | The line `#### hi` alone is one input item holding `hi` |
| `Gemini.Recording.Rewind` | packages/core/gemini-adapter.ts:74-80 | The deleting loop leaves exactly the messages before the id, or none |
| `Gemini.Recording.ApplyUpdate` | packages/core/gemini-adapter.ts:58-68 | Content and tool results of the message named, and nothing else, are replaced |
| `Gemini.Recording.Reorder` | packages/core/gemini-adapter.ts:86-92 | Unlisted messages first, then the listed by first mention |
| `Gemini.Recording.Feed` | packages/core/gemini-adapter.ts:74-107 | One record takes the recording to exactly the next state, whichever of the five shapes it has first |
| `Gemini.FoldRecording` | packages/core/gemini-adapter.ts:56-111 | The fold over all lines, unparsable ones skipped; none without a session id; ids never repeat |
| `Gemini.FoldIsUnique` | packages/core/gemini-adapter.ts:56-108 | Over any log no id appears twice |
| `Gemini.FoldRefines` | packages/core/gemini-adapter.ts:56-108 | Over any log the conversation is an order of ids and the newest copy of each as patched since |
| `Gemini.ReappendKeepsThePlace` | packages/core/gemini-adapter.ts:93-95 | Appending a known id again changes that message alone, in place |
| `Gemini.RewindKeepsTheMessagesBefore` | packages/core/gemini-adapter.ts:74-80 | A rewind keeps exactly the messages before the id, and none if the id is absent |
| `Gemini.PatchKeepsIds` | packages/core/gemini-adapter.ts:58-84 | Patch content never adds or moves an id |
| `Gemini.ReorderPermutes` | packages/core/gemini-adapter.ts:86-92 | orderIds, even with repeats and strangers, only permutes |
| `GeminiMeaning.MetaIsNewest` | packages/core/gemini-adapter.ts:96-107 | A recording has a property exactly when a `$set` or session line gives it, and the value the last such line gives |
| `GeminiMeaning.KeptIff` | packages/core/gemini-adapter.ts:109-110 | A recording is kept if and only if the newest `sessionId` is text |
| `GeminiMeaning.PatchedMeans` | packages/core/gemini-adapter.ts:58-68 | A patch changes content if it has any, and of the first call of each id the result, to the last one given; nothing else |
| `GeminiMeaning.SetTogether` | packages/core/gemini-adapter.ts:96-107 | Of each id a list of messages names, the newest copy is held after; of every other, what was |
| `Redact.SanitizePII` | packages/core/pii.ts:77-125 | The text is the left-to-right interleaving of untouched text and tokens of the spans taken; originals leave only as hashes |
| `Redact.SpliceInOrder` | packages/core/pii.ts:118-122 | Right-to-left in-place splicing equals the left-to-right pass |
| `Redact.SameEmission` | packages/core/pii.ts:118-122 | The result depends on which spans were taken, not on their order |
| `Redact.TakenAreDisjoint` | packages/core/pii.ts:92-111 | Spans taken are pairwise disjoint |
| `Redact.TakenExactlyWhen` | packages/core/pii.ts:92-111 | A candidate is taken if and only if it is valid and clear of every span taken before it |
| `Redact.ValidIsCovered` | packages/core/pii.ts:92-111 | Every valid candidate overlaps a span that was taken |
| `Redact.TakenAreValid` | packages/core/pii.ts:92-111 | And nothing is taken that is not a valid candidate |
| `Redact.TokensAreUnique` | packages/core/pii.ts:103-106 | Within one call no two spans share a token |
| `RedactMeaning.TakenIff` | packages/core/pii.ts:92-111 | A candidate is taken if and only if it is valid and shares no character with a span taken before; touching is no sharing |
| `RedactMeaning.EditsMean` | packages/core/pii.ts:103-117 | Each span is replaced by two underscores, its kind in capitals, its number among its kind from one in decimal, two underscores |
| `RedactMeaning.ReplacementsMean` | packages/core/pii.ts:103-117 | And reported with that token, its kind and the hash of exactly its text |
| `Redact.FindSecrets` | packages/core/pii.ts:208-225 | The spans taken, left to right, disjoint |
| `Redact.RedactSecrets` | packages/core/pii.ts:228-235 | The text with each of them replaced is the left-to-right pass over them |
| `ProjectRollup.RollupTarget` | packages/core/project-rollup.ts:38-70 | The first of the longest repos that begin the name on a segment boundary; failing that, of those inside it; else none (`TargetMeansExactly`) |
| `ProjectRollup.AncestorByPath` | packages/core/project-rollup.ts:199-214 | The first of the nearest candidates above the path, or none |
| `ProjectRollup.DistinctPathsAreListed` | packages/core/project-rollup.ts:222-223 | The paths counted are the tracked paths, trailing slashes gone, each once |
| `ProjectRollup.CountPathChildren` | packages/core/project-rollup.ts:221-235 | Walking each path's ancestors gives the all-pairs prefix count for every non-empty path, and zero for the root |
| `ProjectFold.ProjectRow.Merge` | packages/core/projects-list.ts:104-117 | The row's whole account becomes that of having absorbed the child's |
| `ProjectAccounts.AbsorbAdds` | packages/core/projects-list.ts:104-117 | Absorbing adds sessions, messages and each kind of tokens |
| `ProjectAccounts.RepeatsAreGone` | packages/core/projects-list.ts:116 | The united harnesses are the members of both, each once |
| `ProjectAccounts.EachRowGetsItsOwn` | packages/core/projects-list.ts:332-341 | After a fold each row has its own numbers and those of exactly the rows folded into it |
| `ProjectAccounts.RecencyIsTheNewest` | packages/core/project-rollup.ts:107-117 | And a recency no older than its own or that of any row folded into it |
| `ProjectMeaning.RecencyIsSomeRows` | packages/core/project-rollup.ts:244-248 | And that recency is its own or that of a row folded into it |
| `ProjectMeaning.AbsorbMeans` | packages/core/projects-list.ts:104-117 | Every field after absorbing: counts and tokens added, rows folded counted, the later of the two times in text order, harnesses united |
| `ProjectAccounts.FoldLosesNothing` | packages/core/projects-list.ts:332-343 | Kept rows and orphans together carry all sessions, messages and tokens there were |
| `ProjectAccounts.MovingKeepsTheSum` | packages/core/projects-list.ts:104-117 | Moving one row's numbers to another live row keeps the sum |
| `ProjectFold.PathFatesAreFlat` | packages/core/projects-list.ts:332-341 | By path a row folds if and only if it has an entry for a name that is there, and none folds into a row that folds |
| `ProjectFold.FoldByPath` | packages/core/projects-list.ts:332-341 | Exactly those rows fold, each into the row named; every row ends with the account due to it, and totals stand |
| `ProjectFold.FateIsUnique` | packages/core/project-rollup.ts:134-150 | By name a row has exactly one fate: kept, an orphan, or folded into the one row its name rolls up to |
| `ProjectFold.RollupProjects` | packages/core/project-rollup.ts:118-153 | Every row meets the fate due to it, every account is what those fates make it, `foldedInto` records exactly the folds, and totals stand |
| `ProjectFold.FoldProjects` | packages/core/projects-list.ts:332-343 | Both folds: who is listed, who is left off, what each carries; no session, message or token is lost |
| `ProjectRollup.TargetIsUnique` | packages/core/project-rollup.ts:38-70 | A name rolls up to one repo or to none |
| `ProjectMeaning.TargetMeansExactly` | packages/core/project-rollup.ts:20-70 | With harness and leading dashes gone: a name rolls up to the first of the longest repos it equals or continues after a dash, failing those of the repos between two dashes in it, and to none if and only if no repo is either |
| `ProjectMeaning.NeighbourIsNotSwallowed` | packages/core/project-rollup.ts:34-59 | A repo is no target of a name that only starts with its letters |
| `ProjectMeaning.UnfirehoseStays` | packages/core/project-rollup.ts:34-59 | `home-fox-git-un` does not swallow `home-fox-git-unfirehose` |
| `ProjectMeaning.AncestorMeansExactly` | packages/core/project-rollup.ts:199-214 | Trailing slashes gone: the first of the longest candidates that, with a slash, begin the path; none if and only if none does |
| `ProjectMeaning.BelowCounts` | packages/core/project-rollup.ts:221-235 | The count of a path is the number of different tracked paths that continue it after a slash |
| `ProjectList.ClassifyProjectRows` | packages/core/project-classify.ts:51-108 | Containers are exactly those with two tracked paths below; the names with a row are exactly those on disk, at a git root, or promoted, scratch excepted; containers absorb nobody |
| `ProjectMeaning.ScratchIff` | packages/core/project-rollup.ts:167-190 | A row is scratch if and only if its path is or lies under /tmp, /var/tmp, /dev/shm or /run, or holds a fleet worker's segment |
| `ProjectMeaning.ContainerIff` | packages/core/project-classify.ts:48-76 | A container is a tracked path, neither scratch nor a git root, with two or more different tracked paths under it |
| `ProjectList.FindPathFold` | packages/core/projects-list.ts:314-322 | The loop over all rows finds the path fold of the table, which sends scratch only into repos |
| `ProjectList.PathFoldMeans` | packages/core/projects-list.ts:314-322 | A name has an entry if and only if some scratch row of it has a repo above its path, not its own name; the entry is the nearest such of the last such row |
| `ProjectList.BuildProjectList` | packages/core/projects-list.ts:258-343 | For every table and disk: the classification, the path fold found in it, and both folds carried out on it, with all totals on listed and orphan rows |
| `ProjectName.Probe` | packages/core/project-name.ts:83-107 | Any path returned is a directory the parts can stand for, the first in order of preference; none only if no such directory exists |
| `ProjectName.ResolveProjectPath` | packages/core/project-name.ts:75-109 | So for a whole name; a name without parts resolves to nothing |
| `ProjectName.TwoPartsFound` | packages/core/project-name.ts:83-107 | Of two parts the dashed segment is preferred to the dotted one, and either to two directories |
| `ProjectName.RenderEncodes` | packages/core/project-name.ts:19-21 | However the parts are spelled as a path, it encodes to a dash and the parts joined by dashes |
| `ProjectName.FoundPathEncodesBack` | packages/core/project-name.ts:75-109 | A path found encodes back to the name if and only if the name starts with a dash and has no empty piece |
| `ProjectName.EncodedDirectoryIsFound` | packages/core/project-name.ts:75-109 | Resolving the encoded name of an existing, spellable directory always finds one |
| `ProjectName.HiddenDirectoriesDoNotRoundTrip` | packages/core/project-name.ts:75-79 | The name of a path with a hidden directory is never one that encodes back |

## Left out

- SQLite, the file system, ssh, HTTP, timers and the clock: tables are maps and sequences, a file is its text, a fetch is its result, and every clock reading is a parameter.
- Regular expressions of redaction and their validators: each pattern is its list of matches with a validity flag. That the cheap pre-check for secrets is a superset of the patterns is not modelled.
- Exceptions out of the middle of a fold (a `null` among tool calls of a patch) and JSON values beyond what each fold looks at.
- Lone surrogates: strings are Unicode scalar values, so lengths count characters rather than UTF-16 units.
- Rounding of money and energy, and the display helpers that round.
- `prettifyShell`: laying the pieces out.
- Late-arriving power samples, widened idle windows and the idle cache: samples and idle baselines are held fixed, so a node's idle draw at an instant is a function.
- Which message runs on which node: the resolved host, and the token weight, come with each message. Weights are added per message where the query adds them per minute.
- Price tables, aliases, model families, promotional windows beyond `undiscount`, price consensus and the parsing of each oracle's catalog.
- The legacy whole-file Gemini recording: it keeps duplicate ids as written.
- `redactForExport`, reply blocks and token counts of Aider logs, and turning folded Gemini records into messages: straight-line translations with no invariant across calls.
- The identity fold of rows sharing a root commit, and the reading of project directories: the rows arrive with their canonical name and their numbers.
- Attribution.Refresh: chunk sizes are whole days, at least one, where the program also accepts fractions above one; the budget is the number of chunks that fit in it; unparsable message timestamps are not distinguished from absent ones.
- EnergyTables.BuildEnergyChunk: the two tables are one map from bucket to rows, so the order of rows across buckets is not captured; messages are grouped in id order where the query leaves the order open.
- SanitizePII: matches are assumed non-empty stretches of the text, as every pattern's are; the hash of an original is a parameter.
- SortDescending: the engine's sort is any arrangement that is ordered and keeps the elements; its stability is not used.
- RecordBreak: the break log is capped as in the program, but its rendering is not modelled.
- EveryLineLandsOnce: a reply's inner blank lines are kept by the program and by the model, but this statement counts lines with something on them only; `SplitMeans` places the blank ones.
- CountPathChildren: counts come back as a map whose order is not captured.
