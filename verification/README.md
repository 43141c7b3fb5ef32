# Proofs about IPM

IPM is an MPI profiler. This project models the parts of it whose correctness is not obvious,
and proves what they promise, or says exactly when they keep it.

**The event table** (`Bits`, `KeyMacros`, `KeyCodec`, `Probing`, `Primality`, `TableSizes`,
`EventStats`, `TableSpec`, `EventTable`). Every MPI call becomes a 64-bit key and is counted in a table with
double hashing. When the table is too full, a collision culls it in the middle of a probe: the
call with the most entries loses a bit of size precision, and everything is put back through the
same probe, which may cull again. `EventTable.Task` is that table with its fields. `Conserved`
says that every total the table can still tell apart equals that total over all events logged;
`Refined` says that the table is the dictionary of the events, each key on its own probe path.
Logging keeps `Conserved` through any number of culls, and `Refined` as long as none happens; only
calls that have their share of a full table's entries (`Heavy`) can lose precision. What a cull makes
of the table is stated outright when it meets no other cull (`CulledOnce`): one step of the first
densest call, and the saved entries merged under their new keys, each on its own probe path.
The recursion between probing and culling ends because the precision bits left, and then the
probes left since the last cull, go down.

**Reports** (`CallReport`, `RegionReport`, `RegionListing`, `RegionTurns`, `Sorting`, `Sums`,
`Finite`). The totals drawn from the table, the exchange sort that compares every index with every
other, the listing that stops at the first zero, the loop over the regions by which every rank fills
the arrays that are then reduced over all ranks, the lines rank 0 prints from them, and the collective
calls of that loop as a state machine.

**Regions** (`Regions`). The region state machine and where its time goes.

**Host discovery** (`Topology`, `HostTable`, `Messages`, `HostDiscovery`, `DiscoveryInvariant`,
`DiscoverySteps`, `DiscoveryReceives`, `DiscoverySafety`, `DiscoveryProgress`, `Discovery`). Every
rank is a program counter with its fields, every ordered pair of ranks a first-in first-out channel
(section 3.5 of MPI 2.2), and any rank that can move may move next; a receive from any source may
take from anybody. For each pair of ranks the invariant gives the whole script of messages one has
for the other, how much of it has been sent and how much received; a channel holds what lies
between. A state is `Ready` when somebody can move whose own sends have all been received, so the
absence of deadlock does not rest on buffering.

**Writing the log** (`RingTopology`, `RingAppend`, `ParallelLog`, `SerialLog`, `LogBuffer`, `Texts`). The ring
barrier and token passing that append one host after the other, on the rings discovery leaves
behind; the chain of offsets by which all ranks write one file; the handshake that has rank 0 write
for everybody; and the buffer that is measured and then filled.

**Smaller tools** (`FileTypes`, `TypeHash`, `TypeOrder`, `MappingSearch`, `FortranHandles`). The type table, its
hash and its sorts of `src/files.c`, the placement search of `src/bwr.c`, and the handle write-back of
`src/ipm_fortran.c`.

What turned out not to hold without a condition, each with the condition:

- a cull that meets no other cull ends the program if and only if the first densest call is at its
  last bit; it meets none when the table holds no more entries than its limit, or fewer keys than
  that after the step (`TableSpec.RoomyFew`); any cull that ends the program has taken the last bit of
  a call with its share of the entries (`EventTable.Task.HashCull`);
- double hashing reaches every slot for every key if and only if the table size is prime
  (`Probing.ReachesAllIffPrime`);
- stepping precision up after a step down never restores the mask word: at every precision the top
  size bit of the mask is gone; no key of an MPI event ever uses that bit, so every size is rounded
  as before (`KeyCodec.StepUpAfterDown`);
- the rows `ipm_sync` indexes by region are enough if and only if nothing was logged while no region
  was current: such an event gets region number 255, the one behind the last row
  (`KeyCodec.LostRegion`, `EventTable.Task.RegionsFitIff`);
- the call listing prints every call with time if and only if the time of the whole is not zero and
  no zero stands above something negative, or no call has time (`CallReport.ListCalls`); the known
  regions come first if and only if none of them has negative time or there is no unused slot; ties
  at zero are harmless, because the sort never moves a tail of zeros (`Sorting.ZeroTailOrder`);
- the reduced time and count of a call in a region are right if and only if every rank that does not
  know the region has nothing left over from what it reported before (`RegionReport.ReducedIff`).
  Such a rank adds nothing to the time of the region itself, and nothing is listed when that is zero;
  so what is printed of a region is right if and only if no MPI time was spent in it or nothing is
  left over, and then the lines add up to the region's time (`RegionListing.ListedIff`);
- the ranks get through the loop over the regions if and only if all have the same number of regions
  or none has more than one: then a run can always go on, even if every collective call waits for
  everybody; otherwise no run gets everybody through, however little the calls wait
  (`RegionTurns.EveryRunMatches`);
- a rank is in no region, and loses time, if and only if its last call left a region nobody has
  entered (`Regions.LostIff`);
- entering a region and leaving it again leads back to where the rank was if and only if that was
  region 0, so regions nest one deep and no deeper (`Regions.NestingIff`; `Regions.NestingForgotten`
  is a history of two);
- the serial log has one record from every rank if and only if the task counts the ranks hold keep
  the loop going and the last one stops it, because rank 0 overwrites its own count with each one
  it receives; otherwise it writes records up to the first rank whose count ends the loop
  (`SerialLog.EveryRunRecords`).  The wrappers give every rank the size of the job, so the
  condition holds (`SerialLog.SameBound`);
- a first file of type `NULL` is put where probing would put it if and only if the hash of `NULL` is
  a multiple of the table size (`FileTypes.NullShortcut`, `FileTypes.Files.Visit`).  It is not for
  the default 1024 buckets, where a later file of that type opens a second bucket
  (`TypeHash.NullHash`, `FileTypes.NullOpensTwo`);
- over all types, the blocks are right if and only if the first full bucket has none; the largest
  size or block count if and only if that of the first full bucket is zero or not above that of the
  later ones; the smallest if and only if it is zero (`FileTypes.GrandTotalIsFlat`;
  `FileTypes.FirstPassedOver` has two files for which all of them are wrong);
- after `MPI_TESTSOME` every handle is up to date if and only if the ones the loop skips survive
  the trip to C and back (`FortranHandles.TestSome`);
- the measured buffer is filled exactly if and only if no item is all there is to write, that is,
  if at least two items have text (`LogBuffer.Log.Write`, `LogBuffer.WholeIff`).

`dafny verify dfyconfig.toml` checks everything.

## Model

| member | source | states |
|---|---|---|
| KeyCodec.EncoderPacks | include/ipm.h:461-470 | at d precision steps the key macro puts the low byte of the region, call and signed rank side by side and rounds the size down to a multiple of 2^d |
| KeyCodec.DecodersRead | include/ipm.h:372-391 | the four bit-mask decoders read the same fields by division, for every 64-bit key |
| KeyCodec.EncodeDecode | include/ipm.h:387-391 | decoding an encoded key gives back region, call, signed rank and the rounded size |
| KeyCodec.ReencodeCoarser | src/ipm_util.c:108-112 | taking a stored key apart and encoding it at a coarser mask gives the key the original event would have there |
| KeyCodec.SameKeyIff | include/ipm.h:461-470 | two events share a key exactly when region, call and rank agree and the sizes differ only below bit d |
| KeyCodec.StepDown | include/ipm.h:418-422 | a step keeps the flag bits and rounds twice as coarsely; no size bit is left exactly after 48 steps |
| KeyCodec.StepUpAfterDown | include/ipm.h:413-417 | at every precision, up after down does not restore the mask word, but rounds every MPI size as before |
| KeyCodec.LostRegion | include/ipm.h:461-470 | an event logged in no region gets region number 255 |
| Probing.ProbeNext | include/ipm.h:539-556 | each collision moves the probe on by one plus the key modulo p - 2 |
| Probing.ProbesDistinct | include/ipm.h:538-556 | in a table of prime size any run of that many probes has no slot twice |
| Probing.ProbesVisit | include/ipm.h:538-556 | such a run meets every slot, wherever it starts |
| Probing.ReachesAllIffPrime | include/ipm_sizes.h:24-24 | every key reaches every slot exactly when the table size is prime |
| TableSizes.XtinyPrime | include/ipm_sizes.h:26-30 | the size of the extra tiny build is prime |
| TableSizes.TinyPrime | include/ipm_sizes.h:32-36 | the size of the tiny build is prime |
| TableSizes.DefaultPrime | include/ipm_sizes.h:44-48 | the size of the default build is prime |
| TableSizes.BigPrime | include/ipm_sizes.h:38-42 | the size of the big build is prime |
| EventStats.TakesIff | src/ipm_api.c:241-251 | which events a total is taken over; a bucket is a range of sizes |
| EventStats.Reinsert | src/ipm_util.c:106-129 | merging a saved entry into the slot of its re-encoded key moves exactly its counters, for every total that is still resolved |
| EventStats.LogAccounts | include/ipm.h:624-632 | counting an event in the slot of its key keeps every resolved total equal to that over the events logged |
| TableSpec.OneSlot | include/ipm.h:537-559 | in a table where every key is on its probe path no key has two slots |
| TableSpec.AbsentKey | include/ipm.h:541-548 | a free slot met while probing means the key is nowhere in the table |
| TableSpec.InsertCanonical | include/ipm.h:542-549 | inserting where probing stops keeps every key on its path |
| TableSpec.LogRefines | include/ipm.h:624-632 | without a cull, logging an event is updating a dictionary from key to counters |
| TableSpec.SoundMerge | src/ipm_util.c:123-128 | merging keeps count > 0, t_min <= t_max and count\*t_min <= t_tot <= count\*t_max |
| TableSpec.DensestHeavy | src/ipm_util.c:44-67 | in a table at its limit the densest call has at least one entry in MAXSIZE_CALLS |
| TableSpec.FoundRefines | src/ipm_util.c:119-128 | merging counters into the slot a search found is a dictionary update |
| TableSpec.RoomyFew | src/ipm_util.c:106-119 | putting entries back meets no other cull when there are no more of them than the limit, or fewer keys |
| EventTable.Task.constructor | src/ipm_init.c:168-187 | the empty table at full precision has all the invariants |
| EventTable.Task.MakeKey | include/ipm.h:461-470 | the key at the precision the call has now, in a region or in none, never the free-slot key |
| EventTable.Task.HashHKey | include/ipm.h:537-562 | ends in the slot of the key, or in precision underflow of a call with its share of the entries; key count, totals, bounds and, without a cull, exact placement; at the limit it succeeds with at most one step when a step leaves fewer keys than the limit |
| EventTable.Task.DensestCall | src/ipm_util.c:44-67 | the first call with the most entries |
| EventTable.Task.StepPrecision | src/ipm_util.c:91-102 | one step of one call, refused exactly when no bit is left |
| EventTable.Task.HashCull | src/ipm_util.c:44-131 | all still resolved totals stay, the key count does not grow, only calls with their share of the entries lose precision; without a nested cull it fails exactly when the densest call is at its last bit, and otherwise takes one bit of that call and leaves the saved entries merged under their new keys, each on its path |
| EventTable.Task.PutBack | src/ipm_util.c:106-130 | one saved entry goes back, its totals with it |
| EventTable.Task.Bump | src/ipm_util.c:123-128 | the field by field update is the merge of counters |
| EventTable.Task.LogMpiEvent | include/ipm.h:624-632 | conservation over every run, in a region or in none, timing bounds, dictionary refinement without culls; precision is lost, and the program ended, only by calls with their share of a table at its limit, and neither happens below the limit |
| EventTable.Task.RegionsFitIff | src/ipm_api.c:241-251 | for walls in range, every entry has a row for its region exactly when nothing was logged in no region |
| EventTable.Task.SyncTotals | src/ipm_api.c:233-254 | when they all have, call rows equal the table's totals per region and call whatever a cull left in them; region and task times are added to what they held |
| CallReport.FoldLogMeaning | include/ipm.h:624-632 | for walls in range the totals are number, sum, least and greatest of the walls selected |
| CallReport.TotalsOfRun | include/ipm.h:624-632 | after any run the table gives number, time, least and greatest wall as logged for every selection it can still tell apart, and the counts add up to hash_nlog |
| CallReport.WholeProjection | src/ipm_mpi_report.c:128-135 | per call, the table's total over all regions |
| CallReport.RegionProjection | src/ipm_mpi_report.c:231-240 | per call, the table's total in one region |
| CallReport.RegionsMakeWhole | src/ipm_mpi_report.c:128-240 | the region projections merge to the whole projection |
| CallReport.ListCalls | src/ipm_report_internal.c:230-246 | nothing when the whole has no time, else calls in descending order, each once, none with zero time, adding up to the sum over all calls when none is missing; none is missing exactly when the whole has time and no zero stands above something negative, or no call has time |
| CallReport.OrderRegions | src/ipm_mpi_report.c:183-189 | a sorted permutation whose first entries are the known regions exactly when none has negative time or no slot is unused |
| RegionReport.Whole | src/ipm_mpi_report.c:128-135 | the array holds the totals per call of the whole table |
| RegionReport.Turn | src/ipm_mpi_report.c:201-240 | a rank that knows the region fills the array with its totals there, one that does not leaves it as it was |
| RegionReport.HeldIs | src/ipm_mpi_report.c:128-240 | what the arrays hold is the whole job until the first region the rank knows, then the last region it has known |
| RegionReport.Report | src/ipm_mpi_report.c:190-270 | for each region in turn a rank sends its times and counts in its own region of that name, or whatever it sent before |
| RegionReport.ReducedIff | src/ipm_mpi_report.c:190-270 | the reduced time and count are never too small, and right exactly when the ranks without the region have nothing left over |
| RegionReport.LeftoverCounts | src/ipm_mpi_report.c:183-205 | two ranks and two regions for which it is wrong |
| RegionListing.TimesAddUp | src/ipm_mpi_report.c:201-240 | the times spent in a region, over all calls and ranks, are the region times of the ranks that know it |
| RegionListing.ListedIff | src/ipm_report_internal.c:230-246 | the lines of a region have exactly the calls with time there, with the right times and counts, exactly when no MPI time was spent in it or nothing is left over; then they add up to the region's time |
| RegionListing.ListRegion | src/ipm_mpi_report.c:190-286 | the same of the listing made from the reduced totals |
| RegionListing.LeftoverListed | src/ipm_mpi_report.c:183-286 | two ranks for which no listing is right |
| RegionTurns.StepKeeps | src/ipm_mpi_report.c:183-270 | nobody has returned from a collective call that had to wait for a rank without that call |
| RegionTurns.Progress | src/ipm_mpi_report.c:183-270 | while the region counts agree and somebody is not through, somebody finds everybody in its call |
| RegionTurns.EveryRunMatches | src/ipm_mpi_report.c:183-270 | runs are bounded; everybody gets through when the region counts agree or none exceeds one, and in no run otherwise |
| Sorting.IndexDoubles | src/ipm_util.c:1-19 | the double loop yields a permutation in descending order and keeps a tail of least values in place |
| Sorting.PassStep | src/ipm_util.c:9-16 | one comparison keeps the prefix sorted with the least value behind it |
| Sorting.ZeroTailOrder | src/ipm_mpi_report.c:183-189 | a zero tail stays behind exactly when nothing before it is negative |
| Regions.CutIff | src/ipm_api.c:53-63 | two labels are the same exactly when their first 21 places agree |
| Regions.LabelsGrow | src/ipm_api.c:53-71 | labels stay distinct under truncation, keep their index, and the current region is none or known |
| Regions.CallLeads | src/ipm_api.c:53-126 | a region entered becomes current whatever was current before, new labels go behind the known ones, and where each kind of exit leads |
| Regions.LostIff | src/ipm_api.c:114-126 | current is -1 exactly after leaving a region nobody has entered |
| Regions.NestingIff | src/ipm_api.c:114-126 | after any history, a region entered and left leads back exactly when the rank was in region 0 |
| Regions.NestingForgotten | src/ipm_api.c:114-120 | a history in which leaving an inner region does not lead back to the outer one |
| Regions.GapIs | src/ipm_api.c:83-95 | the time between two calls belongs to the region the rank was in when it made the second |
| Regions.GapsTelescope | src/ipm_api.c:19-27 | the gaps between calls and the calls themselves fill the time since the start |
| Regions.RegionsShareTime | src/ipm_api.c:83-95 | region times add up to all of it but calls and gaps in no region, region counts to the gaps in a region |
| Regions.WtimeIsElapsed | src/ipm_api.c:83-95 | the same of the region_wtime array |
| Regions.Task.constructor | src/ipm_init.c:168-187 | no region yet, region 0 current, no time |
| Regions.Task.Lookup | src/ipm_api.c:53-58 | the index of the label after truncation, or -1 |
| Regions.Task.Register | src/ipm_api.c:53-71 | a new label is added only on entry, refused when all slots are taken |
| Regions.Task.Charge | src/ipm_api.c:83-95 | the time since the last call goes to the current region and no other |
| Regions.Task.Region | src/ipm_api.c:4-164 | labels, current region, times and counts are those of the history of calls; the time since the last call goes to the region that was current; refused exactly for a bad argument or too many regions |
| Topology.SameHostIff | src/ipm_mpi_machtopo.c:68-68 | two names are the same exactly when their first 25 places agree, and names of up to 25 characters when they are equal |
| Topology.RootByName | src/ipm_mpi_machtopo.c:65-89 | the root is the first rank of the same name, the population the number of such ranks |
| Topology.EnlistDescribes | src/ipm_mpi_machtopo.c:65-89 | after each name the table lists the roots in ascending order with their populations so far, and the row found is the rank's host |
| HostTable.Table.constructor | src/ipm_mpi_machtopo.c:43-64 | rank 0 starts with its own host |
| HostTable.Table.Record | src/ipm_mpi_machtopo.c:65-89 | the loop over a table that grows under it is one search and one entry, and the answer is the root in the row found |
| DiscoverySafety.TakesRank | src/ipm_mpi_machtopo.c:117-120 | whatever a root that listens to everybody takes, it is a rank of its own host it has not listed |
| DiscoverySafety.StepKeeps | src/ipm_mpi_machtopo.c:38-157 | every enabled step of every rank keeps the invariant |
| DiscoveryProgress.Progress | src/ipm_mpi_machtopo.c:38-157 | while somebody is not done, somebody can move whose sends have all been received |
| Discovery.RunKeeps | src/ipm_mpi_machtopo.c:38-157 | the invariant over whole runs, with moves made and moves left adding up to the same number |
| Discovery.IntraCycle | src/ipm_mpi_machtopo.c:138-156 | the ranks of a host of two or more form one cycle, left undoing right |
| Discovery.InterCycle | src/ipm_mpi_machtopo.c:100-112 | the roots of two or more hosts form one cycle in the order of discovery |
| Discovery.NothingInFlight | src/ipm_mpi_machtopo.c:38-157 | at the end every message has been received |
| Discovery.EveryRunDiscovers | src/ipm_mpi_machtopo.c:38-157 | for every assignment of host names and every schedule: no deadlock, one length, and every rank ends with its root, population and places on both rings |
| Discovery.EveryRunGroups | src/ipm_mpi_machtopo.c:38-157 | after every complete run intra_root is the first rank of the same name, intra_size the number of ranks of that name, and the root has listed exactly those |
| Discovery.CycleInverse | src/ipm_mpi_machtopo.c:138-156 | on a cycle the left neighbour of the right neighbour is oneself, and the other way round |
| RingTopology.RootsAre | src/ipm_mpi_machtopo.c:65-89 | the roots are exactly the smallest ranks of the hosts, ascending, 0 first |
| RingTopology.DiscoveryGivesRings | src/ipm_mpi_log.c:222-273 | what any complete run of discovery leaves is fit for the ring append |
| RingAppend.HostClosed | src/ipm_mpi_log.c:222-244 | a root that appends has all the closed files of its host before it |
| RingAppend.EarlierDone | src/ipm_mpi_log.c:235-271 | a root that has its token has every earlier root behind it |
| RingAppend.NextToAppend | src/ipm_mpi_log.c:234-244 | the root that appends is the next in the order of discovery |
| RingAppend.StepKeeps | src/ipm_mpi_log.c:203-274 | every step keeps the invariant |
| RingAppend.Progress | src/ipm_mpi_trace.c:163-190 | while somebody is not done, somebody can move whose tokens have all been taken |
| RingAppend.EveryRunAppends | src/ipm_mpi_log.c:203-274 | every run is safe all along, never stuck, of one length, and ends with each host's files in the log in order of discovery and nothing left behind |
| RingAppend.LoggedOnce | src/checkpoints/ipm_chkpt_log.c:249-300 | every rank's file is in exactly one append |
| ParallelLog.AllSucceed | src/ipm_mpi_log.c:295-305 | the reduced flags equal the number of ranks exactly when every allocation succeeded |
| ParallelLog.OneBranch | src/ipm_mpi_log.c:303-375 | nobody writes serially while somebody writes in parallel |
| ParallelLog.JoinedParts | src/ipm_mpi_log.c:343-359 | a rank's offset is the sum of the lower ranks' sizes, and its part stands there in the joined text |
| ParallelLog.StepKeeps | src/ipm_mpi_log.c:303-367 | every step keeps the invariant |
| ParallelLog.Progress | src/ipm_mpi_log.c:303-367 | while somebody has not ended, somebody can move whose sum has been received |
| ParallelLog.ClosedTiles | src/ipm_mpi_log.c:359-367 | when all have written, the file is the joined text and nothing else |
| ParallelLog.EveryRunTiles | src/checkpoints/ipm_chkpt_log.c:376-393 | every run ends, all on the same branch, and in parallel with the file equal to all parts in rank order whatever it held before |
| SerialLog.StepKeeps | src/ipm_mpi_log.c:382-411 | every step keeps the invariant and counts as one move |
| SerialLog.Stops | src/ipm_mpi_log.c:397-397 | when the loop stops everybody is at the barrier exactly when the bounds agree |
| SerialLog.StopsServed | src/ipm_mpi_log.c:397-400 | when the loop stops, the records are those of the ranks up to the first whose count ends it |
| SerialLog.EveryRunRecords | src/ipm_mpi_log.c:382-412 | records in rank order, none twice; all of them and no deadlock when the bounds agree; when they do not no run gets to the barrier, and rank 0 stops after the ranks it has served |
| SerialLog.SameBound | bin/make_wrappers:920-920 | the bounds agree when every rank holds the size of the job |
| LogBuffer.Vsnprintf | src/ipm_log_write.c:11-11 | at most room - 1 characters and a NUL are written, the whole length is returned |
| LogBuffer.Log.Printf | src/ipm_log_write.c:2-16 | an item goes behind what is there, with the same room whatever is left |
| LogBuffer.Log.Write | src/ipm_mpi_log.c:292-300 | the measured buffer holds the exact text and one NUL inside it, or, when one item is all there is, a NUL among the text |
| LogBuffer.WholeIff | src/ipm_mpi_log.c:292-300 | that happens exactly when fewer than two items have text |
| FileTypes.FlatSummarizes | src/files.c:596-690 | the flat totals are the number of files, the sums of sizes, blocks and both ages, and the least and greatest of each |
| FileTypes.FoldSummarizes | src/files.c:596-690 | the same over the files of given types |
| FileTypes.ChosenAre | src/files.c:574-590 | the files of given types are all of them that were visited, as often as they were |
| FileTypes.BucketSummarizes | src/files.c:596-690 | so a bucket gives those numbers of the files of its type |
| FileTypes.ProbedOnce | src/files.c:580-591 | probing for a type can end in one bucket only |
| FileTypes.VisitKeeps | src/files.c:574-690 | counting a file in the bucket probing finds keeps one bucket per type, each with the flat totals of its files |
| FileTypes.Files.constructor | src/files.c:280-282 | the empty table, of any number of buckets |
| FileTypes.Files.Probe | src/files.c:580-591 | the first free or fitting bucket, refused exactly when all but the last one tried hold other types |
| FileTypes.Files.Visit | src/files.c:574-690 | the buckets together always hold the totals over all files; one bucket per type is kept over any visit order exactly when a first file of type NULL has bucket 0 for its hash; room runs out only with as many other types as buckets but one |
| FileTypes.OutOfRoom | src/files.c:587-590 | full buckets of other types are that many types |
| FileTypes.NullShortcut | src/files.c:516-578 | a first file of type NULL in bucket 0 is where probing puts it exactly when its hash says so |
| FileTypes.ShortcutKeeps | src/files.c:574-578 | reusing the bucket of the file before keeps the table right, but for that first file |
| FileTypes.NullOpensTwo | src/files.c:574-690 | with 1024 buckets a first file of type NULL and a later one, after another type, have two buckets |
| TypeHash.NullHash | src/files.c:698-714 | strhash makes 0x4B18C of NULL, which is 396 modulo 1024 |
| FileTypes.Files.FirstPass | src/files.c:318-377 | counts, bytes and extremes over all types, with the first full bucket's blocks and sizes passed over, and the number of types |
| FileTypes.GrandTotalIsFlat | src/files.c:318-377 | counts, bytes and ages are the flat totals over all files visited, blocks lack those of the first full bucket, smallest extremes are zero; when the blocks and each extreme of sizes and blocks are right, by the first full bucket and the later ones |
| FileTypes.FirstPassedOver | src/files.c:318-377 | two files for which blocks and extremes are wrong |
| TypeOrder.ExchangeKeeps | src/files.c:422-426 | one comparison keeps the sorted prefix and the same buckets |
| TypeOrder.Exchange | src/files.c:422-426 | the same of the array |
| TypeOrder.ThirdPass | src/files.c:418-448 | five lists of the same buckets, files, bytes and blocks largest first, both ages earliest first |
| MappingSearch.ApartIff | src/bwr.c:130-130 | two places are apart exactly when their distance is no multiple of b |
| MappingSearch.CostIs | src/bwr.c:123-139 | the cost is the positive traffic between ranks at such places: none for b = 1, all between different places for large b |
| MappingSearch.CostPlusNear | src/bwr.c:123-139 | for every placement the traffic that costs and the traffic that does not add up to the whole |
| MappingSearch.SearchImproves | src/bwr.c:78-108 | every search ends with a permutation that costs no more than any before |
| MappingSearch.Mapper.constructor | src/bwr.c:73-78 | the search starts with everybody in place and the right cost |
| MappingSearch.Mapper.CommCost | src/bwr.c:123-139 | the double loop adds up the traffic between places that are apart |
| MappingSearch.Mapper.Turn | src/bwr.c:79-108 | the two places exchanged are kept exactly when that costs less, and otherwise nothing changes; both arrays stay the same permutation and the cost theirs |
| FortranHandles.WriteBack | src/ipm_fortran.c:208-219 | listed handles are written, and so are the rest but those the loop passes before it begins to search |
| FortranHandles.Statuses | src/ipm_fortran.c:221-228 | statuses converted, indices counted from one |
| FortranHandles.TestSome | src/ipm_fortran.c:189-273 | on success every handle is up to date exactly when the skipped ones survive the trip to C and back; on failure nothing changes |

## Left out

- EventTable.Task.HashCull: when culls nest, which other calls lose how many bits, and where the entries then stand, is not said beyond the shares and totals above.
- EventTable.Task.SyncTotals: the adjustment of the wall clock and the limit put on mtime after the totals are not modelled, because the duration they use comes from code that is not part of this model.
- Real numbers stand for double; rounding is not modelled.
- Counters and the product of collisions and stride are unbounded integers; wrap-around after 2^64 is not modelled.
- The C wrappers' own copy of the log macro, which rounds sizes to powers of two in some builds and corrects times for a suspended job, and the check in the Fortran wrappers that turns region -1 into 0 and a wrong rank or size into 0.
- I/O keys, the PROFLOW, HPMKEY and uncompressed variants of the keys: one configuration is fixed.
- Failed allocations other than that of the log buffer, and failed file operations.
- Messages of the application on MPI_COMM_WORLD while discovery listens to any source.
- Barriers, reductions and broadcasts are taken to do what MPI says. What a rank calls after the loop over its regions is not part of RegionTurns: it is taken not to pair with a call of the loop.
- The time of a region in RegionListing is the one the first ipm_sync leaves; a later one, as after a checkpoint, adds the table's totals again.
- A root alone on its host reads its right neighbour behind its list; the model lets it be anything, and nothing uses it.
- Hosts are the same when their names are the same; two machines with one name would share a ring but not a file system.
- User and system times and hardware counters of regions, which are kept like the wall times.
- FileTypes.Files.Probe, FileTypes.Files.Visit: in a table of a single bucket that holds another type the loop of the program never ends; that case is a precondition.
- Which file set an extreme, the averages, and the selection by user and group in src/files.c.
- The growing buffers behind the Fortran wrappers, and what src/bwr.c prints and writes.
- The bounded trace buffer, lock and multiple-file logs, the disk barrier, XML and text layout, environment parsing.
