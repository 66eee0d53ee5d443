# Proofs about the persistent memory bandwidth estimator

The estimator samples memory writes of processes with perf events, decides per write whether the
file behind the address lies on non-volatile memory, accounts such writes per process, thread and
instruction, moves threads between two groups of cores, and prints the accounting as JSON. These
Dafny files model its stateful parts and prove what they keep, for all inputs and all runs.

Each part comes in two layers. A class has the fields of the C struct and methods with the loops
of the C functions, over linked nodes on the heap. Its methods are tied to a state machine or a
function over plain values, and the results about whole runs are lemmas about that.

| part | on the heap | over values |
|---|---|---|
| `list.h` and the null-terminated lists | `IntrusiveList`, `Chains` | the same, `Keyed` |
| process affinity | `Affinity`, `StartUp` | `AffinityModel`, `AffinitySweep`, `AffinityRuns`, `AffinityLaws`, `ThreadPlacement` |
| perf event ring | `PerfRing`, `Sampler` | `PerfModel`, `Modular` |
| write accounting and its dumper | `Access`, `AccessWorker`, `Program` | `AccessModel`, `AccessLaws`, `Interleaving` |
| the JSON output | `AccessWorker`, `Program` | `Decimal`, `Json`, `Report`, `ReportDecode`, `ReportFields`, `ReportFormat` |
| address translation | `Regions`, `Views` | `Regions`, `ViewsModel` |
| per-process caches | `TtlCache` | `TtlModel` |
| CPU lists, mountpoints, times | `CpuList`, `Mount`, `Timespec` | the same |

What the functions of the state machines compute is stated a second time by laws that do not use
them: for a process, a core, a row, a record or a key, with the constants of the program written
out (`AffinityLaws`, `AccessLaws`, `ReportFields` and `ReportFormat`, and the lemmas beside the
other functions).

`Options` holds the type of a value that may be missing.

## What is assumed

- Memory allocation succeeds. Releasing memory is modelled as unlinking, except for the labels of
  regions, where releasing one twice is tracked.
- Group ids are not negative, because -1 stands for "no owner" (src/procaffinity/procaff.c:231).
  `CoreKeepsDisjoint` says exactly what goes wrong otherwise.
- The clock does not step back between two readings, and the times passed to the operations have
  nanoseconds in [0, 10^9). Where an expiry has to be positive the lemma says so.
- The number of online CPUs does not change. `sched_setaffinity` is an update of a map from
  process to the mask last requested; `cpu_set_t` has 1024 bits.
- The kernel's side of the ring is the mmap interface of perf_event_open(2): records are multiples
  of 8 bytes, state their length in the header, and are written only where nothing unread lies.
  The buffer is any multiple of 8 bytes. Sizes that do not divide 2^64 are covered until the 64-bit
  counters wrap; the program's own, 2^12 pages, divides it.
- The kernel does not map a file across the end of the address space.
- Accounting starts after `access_accounting_init` is done, which starts the dumper before the list
  is initialised (src/access/access_accounting.c:37-40).
- Nothing is sampled while `main` creates the groups and registers the cores: the sampler thread
  runs by then, and no lock keeps it from assigning processes or walking the list of cores
  meanwhile (src/main.c:121-135). So `StartUp.Prepare` starts from an empty table and runs alone,
  and the list of cores is fixed in `Sampler.WorkerIteration`.
- Decoding yields any mnemonic and any size. Where a mnemonic must need no JSON escape the lemma
  says so.

## Where code and documentation disagree

The model follows the code. Three branches have no defined behaviour; operations that can come to
them say exactly when, and promise nothing beyond.

- The format comment in src/access/access_worker.c:10-25 calls the thread member `thread`; the
  program prints `tid` (line 129).
- `procaff_unassign_core` is meant to take a core from a group, but with non-negative ids it refuses
  every core that has an owner, so it never changes anything (`UncoreEffect`).
- The comment in include/timespec_diff.h says 0 is returned for a positive difference. A difference
  of zero can be returned as -1 s and 10^9 ns with the flag set (`Diff`, `FlagWrongOnce`).
- The bound test of `memview_lookup` is one too wide: it lets an offset equal to the length through,
  and no other address outside the mapping (`LookupExact`; `OnePastTheEnd` is an input). Its callers
  only ask after a hit.
- A refresh of the region list ends in a double release when the first line that does not parse
  falls on a node of the old list: its label is released (src/memory/memory_inspector.c:101), not
  replaced (src/memory/memory_region.c:45-47) and released again with the whole list (line 109).
  `Regions.Inspector.Update` is defined exactly otherwise; `DoubleFreed` is an input.
- When a region's file opens but cannot be mapped, `fclose` is called on the descriptor
  (src/memory/memory_view.c:49). `MapFails` is that case and `MapFailed` an input.
- With an expiry that is not positive, `meminscache_get` frees the entry it has found and then reads
  the inspector in it (src/memory/memory_inspector_cache.c:36-47). `TtlCache.Cache.Get` says exactly
  when the entry is no longer listed; `FoundAndDropped` is an input.
- `memmock_get_label` may leave views of files that are no longer mapped (`StaleView`).

## Model

| member | source | states |
|---|---|---|
| IntrusiveList.Distinct | include/list.h:5-36 | no entry occurs twice on a well-formed ring, however long |
| IntrusiveList.List.AddAfter | include/list.h:20-27 | the ring stays well-formed in both directions and gains exactly the new entry behind the given one |
| IntrusiveList.List.AddBefore | include/list.h:29-36 | the same, before the given entry; before the head means at the end |
| IntrusiveList.List.Remove | include/list.h:38-43 | the ring loses exactly that entry, which keeps its own links for the iteration standing on it |
| IntrusiveList.List.Count | include/list.h:45-54 | the number of entries; the walk ends |
| IntrusiveList.List.TakeAll | src/access/access_worker.c:69-79 | empty, one or many entries: the local ring becomes exactly the shared node sequence in order and the shared head an empty ring |
| IntrusiveList.List.Clear | include/list.h:93-97 | the safe remove-and-free loop unlinks every entry once and ends |
| AffinityModel.CoreKeepsDisjoint | src/procaffinity/procaff.c:142-155 | assigning a core keeps core sets disjoint if and only if the present owner is not another group with a negative id |
| AffinityModel.NegativeOwner | src/procaffinity/procaff.c:148-152 | a state with a negative id in which two groups end up with the same core |
| AffinityModel.UncoreEffect | src/procaffinity/procaff.c:157-170 | a core is taken away if and only if the first group that has it has a negative id |
| AffinityModel.OwnerAt | src/procaffinity/procaff.c:230-239 | the reported owner is the first listed group that has the core, in list order |
| AffinityModel.OwnerIsFirst | src/procaffinity/procaff.c:230-239 | the reported owner has the core, or it is -1 and no listed group has it |
| AffinityModel.StepPreservesInv | src/procaffinity/procaff.c:40-228 | every operation keeps: ids listed once and disjoint cores, the default group listed, every tracked process in a listed group with a mask within its cores, every other process last reset to all CPUs |
| AffinityModel.AssignPreservesInv | src/procaffinity/procaff.c:172-219 | in particular an assignment, whatever the sweep moves or drops |
| AffinityModel.DestroyPreservesInv | src/procaffinity/procaff.c:75-96 | in particular destroying a group with its members |
| AffinityLaws.AssignTarget | src/procaffinity/procaff.c:172-219 | the process that is assigned ends up in the group unless it is an unexpired member of another group that is sticky: with a deadline of at least the reading plus the group's expiry, and with the group's cores if it came from elsewhere; otherwise its entry and mask stay |
| AffinityLaws.AssignOther | src/procaffinity/procaff.c:194-200 | every other process: unexpired or untracked, nothing about it changes; expired outside the default group, it has that group's cores and a new deadline; expired in it or without one, it is forgotten and may run on every online CPU below 1024 |
| AffinityLaws.AssignUnknown | src/procaffinity/procaff.c:173-177 | an unknown group: nothing happens, not even a sweep |
| AffinityLaws.UnassignExact | src/procaffinity/procaff.c:221-228 | exactly that process is forgotten and reset, if it was tracked |
| AffinityLaws.CreateExact | src/procaffinity/procaff.c:40-64 | a known id changes nothing; a new group is listed first with its expiry and stickiness, without a core, and is not the default |
| AffinityLaws.DestroyExact | src/procaffinity/procaff.c:66-96 | the group goes from its place in the list, its members are forgotten and reset, and everything about every other group and process stays |
| AffinityLaws.DefaultExact | src/procaffinity/procaff.c:130-140 | an unknown id leaves no default; nothing else changes |
| AffinityLaws.CoreExact | src/procaffinity/procaff.c:142-155 | exactly a core below 1024 that no group has is added, to that group only |
| AffinityRuns.InitialInv | src/procaffinity/procaff.c:24-29 | the empty table satisfies the invariant |
| AffinityRuns.RunInv | src/procaffinity/procaff.c:24-228 | the invariant in every state of every run |
| AffinityRuns.ForgottenIsReset | src/procaffinity/procaff.c:116-128 | a process that was tracked once and no longer is was last given every online CPU |
| AffinityRuns.MaskExact | src/procaffinity/procaff.c:142-219 | while a process stays in a group its mask is within the group's cores, and equals them if and only if no core was added since it entered |
| AffinityRuns.StickyRun | src/procaffinity/procaff.c:183-193 | over any run of sweeps, each of which reads the clock before the deadline the process has by then, renewals included, a member of a sticky group stays; its deadline only moves forward, and only by assignments to that group |
| AffinityRuns.RankStep | src/procaffinity/procaff.c:98-114 | a sweep for another process that finds one expired lowers its rank non-default > default > untracked |
| AffinityRuns.ExpiryForgets | src/procaffinity/procaff.c:98-114 | at most two sweeps find a process expired; after as many as its rank it is forgotten and its mask reset |
| AffinityRuns.OrderIndependent | src/procaffinity/procaff.c:179-219 | tracked processes, groups and masks after an assignment do not depend on the order of the list; deadlines differ at most by the later clock readings |
| AffinityRuns.InstantlyAssigned | src/procaffinity/procaff.c:179-219 | an assignment is possible in every state in which the group exists, with this outcome when the clock stands still |
| AffinityRuns.NoneExpired | src/procaffinity/procaff.c:179-219 | no tracked process is expired at the reading at the start of the sweep, if and only if every group whose expiry is used is positive |
| AffinitySweep.SweepStep | src/procaffinity/procaff.c:182-201 | visiting one list entry settles that process and touches no other |
| Affinity.ProcaffContext.constructor | src/procaffinity/procaff.c:24-29 | the empty table |
| Affinity.ProcaffContext.CreateGroup | src/procaffinity/procaff.c:40-64 | refuses a known id, otherwise the new group is first and owns nothing |
| Affinity.ProcaffContext.DestroyGroup | src/procaffinity/procaff.c:66-73 | exactly the group and its processes go, each of those is reset, and the default is cleared if it was this group |
| Affinity.ProcaffContext.DestroyGroupPtr | src/procaffinity/procaff.c:75-96 | the same for a list node, while the list is being iterated |
| Affinity.ProcaffContext.Deinit | src/procaffinity/procaff.c:31-38 | both lists empty, no default, every tracked process reset and no other mask changed |
| Affinity.ProcaffContext.ExpireProcess | src/procaffinity/procaff.c:98-114 | moves to the default group with its cores and a new deadline, or drops and resets |
| Affinity.ProcaffContext.DestroyProcess | src/procaffinity/procaff.c:116-128 | unlinks the process and resets its mask |
| Affinity.ProcaffContext.DefaultGroup | src/procaffinity/procaff.c:130-140 | the default is the group asked for, or none if it does not exist |
| Affinity.ProcaffContext.AssignCore | src/procaffinity/procaff.c:142-155 | succeeds exactly for an existing group and a core without owner, and adds that core only |
| Affinity.ProcaffContext.UnassignCore | src/procaffinity/procaff.c:157-170 | the guards as they are written |
| Affinity.ProcaffContext.CpuAssignee | src/procaffinity/procaff.c:230-239 | the first owner in list order or -1 |
| Affinity.ProcaffContext.ProcessAssign | src/procaffinity/procaff.c:172-219 | the in-place sweep is the pointwise transition: every other process kept, moved or dropped by its own deadline, the target inserted, renewed, moved or held by stickiness |
| Affinity.ProcaffContext.Visit | src/procaffinity/procaff.c:183-200 | one round of the sweep |
| Affinity.ProcaffContext.ProcessUnassign | src/procaffinity/procaff.c:221-228 | drops and resets a tracked process, refuses an unknown one |
| Affinity.ProcaffContext.ProcessGet | src/procaffinity/procaff.c:289-296 | the group of a tracked process |
| Affinity.ProcaffContext.PolicyReset | src/procaffinity/procaff.c:278-287 | requests exactly the online CPUs that fit into the set |
| Affinity.ProcaffContext.UpdateProcess | src/procaffinity/procaff_process.c:22-29 | sets group and deadline, and says whether the group changed |
| StartUp.Prepare | src/main.c:125-135 | of the online cores below 1024, group 1 owns exactly those the scanner reports for both arguments, group 0 exactly those it reports for the first only; group 0 is the default, and the arguments are unchanged |
| StartUp.DividedListed | src/main.c:128-135 | for arguments in the List format of cpuset(7) that is: listed in both, and listed in the first only, of the cores below 1024; group 1 is sticky with an expiry of 200 ms, group 0 is not and has 60 s |
| StartUp.DividedStep | src/main.c:128-135 | the next listed core has no owner yet, so it is assigned |
| ThreadPlacement.StartRunning | src/main.c:125-135 | the start leaves two disjoint groups, group 1 sticky with 200 ms and group 0 the default with 60 s |
| ThreadPlacement.SampleKeeps | src/main.c:61-67 | samples change neither group, and every tracked thread has exactly the cores of its group |
| ThreadPlacement.SamplePlaces | src/main.c:61-67 | a sampled write to non-volatile memory puts the thread on the NVMM cores for at least 200 ms; another one puts it on the general cores for at least a minute, if and only if it is not still kept on the NVMM cores |
| ThreadPlacement.SampleExpires | src/main.c:61-67 | the sample of another thread sends an expired one from the NVMM cores to the general cores, and from there to every online CPU |
| ThreadPlacement.NvmmKept | src/main.c:61-67 | over every run of samples: for 200 ms after a write to non-volatile memory, and after each further one, the thread has exactly the NVMM cores, whatever else it or others write |
| PerfModel.FetchIsNext | src/sampler/sampler_worker.c:63-80 | a round reads exactly the oldest unread record, byte for byte and across the end of the buffer, unless it is longer than 64 bytes and wraps |
| PerfModel.EmptyTest | src/sampler/sampler_worker.c:59-61 | equal wrapping counters mean an empty ring |
| PerfModel.ConsumeIs | src/sampler/sampler_worker.c:54-115 | a round does nothing on an empty ring, exits exactly on an unsupported record, and otherwise delivers and takes one record |
| PerfModel.AppendKeepsFetch | src/sampler/sampler_worker.c:55-63 | a record the kernel writes during a round does not change what the round reads |
| PerfModel.UnreadIs | src/sampler/sampler_worker.c:59-63 | the bytes between tail and head are exactly the records not taken yet |
| PerfModel.EveryRecordOnce | src/sampler/sampler_worker.c:52-115 | in every interleaving: records delivered so far, then records still unread, are the records produced, in order, once each and byte-exact; the tail is on a record boundary |
| PerfModel.CrashCause | src/sampler/sampler_worker.c:65-75 | the sampler exits only on a record that wraps and is longer than 64 bytes |
| PerfModel.CrashCertain | src/sampler/sampler_worker.c:70-75 | and it does exit when it comes to such a record |
| PerfModel.ExitReached | src/sampler/sampler_worker.c:70-75 | a ring of 128 bytes and records of 72 on which it does |
| PerfModel.NeverExits | src/sampler/sampler_worker.c:65-75 | with records of at most 64 bytes neither exit is reached, in any interleaving |
| PerfModel.WrapExact | src/sampler/sampler_worker.c:63-64 | wrapping 64-bit counters give the right offset for ever if and only if the buffer size divides 2^64 |
| PerfRing.SamplerRing.Copy | src/sampler/sampler_worker.c:77-78 | the bytes arrive and those before them stay |
| PerfRing.SamplerRing.Join | src/sampler/sampler_worker.c:76-80 | the two copies put the record together, byte for byte, while the kernel may write between them |
| PerfRing.SamplerRing.Record | src/sampler/sampler_worker.c:63-113 | taking a record in place or from the scratch buffer is the model's step |
| PerfRing.SamplerRing.IterationCore | src/sampler/sampler_worker.c:52-115 | all it does, with the kernel writing in between, is some interleaving with at most 50000 rounds; if it stops sooner the ring is empty or it has exited |
| PerfModel.DispatchByType | src/sampler/sampler_worker.c:82-111 | each callback that is set is given exactly the records of its type, in order and unchanged; one that is not set is never invoked |
| PerfModel.HeaderIs | src/sampler/sampler_worker.c:63-82 | the type is the first four bytes and the size the last two of the header, least significant byte first |
| PerfModel.DispatchByBytes | src/sampler/sampler_worker.c:82-111 | the callbacks are given, in order, exactly the records that start with the bytes of types 2, 5, 6 and 9 |
| PerfModel.SamplesDelivered | src/main.c:115 | with the program's receiver the calls are exactly the samples, each one once, in order, as written |
| Sampler.WorkerIteration | src/sampler/sampler_worker.c:40-48 | every registered ring goes through an interleaving of its own, in list order, without touching another: 50000 rounds, or fewer if nothing is left to read or it exits; an exit leaves the later ones alone |
| AccessModel.Conservation | src/access/access_accounting.c:55-104 | over every interleaving, for every process, thread and instruction: dumped, stolen, listed and discarded together equal the sum over all tracked writes (`AccessWorker` and `Program` tie the runs to the heap) |
| AccessModel.EntriesStayOk | src/access/access_entry.c:35-80 | totals equal the sums over the thread list, and over the instruction list in builds that keep it; pids, tids and mnemonics occur once |
| AccessModel.WriteOk | src/access/access_accounting.c:67-104 | one write keeps that |
| AccessModel.WriteAdds | src/access/access_accounting.c:67-104 | one write adds its size and one access to exactly its process, thread and instruction, or nothing if decoding failed |
| AccessLaws.WriteExact | src/access/access_accounting.c:67-104 | a write touches only its process's entry, which is there afterwards whether or not decoding succeeds: the first of that process in its place, or a new one at the end; one access and the size are counted on its totals, its thread's row and, if stored, its instruction's row, in their places or on a new row in front |
| AccessLaws.RecordsList | src/access/access_worker.c:64-103 | every record lists exactly the processes of its round's writes, decoded or not, each once, in the order of their first writes |
| Interleaving.EveryInterleaving | src/access/access_worker.c:64-103 | every interleaving hands out the entries of its rounds in order, one round for each theft; what is listed or discarded is the writes since the last theft |
| Interleaving.PrintedIsHanded | src/access/access_worker.c:32-62 | the printed records hold exactly those entries |
| Interleaving.PrintedAddsUp | src/access/access_worker.c:64-139 | for every process, thread and instruction the printed records add up to the writes of their rounds |
| Access.FindRow | src/access/access_entry.c:60-66 | the first row with the key, or none if there is none |
| Access.TrackRow | src/access/access_entry.c:60-77 | find or insert behind the head, then count, on the heap list |
| Access.AccessEntry.TrackWrite | src/access/access_entry.c:35-80 | totals, instruction row and thread row, as the flag says |
| Access.AccessEntry.Deinit | src/access/access_entry.c:18-33 | both row lists are emptied |
| Access.EntryList.Find | src/access/access_accounting.c:71-77 | the entry of the process, or none if there is none |
| Access.EntryList.Write | src/access/access_accounting.c:67-104 | find or append the entry and count; the entry is there even if decoding fails |
| Access.EntryList.Steal | src/access/access_worker.c:65-80 | the local list takes over every entry with all it owns, the shared one is empty |
| Access.EntryList.Free | src/access/access_worker.c:93-95 | exactly the first entry goes, with its rows; the others and what they own are untouched |
| AccessWorker.PrintThreads | src/access/access_worker.c:126-135 | commas stand only between rows |
| AccessWorker.PrintInsns | src/access/access_worker.c:111-120 | commas stand only between rows |
| AccessWorker.DumpEntry | src/access/access_worker.c:105-139 | the text of one entry |
| AccessWorker.Writers | src/access/access_accounting.c:67-104 | any number of writes under the lock are steps of the run; nothing stolen or printed changes |
| AccessWorker.Drain | src/access/access_worker.c:89-100 | every stolen entry is printed once, in order, and freed, with writes to the shared list before each; all of it is a run of the model |
| AccessWorker.Discard | src/access/access_accounting.c:55-61 | every entry still listed is freed once, unprinted; the run ends in shutdown with these entries discarded |
| AccessWorker.Iteration | src/access/access_worker.c:64-103 | one theft; prints one record of exactly the writes before it since the last theft, whatever is written meanwhile or afterwards |
| AccessWorker.Worker | src/access/access_worker.c:32-62 | with writers before and after every theft and every printed entry: the heap follows a run of the model, and the text is the records of that run's rounds, one for each iteration |
| Json.UnescapeExact | src/main.c:117 | a string printed between quotes reads back as itself if and only if it needs no escape, whatever text follows (RFC 8259, section 7) |
| Json.ParseSound | src/access/access_worker.c:105-139 | a value that is parsed is made of exactly the tokens it was parsed from |
| Json.ReadPrint | src/access/access_worker.c:105-139 | reading a printed value gives the value back if and only if no string in it needs an escape |
| ReportDecode.RoundTripExactly | src/access/access_worker.c:32-139 | the report reads back as exactly what was dumped, by a reader that decodes escapes, if and only if no CPU list and no printed mnemonic needs one |
| ReportFields.ReportByKey | src/access/access_worker.c:82-139 | every plain report is JSON in which each number, text and list stands under its own key, of records, processes, threads, instructions, settings and debug figures; the instructions are there if and only if they are stored |
| ReportFormat.ThreadFormat | src/access/access_worker.c:128-130 | the text of a thread is what the format string says |
| ReportFormat.InsnFormat | src/access/access_worker.c:114-115 | the text of an instruction is what the format string says |
| ReportFormat.EntryFormat | src/access/access_worker.c:106-138 | the text of an entry is what the format strings say |
| ReportFormat.RecordFormat | src/access/access_worker.c:87-102 | the text of a record is what the format strings say |
| ReportFormat.SettingsFormat | src/main.c:117 | the settings are what the format string says |
| ReportFormat.DebugFormat | src/main.c:152 | the debug figures are what the format string says |
| ReportFormat.DocumentFormat | src/main.c:117-152 | so is the output around the records |
| ReportFormat.CommasFormat | src/access/access_worker.c:118-120 | a comma in front of every text but the first |
| ReportFormat.RecordsFormat | src/access/access_worker.c:87-102 | a line for every record, with a comma in front of all but the first |
| Decimal.DecPlaces | src/access/access_worker.c:106 | each character of a printed number is the decimal digit of its place |
| Decimal.DecLength | src/access/access_worker.c:106 | a printed number has as many digits as it takes |
| Decimal.DecValueConcat | include/procaffinity/helper.h:22 | what a text of digits is worth, by powers of ten, leading zeros or not |
| Program.Output | src/main.c:117-152 | the text from the settings to the debug suffix, printed while writers account until shutdown; at the end the run has printed or discarded every entry |
| Program.OutputReadsBack | src/main.c:117-152 | whatever is accounted and dumped, the whole output parses and reads back exactly, if and only if neither CPU list needs an escape |
| Program.OutputAccounts | src/main.c:117-152 | for every process, thread and instruction, what was printed and what was discarded add up to all tracked writes of the run |
| Regions.MatchesIsRange | src/memory/memory_inspector.c:146-150 | despite the wrapping end address, a region matches the addresses from its start to its end; one that reaches the end of the address space matches none |
| Regions.FirstFound | src/memory/memory_inspector.c:27-41 | an address without an answer is in no region; an answer is a listed region that contains it |
| Regions.Inspector.LookupRegion | src/memory/memory_inspector.c:27-41 | the first region in list order that contains the address |
| Regions.Inspector.CacheFree | src/memory/memory_inspector.c:152-166 | every node and every label from a position on is released once |
| Regions.Inspector.Update | src/memory/memory_inspector.c:57-144 | defined if and only if no reused node meets the first line that does not parse; then, from a list of any length: the parsed lines in order with nodes reused in place, extended or truncated; unchanged if the file cannot be opened; empty after any later failure |
| Regions.DoubleFreed | src/memory/memory_inspector.c:100-111 | an input for which the refresh is not defined |
| Regions.RefreshExact | src/memory/memory_inspector.c:57-144 | what a refresh comes to in each case, for every list and every file |
| Regions.LookedListed | src/memory/memory_inspector.c:43-53 | the first listed region that contains the address answers, and the file is not read |
| Regions.LookedRefreshed | src/memory/memory_inspector.c:43-53 | if there is none, the first such region of the file as it reads then, whose regions become the list |
| Regions.LookedNowhere | src/memory/memory_inspector.c:43-53 | if there is none either, no answer, after a second refresh |
| Regions.Inspector.LookupUpdate | src/memory/memory_inspector.c:43-53 | refreshes after each of two misses, of which the second is too late for the answer; defined exactly when the refreshes it comes to are |
| ViewsModel.HitTranslates | src/memory/memory_view.c:55-63 | on a hit the answer is the mapping start plus the offset, inside the mapping and never NULL, despite modular arithmetic |
| ViewsModel.LookupExact | src/memory/memory_view.c:55-63 | for every address, hit or not and whatever wraps: the answer lies in the mapping if and only if the offset is below the length; it is neither that nor NULL if and only if the offset equals the length and the mapping does not end at the end of the address space |
| ViewsModel.OnePastTheEnd | src/memory/memory_view.c:55-63 | an input for the second case: the address behind the region, which is no hit |
| ViewsModel.MapFailed | src/memory/memory_view.c:32-49 | a lookup that is not defined because the file opens and `mmap` fails |
| ViewsModel.GetRight | src/memory/memory_mock.c:24-46 | a pointer stands for the file position that the first matching region gives; there is none only if no region was found in time or its file could not be opened; undefined if and only if a miss comes to a bad refresh or to a failing map |
| ViewsModel.GetHit | src/memory/memory_mock.c:25-28 | the first view that is hit answers with its mapping plus the offset; nothing changes |
| ViewsModel.GetMaps | src/memory/memory_mock.c:30-39 | otherwise the first listed region that contains the address is mapped, or the first of the refreshed list, on which no older view is left: the answer is the mapping plus the offset, NULL if the file cannot be opened, undefined exactly if it cannot be mapped |
| ViewsModel.GetNowhere | src/memory/memory_mock.c:41-45 | with no such region on either list no answer and no view |
| ViewsModel.LabelsRight | src/memory/memory_mock.c:48-51 | in every state of the views: the label is the path of the first region, on the list the call leaves, that contains the address; there is none only if neither the list nor the file had one; the views stay |
| ViewsModel.GetsRight | src/memory/memory_mock.c:24-46 | over every run of lookups, however the maps file changes or fails, as long as it is defined |
| ViewsModel.SteadyRight | src/memory/memory_mock.c:24-51 | over every run of pointer and label lookups on an unchanging process, the labels included |
| ViewsModel.NoShadowExact | src/memory/memory_mock.c:24-46 | all runs on a region list answer right if and only if no region reached first gives away an address an earlier region has elsewhere |
| ViewsModel.DisjointNoShadow | src/memory/memory_mock.c:24-46 | which no list of disjoint regions does |
| ViewsModel.OverlapShadows | src/memory/memory_mock.c:24-46 | two overlapping regions do |
| ViewsModel.LabelExact | src/memory/memory_mock.c:48-51 | after a label lookup the views agree with the refreshed regions if and only if what they map is still there |
| ViewsModel.MixedRight | src/memory/memory_mock.c:24-51 | the same on a changing process in which no label lookup loses what a view maps |
| ViewsModel.MixedExactly | src/memory/memory_mock.c:24-51 | whatever pointer is asked for at whatever point of such a run is answered right, if and only if every label lookup finds what the views map still there |
| ViewsModel.StaleView | src/memory/memory_mock.c:48-51 | a run in which one does not |
| Views.MemMock.CacheLookup | src/memory/memory_mock.c:59-73 | the first view that is hit |
| Views.MemMock.Invalidate | src/memory/memory_mock.c:75-88 | every view is released once |
| Views.MemMock.CachePopulate | src/memory/memory_mock.c:90-112 | a view of the region, NULL and no change if its file cannot be opened, not defined exactly if it opens but cannot be mapped |
| Views.MemMock.Append | src/memory/memory_mock.c:114-135 | at the end of the list |
| Views.MemMock.Get | src/memory/memory_mock.c:24-46 | the heap operation is the model's, and defined exactly when that is |
| Views.MemMock.GetLabel | src/memory/memory_mock.c:48-51 | the heap operation is the model's, and defined exactly when that is; the views stay |
| TtlModel.KeptIsSwept | src/memory/memory_mock_cache.c:32-42 | the sweep over the list is the pointwise sweep of the table: others survive exactly if not expired, deadlines unchanged |
| TtlModel.FormsDiffer | src/memory/memory_inspector_cache.c:31-40 | the two loops differ if and only if a found entry's renewed deadline is not after the reading |
| TtlModel.FoundAndDropped | src/memory/memory_inspector_cache.c:31-47 | an input on which the sweep drops the entry the lookup has found |
| TtlModel.FormsAgreeExactly | src/memory/memory_inspector_cache.c:26-50 | the two caches are the same map on all runs if and only if the expiry is positive |
| TtlModel.CachedExactly | src/memory/memory_mock_cache.c:27-52 | in either cache: a process is cached, with the deadline of its last lookup, if and only if no other lookup since has swept at or after it and, in the inspector cache, that lookup has not dropped the entry it found |
| TtlCache.Cache.Visit | src/memory/memory_mock_cache.c:33-41 | one round of either loop |
| TtlCache.Cache.Sweep | src/memory/memory_mock_cache.c:32-42 | either loop |
| TtlCache.Cache.EntryCreate | src/memory/memory_mock_cache.c:55-79 | a new entry at the end of the list |
| TtlCache.Cache.Get | src/memory/memory_mock_cache.c:27-52 | the table transition; a process that had an entry gets that very entry, no other entry is changed; the entry returned is no longer listed exactly if the inspector cache has found it and its renewed deadline is not after the reading |
| CpuList.GetDigit | include/procaffinity/helper.h:13-27 | the number at the position, with the buffer byte for byte as it was |
| CpuList.CpuInCpulist | include/procaffinity/helper.h:29-64 | the scanner's answer on any text, with the buffer as it was; it ends |
| CpuList.ScanIsUnion | include/procaffinity/helper.h:29-64 | on every list of numbers and ranges in the List format of cpuset(7), true exactly for members of the union |
| CpuList.ScanOne | include/procaffinity/helper.h:41-47 | on any text: a number is compared in front of a comma or the end, skipped in front of anything else, and a range without an end stops the scan |
| CpuList.ScanSpan | include/procaffinity/helper.h:48-59 | on any text: a range is compared, and the character behind it is not looked at |
| CpuList.ScanStops | include/procaffinity/helper.h:36-38 | nothing is found where no number starts |
| Mount.OnMountpointIsComponentwise | include/path_helper.h:7-14 | apart from the root, a mountpoint takes a path if and only if its components are a proper prefix of the path's |
| Mount.NoSlashInside | include/path_helper.h:7-14 | the components are the texts between the slashes |
| Mount.RootTakesAll | include/path_helper.h:7-14 | the root takes every path, with the shortest match |
| Mount.LongerIsDeeper | include/path_helper.h:7-14 | of two mountpoints that take a path the longer match is the deeper one |
| Mount.MountQuery | src/mount/mount.c:84-99 | the first of the longest matches, or none if nothing matches |
| Mount.ChosenIsDeepest | src/mount/mount.c:84-99 | the answer is the deepest listed ancestor of the path |
| Mount.NoneExactly | src/mount/mount.c:94-98 | no answer if and only if neither the root nor an ancestor of the path is listed |
| Mount.OrderMattersExactly | src/mount/mount.c:84-99 | the order of the list can change the mountpoint chosen if and only if an empty mount path competes with the root |
| Timespec.Extend | include/expiry.h:16-20 | the sum is exact for all integers, and normal exactly when said |
| Timespec.PassedIsOrder | include/expiry.h:27-32 | on normal times the field-wise test is the order of instants |
| Timespec.Clock.In | include/expiry.h:22-25 | the deadline is the extension after the reading |
| Timespec.Diff | include/timespec_diff.h:11-32 | y keeps its instant and the difference is exact for all integers; the flag is the sign except when equal instants leave a whole second |
| Timespec.FlagWrongOnce | include/timespec_diff.h:11-32 | two equal instants whose difference is reported as negative |

## Left out

- The fields `offset`, `inode`, `major`, `minor` and the permissions of a region are carried along; parsing a line of the maps file or of the mount table (src/memory/memory_region.c:38-70, src/mount/mount_details.c:56-80) rests on `sscanf` and is an input here.
- `mount_update` (src/mount/mount.c:18-82): its cleanup starts behind the first stale entry; it is called once, on an empty list.
- `get_instruction` and the decoding around it (src/access/access_accounting.c:110-191): it keeps a pointer across calls that may drop the view it points into.
- The sample callback in src/main.c:35-68, but for the assignment it ends in (`ThreadPlacement`), and the test for `dax` (src/nvmm/nvmm_lookup.c:22-49).
- Sleeping and its retry loops, CPU times, logging, signals, thread and lock primitives.
- Access.EntryList.Free: memory is not released but unlinked, so use after release is not modelled; the same holds for every other free but that of region labels.
- AccessModel.Write: sizes and totals are unbounded, so the wrap-around of `size_t` is not modelled; the truncation of a mnemonic to 31 characters is part of decoding.
- PerfRing.SamplerRing.IterationCore: the kernel writes whole records, before the counters are read, between header and record, between the two copies and before the callback; writes during a callback come before the next reading of the counters; memory ordering is not modelled.
- StartUp.Prepare: it runs alone; assignments by a sampler thread that is already running are not modelled.
- Sampler.WorkerIteration: the list of cores is fixed; registration while the list is being walked is not modelled.
- CpuList.GetDigit: the value is the decimal number, so an overflow of `int` in `sscanf` is not modelled.
- Timespec.Diff: the fields are unbounded, so an overflow of `time_t` is not modelled.
- TtlCache.Cache.Get: the cached object is the entry it shares its memory with; its release when it is purged is not modelled, only that it is no longer listed.
- Views.MemMock.Get: a view's region is remembered beside the list for the proofs; file contents are not modelled, only file and position.
- Json.ReadPrint: the reader refuses fractions, exponents, literal names and escaped surrogates without a partner; no report contains one. That its clauses are those of RFC 8259 is by inspection.
