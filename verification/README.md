# TCAM bank handler: a Dafny model

This project models the core of a TCAM bank handler written in C. The handler keeps an in-memory cache table of `{id, prio}` entries and mirrors every change onto a hardware TCAM bank.

- A slot whose `id` is 0 is empty.
- A lower `prio` value means a higher priority.
- `tcam_insert` places a batch of entries one by one, so that occupied slots stay in priority order and the newest entry of a priority group comes first. It then programs the hardware bank: after a shift, every occupied slot from the lowest written index to the end of the table; otherwise, the occupied slots it wrote.
- `tcam_remove` clears the first slot holding an id, with one hardware write.
- `tcam_init` and `tcam_cache_destroy` create and release the table.
- The hardware stub (`tcam.c`) zeroes the bank, programs one cell at a time behind a bounds check, and counts the writes.

The C code keeps its state in file-scope statics. Here that state is one immutable value, `EntryMgr.Engine`: the caller's handle (NULL, a live table, or a table already freed), the running total, the capacity, and the hardware bank with its access counter. Each operation is a pure function from one `Engine` to a `Reply`. A `Reply` is either a returned state with a status, or `Undefined(fault)` where the C code reads or writes outside an array, or frees the table twice.

Files:
- `tcam_defs.dfy`: entries, status codes, constants.
- `hw_tcam.dfy`: the hardware stub.
- `cache_table.dfy`: the scans, the forward shift and the placement of one entry.
- `entry_mgr.dfy`: the handler, with the batch loop, the replay and the invariants.
- `hardened.dfy`: corrected insert and remove.
- `scenarios.dfy`: the test driver's cases stated as facts about the model, and inputs that exhibit the defects.

Modelling choices:
- Reads at index `cap` happen in three places, and each is taken as a read of an empty slot. They are the shift scan (tcam_entry_mgr.c:109, which reads the slot before comparing the index with the bound), the tail scan (tcam_entry_mgr.c:123) and the shift replay (tcam_entry_mgr.c:150).
- The capacity check adds a signed 32-bit total to an unsigned 32-bit count, so the sum is taken modulo 2^32.
- The hardware bank always has `TCAM_MAX_ENTRIES` = 2048 cells, as in the test driver.

Where the code and its documentation differ, the model follows the code:
- `tcam_init` never fails, because the allocations are unchecked.
- `tcam_init` does not reset the running total; only `tcam_cache_destroy` does.
- The capacity check rejects `total + num == cap` (`>=` at tcam_entry_mgr.c:72), so one slot stays free as long as `total + num` does not wrap around 2^32.
- `tcam_cache_destroy` sets only its own copy of the handle to NULL (tcam_entry_mgr.c:222). The caller keeps a pointer to the freed table, and the model keeps that state apart from NULL.
- A failed batch is not rolled back.

## Model

| member | source | states |
|---|---|---|
| `HwTcam.Init` | tcam.c:10-13 | The first `size` cells become empty, the cells beyond them keep their contents, and the access counter is 0. |
| `HwTcam.Program` | tcam.c:24-33 | The write succeeds exactly when the position is below `TCAM_MAX_ENTRIES`. On failure the status is EINVAL and the device is unchanged. On success the cell holds the entry and the counter goes up by one. No other cell changes either way. |
| `HwTcam.ProgramCells` | tcam_entry_mgr.c:149-159 | After the replay loops, every listed cell holds the table's entry for that slot and every other cell keeps its old contents. The counter goes up by the number of listed cells. |
| `HwTcam.AccessCountMeasuresWrites` | tcam.c:8-38 | After `hw_tcam_init`, the counter that `tcam_get_hw_access_cnt` returns equals the number of `tcam_program` calls that were accepted (position below `TCAM_MAX_ENTRIES`). Rejected calls are not counted. |
| `HwTcam.AccessCountAdds` | tcam.c:26-30 | Any sequence of `tcam_program` calls raises the counter by exactly the number of accepted calls. |
| `CacheTable.Boundary` | tcam_entry_mgr.c:92-97 | Returns the first slot that is occupied with a priority value of at least the entry's. When there is none, no slot blocks the entry. |
| `CacheTable.FreeFrom` | tcam_entry_mgr.c:108-112 | Returns the first empty slot at or after the start index. When there is none, every slot from there to the end of the table is occupied. |
| `CacheTable.TailScan` | tcam_entry_mgr.c:123 | Returns the highest occupied slot at or below the start index, or 0 when only slot 0 can be left. Every slot between the result and the start index is empty. |
| `CacheTable.ShiftInsert` | tcam_entry_mgr.c:114-115 | The run `[j, sp-1]` moves exactly one slot up into `sp`, and the entry takes slot `j`. Every slot outside `[j, sp]` is unchanged. |
| `CacheTable.Place` | tcam_entry_mgr.c:90-129 | When an entry is placed, it sits at the returned slot and the size is kept. Without a shift, it took an empty slot and nothing else changed. With a shift, the landing slot was occupied before. |
| `CacheTable.PlaceFailures` | tcam_entry_mgr.c:104-127 | The shift scan fails exactly when the first blocking slot has no free predecessor and every slot above it is occupied. The append target is `cap` exactly when nothing blocks and either the last slot is occupied or the table has fewer than two slots. |
| `CacheTable.PlaceOnlyFillsUpward` | tcam_entry_mgr.c:104-129 | Placement changes no slot below the landing slot and empties no occupied slot. Every changed slot ends up occupied. |
| `CacheTable.PlaceLandsAtBoundary` | tcam_entry_mgr.c:39-46 | In a sorted table, the occupied slots below the new entry are exactly those with a strictly smaller priority value. So an older entry of equal priority always ends up after the new one. |
| `CacheTable.PlaceKeepsOrder` | tcam_entry_mgr.c:92-129 | Placing an entry into a table whose occupied slots are in priority order keeps them in order. |
| `CacheTable.PlaceAddsEntry` | tcam_entry_mgr.c:108-135 | The occupied entries gain exactly the new entry, inserted between those below and those at or above the landing slot. The multiset grows by that entry and the count by one. |
| `CacheTable.ClearSlot` | tcam_entry_mgr.c:202-206 | Emptying an occupied slot removes exactly its entry from the multiset of occupied entries, and the count drops by one. |
| `CacheTable.ClearEmptySlot` | tcam_entry_mgr.c:202-206 | Emptying an already empty slot leaves the occupied entries unchanged. |
| `CacheTable.ClearKeepsOrder` | tcam_entry_mgr.c:202-206 | Emptying a slot keeps the occupied slots in priority order. |
| `EntryMgr.Start` | tcam_entry_mgr.c:8-13 | The zeroed statics form a consistent, mirrored handler with no table. |
| `EntryMgr.Init` | tcam_entry_mgr.c:25-33 | Gives a live table of `size` empty slots and keeps the running total. The bank is the one `hw_tcam_init` leaves, with a zero counter. The result is consistent exactly when the total was already 0, and it is always mirrored. |
| `EntryMgr.Destroy` | tcam_entry_mgr.c:218-229 | Destroying a freed table is undefined (a double free). Otherwise the total and capacity become 0 and the bank is kept. A live handle becomes a freed one, and a NULL handle stays NULL. The result is consistent and mirrored. |
| `EntryMgr.DestroyThenInit` | tcam_entry_mgr.c:218-229 | Destroy on a handle that was not already freed returns, and init afterwards always gives a consistent and mirrored handler with total 0. |
| `EntryMgr.StaleHandle` | tcam_entry_mgr.c:218-222 | After destroying a live table, the caller's stale handle is not NULL. Insert on it reports TCAM_FULL, remove reports EINVAL, neither changes anything, and a second destroy is a double free. |
| `EntryMgr.StartTracks` | tcam_entry_mgr.c:76-86 | On a table whose total counts its occupied slots and whose order holds, the set-up before the loop already meets the loop invariant of `PlaceTracks` for the entries it placed: `entries[0]` alone on the first-entry path, none otherwise. |
| `EntryMgr.PlaceTracks` | tcam_entry_mgr.c:89-135 | One placement followed by the bookkeeping keeps the loop invariant, with the new entry added to those placed. The table keeps its size, the total still counts the occupied slots, and the order holds. The occupied multiset is the start table's plus the placed entries. The marks are occupied slots at or above `top`, one per placed entry while nothing has shifted. No occupied slot of the start table becomes empty, and every changed slot is occupied, at or above `top`, and marked unless a shift happened. |
| `EntryMgr.PlaceAll` | tcam_entry_mgr.c:88-136 | A completed loop adds the rest of the batch to the total. A halted loop adds the entries before the halting one. The table keeps its size, and `top` stays inside it once a shift happened. |
| `EntryMgr.SweepDown` | tcam_entry_mgr.c:149-153 | The shift replay lists exactly the occupied slots in `[top, i]`, in strictly descending order. |
| `EntryMgr.SweepUp` | tcam_entry_mgr.c:154-158 | The plain replay lists exactly the occupied slots marked in `insert_list`, in strictly ascending order. |
| `EntryMgr.Replay` | tcam_entry_mgr.c:149-158 | After a shift, the programmed slots are exactly the occupied slots of `[top, cap)`, in descending order. Otherwise they are exactly the marked occupied slots, in ascending order. |
| `EntryMgr.RunPass` | tcam_entry_mgr.c:76-136 | The pass reads past the batch exactly when the total is not positive and the batch is empty. A pass that does not overrun keeps the table size. A completed pass adds the batch size to the starting count, and a halted one adds the entries before the halting index. The starting count is the total, or 0 when the total is not positive. |
| `EntryMgr.Insert` | tcam_entry_mgr.c:58-163 | A NULL table gives NULL_CACHE with no change, and a failed capacity check gives TCAM_FULL with no change. A returned state keeps capacity and handle and is well formed. A failure never touches the bank. Only SUCCESS, TCAM_FULL and NULL_CACHE are returned. |
| `EntryMgr.PlaceAllTracks` | tcam_entry_mgr.c:89-136 | The placement loop keeps these facts to its end or to its halting entry: the total counts the occupied slots, the order holds, the occupied multiset is the start plus the placed entries, and every changed slot is marked or covered by the shift replay. |
| `EntryMgr.ReplayMirrors` | tcam_entry_mgr.c:149-159 | After a completed pass, the replay brings every bank cell below `cap` back in line with its table slot. |
| `EntryMgr.InsertSucceeds` | tcam_entry_mgr.c:58-163 | A successful insert keeps the handler consistent and mirrored, adds the whole batch to the occupied multiset, and adds the batch size to the total. |
| `EntryMgr.InsertCompletes` | tcam_entry_mgr.c:129-162 | A call that passes both checks and whose loop completes returns SUCCESS with that loop's table and total. |
| `EntryMgr.InsertWrites` | tcam_entry_mgr.c:139-161 | Without a shift, the counter goes up by exactly the batch size. With a shift, it goes up by one per occupied slot in `[top, cap)`, and those slots are written in descending order. |
| `EntryMgr.InsertHaltKeepsPrefix` | tcam_entry_mgr.c:108-113 | When the shift scan fails at batch index `at`, the earlier entries stay in the table and the total, the table invariants hold, and the bank is untouched. |
| `EntryMgr.InsertKeepsSpareSlot` | tcam_entry_mgr.c:72-73 | Starting below `cap`, when `total + num` does not wrap, no insert brings the total to `cap`, and a successful one had `total + num < cap`. When the sum wraps (it then always lands below `cap`), the check passes although the batch is larger than the table, and the pass runs with its ordinary result. |
| `EntryMgr.FindId` | tcam_entry_mgr.c:191-196 | Returns the first slot holding the id, or reports that no slot holds it. |
| `EntryMgr.Remove` | tcam_entry_mgr.c:183-209 | A NULL table gives NULL_CACHE. A freed table gives EINVAL, because the search covers no slot. On a live table, EINVAL is returned exactly when no slot holds the id, and then nothing changes. Otherwise the first matching slot becomes `{0,0}`, the total drops by one, and exactly one write clears that cell's id in the bank. |
| `EntryMgr.RemoveKeepsInvariants` | tcam_entry_mgr.c:200-207 | Removing a non-zero id keeps the handler consistent and mirrored, and takes exactly the removed entry out of the occupied multiset. |
| `Hardened.InsertAtomic` | tcam_entry_mgr.c:35-38 | The corrected insert checks the capacity on the exact sum. It always returns, so it never reads or writes outside an array. It either succeeds or leaves the handler unchanged, and it returns only SUCCESS, TCAM_FULL or NULL_CACHE. |
| `Hardened.InsertAtomicAgrees` | tcam_entry_mgr.c:58-163 | Without wrap-around and with a non-negative total, the corrected insert equals the code as written on every non-empty successful call. On a non-empty batch under the same conditions, wherever the code stops part-way or reaches undefined behaviour, the corrected insert returns TCAM_FULL with no change. Both agree on a NULL table. When `total + num` reaches 2^32, the corrected insert refuses the batch. |
| `Hardened.AgreesWithoutWrap` | tcam_entry_mgr.c:72-136 | On a handle that is not NULL, with a non-negative total, a non-empty batch and no wrap-around: the corrected insert equals the code as written whenever the latter succeeds, and it returns TCAM_FULL with no change wherever the latter reports TCAM_FULL or reaches undefined behaviour. |
| `Hardened.PastCheckCompleted` | tcam_entry_mgr.c:129-162 | Past the capacity check, a pass that places the whole batch makes both inserts succeed with the same result. |
| `Hardened.PastCheckStopped` | tcam_entry_mgr.c:108-127 | Past the capacity check, a pass that halts or overruns leaves the code as written at TCAM_FULL or undefined, and the corrected insert at TCAM_FULL with no change. |
| `Hardened.InsertAtomicAllOrNothing` | tcam_entry_mgr.c:35-38 | From a consistent, mirrored handler, the corrected insert either adds the whole batch, keeping order, count and mirror, or changes nothing. An empty batch always changes nothing. |
| `Hardened.InsertAtomicKeepsSpareSlot` | tcam_entry_mgr.c:70-73 | For every batch size, the corrected insert never brings a total below `cap` up to `cap`, and a successful call had `total + num < cap`. |
| `Hardened.RemoveCheckedKeepsInvariants` | tcam_entry_mgr.c:183-209 | The corrected remove, which refuses id 0 on a live table (id 0 marks an empty slot, tcam_defs.h:53), keeps the handler consistent and mirrored for every id, 0 included. |
| `Hardened.RemoveZeroMiscounts` | tcam_entry_mgr.c:191-206 | As written, removing id 0 from a table with an empty slot reports SUCCESS and leaves the total one below the number of occupied slots. |
| `Hardened.DestroyClearingIsSafe` | tcam_entry_mgr.c:218-229 | Clearing destroy is idempotent and leaves a consistent, mirrored handler. Later inserts and removes report NULL_CACHE, and even the destroy as written returns SUCCESS on it. |
| `Scenarios.NullHandle` | tcam_mgr_main.c:42-83 | Insert and remove on a NULL table both report NULL_CACHE and change nothing. |
| `Scenarios.FullTable` | tcam_mgr_main.c:123-152 | With 2045 entries in a 2048-slot table, a batch of 5 is refused with TCAM_FULL and nothing changes. |
| `Scenarios.FirstBatch` | tcam_mgr_main.c:156-171 | The first batch of the insert test ends as ids 2, 1, 4, 3, 5 in slots 0-4, with total 5. |
| `Scenarios.InvalidIdRemove` | tcam_mgr_main.c:85-120 | The test's batch of three goes into an empty table as ids 1, 3, 2 with total 3. Removing id 10 then gives EINVAL and no change. |
| `Scenarios.DeleteEntries` | tcam_mgr_main.c:28-38 | Removing ids 1, 2 and 4 from the table the first batch leaves succeeds each time and leaves 3 and 5 in slots 3 and 4, with total 2. |
| `Scenarios.SecondBatch` | tcam_mgr_main.c:177-180 | On the handler those removals leave, the second batch ends as 7, 9, 8, 3, 10, 5, 6. The newer 8 and 10 come before the older 3 and 5 of equal priority. |
| `Scenarios.InsertTest1` | tcam_mgr_main.c:154-185 | The whole insert test (first batch, three removals, second batch) succeeds at every step and ends with the table of `SecondBatch` and total 7. |
| `Scenarios.PartialBatch` | tcam_entry_mgr.c:108-112 | On a 6-slot table with three entries, the shift-scan failure on the second entry keeps the first entry and a total of 4, and leaves the bank unchanged. |
| `Scenarios.AppendPastLastSlot` | tcam_entry_mgr.c:118-129 | On a 4-slot table whose last slot is occupied, appending after an occupied last slot targets index `cap` even though the capacity check passed. |
| `Scenarios.EmptyBatch` | tcam_entry_mgr.c:80-86 | On an empty 3-slot table, an empty batch reads `entries[0]`. |
| `Scenarios.WrappedBatch` | tcam_entry_mgr.c:72-73 | On a 2-slot table holding one entry, a batch of 2^32 - 1 entries wraps `total + num` to 0 and passes the check. The call places one entry, stops, and reports TCAM_FULL with the total equal to `cap`. The corrected insert refuses the batch with no change. |

## Left out

- `printf` logging and `print_tcam_cache`: diagnostic output only.
- The allocations in `tcam_init` and the frees in `tcam_cache_destroy`: only their state effects are modelled. An unchecked `calloc` failure is not.
- The `NULL` bank pointer left by `tcam_cache_destroy`: no call on the stale handle reaches `tcam_program` (insert stops at the capacity check, remove finds no slot), so the bank stays attached in the model.
- Overflow of the 64-bit `hw_access` counter and of the signed 32-bit total: the counter is an unbounded `nat`, and the total stays at or below `cap <= 2048` in every consistent state. A batch with id-0 entries does not fill the table, so more than 2^31 of them would overflow the C's `int32_t` loop index and total; the model's integers do not wrap there, and the insert lemmas require non-zero batch ids.
- `EntryMgr.InsertKeepsSpareSlot`: does not promise a free slot when `total + num` wraps around 2^32; `Scenarios.WrappedBatch` shows a call that fills the table.
- `EntryMgr.DestroyThenInit`: does not promise that destroy is idempotent, because a second destroy through the caller's stale handle is a double free (`EntryMgr.StaleHandle`).
- The `TCAM_ENTRY_SHIFT_*` policies (tcam_defs.h:58-63): the code never uses them, and it shifts only toward higher indices.
- The unused `hw_tcam_pos` and `tcam_cache_size` statics.
- `Remove`: the branch for a failed `tcam_program` is modelled but never taken, because the slot index is below `cap <= TCAM_MAX_ENTRIES`.
- `EntryMgr.Init`: requires `size <= TCAM_MAX_ENTRIES`, because `hw_tcam_init` zeroes `size` cells of a bank of that size.
- Id uniqueness (tcam_defs.h:53): `tcam_insert` does not check it. The insert lemmas assume only that batch ids are non-zero, and `Remove` acts on the first match.
- `CacheTable.PlaceLandsAtBoundary`: states the recency tie-break for one placement. For a whole batch it holds step by step, but no single lemma states it for the batch.
- `EntryMgr.InsertWrites`: describes the replay of a successful call only; a halted call issues no writes, which `EntryMgr.InsertHaltKeepsPrefix` states.
- `Scenarios.FirstBatch`, `Scenarios.SecondBatch`, `Scenarios.InsertTest1`, `Scenarios.InvalidIdRemove`: these use a 10-slot table rather than the 2048 slots the test driver uses (a 5-slot table for `InvalidIdRemove`). The placements do not depend on the slots above the occupied ones.

## Findings

| source | as written | input that shows it | evidently intended | confidence | as-written member | corrected member |
|---|---|---|---|---|---|---|
| tcam_entry_mgr.c:108-112 | When the shift scan fails mid-batch, the call returns TCAM_FULL. The entries placed before it stay in the table and the total, and none is programmed. | 6-slot table, slots 3-5 = {1,30},{2,40},{3,50}, total 3, batch {4,5},{5,40} | The insert succeeds entirely or inserts nothing (tcam_entry_mgr.c:38). | not executed | `Scenarios.PartialBatch` | `Hardened.InsertAtomicAllOrNothing` |
| tcam_entry_mgr.c:123-129 | When nothing blocks and the last slot is occupied, the append target is `cap`, and `tcam_cache[cap]` is written. | 4-slot table, slot 3 = {1,10}, total 1, batch {2,20} | Report a full table, with no write outside the table. | not executed | `Scenarios.AppendPastLastSlot` | `Hardened.InsertAtomic` |
| tcam_entry_mgr.c:80-86 | With `num == 0` on an empty table, `entries[0]` is read past the end of the batch (and copied into slot 0, with the total set to 1); the model treats that read as undefined behaviour. | empty 3-slot table, empty batch | An empty batch is a no-op. | not executed | `Scenarios.EmptyBatch` | `Hardened.InsertAtomicAllOrNothing` |
| tcam_entry_mgr.c:72 | `total + num` is computed in 32 bits and wraps, so a huge batch passes the capacity check. | 2-slot table, slot 1 = {1,10}, total 1, a batch of 2^32 - 1 copies of {2,5} | Refuse every batch with `total + num >= cap`, keeping one slot free. | not executed | `Scenarios.WrappedBatch` | `Hardened.InsertAtomicKeepsSpareSlot` |
| tcam_entry_mgr.c:218-222 | `tcam = NULL` clears only the parameter. The caller keeps the freed pointer, later calls see neither NULL nor a table, and a second destroy frees it again. | a live table, destroyed twice through the same handle | The caller's handle reads NULL after destroy. | not executed | `EntryMgr.StaleHandle` | `Hardened.DestroyClearingIsSafe` |
| tcam_entry_mgr.c:191-206 | `tcam_remove(0)` matches the first empty slot, reports SUCCESS and decrements the total. | a consistent table with an empty slot, id 0 | Id 0 marks an empty slot (tcam_defs.h:53) and is refused. | not executed | `Hardened.RemoveZeroMiscounts` | `Hardened.RemoveCheckedKeepsInvariants` |
