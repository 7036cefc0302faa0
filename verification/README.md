# Verified models of DOCA libraries

DOCA is NVIDIA's library set for programming BlueField data processing units.
This project models the parts of it whose headers fix behaviour tightly, and
the sample programs that drive them, and proves what they promise over all
inputs and all runs. `dafny verify dfyconfig.toml` checks everything.

- **Erasure coding.** `GaloisField` and `LinearAlgebra` give fields of
  characteristic 2 and Gaussian elimination; `ErasureCoding` the Cauchy and
  Vandermonde matrices and the create, update and recover matrices and tasks;
  `CodingGuarantees` what can be recovered; `StripeRuns` whole lives of a
  stripe with losses and repairs; `DecodeSample` the decode loop of the recover
  sample; `CodingTasks` the tasks on flat byte buffers; `Gf256` the field of
  bytes.
- **Doorbells.** `Doorbell` is the protocol between a host driver that writes
  doorbells and a DPA thread that runs the documented handler flow, as a state
  machine of interleaved steps; `DoorbellGuarantees` its guarantees over runs;
  `DoorbellHandler` the handler as a program with driver writes between any two
  calls.
- **Buffers.** `BufferChains`, `BufferStore` and `BufferCalls` model lists,
  reference counts, inventories and mbufs; `BufferGuarantees` and `BufferReferences`
  prove what every run keeps; `BufferEffects` says what each call does in the
  caller's terms; `BufferHeap` is the same library over descriptors linked by next
  pointers, proved to refine it call by call.
- **Contexts and tasks.** `Contexts` is the drawn state machine with task
  ownership, `ProgressEngine` the context under its progress engine, and
  `PollingSamples` the two sample programs that stop a context half-way and
  that resubmit tasks from the completion callback.
- **Buffer pool.** `BufferPool`: placement of aligned elements in a memory
  range, and their holders.
- **DPA buffer array.** `DpaBuffers`: packed structures in memory, reached
  through integer handles.

`Collections` and `DocaResult` hold notions that several of them share.

Findings:

- The decode loop of the recover sample puts lost redundancy blocks in the list
  of missing data blocks. `RecordedAreDataBlocks` and `Decode` say exactly when
  the sample still works: the first redundancy blocks, as many as data blocks
  are lost, must all be there. `RecordedListFails` is an input where it does not.
- The resubmit sample polls until all buffer pairs are accounted for, but every
  refused resubmission takes a task away. `Resubmit` and `ErrorsEndPolling` say
  exactly when the polling ends. With its 4 tasks and 16 pairs, and a context
  that is already stopping when the error callback runs, it ends only if the
  first 8 completions succeed (`ResubmitSample`, `FirstErrorHangs`).
- The asynchronous stop sample stops its context in the success callback of the
  middle completion only. That is enough for DMA, which stops on errors: with two
  tasks or more the context always stops. With a library that does not stop on
  errors it does not stop if the middle completion fails, as the sample's own
  comment warns. `AsyncStop` covers both.
- The Vandermonde type is documented as not always invertible.
  `VandermondeTwoLosses` gives the exact condition for two losses and
  `VandermondeLosesData` a case over bytes.

What the headers leave open is fixed as follows. The field of the coding
matrices is a parameter, any field of characteristic 2 with 256 codes; a coding
matrix is refused for more than 256 blocks, because there are no more codes. The
redundancy blocks that recovery uses are a parameter. Arming a doorbell or its
completion context is one-shot, both start out armed, and arming a context with
unread completions wakes the thread. A doorbell is destroyed only when it is
stopped, unbound and without outstanding completion, and not while the handler is
between arming and reading it. Driver and host make finitely many calls while the
handler runs. `doca_buf_chain_list` is called with two
different lists. A refused duplication or conversion changes nothing. A stopping
context goes idle when no task is in flight and the user has freed its tasks. A
context that errors stop is stopping before the error callback runs. The
elements of a pool are placed one after the other from the first aligned address.
Numbers in DPA memory are little-endian. I/O, clocks, device outcomes, driver
writes and the choices of allocators are parameters or arbitrary choices.

## Model

| member | source | states |
|---|---|---|
| `LinearAlgebra.SolveSound` | doca/include/doca_erasure_coding.h:1176-1202 | A combination of the rows found by elimination does combine to the target: the rows of a recover matrix are right. |
| `LinearAlgebra.SolveComplete` | doca/include/doca_erasure_coding.h:1176-1202 | Elimination finds a combination for every target if and only if the matrix is nonsingular, so a recover matrix is refused only when there is none. |
| `ErasureCoding.CauchyEntry` | doca/include/doca_erasure_coding.h:1068-1081 | Entry a_i_j of the created Cauchy matrix times x_i + y_j is one, for all counts up to 256 blocks. |
| `ErasureCoding.VandermondeEntry` | doca/include/doca_erasure_coding.h:1082-1093 | Column i of the created Vandermonde matrix starts with one and each further entry is i + 1 times the one before. |
| `ErasureCoding.UpdateEqualsReencode` | doca/include/doca_erasure_coding.h:580-623 | For every coding matrix (raw ones included) and every ascending list of updated blocks, the update task on old and new blocks and old redundancy gives the redundancy of the new data. |
| `ErasureCoding.RecoverInvertsEncode` | doca/include/doca_erasure_coding.h:814-859 | For every coding matrix and every ascending list of missing blocks: when a recover matrix exists, the recover task on the remaining data blocks and the chosen redundancy blocks returns exactly the missing blocks, in order. |
| `ErasureCoding.RecoverableIffNonsingular` | doca/include/doca_erasure_coding.h:1176-1202 | A recover matrix exists if and only if the sub-matrix of missing blocks and chosen redundancy blocks is nonsingular. |
| `ErasureCoding.SingularIsAmbiguous` | doca/include/doca_erasure_coding.h:1176-1202 | If that sub-matrix is singular, some other data has exactly the same available blocks, so that no recovery of any kind could be right. |
| `ErasureCoding.RemainingComplement` | doca/include/doca_erasure_coding.h:821-823 | The available data blocks are those not listed as missing. |
| `CodingGuarantees.CauchyNonsingular` | doca/include/doca_erasure_coding.h:1068-1081 | A Cauchy matrix over any distinct points annihilates only the zero vector, by induction on its size. |
| `CodingGuarantees.CauchySubMatrixInvertible` | doca/include/doca_erasure_coding.h:1068-1081 | Every square sub-matrix of the Cauchy coding matrix is invertible, for all counts up to 256 blocks. |
| `CodingGuarantees.CauchyRecoversEverything` | doca/include/doca_erasure_coding.h:814-859 | With the Cauchy type, every loss of at most as many data blocks as there are redundancy blocks is repaired exactly, whichever redundancy blocks are used. |
| `CodingGuarantees.VandermondeConsecutiveRecovers` | doca/include/doca_erasure_coding.h:1082-1093 | With the Vandermonde type a recover matrix exists for any missing blocks when consecutive redundancy blocks are used, the leading ones included. |
| `CodingGuarantees.VandermondeTwoLosses` | doca/include/doca_erasure_coding.h:1082-1093 | With the Vandermonde type two lost blocks can be recovered from two redundancy blocks if and only if the powers of the two points at the distance of the redundancy blocks differ. |
| `Gf256.InverseWorks` | doca/include/doca_erasure_coding.h:1138-1147 | In the byte field every nonzero byte times its computed inverse is one. |
| `Gf256.Gf256IsField` | doca/include/doca_erasure_coding.h:1138-1147 | Bytes with the polynomial x^8+x^4+x^3+x^2+1 are a field of characteristic 2 with 256 distinct codes, so all results above apply to them. |
| `Gf256.TimesX` | doca/include/doca_erasure_coding.h:1138-1147 | In that field multiplying a power of x by x gives the next one, and x^8 is 1 + x^2 + x^3 + x^4. |
| `Gf256.DigitsNumber` | doca/include/doca_erasure_coding.h:1068-1081 | The code of a number below 256, by which matrix entries are defined, is the byte with its binary digits. |
| `Gf256.VandermondeLosesData` | doca/include/doca_erasure_coding.h:1082-1093 | Concrete failure of the Vandermonde type over bytes: data blocks 0 and 213 cannot be recovered from redundancy blocks 0 and 3, at any matrix size that has them. |
| `StripeRuns.StripeStaysConsistent` | doca/include/doca_erasure_coding.h:1149-1202 | Over every run of losses with arbitrary damage, update, recover and create tasks, each data block that is not lost is what the user wrote and each redundancy block that is not lost is its encoding. |
| `StripeRuns.WrittenIsLast` | doca/include/doca_erasure_coding.h:580-623 | What the data is measured against holds, in each block, what the last rewrite naming the block wrote to it. |
| `StripeRuns.LoseDamages` | doca/include/doca_erasure_coding.h:814-859 | A loss replaces the contents of the blocks it names, data or redundancy, by anything. |
| `StripeRuns.LostOnlyByLoss` | doca/include/doca_erasure_coding.h:1149-1202 | Only losses, and tasks that read lost blocks, make blocks lost; any other task loses nothing, and what it wrote is not lost any more. |
| `StripeRuns.NothingLost` | doca/include/doca_erasure_coding.h:1149-1202 | After any run without losses the stripe is exactly the encoding of what was written. |
| `StripeRuns.RepairsIffNonsingular` | doca/include/doca_erasure_coding.h:814-859 | A recover task on blocks that are not lost restores the lost data blocks if and only if the sub-matrix is invertible, and otherwise changes nothing. |
| `StripeRuns.CauchyRunsHeal` | doca/include/doca_erasure_coding.h:1068-1081 | After every run on a Cauchy stripe with at most m blocks lost, one recover and one create task bring back all that was written and its redundancy. |
| `StripeRuns.UpdateOneRow` | doca/include/doca_erasure_coding.h:580-623 | The update law for a single redundancy block, when other redundancy blocks are damaged. |
| `DecodeSample.CollectSurvivors` | doca/samples/doca_erasure_coding/erasure_coding_recover/erasure_coding_recover_sample.c:794-837 | The decode loop succeeds exactly when k blocks are present and a data block is lost; then it has collected the first k present blocks and recorded the absent ones before them, and the record names data blocks only if and only if the first redundancy blocks are there. |
| `DecodeSample.CollectedLayout` | doca/samples/doca_erasure_coding/erasure_coding_recover/erasure_coding_recover_sample.c:794-837 | What the loop collects is the source layout of the recover task: surviving data blocks, then as many redundancy blocks as data blocks were lost. |
| `DecodeSample.AnySurvivorsSuffice` | doca/include/doca_erasure_coding.h:814-859 | For a Cauchy stripe any k of the k + m blocks suffice: a recover matrix asked for the lost data blocks exists and rebuilds them from the collected blocks. |
| `DecodeSample.RecordedAreDataBlocks` | doca/samples/doca_erasure_coding/erasure_coding_recover/erasure_coding_recover_sample.c:828-833 | The recorded list names data blocks only if and only if as many redundancy blocks as there are lost data blocks, counted from the first, are all present. |
| `DecodeSample.RecordedListFails` | doca/samples/doca_erasure_coding/erasure_coding_recover/erasure_coding_recover_sample.c:828-833 | A failing input: with blocks 0 and 2 of 2 + 2 lost, enough blocks are left but the recorded list is 0, 2. |
| `DecodeSample.Decode` | doca/samples/doca_erasure_coding/erasure_coding_recover/erasure_coding_recover_sample.c:794-889 | End to end, for both matrix types: the sample rebuilds the lost data blocks if and only if enough blocks are present, a data block is lost and the first redundancy blocks are there; and what it rebuilds is the lost data. |
| `CodingTasks.OutputElement` | doca/include/doca_erasure_coding.h:366-394 | The accumulation over the input blocks is the scalar product of a matrix row with the bytes at one position. |
| `CodingTasks.RunTask` | doca/include/doca_erasure_coding.h:366-394 | The task is done if and only if there are inputs and, for some b > 0, the source is one block of 64 * b bytes per input and the destination has room for one per output; otherwise INVALID_VALUE and nothing is touched. When done the destination holds the product of matrix and source blocks, and bytes beyond it are untouched. |
| `CodingTasks.FilledBlocks` | doca/include/doca_erasure_coding.h:366-394 | A flat buffer filled position by position holds the output blocks. |
| `CodingTasks.CreateThenRecover` | doca/include/doca_erasure_coding.h:366-394 | Running the create task on a flat buffer and then the recover task on the remaining blocks gives the bytes of the missing blocks, for every size the tasks accept. |
| `CodingTasks.CreateThenRecoverBytes` | doca/include/doca_erasure_coding.h:814-859 | The same over bytes. |
| `Doorbell.StepKeeps` | doca/include/doca_dpa_dev_devemu_pci.h:58-77 | Every step of driver, host or handler keeps: one outstanding completion per disarmed doorbell, no sleep on unread work, reads are current; and with the documented order every due write is covered. |
| `DoorbellGuarantees.ReachableIsSound` | doca/include/doca_dpa_dev_devemu_pci.h:58-77 | All of that holds in every reachable state, for both flows and any interleaving. |
| `DoorbellGuarantees.NoLostWakeup` | doca/include/doca_dpa_dev_devemu_pci.h:58-77 | When the handler sleeps and nothing will wake it, every write made while its doorbell was started and bound has been read or overtaken, and the last read value is the current one. |
| `DoorbellGuarantees.CompletionsAreUnique` | doca/include/doca_dpa_dev_devemu_pci.h:66-77 | In every reachable state a doorbell has at most one unacknowledged completion; collected doorbells are distinct; unacknowledged completions do not exceed the doorbells, nor these the maximum. |
| `DoorbellGuarantees.HandlerRests` | doca/include/doca_dpa_dev_devemu_pci.h:58-77 | From any sound state, once writes stop, the handler comes to rest after finitely many steps. |
| `DoorbellGuarantees.EveryWriteIsDelivered` | doca/include/doca_dpa_dev_devemu_pci.h:58-77 | After any run the handler alone reads every write that was due and comes to rest. |
| `DoorbellGuarantees.SwappedOrderLoses` | doca/include/doca_dpa_dev_devemu_pci.h:187-202 | With get_value before request_notification there is a run that rests on an unread write. |
| `DoorbellGuarantees.LosslessIffArmFirst` | doca/include/doca_dpa_dev_devemu_pci.h:73-77 | A flow is free of lost writes over all runs if and only if it requests notification before reading the value. |
| `DoorbellHandler.Device.CreateDb` | doca/include/doca_devemu_pci.h:693-728 | A doorbell is created unless it exists or the maximum is reached; it is stopped, unbound and armed. |
| `DoorbellHandler.Device.DestroyDb` | doca/include/doca_devemu_pci.h:730-743 | A doorbell is destroyed if and only if it is stopped, unbound, not in the completion queue and not in the hands of the handler. |
| `DoorbellHandler.Device.BindDb` | doca/include/doca_dpa_dev_devemu_pci.h:117-133 | Fails if there is no such doorbell; otherwise the next write to it rings if and only if it is started and armed. Values and reads stay, and so does what other doorbells do. |
| `DoorbellHandler.Device.UnbindDb` | doca/include/doca_dpa_dev_devemu_pci.h:135-152 | Fails if there is no such doorbell; no write to it rings afterwards, and nothing else changes for the caller. |
| `DoorbellHandler.Device.StartDb` | doca/include/doca_devemu_pci.h:760-773 | Fails if there is no such doorbell; otherwise the next write to it rings if and only if it is bound and armed, and its value is kept. |
| `DoorbellHandler.Device.StopDb` | doca/include/doca_devemu_pci.h:775-788 | Fails if there is no such doorbell; no write to it rings afterwards, and its value is kept. |
| `DoorbellHandler.Device.WriteDoorbell` | doca/include/doca_devemu_pci.h:790-805 | Stores the value; queues one completion, disarms and wakes a thread whose context is armed if and only if the doorbell is started, bound and armed; and changes nothing else. |
| `DoorbellHandler.Device.Interfere` | doca/include/doca_dpa_dev_devemu_pci.h:187-202 | Any calls of driver and host between two handler calls (writes, create, destroy, bind, unbind, start, stop) only extend the queue and leave the handler where it is and what it has read. |
| `DoorbellHandler.Device.GetDbCompletion` | doca/include/doca_dpa_dev_devemu_pci.h:52-87 | Takes the oldest completion if there is one, in first-in first-out order. |
| `DoorbellHandler.Device.AckCompletions` | doca/include/doca_dpa_dev_devemu_pci.h:89-102 | Acknowledging as many completions as were collected leaves none unacknowledged. |
| `DoorbellHandler.Device.RequestContextNotification` | doca/include/doca_dpa_dev_devemu_pci.h:104-115 | Arms the context, or wakes the thread at once when completions are unread. |
| `DoorbellHandler.Device.RequestDbNotification` | doca/include/doca_dpa_dev_devemu_pci.h:172-185 | Arms the doorbell and changes no other. |
| `DoorbellHandler.Device.GetValue` | doca/include/doca_dpa_dev_devemu_pci.h:187-202 | Returns the current value, after which every due write of the doorbell is seen. |
| `DoorbellHandler.Device.Collect` | doca/include/doca_dpa_dev_devemu_pci.h:67-70 | The polling loop ends however the driver writes, empties the queue, and what was queued at the start is collected first. |
| `DoorbellHandler.Device.ServeAll` | doca/include/doca_dpa_dev_devemu_pci.h:73-75 | Each collected doorbell that is not destroyed meanwhile is read at least as far as the writes due when serving began, and the values are those reads, in order. |
| `DoorbellHandler.Device.HandleCompletions` | doca/include/doca_dpa_dev_devemu_pci.h:66-75 | One activation with other calls at any point ends asleep, has collected distinct doorbells within the maximum, all queued ones first, has caught up with the writes due at its start and returns the values it read; if nobody else made a call it is not woken again. |
| `DoorbellHandler.Device.Settle` | doca/include/doca_dpa_dev_devemu_pci.h:58-77 | Run as long as something wakes it, the thread comes to rest once driver and host have made their calls, and then every due write has been read. |
| `DoorbellHandler.RingAndSettle` | doca/include/doca_dpa_dev_devemu_pci.h:58-77 | A client that sets up and writes a doorbell: the thread does run, ends at rest with nothing unread, and without further calls has read the written value. |
| `BufferChains.UnchainUndoesChain` | doca/include/doca_buf.h:384-458 | On the lists themselves, cutting where two lists were joined gives them back. |
| `BufferChains.ChainUndoesUnchain` | doca/include/doca_buf.h:384-458 | Joining the two parts of a cut list gives it back. |
| `BufferGuarantees.StepSound` | doca/include/doca_buf.h:74-114 | Every buffer, inventory and DPDK call keeps the whole store invariant. |
| `BufferGuarantees.RunShape` | doca/include/doca_buf.h:74-114 | After any run lists are disjoint and without repetition, only heads have a reference count, it is in 1..65535, and data windows stay inside their regions. |
| `BufferGuarantees.Conservation` | doca/include/doca_buf_inventory.h:283-318 | After any run the free and the live descriptors of an inventory add up to what it was created with, even when lists mix inventories, for as long as it is not destroyed. |
| `BufferGuarantees.LiveIsBacked` | doca/include/doca_buf_inventory.h:73-90 | However inventories and memory pools are destroyed in a run, every live descriptor belongs to an inventory that exists and refers to an mbuf of a memory pool that exists. |
| `BufferGuarantees.DestroyReportsUse` | doca/include/doca_buf_inventory.h:73-90 | Destroying an inventory reports IN_USE if and only if one of its descriptors is in a live list. |
| `BufferGuarantees.LastReferenceReturnsAll` | doca/include/doca_buf.h:94-114 | Dropping the last reference returns each descriptor of the list once to its own inventory and touches no other descriptor. |
| `BufferGuarantees.MbufAccounting` | doca/include/doca_dpdk.h:162-178 | After any run the library holds one reference on an mbuf per live descriptor on it, and destroying the memory pool reports IN_USE if and only if some descriptor is on one of its mbufs. |
| `BufferGuarantees.ChainThenUnchain` | doca/include/doca_buf.h:384-458 | Unchaining what was chained succeeds and restores the whole store; chaining adds the lengths. |
| `BufferGuarantees.UnchainThenChain` | doca/include/doca_buf.h:384-458 | Chaining back what was unchained succeeds and restores the whole store. |
| `BufferGuarantees.RunFrame` | doca/include/doca_buf_inventory.h:237-260 | A run of calls none of which is about a list leaves its descriptors, count and contents as they were. |
| `BufferGuarantees.DuplicateCopies` | doca/include/doca_buf_inventory.h:237-260 | A duplicate is a list of formerly free descriptors with the contents of the source and one reference; the source stays. |
| `BufferGuarantees.DuplicateIsIndependent` | doca/include/doca_buf_inventory.h:237-260 | Afterwards any run of calls that are not about one of the two lists leaves that one as it was. |
| `BufferReferences.ReferencesAddUp` | doca/include/doca_buf.h:74-114 | After any run the references on a list are those gained (creation, increase, separation) minus those given up (decrease, appending), and a list is alive if and only if some reference is left. |
| `BufferReferences.ReleaseUndoesTaking` | doca/include/doca_buf.h:94-114 | Giving up the only reference to what get, duplicate or convert has just made undoes the call: the whole store is as before, free descriptors and mbuf references included. |
| `BufferEffects.ConvertMakes` | doca/include/doca_dpdk.h:240-294 | Conversion makes one list of the segments in their order, each with its own window and mbuf, and adds one reference per segment to its mbuf. |
| `BufferEffects.DuplicateMakes` | doca/include/doca_buf_inventory.h:237-260 | Duplication makes one list, as long as the source, with the elements of the source in order. |
| `BufferEffects.DroppedGone` | doca/include/doca_buf.h:94-114 | Dropping the last reference takes the list and its contents away, frees each descriptor in its own inventory and gives back one reference per descriptor to its mbuf. |
| `BufferEffects.ChainJoins` | doca/include/doca_buf.h:384-420 | In any store, chaining makes list1 its elements followed by those of list2, and changes nothing but these lists and the count of list2. |
| `BufferEffects.UnchainParts` | doca/include/doca_buf.h:422-458 | In any store, unchaining cuts the list before list2, which heads the rest with one reference, and changes nothing else. |
| `BufferEffects.SetDataMoves` | doca/include/doca_buf.h:190-221 | In any store, setting data changes the data pointer and length of one descriptor to the given ones and nothing else. |
| `BufferHeap.Heap.GetNumFreeElements` | doca/include/doca_buf_inventory.h:301-318 | The length of the free list; with the live descriptors it adds up to all of the inventory. |
| `BufferHeap.Heap.IsFirstInList` | doca/include/doca_buf.h:336-349 | Agrees with the abstract list. |
| `BufferHeap.Heap.IsLastInList` | doca/include/doca_buf.h:321-334 | Agrees with the abstract list. |
| `BufferHeap.Heap.IsInList` | doca/include/doca_buf.h:351-364 | True exactly in lists of more than one element. |
| `BufferHeap.Heap.GetLastInList` | doca/include/doca_buf.h:304-319 | Following next pointers ends at the last element of the abstract list. |
| `BufferHeap.Heap.GetListLength` | doca/include/doca_buf.h:366-382 | Counts the abstract list from its head, and is refused elsewhere. |
| `BufferHeap.Heap.IncRefcount` | doca/include/doca_buf.h:74-92 | NOT_PERMITTED if and only if the buffer is not a head, TOO_BIG exactly at 65535; otherwise one more reference and no other change. Returns the previous count. |
| `BufferHeap.Heap.DecRefcount` | doca/include/doca_buf.h:94-114 | BAD_STATE if and only if the buffer is not live, NOT_PERMITTED if and only if it is live but no head. Otherwise one reference less; with the last one the list is gone, each descriptor is free in its own inventory, and each mbuf has lost one reference per descriptor on it. |
| `BufferHeap.Heap.ChainList` | doca/include/doca_buf.h:384-420 | NOT_PERMITTED if and only if list2 has not exactly one reference; otherwise list1 is its elements followed by those of list2, list2 is no list any more, and nothing else changes. |
| `BufferHeap.Heap.UnchainList` | doca/include/doca_buf.h:422-458 | INVALID_VALUE unless list2 comes after list1 in one list; otherwise that list ends before list2, which heads the rest with one reference, and nothing else changes. |
| `BufferHeap.Heap.SetBufData` | doca/include/doca_buf.h:190-221 | The data pointer and length of one descriptor become the given ones; its region and mbuf, all other descriptors and the rest of the store stay. |
| `BufferHeap.Heap.StartInventory` | doca/include/doca_buf_inventory.h:92-114 | The inventory is started, and nothing else changes. |
| `BufferHeap.Heap.StopInventory` | doca/include/doca_buf_inventory.h:116-132 | The inventory is stopped, and nothing else changes; live descriptors stay. |
| `BufferHeap.Heap.DestroyInv` | doca/include/doca_buf_inventory.h:73-90 | IN_USE if and only if a descriptor of the inventory is live; otherwise the inventory and its descriptors are gone and everything else stays. |
| `BufferHeap.Heap.DestroyPool` | doca/include/doca_dpdk.h:162-178 | IN_USE if and only if a descriptor is on one of the pool's mbufs; otherwise the pool is gone and mbufs are not affected. |
| `BufferHeap.Heap.RetainMbuf` | doca/include/doca_dpdk.h:240-253 | A user outside the library gets one reference to the mbuf, counted apart from those of descriptors; nothing else changes. |
| `BufferHeap.Heap.ReleaseMbuf` | doca/include/doca_dpdk.h:240-253 | A user outside the library gives one reference back; nothing else changes. |
| `BufferHeap.Heap.GetByArgs` | doca/include/doca_buf_inventory.h:138-173 | BAD_STATE if and only if not started, else NO_MEMORY if and only if nothing is free; otherwise one more list of one formerly free descriptor with the window asked for and one reference. |
| `BufferHeap.Heap.GetByAddr` | doca/include/doca_buf_inventory.h:197-204 | As with all arguments, with an empty data window at the start of the region. |
| `BufferHeap.Heap.GetByData` | doca/include/doca_buf_inventory.h:228-235 | As with all arguments, with the whole region as data window. |
| `BufferHeap.Heap.BufDup` | doca/include/doca_buf_inventory.h:237-260 | BAD_STATE, NOT_PERMITTED and NO_MEMORY under their exact conditions, and then nothing changes; otherwise one more list of formerly free descriptors, as long as the source, with its elements in order. |
| `BufferHeap.Heap.MbufToBuf` | doca/include/doca_dpdk.h:240-294 | INVALID_VALUE if and only if some segment is not of the memory pool, else NO_MEMORY if and only if fewer descriptors are free than there are segments, and then nothing changes; otherwise one more list with the segments in their order, one reference, and each mbuf's count grown by the number of segments on it. |
| `BufferHeap.DuplicateAndRelease` | doca/include/doca_buf_inventory.h:207-260 | A client that takes, duplicates and releases a buffer: every call succeeds and the heap ends as it was. |
| `BufferHeap.DuplicateFromScratch` | doca/include/doca_buf_inventory.h:55-71 | The same on a newly created heap with one inventory of two descriptors, both free at the end. |
| `BufferHeap.StoppedRefuses` | doca/include/doca_buf_inventory.h:116-132 | A client: after stop, get and duplicate are refused with BAD_STATE and no descriptor changes. |
| `Contexts.StepSound` | doca/include/doca_dma.h:52-75 | Every event keeps: each allocated task has one owner, tasks are within the configured number, none outlives the context. |
| `Contexts.WithinConfigured` | doca/include/doca_dma.h:202-250 | After any run there are at most as many tasks as the last configuration made while idle asked for; and a running context refuses allocation with NO_MEMORY if and only if there are as many. |
| `Contexts.RunFollowsDrawing` | doca/include/doca_ctx.h:45-106 | The states reported over any run form a path along the drawn edges that ends in the current state. |
| `Contexts.SubmissionsComplete` | doca/include/doca_dma.h:52-75 | At every point of every run each task has completed once per submission, save the one in flight; when idle, exactly once per submission. |
| `Contexts.InFlightCount` | doca/include/doca_ctx.h:179-195 | The number in flight is submissions minus completions. |
| `Contexts.NothingEntersWhileStopping` | doca/include/doca_ctx.h:92-106 | After stop nothing is submitted or allocated until idle, so each completion lowers the number in flight by one. |
| `Contexts.StopDrainsExactly` | doca/include/doca_ctx.h:157-177 | A stopped context is idle after exactly as many completions as tasks were in flight, one for each, and with every task freed. |
| `Contexts.StopReachesIdle` | doca/include/doca_ctx.h:98-105 | Every stopping context can be taken to idle by progress, in exactly as many completions as tasks were in flight. |
| `Contexts.EveryDrainEnds` | doca/include/doca_ctx.h:98-105 | However completions and frees interleave, a stopping context is idle after a fixed number of them and not before, with as many completions as tasks were in flight. |
| `Contexts.IdleAfterLastCompletion` | doca/include/doca_ctx.h:157-177 | After any run while stopping, the next progress gives idle if and only if as many completions were seen as tasks were in flight and the user has freed all tasks. |
| `ProgressEngine.Engine.StartCtx` | doca/include/doca_ctx.h:127-155 | From idle: running and success, or starting and IN_PROGRESS in the background; refused elsewhere. |
| `ProgressEngine.Engine.StopCtx` | doca/include/doca_ctx.h:157-177 | Idle and success if and only if no task is allocated, which the counter of used slots tells; otherwise stopping and IN_PROGRESS. |
| `ProgressEngine.Engine.AllocTask` | doca/include/doca_dma.h:226-250 | BAD_STATE if and only if not running, NO_MEMORY if and only if running with as many tasks as slots; otherwise a task that was nobody's is the user's. |
| `ProgressEngine.Engine.SubmitTask` | doca/include/doca_pe.h:251-268 | Ownership of the slot passes to the library if the context runs and the task is valid, and stays with the user otherwise. |
| `ProgressEngine.Engine.FreeTask` | doca/include/doca_pe.h:331-343 | The slot of a task that is not submitted is unused again. |
| `ProgressEngine.Engine.SetNumTasks` | doca/include/doca_dma.h:202-224 | Done if and only if the context is idle, and then exactly the given number of tasks is configured, with none held or in flight. |
| `ProgressEngine.Engine.GetNumInflightTasks` | doca/include/doca_ctx.h:179-195 | The counter is the number of tasks the library owns. |
| `ProgressEngine.Engine.ProgressOnce` | doca/include/doca_pe.h:122-137 | If a task is in flight, one completes and is the user's again, an error stopping a context that errors stop; else a starting context is running, or a stopping one without tasks idle; else nothing happens. |
| `PollingSamples.AllocateTasks` | doca/samples/doca_common/pe_common.c:143-187 | All configured tasks are allocated, pairwise different. |
| `PollingSamples.ExhaustTasks` | doca/include/doca_dma.h:202-250 | A client that configures n tasks allocates exactly n different ones and is then refused with NO_MEMORY. |
| `PollingSamples.SubmitTasks` | doca/samples/doca_common/pe_common.c:199-208 | All of them are in flight afterwards and none is kept. |
| `PollingSamples.PollForStop` | doca/samples/doca_common/pe_async_stop/pe_async_stop_sample.c:248-252 | One more progress call ends the stop exactly when the context was told to stop. |
| `PollingSamples.AsyncStop` | doca/samples/doca_common/pe_async_stop/pe_async_stop_sample.c:79-149 | For every number of tasks and all outcomes: the context stops if and only if completion n/2 succeeds or there is an error and errors stop the context; with two or more tasks and errors that stop the context it always does. |
| `PollingSamples.Resubmit` | doca/samples/doca_common/pe_task_resubmit/pe_task_resubmit_sample.c:86-168 | For all outcomes: polling ends if and only if fewer than n of the resubmissions before the last are refused; every buffer pair that was used is released exactly once and no other ever; and if polling does not end, it is stuck where n resubmissions have been refused. |
| `PollingSamples.ErrorsEndPolling` | doca/samples/doca_common/pe_task_resubmit/pe_task_resubmit_sample.c:86-168 | Where errors stop the context, as for DMA, that means: if and only if none but the last 2n completions fails. |
| `PollingSamples.ResubmitSample` | doca/samples/doca_common/pe_task_resubmit/pe_task_resubmit_sample.c:57-58 | With the sample's 4 tasks and 16 pairs polling ends if and only if the first 8 completions succeed. |
| `PollingSamples.FirstErrorHangs` | doca/samples/doca_common/pe_task_resubmit/pe_task_resubmit_sample.c:86-112 | If the first completion fails, the counter stops at 8 of 16. |
| `BufferPool.PlacedWell` | doca/include/doca_buf_pool.h:108-136 | In an accepted range all elements are aligned, inside and disjoint. |
| `BufferPool.FitsIffPlaceable` | doca/include/doca_buf_pool.h:108-136 | A range is accepted if and only if there is any way at all to place that many aligned, disjoint elements in it. |
| `BufferPool.OneHolder` | doca/include/doca_buf_pool.h:158-178 | After any run of calls every byte has at most one holder and held bytes are in the range. |
| `BufferPool.ReferencesAddUp` | doca/include/doca_buf_pool.h:158-161 | After any run an element is out if and only if more references to it were handed out than given back. |
| `BufferPool.HeldStaysPut` | doca/include/doca_buf_pool.h:190-206 | While an element is held its address cannot change, because the alignment cannot. |
| `BufferPool.FreeListLength` | doca/include/doca_buf_pool.h:222-236 | Free elements and elements that are out add up to all. |
| `BufferPool.CreatePool` | doca/include/doca_buf_pool.h:64-86 | INVALID_VALUE exactly for no elements or empty ones; otherwise a stopped pool with all elements free and alignment 1. |
| `BufferPool.BufPool.SetElementAlignment` | doca/include/doca_buf_pool.h:190-206 | BAD_STATE while started, INVALID_VALUE unless some 2^k; otherwise every element lies at a multiple of the alignment, and nobody holds one that could have moved. |
| `BufferPool.BufPool.StartPool` | doca/include/doca_buf_pool.h:108-136 | Done if and only if the memory map is started and the elements can be placed in it in some way; INITIALIZATION if they cannot. |
| `BufferPool.BufPool.StopPool` | doca/include/doca_buf_pool.h:138-156 | IN_USE if and only if some element is out, as the free list tells; otherwise stopped. |
| `BufferPool.BufPool.BufAlloc` | doca/include/doca_buf_pool.h:158-178 | BAD_STATE unless started, EMPTY if and only if every element is out; otherwise an element nobody held, with one reference. |
| `BufferPool.BufPool.IncRefcount` | doca/include/doca_buf.h:74-92 | Returns the previous count; TOO_BIG exactly at 65535, and one more otherwise. |
| `BufferPool.BufPool.DecRefcount` | doca/include/doca_buf_pool.h:158-161 | Returns the previous count; the element is free again if and only if that was the last reference. |
| `DpaBuffers.DecodeEncode` | doca/include/doca_dpa_dev_buf.h:52-57 | Reading back a stored number of the field's width gives the number. |
| `DpaBuffers.DecodeMore` | doca/include/doca_dpa_dev_buf.h:52-57 | Numbers are little-endian: a further byte counts 256 to the number of bytes before it. |
| `DpaBuffers.HandleIsAddress` | doca/include/doca_dpa_dev_buf.h:79-86 | The handle of a buffer in the array is its address; the 64-bit sum does not wrap. |
| `DpaBuffers.StepWrites` | doca/include/doca_dpa_dev_buf.h:97-129 | A setter changes its field of its buffer and no other field of any buffer. |
| `DpaBuffers.HandlesStay` | doca/include/doca_dpa_dev_buf.h:79-86 | No run of setters changes a handle. |
| `DpaBuffers.ReadsBackLast` | doca/include/doca_dpa_dev_buf.h:97-170 | After any run of setters each field of each buffer reads back the last value written to it. |
| `DpaBuffers.OtherBytesStay` | doca/include/doca_dpa_dev_buf.h:52-57 | Every byte outside the written fields stays, the reserved ones included. |
| `DpaBuffers.Device.ArrayGetBuf` | doca/include/doca_dpa_dev_buf.h:79-86 | The handle is the number in the first eight bytes of the array structure plus 32 bytes per buffer. |
| `DpaBuffers.Device.SetField` | doca/include/doca_dpa_dev_buf.h:97-129 | Writes bytes 0 to 7 of the buffer for the address, 8 to 15 for the length, 16 to 19 for the mmap; these then stand for the value, and every other byte of memory stays. |
| `DpaBuffers.Device.GetField` | doca/include/doca_dpa_dev_buf.h:138-170 | Reads the address from bytes 0 to 7 of the buffer, the length from bytes 8 to 15 and the mmap from bytes 16 to 19. |

## Left out

- Hardware codecs and ciphers (AES-GCM, deflate, LZ4, checksums): the headers declare only task plumbing.
- Device discovery, capability queries, representors, argument parsing, logging, App Shield: I/O and lookups.
- Ethernet, RDMA, comm channel, flow and connection tracking libraries: their behaviour is in hardware or in code that is not there.
- Hotplug and DPA object state machines, BAR and PCI identity configuration: they would only add easy members.
- NULL arguments and failures inside the library or the operating system.
- Memory ordering between driver, device and DPA threads: API calls are atomic steps.
- Task graphs, batches and events of the progress engine: the model has single tasks of one kind in one context.
- Memory maps: the check that a buffer lies in a memory map, their start and stop, and permissions are not modelled.
- Indirect mbufs: a segment is given with its direct mbuf.
- `doca_buf_set_data_len` and `doca_buf_reset_data_len`: special cases of setting the data window.
- CodingTasks.RunTask: the task allocation limit and asynchronous completion are not part of it; the result is what a completed task leaves.
- StripeRuns.StripeStaysConsistent: the `lost` set is an upper bound; a block counts as lost when a task wrote it from lost blocks, even if it happens to be right.
- CodingTasks.RunTask: source and destination are assumed to be different buffers.
- DecodeSample.CollectSurvivors: reading files is modelled as a list of which blocks are present; the check that blocks have one size divisible by 64 is not modelled.
- Gf256.Gf256IsField: the polynomial is a choice, the headers do not name one.
- DoorbellHandler.Device.WriteDoorbell: values are unbounded numbers, not 32-bit words; nothing depends on their width.
- DoorbellHandler.Device.DestroyDb: refuses a stopped doorbell that is still bound or outstanding, which the header leaves to the caller; what a completion of a destroyed doorbell would do is not documented.
- BufferHeap.Heap.GetByArgs: INVALID_VALUE for an address outside the memory map is not modelled, because memory maps are not.
- BufferHeap.Heap.GetByArgs: answers BAD_STATE for an inventory that is not started, where the header only demands that it is.
- BufferHeap.Heap.BufDup: the order in which its errors are reported is a choice; the state of the source's memory map is not modelled.
- ProgressEngine.Engine.StartCtx: configuration errors (no device, not connected) are not modelled.
- ProgressEngine.Engine.ProgressOnce: partial completions and calls that find nothing to report yet are not modelled; a call reports something whenever there is something to report.
- PollingSamples.AsyncStop: comparing the copied data and releasing its buffers is not modelled.
- PollingSamples.Resubmit: comparing the copied data is not modelled.
- DpaBuffers.Device.SetField: the obtained pointer to external memory is not modelled.
