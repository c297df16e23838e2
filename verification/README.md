# GPON ONU: models and proofs

A Dafny model of the parts of this repository that carry state and protocol
logic: the OMCI daemon (`omcid`, with its API library) and the PLOAM state
machine of the GPON kernel driver. Each module follows one component.

| module | component |
|---|---|
| `Mapper` | id/index mapper: items on two sorted linked threads, refining a partial bijection |
| `MeClass`, `MeData`, `MeGet` | attribute layout, scatter/gather, the Set and Get actions |
| `MibUpload` | the greedy packer that turns the MIB into upload messages, and its decoder |
| `TableCopy` | table snapshots, Get-next pieces, eviction and clean timeouts |
| `MibStore` | class array and instance lists, refining a finite map |
| `MibSync` | MIB data sync counter, reset and upload snapshots |
| `Pm`, `PmMe` | performance-monitoring counters, buffers and threshold alerts |
| `ActionProtocol` | core thread and action thread with the retransmission cache |
| `RwLock`, `RecursiveLock` | the generic reader-writer and recursive locks |
| `DList`, `TimeoutQueue` | the circular list and the timeout queue on it |
| `Ploam` | ONU activation states O1 to O7 |
| `Folds`, `Crc32`, `Crc32Burst`, `Crc32Trailer` | the table-driven I.363.5 CRC-32, the errors it detects, messages followed by it |

`dafny verify dfyconfig.toml` checks all of it.

## How it is modelled

- Objects that the code updates in place are classes; lists with pointers in
  `Mapper` and `DList` are heap nodes with a ghost sequence that says what they
  hold. Other lists and buffers are `seq` fields. Attribute masks are sets of
  attribute numbers 1..16.
- Protocols between threads are state machines with one step per critical
  section; runs are sequences of states.
- Handlers, hardware readings, the clock and event waits are parameters or
  nondeterministic steps.
- A managed entity class is well formed when attribute offsets are the prefix
  sums of the sizes; `mib_create` checks the bounds and the sum, and
  `me_data_read` relies on the rest.

## What the proofs found

- `mib_copy` skips an attribute of more than 26 bytes only while the current
  message is empty; after a smaller attribute it overflows the 26-byte buffer
  (`MibUpload.OversizeOverflows`, exact condition `MibUpload.FittingExactly`).
- `mib_reset` clears the data sync after the entity holding it has been
  destroyed, so the clear always fails; the counter is 0 only because the reset
  handler creates the entity anew (`MibSync.Sync.ResetMib`).
- After a reset whose snapshot has timed out, a MIB upload fails until something
  changes or a reset is repeated (`MibSync.UploadFailsAfterTimeout`, exact
  condition `MibSync.EmptyUploadExactly`).
- Entities the ONU creates, deletes or writes by itself, and attributes with a
  get handler, do not touch the data sync. While it is 0 an upload sends the
  snapshot of the reset and misses them (`MibSync.StaleUpload`, exact condition
  `MibSync.StaleExactly`).
- Get never reports unsupported optional attributes: the branch that would do so
  comes after the test that already refused them. Attributes behind the one that
  overflows the answer are not checked at all (`MeGet.Get`).
- The core thread drops a request that arrives while an action runs, resending
  the busy response of that action, and one that uncovers a late acknowledged
  result (`ActionProtocol.LostToRunning`, `ActionProtocol.LostToResult`, exact
  condition `ActionProtocol.UnansweredExactly`).
- `generic_recursive_lock_release` by a thread that does not own the lock keeps
  the inner lock for ever (`RecursiveLock.StrangerSticks`, exact condition
  `RecursiveLock.StuckExactly`).
- A thread that takes the read lock again while a writer is pending deadlocks
  with it (`RwLock.NestedReadDeadlocks`, exact condition `RwLock.StuckExactly`).
- A timeout event that is removed while its handler is running, or about to run,
  is handled all the same (`TimeoutQueue.RemovedFiresExactly`).
- An Assign_ONU-ID is accepted in every state, so the driver can reach O5 with
  the laser never armed (`Ploam.OperationWithoutLaser`, exact condition
  `Ploam.LaserExactly`); O7 is not sticky (`Ploam.EmergencyStopLasts`).
- The sixth table read within a minute always evicts the copy in the first slot
  (`TableCopy.SixthEvicts`, exact condition `TableCopy.StepExactly`).

## Model

| member | source | states |
|---|---|---|
| `Mapper.Mapper.Bijection` | package/network/services/omcid/src/gpon_omci_api-4.5.0/src/omci_api_mapper.c:583-738 | the pairs of a valid mapper form a partial bijection within the key ranges: an id has at most one index and an index at most one id |
| `Mapper.Mapper.Walk` | package/network/services/omcid/src/gpon_omci_api-4.5.0/src/omci_api_mapper.c:698-738 | the walk stops at the position where the key is, or where it would keep the thread sorted, and finds the key exactly when it is mapped |
| `Mapper.Mapper.ItemFind` | package/network/services/omcid/src/gpon_omci_api-4.5.0/src/omci_api_mapper.c:698-738 | success exactly when the key is in range and mapped, together with the predecessor to relink at |
| `Mapper.Mapper.ItemGet` | package/network/services/omcid/src/gpon_omci_api-4.5.0/src/omci_api_mapper.c:665-684 | the item behind a position |
| `Mapper.Mapper.FirstGap` | package/network/services/omcid/src/gpon_omci_api-4.5.0/src/omci_api_mapper.c:770-813 | the walk for a free key: smallest key of the range not in use and where it belongs, without 32-bit wrap-around |
| `Mapper.Mapper.FreeKeyFind` | package/network/services/omcid/src/gpon_omci_api-4.5.0/src/omci_api_mapper.c:770-813 | the smallest unmapped key of the range and the sorted position for it; not found exactly when every key in the range is mapped |
| `Mapper.Mapper.Link` | package/network/services/omcid/src/gpon_omci_api-4.5.0/src/omci_api_mapper.c:583-608 | relinking one next pointer inserts the item at that position of one thread and leaves the other thread alone |
| `Mapper.Mapper.Unlink` | package/network/services/omcid/src/gpon_omci_api-4.5.0/src/omci_api_mapper.c:623-653 | relinking one next pointer removes exactly the item at that position of one thread |
| `Mapper.Mapper.ItemAdd` | package/network/services/omcid/src/gpon_omci_api-4.5.0/src/omci_api_mapper.c:583-608 | both threads hold the new item, sorted; the map grows by exactly its pair |
| `Mapper.Mapper.ItemRemove` | package/network/services/omcid/src/gpon_omci_api-4.5.0/src/omci_api_mapper.c:623-653 | both unlinks hit the same item; the map loses exactly its pair |
| `Mapper.Mapper.ExplicitMap` | package/network/services/omcid/src/gpon_omci_api-4.5.0/src/omci_api_mapper.c:948-996 | success exactly when both keys are in range and unused; only the new pair is added |
| `Mapper.Mapper.IdMap` | package/network/services/omcid/src/gpon_omci_api-4.5.0/src/omci_api_mapper.c:998-1039 | success exactly when the id is in range and unmapped and an index is left; the index is the lowest free one |
| `Mapper.Mapper.IndexMap` | package/network/services/omcid/src/gpon_omci_api-4.5.0/src/omci_api_mapper.c:1041-1083 | the same from index to id |
| `Mapper.Mapper.IndexGet` | package/network/services/omcid/src/gpon_omci_api-4.5.0/src/omci_api_mapper.c:1085-1126 | the index of an id, exactly when the id is mapped |
| `Mapper.Mapper.IdGet` | package/network/services/omcid/src/gpon_omci_api-4.5.0/src/omci_api_mapper.c:1128-1170 | the id of an index, exactly when the index is mapped |
| `Mapper.Mapper.IndexMapOrGet` | package/network/services/omcid/src/gpon_omci_api-4.5.0/src/omci_api_mapper.c:1172-1183 | an existing index, or else the lowest free one; success exactly when the id is in range and mapped already or an index is left |
| `Mapper.Mapper.IdRemove` | package/network/services/omcid/src/gpon_omci_api-4.5.0/src/omci_api_mapper.c:1288-1349 | removes exactly the pair of the id, from both threads |
| `Mapper.Mapper.IndexRemove` | package/network/services/omcid/src/gpon_omci_api-4.5.0/src/omci_api_mapper.c:1351-1411 | removes exactly the pair of the index, from both threads |
| `Mapper.Mapper.Shutdown` | package/network/services/omcid/src/gpon_omci_api-4.5.0/src/omci_api_mapper.c:898-946 | terminates with both threads empty, because removing the head of one thread removes it from the other |
| `Mapper.GetsAreInverse` | package/network/services/omcid/src/gpon_omci_api-4.5.0/src/omci_api_mapper.c:1085-1170 | index_get and id_get are mutual inverses |
| `Mapper.StepKeepsSound` | package/network/services/omcid/src/gpon_omci_api-4.5.0/src/omci_api_mapper.c:948-1411 | every call keeps the abstract map a bijection within the ranges and adds or removes at most one pair, one with the key the call names |
| `Mapper.RunsStaySound` | package/network/services/omcid/src/gpon_omci_api-4.5.0/src/omci_api_mapper.c:948-1411 | so does every run of map, explicit map, remove and reset calls |
| `Mapper.Perform` | package/network/services/omcid/src/gpon_omci_api-4.5.0/src/omci_api_mapper.c:898-1411 | the pointer structure performs exactly the abstract step of each call |
| `MeClass.SlicesDetermine` | package/network/services/omcid/src/gpon_omci_onu-4.5.0/src/omci_mib.c:860-892 | with packed offsets that add up to the data size, a block is determined by its attributes |
| `MeClass.PutSlice` | package/network/services/omcid/src/gpon_omci_onu-4.5.0/src/omci_me.c:305-345 | copying one attribute into the block changes that attribute and no other |
| `MeClass.UnpackValues` | package/network/services/omcid/src/gpon_omci_onu-4.5.0/src/omci_mib.c:214-243 | cutting concatenated values by mask and sizes gives back every attribute |
| `MeData.Fetch` | package/network/services/omcid/src/gpon_omci_onu-4.5.0/src/omci_me.c:269-353 | a fetch overlays exactly the masked attributes, taking each from its packed position or its get handler; it stops at the first that does not fit or whose handler fails |
| `MeData.Read` | package/network/services/omcid/src/gpon_omci_onu-4.5.0/src/omci_me.c:27-62 | a read shows the stored value of every supported attribute without a get handler, succeeds exactly when the handler of every supported attribute that has one delivers, and then shows what the handlers delivered |
| `MeData.SupportedExactly` | package/network/services/omcid/src/gpon_omci_onu-4.5.0/src/omci_me.c:27-62 | the masks of a read are exactly the attributes with some property that are not marked unsupported |
| `MeData.IsDataUpdated` | package/network/services/omcid/src/gpon_omci_onu-4.5.0/src/omci_me.c:692-752 | true exactly when the entity is not initialised, a masked attribute differs or a masked attribute is a table; with a mask, exactly the changed attributes are added |
| `MeData.FetchableExactly` | package/network/services/omcid/src/gpon_omci_onu-4.5.0/src/omci_me_handlers.c:201-212 | a Set can be fetched exactly when its values fit 30 bytes in total and no handler involved fails |
| `MeData.SettableExactly` | package/network/services/omcid/src/gpon_omci_onu-4.5.0/src/omci_me_handlers.c:128-200 | the three mask tests of Set pass exactly when every requested attribute is writable and supported |
| `MeData.WireRoundTrip` | package/network/services/omcid/src/gpon_omci_onu-4.5.0/src/omci_me.c:269-353 | what a sender packs in attribute order is what a fetch of the same mask finds for each attribute |
| `MeData.ManagedEntity.Set` | package/network/services/omcid/src/gpon_omci_onu-4.5.0/src/omci_me_handlers.c:128-330 | Set is atomic: it succeeds exactly when every requested attribute is writable and supported, the values fit, and the result is valid and accepted; then the data is the old data overlaid with the requested attributes, otherwise it is unchanged; error masks as sent |
| `MeData.ManagedEntity.SetAndRead` | package/network/services/omcid/src/gpon_omci_onu-4.5.0/src/omci_me_handlers.c:128-330 | a read after a Set shows the values just set, and every other stored attribute as before |
| `MeData.ManagedEntity.SetTwice` | package/network/services/omcid/src/gpon_omci_onu-4.5.0/src/omci_me_handlers.c:128-330 | after two Sets each stored attribute has the value of the last successful request for it, else its old one |
| `MeData.OverlaidUnique` | package/network/services/omcid/src/gpon_omci_onu-4.5.0/src/omci_me.c:269-353 | the overlay is unique, so the contract of Set fixes the whole block |
| `MeGet.ReadAttr` | package/network/services/omcid/src/gpon_omci_onu-4.5.0/src/omci_me.c:388-417 | one attribute out of a read of the whole entity |
| `MeGet.ScanOne` | package/network/services/omcid/src/gpon_omci_onu-4.5.0/src/omci_me_handlers.c:375-563 | one attribute of the Get loop: skipped, refused, diverted to a table, stopping the scan or gathered; the unsupported-attribute branch is never taken |
| `MeGet.Get` | package/network/services/omcid/src/gpon_omci_onu-4.5.0/src/omci_me_handlers.c:332-593 | over the class fields: the answer is a table read of i exactly when the scan reaches a requested readable supported i that is a table or larger than 25 bytes; it stops where 25 bytes are exceeded; before that point undefined attributes give a command error, else undeliverable ones attribute failed with exactly their mask, else the mask is exactly the request below the stop; the optional mask is always empty |
| `MeGet.ValuesExactly` | package/network/services/omcid/src/gpon_omci_onu-4.5.0/src/omci_me_handlers.c:526-563 | cutting the answer by mask and sizes gives the stored value of every attribute without a get handler and the handler's value of every other one |
| `MeGet.LongestPrefix` | package/network/services/omcid/src/gpon_omci_onu-4.5.0/src/omci_me_handlers.c:526-563 | for a request over existing, readable, non-table attributes of at most 25 bytes the answer is the longest prefix that fits, and never empty |
| `MeGet.Ask` | package/network/services/omcid/src/gpon_omci_onu-4.5.0/src/omci_me_handlers.c:332-593 | one round of such a request delivers at least one attribute, as a read shows it |
| `MeGet.GetAll` | package/network/services/omcid/src/gpon_omci_onu-4.5.0/src/omci_me_handlers.c:526-563 | asking again for the rest makes progress each round, ends, and the pieces are exactly the requested attributes, with stored values or what the get handlers delivered |
| `MibUpload.BlocksPartition` | package/network/services/omcid/src/gpon_omci_onu-4.5.0/src/omci_mib.c:145-244 | the entries of an entity hold its packed attributes each once and in order |
| `MibUpload.BlocksNoneEmpty` | package/network/services/omcid/src/gpon_omci_onu-4.5.0/src/omci_mib.c:179-212 | no entry of an entity with packed attributes is empty |
| `MibUpload.FitsExactly` | package/network/services/omcid/src/gpon_omci_onu-4.5.0/src/omci_mib.c:173-182 | every entry fits 26 bytes exactly when no attribute of more than 26 bytes comes after one of 1 to 26 bytes |
| `MibUpload.OversizeOverflows` | package/network/services/omcid/src/gpon_omci_onu-4.5.0/src/omci_mib.c:173-178 | the guard is missed in a well-formed class whose uploadable attributes have 1 and then 27 bytes |
| `MibUpload.FittingExactly` | package/network/services/omcid/src/gpon_omci_onu-4.5.0/src/omci_mib.c:145-182 | over the class fields: every message of a class fits exactly when no uploadable attribute of more than 26 bytes follows one of 1 to 26 bytes |
| `MibUpload.FittingKept` | package/network/services/omcid/src/gpon_omci_onu-4.5.0/src/omci_mib.c:173-178 | no attribute that fits a message is ever dropped |
| `MibUpload.KeptFits` | package/network/services/omcid/src/gpon_omci_onu-4.5.0/src/omci_mib.c:173-178 | without a late oversize attribute, only fitting attributes are kept |
| `MibUpload.PackingIsMinimal` | package/network/services/omcid/src/gpon_omci_onu-4.5.0/src/omci_mib.c:179-212 | no in-order split into messages that fit uses fewer entries |
| `MibUpload.UploadIsMinimal` | package/network/services/omcid/src/gpon_omci_onu-4.5.0/src/omci_mib.c:145-212 | an entity takes no more messages than any cut of its readable, supported, non-table attributes, in order, into messages that fit |
| `MibUpload.EntryDecodes` | package/network/services/omcid/src/gpon_omci_onu-4.5.0/src/omci_mib.c:214-243 | decoding the zero-padded message of an entry gives back exactly its attributes |
| `MibUpload.Snapshot.PackAttribute` | package/network/services/omcid/src/gpon_omci_onu-4.5.0/src/omci_mib.c:173-243 | one attribute is dropped, opens a new entry or extends the last one, with the running sum and the count kept right |
| `MibUpload.Snapshot.PackMe` | package/network/services/omcid/src/gpon_omci_onu-4.5.0/src/omci_mib.c:132-275 | the attribute loop produces exactly the greedy packing, and one empty entry for an entity without packed attributes |
| `MibUpload.Snapshot.Copy` | package/network/services/omcid/src/gpon_omci_onu-4.5.0/src/omci_mib.c:95-280 | the snapshot is the entries of all entities in MIB order and num is its length |
| `MibUpload.SnapshotDecodes` | package/network/services/omcid/src/gpon_omci_onu-4.5.0/src/omci_mib.c:95-280 | for every MIB and every entity whose class is neither no-upload nor PM, the receiver recovers from the whole snapshot exactly the attributes that are readable, supported, no table, not no-upload and at most 26 bytes: stored values, and handler values when no handler fails |
| `MibUpload.UploadDecodes` | package/network/services/omcid/src/gpon_omci_onu-4.5.0/src/omci_mib.c:95-280 | the same for the snapshot of any MIB the store can hold |
| `MibUpload.StoreIsArranged` | package/network/services/omcid/src/gpon_omci_onu-4.5.0/src/omci_mib.c:298-420 | the store keeps every class in one slot with increasing instances |
| `MibUpload.ArrangedDistinct` | package/network/services/omcid/src/gpon_omci_onu-4.5.0/src/omci_mib.c:298-420 | so the entities of a MIB are told apart by class and instance |
| `MibUpload.PresentExactly` | package/network/services/omcid/src/gpon_omci_onu-4.5.0/src/omci_mib.c:126-130 | an entity appears in the snapshot exactly when its class is neither no-upload nor PM, even without attributes |
| `MibUpload.EmptyEntryExactly` | package/network/services/omcid/src/gpon_omci_onu-4.5.0/src/omci_mib.c:245-260 | an entity without an attribute to carry, such as one whose only attribute is a table, gets exactly one empty entry |
| `TableCopy.PieceSize` | package/network/services/omcid/src/gpon_omci_onu-4.5.0/src/omci_me_handlers.c:654-670 | the unsigned size arithmetic gives a piece of at most 29 bytes and refuses exactly the sequence numbers past the end |
| `TableCopy.AcceptedExactly` | package/network/services/omcid/src/gpon_omci_onu-4.5.0/src/omci_me_handlers.c:654-670 | sequence numbers 0 to ceil(n/29) - 1 are accepted and no others |
| `TableCopy.ReassembledExactly` | package/network/services/omcid/src/gpon_omci_onu-4.5.0/src/omci_me_handlers.c:654-676 | all pieces together are the snapshot, exactly when 16-bit sequence numbers reach its end |
| `TableCopy.StepKeepsInv` | package/network/services/omcid/src/gpon_omci_onu-4.5.0/src/omci_core.c:1127-1261 | no operation makes two slots share a key |
| `TableCopy.RunsKeepInv` | package/network/services/omcid/src/gpon_omci_onu-4.5.0/src/omci_core.c:1127-1261 | in every run of Gets and clean timeouts no two slots share a key |
| `TableCopy.StepExactly` | package/network/services/omcid/src/gpon_omci_onu-4.5.0/src/omci_core.c:1140-1221 | an operation changes only the copy of its own attribute, and another copy is lost exactly when it is in the first slot and all five are taken |
| `TableCopy.SixthEvicts` | package/network/services/omcid/src/gpon_omci_onu-4.5.0/src/omci_core.c:1196-1220 | a run: the sixth attribute read as a table pushes out the copy of the first |
| `TableCopy.FoundIsLatest` | package/network/services/omcid/src/gpon_omci_onu-4.5.0/src/omci_core.c:1227-1261 | in every run a copy that is found is the snapshot of the latest Get |
| `TableCopy.LatestIsFound` | package/network/services/omcid/src/gpon_omci_onu-4.5.0/src/omci_core.c:1127-1261 | while at most five attributes are read as tables, a copy is found exactly until it is cleaned |
| `TableCopy.SingleAttr` | package/network/services/omcid/src/gpon_omci_onu-4.5.0/src/omci_me_handlers.c:617-635 | Get-next accepts exactly the masks with one attribute |
| `TableCopy.Copies.EmptyGet` | package/network/services/omcid/src/gpon_omci_onu-4.5.0/src/omci_core.c:1127-1225 | a slot with the same key, else the first free one, else the first; never fails |
| `TableCopy.Copies.Find` | package/network/services/omcid/src/gpon_omci_onu-4.5.0/src/omci_core.c:1227-1261 | succeeds exactly when a valid copy exists |
| `TableCopy.Copies.CleanTimeout` | package/network/services/omcid/src/gpon_omci_onu-4.5.0/src/omci_me_handlers.c:39-85 | invalidates exactly the copy of its attribute |
| `TableCopy.Copies.Get` | package/network/services/omcid/src/gpon_omci_onu-4.5.0/src/omci_me_handlers.c:419-524 | the snapshot replaces the copy of its attribute and the answer is its size |
| `TableCopy.Copies.GetNext` | package/network/services/omcid/src/gpon_omci_onu-4.5.0/src/omci_me_handlers.c:595-704 | answers exactly for one attribute with a valid copy and a sequence number within it, with that piece |
| `TableCopy.Copies.Transfer` | package/network/services/omcid/src/gpon_omci_onu-4.5.0/src/omci_me_handlers.c:595-704 | asking for pieces 0, 1, 2, ... until one is refused gives back the snapshot in ceil(n/29) pieces |
| `MibStore.EntryExactly` | package/network/services/omcid/src/gpon_omci_onu-4.5.0/src/omci_mib.c:298-336 | a class id resolves exactly when the class array holds it, to one fixed entry even if the id occurs twice |
| `MibStore.ClassEntryFind` | package/network/services/omcid/src/gpon_omci_onu-4.5.0/src/omci_mib.c:298-336 | binary search returns that entry |
| `MibStore.AddToList` | package/network/services/omcid/src/gpon_omci_onu-4.5.0/src/omci_mib.c:395-420 | insertion keeps an instance list strictly sorted and adds exactly the new entity |
| `MibStore.HasAtEntry` | package/network/services/omcid/src/gpon_omci_onu-4.5.0/src/omci_mib.c:298-377 | an entity is present exactly when it is in the list its class id resolves to |
| `MibStore.Unique` | package/network/services/omcid/src/gpon_omci_onu-4.5.0/src/omci_mib.c:422-462 | at most one entity per class and instance |
| `MibStore.Mib.Find` | package/network/services/omcid/src/gpon_omci_onu-4.5.0/src/omci_mib.c:338-377 | succeeds exactly for a present entity and returns it |
| `MibStore.Mib.Create` | package/network/services/omcid/src/gpon_omci_onu-4.5.0/src/omci_mib.c:422-667 | exists, not supported, init failed or success, each exactly when; only the new entity is added and counted |
| `MibStore.Mib.Delete` | package/network/services/omcid/src/gpon_omci_onu-4.5.0/src/omci_mib.c:669-766 | success exactly for a present entity; only it is removed and uncounted |
| `MibStore.Mib.DestroyClass` | package/network/services/omcid/src/gpon_omci_onu-4.5.0/src/omci_mib.c:1177-1180 | deleting head by head ends and empties exactly one class |
| `MibStore.Mib.Destroy` | package/network/services/omcid/src/gpon_omci_onu-4.5.0/src/omci_mib.c:1161-1187 | never fails, ends, and leaves an empty MIB with entity count 0 |
| `MibStore.Mib.Perform` | package/network/services/omcid/src/gpon_omci_onu-4.5.0/src/omci_mib.c:338-766 | every run of creates, deletes and destroys leaves exactly the finite map the operations describe, with the entity count its size |
| `MibSync.StepKeepsInv` | package/network/services/omcid/src/gpon_omci_onu-4.5.0/src/omci_mib.c:1050-1136 | every operation keeps: counter 0 exactly without counted changes, and then the snapshot lags the MIB by exactly the changes the ONU made itself |
| `MibSync.ZeroExactly` | package/network/services/omcid/src/gpon_omci_onu-4.5.0/src/omci_core.c:818-824 | in every run the data sync is 0 exactly when no Create, Delete, Set or software action has succeeded since the last full reset |
| `MibSync.SkippedExactly` | package/network/services/omcid/src/gpon_omci_onu-4.5.0/src/omci_mib.c:1098-1136 | a reset is skipped exactly when it is not forced, nothing has changed and a snapshot is held |
| `MibSync.CountsChanges` | package/network/services/omcid/src/gpon_omci_onu-4.5.0/src/omci_mib.c:1189-1216 | unless the counter itself is set it is the number of successful actions since the last full reset, counted over the operations alone, 255 wrapping to 1 |
| `MibSync.Counted` | package/network/services/omcid/src/gpon_omci_onu-4.5.0/src/omci_core.c:804-824 | the changes and the snapshot entries of the machine are what a count over the operations alone gives |
| `MibSync.CounterFollows` | package/network/services/omcid/src/gpon_omci_onu-4.5.0/src/omci_core.c:804-824 | in every run one more success counts once, a Set of the counter leaves the stored value plus one with 255 going to 1, and only a reset that is carried out brings it to 0 |
| `MibSync.StaleExactly` | package/network/services/omcid/src/gpon_omci_onu-4.5.0/src/me/omci_onu_data.c:290-301 | in every run an upload answers from a stale snapshot exactly when the counter is 0, a snapshot is held and the MIB has changed by itself since the last full reset |
| `MibSync.StaleUpload` | package/network/services/omcid/src/gpon_omci_onu-4.5.0/src/omci_interface.c:1008-1042 | a run: one entity created by the ONU itself after a reset makes the next upload stale |
| `MibSync.EmptyUploadExactly` | package/network/services/omcid/src/gpon_omci_onu-4.5.0/src/me/omci_onu_data.c:292-308 | an upload fails for lack of a snapshot exactly when nothing has changed and the snapshot has timed out |
| `MibSync.UploadFailsAfterTimeout` | package/network/services/omcid/src/gpon_omci_onu-4.5.0/src/me/omci_onu_data.c:292-308 | a run: reset, upload, snapshot timeout, and the next upload fails |
| `MibSync.Sync.SeqNumInc` | package/network/services/omcid/src/gpon_omci_onu-4.5.0/src/omci_mib.c:1189-1216 | increments, 255 wrapping to 1; fails without the ONU data entity |
| `MibSync.Sync.SeqNumClear` | package/network/services/omcid/src/gpon_omci_onu-4.5.0/src/omci_mib.c:1218-1242 | sets 0; fails without the ONU data entity |
| `MibSync.Sync.Act` | package/network/services/omcid/src/gpon_omci_onu-4.5.0/src/omci_core.c:804-824 | increments exactly after a Create, Delete or Set that ended in success, failsafe mode included |
| `MibSync.Sync.ResetMib` | package/network/services/omcid/src/gpon_omci_onu-4.5.0/src/omci_mib.c:1098-1138 | a full reset ends with counter 0 and a fresh snapshot although clearing the counter always fails |
| `MibSync.Sync.UploadMib` | package/network/services/omcid/src/gpon_omci_onu-4.5.0/src/me/omci_onu_data.c:278-334 | takes a new snapshot exactly when the counter is not 0 |
| `Pm.AttrSubIsModular` | package/network/services/omcid/src/gpon_omci_onu-4.5.0/src/omci_pm.c:92-113 | counter subtraction is subtraction modulo 2^n |
| `Pm.AttrAddSaturates` | package/network/services/omcid/src/gpon_omci_onu-4.5.0/src/omci_pm.c:115-137 | counter addition saturates at 2^n - 1 |
| `Pm.RiseRecovered` | package/network/services/omcid/src/gpon_omci_onu-4.5.0/src/omci_pm.c:92-113 | two readings give the true rise back when it is below 2^n |
| `Pm.LimitIsPower` | package/network/services/omcid/src/gpon_omci_onu-4.5.0/src/omci_pm.c:92-137 | the range of a counter of n bytes is 256 to the n |
| `Pm.AccumulateExactly` | package/network/services/omcid/src/gpon_omci_onu-4.5.0/src/omci_pm.c:92-137 | subtract-then-add accumulates the saturated true rise exactly when the rise is below 2^n or the counter is saturated anyway |
| `Pm.AlarmSetAdds` | package/network/services/omcid/src/gpon_omci_onu-4.5.0/src/omci_alarm.c:62-103 | setting an alarm bit adds exactly that alarm |
| `Pm.AlarmRead` | package/network/services/omcid/src/gpon_omci_onu-4.5.0/src/omci_alarm.c:62-103 | alarm n is bit 7 - n % 8 of byte n / 8 |
| `Pm.AlarmWritten` | package/network/services/omcid/src/gpon_omci_onu-4.5.0/src/omci_alarm.c:62-103 | setting alarm n sets that bit and no other |
| `PmMe.ManagedEntity.CountersUpdate` | package/network/services/omcid/src/gpon_omci_onu-4.5.0/src/omci_pm.c:246-291 | every counter accumulates the rise of its absolute value |
| `PmMe.ManagedEntity.ThrFill` | package/network/services/omcid/src/gpon_omci_onu-4.5.0/src/omci_pm.c:160-207 | the bitmap of nonzero thresholds exceeded |
| `PmMe.ManagedEntity.ThrCheck` | package/network/services/omcid/src/gpon_omci_onu-4.5.0/src/omci_pm.c:209-244 | reports exactly the crossings not yet recorded and records them |
| `PmMe.ManagedEntity.CountersGet` | package/network/services/omcid/src/gpon_omci_onu-4.5.0/src/omci_pm.c:303-363 | a poll updates the counters and reports the new crossings |
| `PmMe.ManagedEntity.IntervalEnd` | package/network/services/omcid/src/gpon_omci_onu-4.5.0/src/omci_pm.c:530-577 | the current buffer becomes history, the new current buffer has its three header bytes and zero counters, the alerts are cleared |
| `PmMe.CheckByte` | package/network/services/omcid/src/gpon_omci_onu-4.5.0/src/omci_pm.c:209-244 | eight alarm bits at a time: the report is the new bits, the record the union |
| `PmMe.NewAlarms` | package/network/services/omcid/src/gpon_omci_onu-4.5.0/src/omci_pm.c:209-244 | byte-wise checking is set difference and union of alarms |
| `PmMe.CountersExact` | package/network/services/omcid/src/gpon_omci_onu-4.5.0/src/omci_pm.c:246-363 | in every run the current counter is the saturated true rise since the last interval end and the history counter the saturated rise over the interval before |
| `PmMe.HeaderKept` | package/network/services/omcid/src/gpon_omci_onu-4.5.0/src/omci_pm.c:560-575 | in every run the header of the current buffer never changes, and from the first interval end on the history buffer has it too |
| `PmMe.PollKeepsHistory` | package/network/services/omcid/src/gpon_omci_onu-4.5.0/src/omci_pm.c:303-363 | a poll leaves the history buffer alone |
| `PmMe.AlertsExact` | package/network/services/omcid/src/gpon_omci_onu-4.5.0/src/omci_pm.c:160-244 | in every run an alert is recorded exactly when its threshold is nonzero and exceeded by its counter, or, before the first interval end, the uninitialised record held it |
| `PmMe.ReportsDisjoint` | package/network/services/omcid/src/gpon_omci_onu-4.5.0/src/omci_pm.c:209-244 | within an interval no alert is reported twice |
| `PmMe.ReportsRecorded` | package/network/services/omcid/src/gpon_omci_onu-4.5.0/src/omci_pm.c:209-244 | every report stays recorded until the interval end |
| `PmMe.ReportsAreCrossings` | package/network/services/omcid/src/gpon_omci_onu-4.5.0/src/omci_pm.c:160-244 | after the first interval end an observation reports exactly the nonzero thresholds its counters exceed and the counters before did not |
| `ActionProtocol.StepKeepsInv` | package/network/services/omcid/src/gpon_omci_onu-4.5.0/src/omci_core.c:497-667 | every step of either thread keeps the protocol invariant |
| `ActionProtocol.RunsKeepInv` | package/network/services/omcid/src/gpon_omci_onu-4.5.0/src/omci_core.c:497-843 | so does every interleaving |
| `ActionProtocol.StartsAreExclusive` | package/network/services/omcid/src/gpon_omci_onu-4.5.0/src/omci_core.c:622-667 | an action starts only when none is running and no result is pending |
| `ActionProtocol.ResultsConsumedOnce` | package/network/services/omcid/src/gpon_omci_onu-4.5.0/src/omci_core.c:567-667 | every finished result is consumed exactly once, in order, and the answers sent are exactly the acknowledged results consumed, unchanged |
| `ActionProtocol.ResultsAreReturned` | package/network/services/omcid/src/gpon_omci_onu-4.5.0/src/omci_core.c:778-843 | in every run the results are, in order, exactly what the handlers returned |
| `ActionProtocol.RepeatsAreIdentical` | package/network/services/omcid/src/gpon_omci_onu-4.5.0/src/omci_core.c:497-528 | a repeated request is answered with the identical stored response |
| `ActionProtocol.NeverExecutedAgain` | package/network/services/omcid/src/gpon_omci_onu-4.5.0/src/omci_core.c:597-620 | a request whose TCI matches the valid entry of its priority is not executed again |
| `ActionProtocol.TakeIsOwnResult` | package/network/services/omcid/src/gpon_omci_onu-4.5.0/src/omci_core.c:622-667 | a result taken directly is the one of the action just started |
| `ActionProtocol.IdleActionIsQuiet` | package/network/services/omcid/src/gpon_omci_onu-4.5.0/src/omci_core.c:778-843 | while no action runs, the action thread changes none of the shared results |
| `ActionProtocol.RequestLife` | package/network/services/omcid/src/gpon_omci_onu-4.5.0/src/omci_core.c:744-752 | from its arrival until the core thread is idle again a request is lost to a running action, lost to a late result, repeated from the cache, or executed, each exactly when; with what is sent in each case, an executed request being answered with its own result |
| `ActionProtocol.UnansweredExactly` | package/network/services/omcid/src/gpon_omci_onu-4.5.0/src/omci_core.c:538-595 | a request is neither started nor answered under its own TCI exactly when it meets a running action or a late acknowledged result of a request with another TCI |
| `ActionProtocol.LostToRunning` | package/network/services/omcid/src/gpon_omci_onu-4.5.0/src/omci_core.c:744-745 | a run: a request that arrives while another one still runs is lost |
| `ActionProtocol.LostToResult` | package/network/services/omcid/src/gpon_omci_onu-4.5.0/src/omci_core.c:567-595 | a run: a request that uncovers a late result is lost |
| `RwLock.Mutable.GetRdTurn` | package/network/services/omcid/src/gpon_omci_onu-4.5.0/src/omci_os.c:223-256 | one turn of the reader loop |
| `RwLock.Mutable.GetWrPendTurn` | package/network/services/omcid/src/gpon_omci_onu-4.5.0/src/omci_os.c:268-292 | one turn of the loop that marks a pending writer |
| `RwLock.Mutable.GetWrTurn` | package/network/services/omcid/src/gpon_omci_onu-4.5.0/src/omci_os.c:294-322 | one turn of the loop that takes the write lock |
| `RwLock.Mutable.ReleaseLock` | package/network/services/omcid/src/gpon_omci_onu-4.5.0/src/omci_os.c:336-362 | gives back the write lock or one read lock |
| `RwLock.StepKeepsInv` | package/network/services/omcid/src/gpon_omci_onu-4.5.0/src/omci_os.c:223-362 | every atomic step of any thread keeps the counters equal to the holders |
| `RwLock.RunsKeepInv` | package/network/services/omcid/src/gpon_omci_onu-4.5.0/src/omci_os.c:223-362 | so does every interleaving of any number of threads |
| `RwLock.HeldExactly` | package/network/services/omcid/src/gpon_omci_onu-4.5.0/src/omci_os.c:223-362 | in every run a thread holds as many read locks as it took while nobody wrote or was pending, minus those it gave back |
| `RwLock.MutualExclusion` | package/network/services/omcid/src/gpon_omci_onu-4.5.0/src/omci_os.c:223-362 | never a writer with a reader or another writer, nested reads included |
| `RwLock.PendingStopsReaders` | package/network/services/omcid/src/gpon_omci_onu-4.5.0/src/omci_os.c:262-325 | while a writer is pending no thread comes to hold more read locks |
| `RwLock.IsLockedExactly` | package/network/services/omcid/src/gpon_omci_onu-4.5.0/src/omci_os.c:364-378 | reports exactly whether some thread holds the lock for reading or writing |
| `RwLock.StuckExactly` | package/network/services/omcid/src/gpon_omci_onu-4.5.0/src/omci_os.c:223-362 | in every run in which some thread waits, nothing can go on exactly when a writer is pending and every holder of a read lock waits to read again |
| `RwLock.DeadlockStays` | package/network/services/omcid/src/gpon_omci_onu-4.5.0/src/omci_os.c:223-362 | such a deadlock is for ever |
| `RwLock.NestedReadDeadlocks` | package/network/services/omcid/src/gpon_omci_onu-4.5.0/src/omci_os.c:223-362 | a run: a reader that reads again behind a pending writer |
| `RwLock.NeverStuck` | package/network/services/omcid/src/gpon_omci_onu-4.5.0/src/omci_os.c:223-362 | without a nested read some thread can always go on |
| `RecursiveLock.Mutable.GetTurn` | package/network/services/omcid/src/gpon_omci_onu-4.5.0/src/omci_os.c:77-127 | one turn of the acquire loop |
| `RecursiveLock.Mutable.ReleaseLock` | package/network/services/omcid/src/gpon_omci_onu-4.5.0/src/omci_os.c:129-154 | release by the owner; any other caller gets an error and leaves the inner lock taken |
| `RecursiveLock.RunsKeepInv` | package/network/services/omcid/src/gpon_omci_onu-4.5.0/src/omci_os.c:77-154 | in every interleaving owner and count equal the nesting of the holder |
| `RecursiveLock.HeldExactly` | package/network/services/omcid/src/gpon_omci_onu-4.5.0/src/omci_os.c:77-154 | in every run each thread holds the lock as often as a count over the moves alone says, and the count of the lock is the owner's |
| `RecursiveLock.OneHolder` | package/network/services/omcid/src/gpon_omci_onu-4.5.0/src/omci_os.c:77-154 | at most one thread holds the lock |
| `RecursiveLock.GetSucceedsExactly` | package/network/services/omcid/src/gpon_omci_onu-4.5.0/src/omci_os.c:77-127 | unless the inner lock is stuck, acquiring succeeds exactly when no other thread holds the lock |
| `RecursiveLock.ReleaseSticksExactly` | package/network/services/omcid/src/gpon_omci_onu-4.5.0/src/omci_os.c:129-154 | a release fails and leaves the inner lock taken exactly when the caller does not own the lock |
| `RecursiveLock.StuckExactly` | package/network/services/omcid/src/gpon_omci_onu-4.5.0/src/omci_os.c:129-154 | the lock is stuck for ever exactly when some release came from a thread that did not own it |
| `RecursiveLock.StrangerSticks` | package/network/services/omcid/src/gpon_omci_onu-4.5.0/src/omci_os.c:129-154 | a run: a release by a thread that never took the lock |
| `DList.List.constructor` | package/network/services/omcid/src/gpon_omci_onu-4.5.0/src/omci_list.c:58-82 | an empty list is a sentinel linked to itself |
| `DList.List.IsEmpty` | package/network/services/omcid/src/gpon_omci_onu-4.5.0/src/omci_list.c:160-166 | empty exactly when there are no entries |
| `DList.List.AddAfter` | package/network/services/omcid/src/gpon_omci_onu-4.5.0/src/omci_list.c:168-188 | inserts behind the entry and keeps next and prev inverse |
| `DList.List.AddBefore` | package/network/services/omcid/src/gpon_omci_onu-4.5.0/src/omci_list.c:190-210 | inserts before the entry |
| `DList.List.Free` | package/network/services/omcid/src/gpon_omci_onu-4.5.0/src/omci_list.c:212-235 | removes exactly the entry |
| `DList.List.Clear` | package/network/services/omcid/src/gpon_omci_onu-4.5.0/src/omci_list.c:84-103 | safe iteration that frees every entry ends with an empty, well-linked list |
| `DList.List.AddTail` | package/network/services/omcid/src/gpon_omci_onu-4.5.0/src/omci_list.h:115-119 | appends |
| `DList.List.AddHead` | package/network/services/omcid/src/gpon_omci_onu-4.5.0/src/omci_list.h:126-130 | prepends |
| `DList.List.EndTest` | package/network/services/omcid/src/gpon_omci_onu-4.5.0/src/omci_list.h:155-162 | the end test of the iteration macros holds exactly at the sentinel |
| `DList.List.Find` | package/network/services/omcid/src/gpon_omci_onu-4.5.0/src/omci_list.h:155-162 | safe iteration visits the entries in order and finds the first that matches |
| `TimeoutQueue.Queue.EventAdd` | package/network/services/omcid/src/gpon_omci_onu-4.5.0/src/omci_timeout.c:182-238 | the new event gets the next identifier, 1 after the largest, and is inserted by deadline: the abstract step |
| `TimeoutQueue.Queue.InsertEntry` | package/network/services/omcid/src/gpon_omci_onu-4.5.0/src/omci_timeout.c:182-238 | the walk inserts behind every event that is not later |
| `TimeoutQueue.Queue.NextActive` | package/network/services/omcid/src/gpon_omci_onu-4.5.0/src/omci_timeout.c:45-65 | the front event if it is due |
| `TimeoutQueue.Queue.EventRemove` | package/network/services/omcid/src/gpon_omci_onu-4.5.0/src/omci_timeout.c:92-118 | removes exactly the first event with the identifier |
| `TimeoutQueue.Queue.Pick` | package/network/services/omcid/src/gpon_omci_onu-4.5.0/src/omci_timeout.c:299-314 | the first locked section of the thread: the due front event is copied and stays in the queue |
| `TimeoutQueue.Queue.Finish` | package/network/services/omcid/src/gpon_omci_onu-4.5.0/src/omci_timeout.c:339-341 | the second locked section: the handled event is removed |
| `TimeoutQueue.Queue.DrainOne` | package/network/services/omcid/src/gpon_omci_onu-4.5.0/src/omci_timeout.c:156-165 | one turn of the shutdown loop handles and removes the front event |
| `TimeoutQueue.Queue.Shutdown` | package/network/services/omcid/src/gpon_omci_onu-4.5.0/src/omci_timeout.c:143-173 | every pending event is handled in deadline order and the queue ends empty |
| `TimeoutQueue.InsertKeepsSorted` | package/network/services/omcid/src/gpon_omci_onu-4.5.0/src/omci_timeout.c:182-238 | insertion keeps the queue sorted |
| `TimeoutQueue.RunsStayFifo` | package/network/services/omcid/src/gpon_omci_onu-4.5.0/src/omci_timeout.c:182-238 | in every run, until the identifier counter wraps, identifiers count the events added and are unique, and events of equal deadline stand in the order they were added |
| `TimeoutQueue.PendingExactly` | package/network/services/omcid/src/gpon_omci_onu-4.5.0/src/omci_timeout.c:92-238 | in every run the pending events are exactly those added, with the clock plus the delay as deadline, and since then neither removed nor handled to the end |
| `TimeoutQueue.PickedIsFirst` | package/network/services/omcid/src/gpon_omci_onu-4.5.0/src/omci_timeout.c:45-65 | in every run the event picked is due, has the least deadline pending, and among equals is the one added first |
| `TimeoutQueue.HandledOnce` | package/network/services/omcid/src/gpon_omci_onu-4.5.0/src/omci_timeout.c:299-341 | no event is handled twice |
| `TimeoutQueue.RemovedFiresExactly` | package/network/services/omcid/src/gpon_omci_onu-4.5.0/src/omci_timeout.c:264-274 | a removed event is handled all the same exactly when the thread had picked it before |
| `TimeoutQueue.RemovedYetFired` | package/network/services/omcid/src/gpon_omci_onu-4.5.0/src/omci_timeout.c:264-274 | a run: an event removed while its handler runs |
| `TimeoutQueue.RunsStaySorted` | package/network/services/omcid/src/gpon_omci_onu-4.5.0/src/omci_timeout.c:45-118 | in every run the queue stays sorted by deadline |
| `TimeoutQueue.PickedIsEarliest` | package/network/services/omcid/src/gpon_omci_onu-4.5.0/src/omci_timeout.c:45-65 | without any bound on the run: a picked event is due and no pending one is earlier; none is picked only when none is due |
| `Ploam.PackRoundTrip` | package/kernel/gpon-falcon/src/falcon_ploam.c:63-119 | reading the three packed words gives the message back |
| `Ploam.PackLayout` | package/kernel/gpon-falcon/src/falcon_ploam.c:63-119 | word i is the big-endian value of bytes 4i to 4i + 3 of the message |
| `Ploam.UnpackRoundTrip` | package/kernel/gpon-falcon/src/falcon_ploam.c:63-119 | every three 32-bit words are those of exactly one message |
| `Ploam.Context.StateTransition` | package/kernel/gpon-falcon/src/falcon_ploam.c:121-183 | the outputs and timers of entering each state |
| `Ploam.Context.FsmWorker` | package/kernel/gpon-falcon/src/falcon_ploam.c:228-303 | one message, exactly as the abstract step |
| `Ploam.Context.Handle` | package/kernel/gpon-falcon/src/falcon_ploam.c:308-363 | timer expiries and LOS and LOF events, exactly as the abstract step |
| `Ploam.Context.Close` | package/kernel/gpon-falcon/src/falcon_ploam.c:394-400 | cancels the timers and enters O1 |
| `Ploam.StepKeepsSafe` | package/kernel/gpon-falcon/src/falcon_ploam.c:121-363 | every event keeps the safety invariant |
| `Ploam.RunsAreSafe` | package/kernel/gpon-falcon/src/falcon_ploam.c:121-363 | in every run: laser only in O3, O4, O5; carrier only in O4, O5, O6 and always in O5; ONU-ID 0 in O1, O2, O3 and always equal to the register; the timers pending only and always where they should be |
| `Ploam.StatesFollow` | package/kernel/gpon-falcon/src/falcon_ploam.c:228-363 | in every run the next state is, written out for each event and state, LOS to O1, LOF to O6 from O5 and else O1, LOF cleared from O1 to O2, TO1 to O2, TO2 to O1, Deactivate to O2, Disable to O7, Overhead to O3 from O1 and O2, own Assign to O4, accepted Ranging to O5, else the same; and each step sends exactly its replies, kind, ONU-ID, sequence number and payload |
| `Ploam.PopupExactly` | package/kernel/gpon-falcon/src/falcon_ploam.c:350-363 | O6 is entered exactly by a loss of frame in O5 |
| `Ploam.RegistersFollow` | package/kernel/gpon-falcon/src/falcon_ploam.c:121-363 | in every run the timers, the ONU-ID and the ranging registers change exactly at the events that set or clear them |
| `Ploam.TimersNeverLeaveOperation` | package/kernel/gpon-falcon/src/falcon_ploam.c:308-324 | no timer expiry can happen in O5 |
| `Ploam.DestroyIsDark` | package/kernel/gpon-falcon/src/falcon_ploam.c:394-400 | closing ends with the laser off and the carrier down |
| `Ploam.LaserExactly` | package/kernel/gpon-falcon/src/falcon_ploam.c:121-183 | the laser is armed exactly when O3 was visited and only O3, O4, O5 since |
| `Ploam.CarrierExactly` | package/kernel/gpon-falcon/src/falcon_ploam.c:121-183 | the carrier is up exactly when O5 was visited and only O4, O5, O6 since |
| `Ploam.ActivationHasAssign` | package/kernel/gpon-falcon/src/falcon_ploam.c:258-268 | in O4, O5, O6 the ONU-ID is that of the latest own Assign_ONU-ID, and the activation was not left since |
| `Ploam.OperationIsRanged` | package/kernel/gpon-falcon/src/falcon_ploam.c:270-285 | in O5 the ranged-delay register holds the EqD of the latest accepted Ranging_Time, enabled, after the Assign_ONU-ID |
| `Ploam.OperationWithoutLaser` | package/kernel/gpon-falcon/src/falcon_ploam.c:258-285 | O5 can be reached with the laser never armed |
| `Ploam.EmergencyStopIsLeft` | package/kernel/gpon-falcon/src/falcon_ploam.c:295-315 | O7 is left by TO1 |
| `Ploam.EmergencyStopLasts` | package/kernel/gpon-falcon/src/falcon_ploam.c:228-363 | in every run an emergency stop lasts exactly until an own Assign_ONU-ID, Deactivate_ONU-ID, LOS, LOF or a pending timer |
| `Crc32.TableCorrect` | package/network/services/omcid/src/gpon_omci_api-4.5.0/src/omci_api.c:86-151 | each of the 256 table constants is the remainder of its index |
| `Crc32.TableStepIsByteStep` | package/network/services/omcid/src/gpon_omci_api-4.5.0/src/omci_api.c:190-194 | one table step is eight bit steps of the register with the byte added in |
| `Crc32.TableRunIsDivision` | package/network/services/omcid/src/gpon_omci_api-4.5.0/src/omci_api.c:190-194 | the table loop is bit-serial division, from any register value |
| `Crc32.CalcChecksum` | package/network/services/omcid/src/gpon_omci_api-4.5.0/src/omci_api.c:183-197 | the checksum of every byte string is that of MSB-first division by 0x04C11DB7 with all-ones preset and complemented result |
| `Crc32Burst.BurstDetected` | package/network/services/omcid/src/gpon_omci_api-4.5.0/src/omci_api.c:183-197 | messages of one length that differ only within 32 adjacent bits, at any bit position, have different checksums |
| `Crc32Trailer.TrailerExactly` | package/network/services/omcid/src/gpon_omci_api-4.5.0/src/omci_api.c:183-197 | for every message, four bytes behind it give the constant residue exactly when they are its checksum, most significant byte first |
| `Crc32Trailer.KnownAnswer` | package/network/services/omcid/src/gpon_omci_api-4.5.0/src/omci_api.c:183-197 | the checksum of the digits 1 to 4, which fixes preset and complement |

## Left out

- Allocation failures and their recovery paths, among them the failure of `pm_me_add` after the entity has been linked.
- Byte swapping (`OMCI_SWAP`): the target is big-endian.
- The pthread variants of the locks, and the retry delays of the generic ones.
- ActionProtocol: modelled on values, one step per critical section of each thread; update in place of the shared context is not captured. Handlers are taken to leave the TCI of the response alone.
- MeData.ManagedEntity.Set: PM classes reload their thresholds after a Set; that reload is not modelled. The assertion that a request mask is not empty is not modelled either: an empty request changes nothing.
- MeData.Fetch: an entity or source without data, which reads as zeros in the code, is not modelled; every entity has a block of its class's size.
- MeGet.Get: the PM counter refresh before the loop and the choice of the PM interval are not modelled.
- MibUpload.Snapshot.Copy: the 26-byte buffer is a sequence that grows past 26 bytes where the code would write beyond it; the zero padding is added by `Message`.
- TableCopy.Copies.Get: the timer queue is not coupled to the slots; a clean timeout may fire for any attribute at any time, which includes every real schedule. A copy handler that fails is taken to leave no data.
- TableCopy.Copies.EmptyGet: who owns and frees the copied memory is not modelled.
- MibStore.Mib.Create: instance lists are sequences, not linked nodes; alarm, ARC and PM contexts and the lock of an entity are one opaque value, and init handlers are taken to create no other entities.
- MibSync.Sync.ResetMib: a reset is one step, and the reset handler is taken to create the ONU data entity with counter 0; the flag against concurrent resets is not modelled.
- Mapper.Mapper.Shutdown: one id type; the outer loop over the id types repeats it. `index_array_get` and `id_array_get` are not modelled.
- PmMe.ManagedEntity.ThrFill: thresholds are fixed during a run; loading them from Threshold Data 1 and 2 is not modelled. The alert bitmap starts arbitrary, because the PM context is not cleared on allocation.
- PmMe.ManagedEntity.CountersGet: classes without a threshold or counter handler are not covered.
- PmMe.ManagedEntity.IntervalEnd: sending and clearing the alarm bitmap of the entity before the swap is not modelled.
- Pm.AttrSubIsModular: counters of 1, 2 and 4 bytes.
- TimeoutQueue.Queue.Shutdown: handlers that add or remove events while the queue is drained are not modelled.
- RwLock.StuckExactly: reads nest, but a thread that asks for the write lock while it holds the lock, which also waits for ever, is not modelled.
- TimeoutQueue.RunsStayFifo: stated until the identifier counter wraps; after that uniqueness depends on how long events stay pending. Clock values are unbounded.
- Ploam.Context.FsmWorker: the receive ring and the hardware FIFO, the ONU-ID filter in front of them, and the stored overhead parameters are not modelled; hooks are installed after initialisation.
- Sockets, ubus, configuration, the command line, hardware register sequences, message dumps and the other kernel files.
