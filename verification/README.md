# radex: two-key exchange, metadata arithmetic and the workflow on top

radex stores every typed item under two keys of a shared store, a metadata record and the raw
elements, and lets any number of processes put, read, wait for and delete items at the same time.
This project models that design and proves what it guarantees, for all inputs and all runs.

How the parts fit together:

- `Machine.dfy`, `ByteCodec.dfy`, `MetaData.dfy`: 64-bit and 32-bit arithmetic with its wrap-around,
  little-endian memory images, and the metadata record. Sizes and element counts are computed as the
  machine does; lemmas say exactly when the result is the ideal one.
- `TwoKey.dfy`: the two cells of one handle. Each access to the store is one atomic step, a run is
  any sequence of steps of any number of processes, and history variables record which writes a read
  saw. `Calls.dfy` tells what a call does and returns from its own accesses alone, on the two cells
  and in the shared store. `Guarantees.dfy` says for each promise of the protocol exactly which rules
  for its callers, and which items, keep it in every run. `Register.dfy` maps runs to an atomic
  register. `SharedStore.dfy` states the same protocol on real keys with any traffic on other handles
  and projects it to one handle. `TypedExchange.dfy` joins it with the codec and with the client's
  calls.
- `Handles.dfy`, `Client.dfy`, `CInterface.dfy`: key names, typed puts and reads as functions of the
  store, and the client object and C tensor routines as methods over arrays.
- `WaitLoop.dfy`: the polling wait against every environment and every schedule of delays.
- `InMemory.dfy`: the example store whose `insert` keeps the first value.
- `WorkflowKeys.dfy`, `Simulation.dfy`, `ActiveLearning.dfy`: the MPI simulation as a state machine of
  its ranks, and the active-learning loop that alternates with it. `KeyedWorkflow.dfy` states the
  simulation on the real string keys and projects it to the items those keys stand for.
- `RowMajor.dfy`: Python arrays flattened on a put and rebuilt on a get.
- `BytesBuffer.dfy`: ownership of allocations through moves and releases.

Reads for which the C++ has no defined meaning (a buffer shorter than a header, dimensions or
elements beyond the stored bytes) return the error `Undefined`, so no precondition hides them.

Assumptions: each `contains`, `put_bytes`, `get_bytes` and `delete_key` is atomic and at once visible
to every process, deleting an absent key does nothing, and reading an absent one reports a missing
key. Conversion of an out-of-range value to `int` keeps the low 32 bits (two's complement). Bytes are
little-endian. Cython checks the bounds of an indexed memory view and refuses a view of extent zero
or less. The tasks of the learning loop run in the order simulation, training, active learning, check.

Findings where the code does less than its documentation says:

- `include/radex/client_base.hpp:119-120` documents the element pointer and count of a tensor without
  a bound, but a reader's count passes through an `int` (`src/cpp/metadata.cpp:40-43`): exactly the
  tensors with fewer than 2^31 elements round-trip (`TensorRoundTripIff`, `ConstructIff`). A larger one
  is silently cut to its product modulo 2^32, or read past its bytes (`CReadBack`).
- The size test of the metadata decoder wraps: a count 2^61 too large is accepted
  (`FromBufferAccepts`, `WrappedCountAccepted`).
- `include/radex/client_base.hpp:39` promises overwriting; the in-memory store keeps the first value
  (`OverwriteIgnored`, `RefinesIff`).
- Neither put, read nor delete is atomic. Callers may agree to serialise puts and deletes, to keep
  deletes apart from puts, or not to delete; with any such rules and any set of items put:
  - every value read is the item current at the reader's data fetch iff all items have one metadata
    record; no rule for the writers replaces that (`ReadsAreAlwaysWholeIff`,
    `OverwriteCanMixVersions`);
  - data is never without metadata iff some rule keeps deletes apart from puts. A delete that overlaps
    a put can leave, with both finished, data without metadata: the protocol's worst failure
    (`DataAlwaysHasMetadataIff`, `DeleteCanOrphanData`);
  - the idle pair is the last put, or absent, iff puts and deletes are serialised, or all items have
    one record and deletes are kept apart from puts (`IdlePairIsAlwaysLatestIff`,
    `RacingWritersCanTear`);
  - no read ever fails on missing metadata, and no wait ends without data, iff nobody deletes
    (`ReadsAlwaysFindMetadataIff`, `DeleteCanLoseMetadata`, `WaitsAlwaysFindDataIff`,
    `DeleteCanCutWait`); with deletes kept apart from puts, only a read under which a delete
    runs can fail so (`NeverMissingMetadata`).
- The waiting C read sends the rank through an `int`, the plain one does not
  (`include/radex/macros/client_c_implementation_macros.hpp:95` and `:148`, `RankThroughIntIff`).
- The header of `driver.py` describes per-iteration sentinel keys; the code keeps one counter, and
  that is what is modelled.

## Model

| member | source | states |
|---|---|---|
| MetaData.FromBufferAccepts | src/cpp/metadata.cpp:17-25 | a buffer with a header is accepted iff its length is a multiple of 8 and the announced count is congruent to length/8 - 2 modulo 2^61; otherwise it is a metadata error |
| MetaData.AcceptedDimsRegion | include/radex/detail/metadata.hpp:37-57 | in an accepted record the dimensions lie inside the buffer iff the count is at most 2^61 - 3, and then fill the rest of it |
| MetaData.WrappedCountAccepted | src/cpp/metadata.cpp:17-25 | every record whose count is exactly 2^61 too large is accepted and announces dimensions that are not there |
| MetaData.DecodeEncode | src/cpp/metadata.cpp:17-38 | decoding an encoded record gives back type, count and dimensions |
| MetaData.EncodeDecode | src/cpp/metadata.cpp:17-38 | re-encoding an accepted record gives the same bytes |
| MetaData.MakeBuffer | src/cpp/metadata.cpp:27-38 | the in-place encoder produces the record, which the decoder accepts |
| MetaData.RecordLayout | include/radex/detail/metadata.hpp:16-22 | where in the bytes of a record the type code, the number of dimensions and each dimension are |
| MetaData.TypesOnTheWire | include/radex/data.hpp:14-51 | the type codes 0 to 3 as bytes, and the 4 or 8 bytes of an element of each type |
| ByteCodec.LoadSnoc | src/cpp/metadata.cpp:27-38 | words and elements are little-endian: each further byte weighs 256 times the one before |
| MetaData.NElementsCharacterised | src/cpp/metadata.cpp:40-43 | the fold equals the sign extension of the true product modulo 2^32, whatever overflowed on the way |
| MetaData.ComputeNElements | src/cpp/metadata.cpp:40-43 | the accumulating loop computes that value |
| MetaData.NElementsExact | src/cpp/metadata.cpp:40-43 | the count is the true product iff the product is below 2^31 or in the last 2^31 words |
| MetaData.NElementsAgreesWithWriter | include/radex/macros/client_c_implementation_macros.hpp:58-60 | the reader's count equals the C writer's wrapped product iff that product survives an `int` |
| TwoKey.DataImpliesMetadata | src/cpp/client.cpp:69-74 | as long as no delete overlaps a put, data is never present without metadata in any reachable state, mid-put and mid-delete included |
| TwoKey.PairIsLatest | include/radex/client_base.hpp:123-129 | with serialised puts and deletes, between them the two keys hold exactly the last put or nothing |
| TwoKey.VersionMonotone | src/cpp/client.cpp:45-50 | a read pairs the data of put i with the metadata of a put j >= i; a handle written once is read back exactly |
| TwoKey.NeverMissingMetadata | src/cpp/client.cpp:45-50 | as long as no delete overlaps a put, a read or wait fails on missing metadata only if a delete removed it after that same read fetched its data; earlier deletes do no harm |
| TwoKey.UndeletedKeepsMetadata | src/cpp/client.cpp:60-67 | without deletes no read fails on missing metadata, even with racing writers |
| TwoKey.ReadReturnsCurrentItem | src/cpp/client.cpp:45-50 | with one metadata record, every read that returns a value returns the item that was current at its own data fetch, whatever puts and deletes run meanwhile |
| Guarantees.ReadsAreAlwaysWholeIff | include/radex/client_base.hpp:123-129 | under any rules for the callers, all runs that put items of a set read only whole current items iff those items have one metadata record |
| Guarantees.IdlePairIsAlwaysLatestIff | include/radex/client_base.hpp:76-80 | the idle pair is the last put or absent in all runs iff puts and deletes are serialised, or the items have one record and deletes are kept apart from puts |
| Guarantees.DataAlwaysHasMetadataIff | src/cpp/client.cpp:69-74 | data has metadata in all runs iff some rule keeps deletes apart from puts |
| Guarantees.ReadsAlwaysFindMetadataIff | src/cpp/client.cpp:60-67 | no read misses its metadata in all runs iff nobody deletes |
| Guarantees.WaitsAlwaysFindDataIff | src/cpp/client.cpp:60-67 | no wait ends without data in all runs iff nobody deletes |
| Guarantees.OverwriteCanMixVersions | include/radex/client_base.hpp:123-129 | one writer, no deletes, overwriting with another record: a read returns a value that never was current |
| Guarantees.RacingWritersCanTear | include/radex/client_base.hpp:123-129 | two writers of different records and nothing else: both finish and leave the metadata of one with the data of the other |
| Guarantees.DeleteCanOrphanData | src/cpp/client.cpp:69-74 | one put and one delete that overlap: both finish and leave data without metadata |
| Guarantees.DeleteCanLoseMetadata | src/cpp/client.cpp:45-50 | one owner that deletes while a reader is between its fetches: the read fails on missing metadata |
| Guarantees.DeleteCanCutWait | src/cpp/client.cpp:30-42 | one owner that deletes between a waiter's probe and its fetch: the wait ends without data |
| Calls.CallReturns | src/cpp/client.cpp:45-67 | in every run, what a get or wait returns, and whether a call is over, is exactly what its own accesses saw determines |
| Calls.GetDecidesAtOnce | src/cpp/client.cpp:52-58 | a get never times out, and misses its data iff its first access does |
| Calls.WaitWaits | src/cpp/client.cpp:30-42 | as long as none of its accesses has shown the data, a wait goes on or has timed out |
| Calls.WaitEndsInNoData | src/cpp/client.cpp:30-42 | a wait ends without data only if one of its accesses had shown it and a delete then removed it |
| Calls.UndeletedWaitFindsData | src/cpp/client.cpp:60-67 | without deletes a wait never ends without data |
| Calls.AccessWrites | src/cpp/client.cpp:69-74 | which key each access of a put, delete or read changes, and to what, in order |
| Calls.SharedCallReturns | src/cpp/client.cpp:45-67 | on the real keys of a handle, a get or wait returns exactly what its own accesses determine |
| Calls.SharedGetDecidesAtOnce | src/cpp/client.cpp:52-58 | the same for a get: no timeout, and its first access decides |
| Calls.SharedWaitEndsInNoData | src/cpp/client.cpp:60-67 | on real keys, a wait ends without data only after it had seen the data key and a delete of that handle removed it |
| Calls.SharedUndeletedWaitFindsData | src/cpp/client.cpp:60-67 | on real keys, a wait on a handle nobody deletes never ends without data |
| Register.RefinesStep | src/cpp/client.cpp:45-50 | each step of the protocol is one step of an atomic register or invisible |
| Register.Linearizable | include/radex/client_base.hpp:76-80 | every run on a handle put with one metadata record is a run of an atomic register, with the same results; there a wait takes nothing before the register holds a value, and only a wait expires |
| SharedStore.OtherHandlesInvisible | src/cpp/handles.cpp:12-34 | under names apart, what a run of the shared store does to a handle is a run of its two cells alone |
| SharedStore.SharedLinearizable | include/radex/client_base.hpp:123-129 | linearizability holds in the shared store with any traffic on non-colliding handles |
| SharedStore.SharedReadReturnsCurrent | src/cpp/client.cpp:45-50 | a read that returns a value returns the item current in the store at its own data fetch |
| SharedStore.SharedDataImpliesMetadata | src/cpp/client.cpp:60-74 | in the shared store, data of a handle implies its metadata as long as no delete of it overlaps a put of it |
| SharedStore.SharedPairIsLatest | src/cpp/client.cpp:69-74 | in the shared store with serialised owners, the idle pair is the last put or absent |
| SharedStore.SharedVersionMonotone | src/cpp/client.cpp:45-50 | version monotonicity in the shared store |
| SharedStore.SharedNeverMissingMetadata | src/cpp/client.cpp:60-67 | in the shared store, a read or wait fails on missing metadata only if a delete of that handle removed it after that same read fetched its data |
| SharedStore.SharedUndeletedKeepsMetadata | src/cpp/client.cpp:60-67 | a handle nobody deletes never makes a read or wait fail on missing metadata, however its writers race |
| TypedExchange.ReadsAreWholeTensors | include/radex/client_base.hpp:174-190 | concurrent reads decode to tensors of the right type and shape with exactly the bytes current at the fetch |
| TypedExchange.UndisturbedPut | include/radex/client_base.hpp:123-129 | the accesses of an undisturbed put are the client's put |
| TypedExchange.UndisturbedDelete | src/cpp/client.cpp:69-74 | the accesses of an undisturbed delete are the client's delete |
| TypedExchange.UndisturbedRead | src/cpp/client.cpp:45-67 | an undisturbed get, and a wait whose data is there, return what the client's read returns |
| TypedExchange.UndisturbedTimeout | src/cpp/client.cpp:30-42 | a wait that gives up on a missing key reports a timeout |
| Handles.KeysDistinctIff | src/cpp/handles.cpp:12-34 | all data and metadata keys are distinct iff no name is "metadata::" followed by another |
| Handles.PlainNamesDoNotCollide | src/cpp/handles.cpp:12-34 | names without that prefix never collide |
| Client.ScalarReadBack | include/radex/client_base.hpp:158-172 | a scalar comes back by its own type; another type or a tensor request names the mismatch |
| Client.NotFoundIff | src/cpp/client.cpp:45-50 | a read finds no item iff the data key or the metadata key is missing, as after a put of bare bytes |
| Client.MalformedIff | src/cpp/metadata.cpp:17-25 | a read reports a malformed record iff its length is not what it announces, up to wrap-around |
| Client.BytesCopied | include/radex/client_base.hpp:123-129 | a put copies the element count modulo 2^64 / width, since its byte count wraps |
| Client.TensorReadBack | include/radex/client_base.hpp:123-190 | what reading gives after any put of any element count from any memory, by any type: the first elements of that memory, or the error |
| Client.CReadBack | include/radex/macros/client_c_implementation_macros.hpp:57-62 | after a C put of any shape a read succeeds iff the product modulo 2^32 is below 2^31, and gives that many first elements |
| Client.TensorRoundTripIff | include/radex/client_base.hpp:123-142 | a tensor at the start of the caller's memory round-trips iff it has fewer than 2^31 elements |
| Client.RankZeroReadBack | include/radex/client_base.hpp:158-172 | a tensor put without dimensions is read as a scalar, its first element |
| Client.ReadAfterCall | include/radex/client_base.hpp:76-190 | what scalar and tensor reads of every type give after each call |
| Client.PerformAllOther | src/cpp/handles.cpp:12-34 | reads of a handle are decided by the last call on it, whatever calls on other handles follow |
| Client.StoreCoherent | include/radex/client_base.hpp:76-80 | after any puts and deletes every stored item has the data length its record announces |
| Client.CoherentRead | include/radex/client_base.hpp:174-190 | reading a coherent item stays inside its data iff its product modulo 2^32 is below 2^31, and is complete iff the product is |
| Client.PerformOther | src/cpp/client.cpp:69-74 | a call on one handle leaves every read of a non-colliding handle unchanged |
| Client.NonInterferenceIff | src/cpp/handles.cpp:18-22 | every run of calls on one handle leaves every read of another unchanged iff their names do not collide |
| CInterface.Session.PutScalar | include/radex/client_base.hpp:76-80 | the two writes of a scalar, metadata then data, which is then readable |
| CInterface.Session.PutTensor | include/radex/client_base.hpp:123-129 | the two writes of a tensor, metadata then data, copying the wrapped byte count from the start of the elements |
| CInterface.Session.DeleteItem | src/cpp/client.cpp:69-74 | exactly the two keys go, data first, metadata only if it is there, and a read then misses |
| CInterface.Session.GetItemInfo | src/cpp/client.cpp:45-50 | data fetch, metadata fetch only if there is data, and decoding, with each error |
| CInterface.Session.CPutTensor | include/radex/macros/client_c_implementation_macros.hpp:47-67 | rank 0 is refused without effect; otherwise the product loop and put store the tensor |
| CInterface.Session.CGetTensor | include/radex/macros/client_c_implementation_macros.hpp:72-100 | the error of the read, or of the capacity checks; success fills rank, dims and data and nothing beyond; any error leaves all three outputs unchanged |
| CInterface.CWaitTensor | include/radex/macros/client_c_implementation_macros.hpp:124-153 | the same for the waiting read, against any environment |
| CInterface.WaitIsGetOnSteadyStore | src/cpp/client.cpp:60-67 | on an unchanging store, waiting is getting when the item is there and a timeout when not |
| CInterface.WaitReadsMetadataLast | src/cpp/client.cpp:45-67 | a wait for data that arrives in time pairs it with the record held at the instant of the second fetch |
| CInterface.WaitForDelayedTensor | include/radex/client_base.hpp:147-155 | a tensor put while the wait is on comes back whole |
| CInterface.RankThroughIntIff | include/radex/macros/client_c_implementation_macros.hpp:148-148 | the waiting read reports the rank correctly iff it is below 2^31, and always its low 32 bits |
| CInterface.PutThenGet | include/radex/macros/client_c_implementation_macros.hpp:47-100 | put then get, for every shape, type and capacity: too few elements is a too small buffer whatever the dimensions, enough elements and too few dimensions a rank mismatch, both without touching the outputs; success gives rank, dims and the elements from the start of the put memory |
| CInterface.PutThenWait | include/radex/macros/client_c_implementation_macros.hpp:47-153 | the same for put then wait, for any timeout, with identical rank iff it is below 2^31 |
| CInterface.DeleteThenGet | include/radex/macros/client_c_implementation_macros.hpp:72-100 | reading a deleted tensor is a missing key and leaves the outputs alone |
| WaitLoop.WaitForBytes | src/cpp/client.cpp:21-43 | the loop ends after at most timeout/tick + 2 probes; it returns what the key holds `fetch` after the successful probe, or times out after every probe failed and the clock passed the deadline |
| WaitLoop.NoMissedKey | src/cpp/client.cpp:24-42 | a key that arrives by deadline - lag and stays is seen within a poll interval plus lag, and its bytes at the fetch are returned |
| WaitLoop.DelayedPutIsReturned | src/cpp/client.cpp:30-42 | a key that is put in time while the wait is on is returned with the very bytes put |
| WaitLoop.MissedIff | src/cpp/client.cpp:30-41 | a wait for a key put once times out iff some probe precedes the put and its clock reading is past the deadline, and otherwise returns the bytes put |
| WaitLoop.RegularTimeout | src/cpp/client.cpp:30-41 | at which probe and at what time a regular wait for a key that never comes gives up |
| InMemory.StoresHold | example/cpp-exchange/in-mem/proof_of_concept_iface.cpp:32-49 | the insert store holds the first value put since the last delete, the promised store the last |
| InMemory.RefinesIff | example/cpp-exchange/in-mem/proof_of_concept_iface.cpp:37-42 | the two stores agree throughout a history iff every put finds its key absent or holding the same bytes |
| InMemory.PutOnceRefines | include/radex/client_base.hpp:39-43 | they agree on all histories with one put per key between deletes |
| InMemory.OverwriteIgnored | example/cpp-exchange/in-mem/proof_of_concept_iface.cpp:37-42 | a second put of another value is lost |
| InMemory.UnorderedMapClient.PutBytes | example/cpp-exchange/in-mem/proof_of_concept_iface.cpp:37-42 | the object's put is the insert step of its history |
| InMemory.UnorderedMapClient.GetBytes | example/cpp-exchange/in-mem/proof_of_concept_iface.cpp:44-49 | a read finds the first value put since the last delete, or misses |
| WorkflowKeys.NameInjective | example/active-learn/cpp-mpi-with-ddict/simulation.cpp:77-80 | different workflow items have different names |
| WorkflowKeys.DecimalValue | example/active-learn/cpp-mpi-with-ddict/simulation.cpp:77-80 | printed numbers read back as themselves, without leading zeros |
| WorkflowKeys.SimNamesSpelled | example/active-learn/cpp-mpi-with-ddict/simulation.cpp:77-80 | rank before iteration, as both programs spell it |
| WorkflowKeys.TaskNamesSpelled | example/active-learn/cpp-mpi-with-ddict/driver.py:163-164 | query, model and MSE names as both programs spell them |
| WorkflowKeys.CounterNamesSpelled | example/active-learn/cpp-mpi-with-ddict/driver.py:129-162 | the three counters' keys |
| WorkflowKeys.SlotsDistinct | example/active-learn/cpp-mpi-with-ddict/driver.py:162-164 | no two workflow items share a store key, metadata keys included |
| KeyedWorkflow.KeyedRunIsRun | example/active-learn/cpp-mpi-with-ddict/simulation.cpp:77-80 | every run of the simulation on string keys, foreign keys included, is a run on workflow items |
| KeyedWorkflow.WriteRepresented | src/cpp/handles.cpp:12-34 | writing or erasing one string key changes exactly the one item slot it stands for |
| KeyedWorkflow.KeyedRanksAgree | example/active-learn/cpp-mpi-with-ddict/simulation.cpp:36-43 | on string keys all ranks of a launch read the same iteration |
| KeyedWorkflow.KeyedCountedIsPublished | example/active-learn/cpp-mpi-with-ddict/simulation.cpp:82-92 | when the counter's key says k, the four keys of every rank's vectors of every earlier iteration hold complete vectors of one length |
| KeyedWorkflow.KeyedLaunchCorrect | example/active-learn/cpp-mpi-with-ddict/simulation.cpp:36-92 | a launch on string keys never fails and changes exactly the keys of its vectors and counter among the workflow's |
| Simulation.LocalSamples | example/active-learn/cpp-mpi-with-ddict/simulation.cpp:53-74 | a rank's vectors are the query points and its draws, one value each |
| Simulation.PlayInv | example/active-learn/cpp-mpi-with-ddict/simulation.cpp:36-92 | the invariant of every run of any ranks, launches, aborts and foreign writes |
| Simulation.RanksAgree | example/active-learn/cpp-mpi-with-ddict/simulation.cpp:36-43 | every rank reads the number of counter bumps before its launch, which without aborts is the number of completed launches |
| Simulation.CountedIsPublished | example/active-learn/cpp-mpi-with-ddict/simulation.cpp:82-92 | a counter of k means all ranks' vectors of all k iterations are complete |
| Simulation.LaunchCorrect | example/active-learn/cpp-mpi-with-ddict/simulation.cpp:36-92 | a launch with its query points never fails and changes exactly the ranks' vectors and the counter, in any interleaving |
| Simulation.CannotLaunch | example/active-learn/cpp-mpi-with-ddict/simulation.cpp:36-67 | a launch whose counter is no `int`, or is negative, or whose query points are missing publishes nothing: no rank reaches its first write |
| Simulation.LaunchDeterministic | example/active-learn/cpp-mpi-with-ddict/simulation.cpp:36-92 | any two interleavings of a launch end in the same store |
| Simulation.LaunchProgress | example/active-learn/cpp-mpi-with-ddict/simulation.cpp:89-92 | no launch deadlocks at the barrier |
| ActiveLearning.LaunchBoundary | example/active-learn/cpp-mpi-with-ddict/simulation.cpp:82-92 | a launch takes one task boundary to the next |
| ActiveLearning.Dict.Training | example/active-learn/cpp-mpi-with-ddict/driver.py:129-164 | succeeds iff the latest iteration's vectors of all ranks are there with one length, uses all of them, and publishes count, model and its MSE under that iteration; otherwise publishes nothing |
| ActiveLearning.Dict.ActiveLearn | example/active-learn/cpp-mpi-with-ddict/driver.py:181-207 | uses exactly the latest model, if it is there, and publishes query points under its iteration |
| ActiveLearning.Dict.CheckMse | example/active-learn/cpp-mpi-with-ddict/driver.py:222-234 | returns exactly the MSE stored for the latest model and publishes that iteration plus one |
| ActiveLearning.Dict.LearnAndCheck | example/active-learn/cpp-mpi-with-ddict/driver.py:129-234 | after the launch of iteration k: all ranks' samples are used, the model used is the one just trained, the MSE checked is its own, and the next boundary is reached |
| ActiveLearning.Dict.RunLoop | example/active-learn/cpp-mpi-with-ddict/driver.py:249-259 | for any number of iterations, schedules and training results no task reads a missing or mismatched item, and the loop stops at the first iteration whose own MSE meets the criterion |
| RowMajor.UnflatFlat | src/python/src/radex/clients/core.pyx:130-132 | flattening maps indices of a shape to its positions and can be undone |
| RowMajor.FlatUnflat | src/python/src/radex/utils/data.pxd:95-100 | every position belongs to exactly one index |
| RowMajor.FlatOrder | include/radex/client_base.hpp:106-108 | positions follow the indices lexicographically, the last index varying fastest |
| RowMajor.PyPutIff | src/python/src/radex/clients/core.pyx:130-142 | a put is refused iff the array has no dimensions or no elements, and otherwise stores record and elements in row-major order |
| RowMajor.ConstructRefuses | src/python/src/radex/utils/data.pxd:53-100 | a scalar is refused as a rank mismatch, and then exactly the unknown type codes as type errors |
| RowMajor.PyReadBack | src/python/src/radex/utils/data.pxd:88-100 | a tensor put from C or C++ is read from Python with its type, its shape and the first of the elements put |
| RowMajor.PyRoundTrip | src/python/src/radex/clients/core.pyx:121-156 | an array put and read back has its type, shape and every element at its index, for non-empty shapes below 2^31 |
| RowMajor.ConstructIff | src/python/src/radex/utils/data.pxd:88-100 | rebuilding a coherent tensor succeeds iff its product is positive and below 2^31, raises a value error otherwise, and never leaves the data |
| BytesBuffer.OwnershipConserved | src/cpp/bytes_buffer.cpp:10-26 | after any sequence of operations every allocation that a buffer was built around is in exactly one place, once, and no other is anywhere |
| BytesBuffer.UnreleasedIsFreed | src/cpp/bytes_buffer.cpp:15-21 | without a release every allocation that no buffer owns any more was freed, once |
| BytesBuffer.UndestroyedIsHandedOut | src/cpp/bytes_buffer.cpp:23-26 | without destruction and move assignment every such allocation was handed out, once |
| BytesBuffer.NothingLeaks | src/cpp/bytes_buffer.cpp:10-26 | once all buffers are destroyed, every allocation has been freed or handed out, once |
| BytesBuffer.NullHasNoLength | include/radex/detail/bytes_buffer.hpp:18-30 | null buffers keep length 0 |
| BytesBuffer.Owner.Assign | src/cpp/bytes_buffer.cpp:15-21 | move assignment takes the source, frees the old allocation, and does nothing to itself: the pool step `MoveAssign` |
| BytesBuffer.Owner.Release | src/cpp/bytes_buffer.cpp:23-26 | the allocation is handed out and the buffer is empty: the pool step `Release` |

## Left out

- Dragon and SmartRedis backends: their bodies call libraries that are not part of this model; they
  appear only as the abstract store. Dragon's own `wait_for_bytes` (no timeout) is not modelled.
- Environment variables, logging, `std::abort`, real clocks: the poll interval, the deadline and all
  delays are parameters.
- Exception classes and error codes appear as one error datatype; numeric codes are not modelled.
- Python scalars (`construct_scalar`, coercion of Python numbers), `cloudpickle`, the Python and C
  object lifecycles, and the C handle create and destroy functions: easy members.
- Elements are bit patterns of width 4 or 8; floating-point meaning is not used.
- Client.StoreCoherent: covers tensor puts whose element count is the product of their dimensions and
  whose size fits `std::size_t`, as through the C interface; the C++ put accepts any count.
- Simulation.RanksAgree: the counter and the ranks are unbounded; the C++ `int` counter would overflow
  after 2^31 - 1 launches.
- In the simulation, random draws, noise and Gaussian-process results are left out, only lengths remain; a
  rank that throws is a failed rank, and what MPI then does is the event `Abort`.
- ActiveLearning.Dict.RunLoop: tasks other than the simulation run one at a time on values, so only
  the launches interleave; its store is keyed by item slots, and each of its writes is one write of a
  string key by `KeyedWorkflow.WriteRepresented`.
- The five exact conditions of `Guarantees.dfy` speak of the two cells of one handle. Their positive
  halves carry over to the shared store through `SharedStore.OtherHandlesInvisible`, where the main
  ones are restated.
- In the wait, the environment is a function of time, so the store is the same for all that happens at
  one instant.
