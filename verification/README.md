# Live-measurement transport: a verified model

qimchi-connect lets a running measurement be watched from other processes. A producer registers
a snapshot callback with an in-process server and writes a discovery row into a shared table;
viewers find the row, poll the server and rebuild the dataset. This project models that
transport and proves what it promises. Four parts follow the four source files:

- **The snapshot cache** (`server.py`). `SnapshotCache` holds the shared state of the server, as a
  value with one function for each uninterrupted piece of code and as the object whose methods
  are proved against those functions. `CacheProtocol` interleaves requests, registering threads,
  the run's own appends, clock ticks, cancellations and restarts. `CacheProvenance`, `CacheLocks`
  and `CacheSpacing` carry the three inductive invariants, `CacheTheorems` the results,
  `CacheFreshness` where every answer comes from, and `CacheLimits` the run that shows why spacing
  needs its hypothesis.
- **Incremental row snapshots** (`server.py`, `protocol.py`). `Datasets` and `Rows` hold row-major
  datasets, slicing and the frontier, and `Frontiers` says what the frontier is among items and
  bits; `Incremental` holds the server's answer and the client's merge (which the original's own
  README leaves to the caller); `Merging` proves the merge exact, `EndToEnd` joins it to the cache
  over whole histories of one following client, `Copies` says item by item what that client then
  holds, and `OverTheWire` puts the wire between.
- **The wire** (`protocol.py`). `Values`, `Base64` and `Markers` hold the marker codec, `Attributes`
  which values come through it; `Framing` and `FramingTheorems` the frame; `Payloads` the way from
  datasets to headers and back; `Decoding` what any message at all decodes to; `WireTheorems`,
  `WholeDatasets` and `Deltas` the round trips. The text of headers is any encoder
  and decoder with one law, that decoding an encoded header without repeated keys gives it back;
  `HeaderText` builds one, so the law can be met.
- **Discovery and publication** (`registry.py`, `producer.py`). `Registry` holds the table and the
  meaning of a pass, `RegistryStore` the object with its loops, `RegistryTheorems` and `Grace` the
  results about single passes and whole runs. `Publication` puts producers and passing processes
  on one table; `Producer` holds the locked sections of registering and closing, and
  `ProcessSafety` joins the two.

`Limits` holds concrete inputs on which stronger claims fail.

Clock readings, what endpoints answer, whether a write to the registry succeeds, and the host and
port of a started server are parameters. Registry times count microseconds; floating-point numbers
are a sign, a mantissa and an exponent, or one of the three special values.

Where code and comments disagree the model follows the code:

- `_note_unreachable` says the elapsed time counts from the last answer
  (src/qimchi_connect/registry.py:448-449); it counts from the first failed round after it.
- `_partial_snapshot` takes a request for too many rows as the sign of another run
  (src/qimchi_connect/server.py:309-311); another run with at least as many rows as the client
  holds is not noticed, so the results about merging assume one run.
- `unpack_snapshot` says it raises when sizes do not match (src/qimchi_connect/protocol.py:279-280);
  surplus bytes are accepted.
- `_cached_snapshot` says at most one build runs for each measurement
  (src/qimchi_connect/server.py:410); two can once the lock has been dropped.

## Model

| member | source | states |
|---|---|---|
| SnapshotCache.LiveServer.InvalidateSnapshot | src/qimchi_connect/server.py:125-140 | Opens an epoch and drops the entry and the lock of one identifier only |
| SnapshotCache.LiveServer.RegisterSnapshotProvider | src/qimchi_connect/server.py:143-175 | A blank identifier changes nothing; any other gets its provider and an invalidation |
| SnapshotCache.LiveServer.UnregisterSnapshotProvider | src/qimchi_connect/server.py:178-188 | Removes the provider and invalidates even when none was registered |
| SnapshotCache.LiveServer.BindLock | src/qimchi_connect/server.py:430-434 | Returns a lock bound to the caller's loop, a new one only when none or another loop's was stored |
| SnapshotCache.LiveServer.StoreSnapshot | src/qimchi_connect/server.py:448-463 | Stores exactly when epoch and provider are those of admission |
| SnapshotCache.LiveServer.ClearSnapshotCache | src/qimchi_connect/server.py:531-540 | A restart empties cache and locks and keeps providers and epoch |
| CacheProtocol.OthersUntouched | src/qimchi_connect/server.py:404-464 | No step changes a request other than its own |
| CacheProvenance.InvKept | src/qimchi_connect/server.py:404-464 | Every step keeps: the epoch determines the provider map, every entry is its epoch's provider's work, every answer its admitted provider's |
| CacheProvenance.InvAlways | src/qimchi_connect/server.py:104-122 | The same in every reachable state |
| CacheLocks.InvKept | src/qimchi_connect/server.py:430-436 | Every step keeps: requests whose fetches no drop separates hold one lock, and a held lock excludes |
| CacheLocks.BuildsOverlapOnlyAcrossADrop | src/qimchi_connect/server.py:430-447 | Two builds of a measurement run together on one loop only if its lock was dropped between their lock fetches |
| CacheLocks.OnOneLoopBuildsOverlapOnlyAcrossInvalidation | src/qimchi_connect/server.py:430-447 | When one loop fetches the locks of a measurement, that drop is an invalidation of the same measurement or a restart |
| CacheLocks.LocksAreNotLeaked | src/qimchi_connect/server.py:436-464 | In every reachable state a held lock belongs to a request inside its critical section, failures and cancellations included |
| CacheSpacing.InvKept | src/qimchi_connect/server.py:436-463 | Every step keeps: a store follows its own lock fetch, stays while the cache is not cleared, and is known to every request that found the same lock and may still store |
| CacheTheorems.AdmissionKept | src/qimchi_connect/server.py:618-631 | Over any stretch of a run requests keep identifier, provider and epoch, epochs only open, and states of a measurement stay on record |
| CacheTheorems.AnswersComeFromTheAdmittedProvider | src/qimchi_connect/server.py:404-464 | Hit or built, an answer is a real state of the provider found at admission; a hit was stored in that epoch less than the TTL before the check. The next two rows say which |
| CacheFreshness.FreshAnswersAreTheProvidersLast | src/qimchi_connect/server.py:445-464 | A request that builds answers with what its own call of the provider returned after its admission: the last state the run had at that moment, never an older entry |
| CacheFreshness.HitsAreStoredBuilds | src/qimchi_connect/server.py:448-463 | A hit is what a request for the same measurement and epoch stored at the time the hit carries, and had from its own call of the provider |
| CacheFreshness.LookThenDecide | src/qimchi_connect/server.py:436-443 | An entry of the request's epoch younger than the TTL is its answer; otherwise, and only then, it builds |
| CacheFreshness.LocksAreNewAfterRegistration | src/qimchi_connect/server.py:125-140 | A lock fetched for a measurement after its registration or removal is none that an earlier request holds or awaits |
| CacheTheorems.CacheHoldsOnlyCurrentProviders | src/qimchi_connect/server.py:448-463 | In every reachable state each cached entry was built by the provider registered now |
| CacheTheorems.LateBuildsAreNotStored | src/qimchi_connect/server.py:451-455 | A build finishing after any registration or removal leaves the server state as it is |
| CacheTheorems.RegistrationHidesEveryEntry | src/qimchi_connect/server.py:104-107 | The epoch is global: no earlier entry, of any identifier, answers a request admitted after a registration |
| CacheTheorems.EpochTestDecides | src/qimchi_connect/server.py:452-455 | In every reachable state the epoch test alone decides whether a result is stored |
| CacheTheorems.CloseStoresWereParted | src/qimchi_connect/server.py:430-463 | Two builds of a measurement stored in one epoch less than the TTL apart were parted: by two loops, by a restart or another loop's fetch between their lock fetches, or by a cleared cache between the stores |
| CacheTheorems.StoredBuildsAreApart | src/qimchi_connect/server.py:430-463 | On one loop, in an epoch without a restart after the first lock fetch, stored builds of a measurement are at least the TTL apart |
| CacheTheorems.StoredBuildsAreFew | src/qimchi_connect/server.py:430-463 | Of those builds, the ones stored between any two times number at most one for each TTL, and one |
| CacheLimits.RestartBreaksSpacing | src/qimchi_connect/server.py:792-803 | A reachable state with two stores of one epoch at the same time: a restart after the first lock fetch is enough, even before both stores |
| Rows.AppendDimMeaning | src/qimchi_connect/protocol.py:125-146 | The append dimension is the one dimension that comes first in every data variable, if there is one |
| Rows.RowFrontier | src/qimchi_connect/protocol.py:149-186 | The loop with its early return computes the frontier, whose meaning down to items and bits the rows on `Frontiers` give |
| Rows.FrontierMeaning | src/qimchi_connect/protocol.py:149-186 | The frontier is the one count that is least with nothing finite beyond it, or the full size if some variable cannot be probed |
| Frontiers.FiniteMeaning | src/qimchi_connect/protocol.py:180-182 | What counts as finite: the exponent bits of the little-endian IEEE 754 number are not all ones, in both parts of a complex one |
| Frontiers.FrontierByPosition | src/qimchi_connect/protocol.py:149-186 | With a common leading dimension, some item of the row before the frontier is finite and no item of any later row, by the items' positions |
| Frontiers.FrontierOfUnprobed | src/qimchi_connect/protocol.py:174-178 | One integer or boolean data variable along the dimension makes every row count |
| Frontiers.ItemWidths | src/qimchi_connect/protocol.py:292-296 | Item sizes agree with the bit widths of the dtypes, and exactly floats and complex numbers can be probed |
| Frontiers.SizeMeaning | src/qimchi_connect/protocol.py:169-171 | The size of a dimension is that of every variable that has it, and zero if none has |
| Rows.FrontierIgnoresOrder | src/qimchi_connect/protocol.py:174-186 | Variables in another order, and so an early return elsewhere, give the same frontier |
| Rows.FrontierBounded | src/qimchi_connect/protocol.py:170-186 | No more rows are written than there are |
| Rows.SliceItems | src/qimchi_connect/server.py:323 | Which item of the whole array each item of a slice is |
| Incremental.RowCountsOrdered | src/qimchi_connect/server.py:314-330 | rows_from <= rows_written <= rows_total in every answer, and the test against the total never decides |
| Merging.MergeVarExact | src/qimchi_connect/server.py:323 | For one variable the merge is the first rows exactly when the copy held the rows before the delta |
| Merging.RespondsPartially | src/qimchi_connect/server.py:314-330 | A request for rows up to the frontier is answered with the slice of written rows it lacks; `Copies.AnswerByPosition` says which items those are |
| Merging.MergeExact | src/qimchi_connect/server.py:291-339 | The merged copy is the slice of written rows if and only if the copy agreed with the snapshot on the rows it asked from; `Copies.IselByPosition` says which items that slice has |
| Copies.IselByPosition | src/qimchi_connect/server.py:323-324 | A slice keeps, of each variable with the dimension, the items of its rows by position, and every other variable and all attributes as they are |
| Copies.AnswerByPosition | src/qimchi_connect/server.py:291-339 | An answer is the whole snapshot from row zero, or, exactly when the client holds some rows and no more than are written, the items of the rows from there to the frontier |
| Merging.DeltaBytesFollow | src/qimchi_connect/server.py:323-339 | The bytes of the first rows followed by the delta's bytes are the bytes of the written rows |
| Merging.DeltaBytesJoin | src/qimchi_connect/server.py:323-339 | On any axis the written rows' bytes are the held bytes and the delta's bytes joined block by block |
| EndToEnd.ReceivedExact | src/qimchi_connect/server.py:628-637 | An answer about any snapshot of the run, older or newer than the copy's, leaves an exact copy of it; a lost one leaves the client as it was; rows it has are sent again only if it has more than the snapshot |
| EndToEnd.InvKept | src/qimchi_connect/server.py:577-645 | Every move of server, run, other clients or this client, lost answers included, keeps the copy exact |
| EndToEnd.EveryPollIsExact | src/qimchi_connect/server.py:577-645 | After every answered poll of a history the copy equals the slice of written rows, or all, of the snapshot used, a state the run really had, also when the run starts empty |
| Copies.EveryCopyByPosition | src/qimchi_connect/server.py:577-645 | The same item by item: the copy is the snapshot used, or has its attributes, every variable without the append dimension as it is, and of every other one the items of the first `rows_written` rows |
| OverTheWire.EveryDecodedPollIsExact | src/qimchi_connect/client.py:205-222 | The same, item by item too, with every answer serialized, framed, unpacked and rebuilt |
| OverTheWire.PollArrivesExactly | src/qimchi_connect/client.py:205-222 | A poll's answer is merged exactly when its header can be framed and the shapes of what is sent survive nesting, otherwise the client stays as it was; when the whole snapshot's shapes do, only an empty delta with nested rows is lost |
| Limits.CompletedRowsAreNotResent | src/qimchi_connect/protocol.py:180-185 | A row completed after it was counted is not sent to a client asking from that count |
| Base64.RoundTrip | src/qimchi_connect/protocol.py:89-90 | Decoding encoded bytes gives them back, whatever the padding |
| Markers.RoundTrip | src/qimchi_connect/protocol.py:68-122 | Decoding an encoded value gives its normal form if and only if no dictionary of that form has a marker as its only key; `Attributes` says which values are their own normal form |
| Attributes.ComesBackExactly | src/qimchi_connect/protocol.py:68-122 | A value comes back as itself if and only if it is made of plain values, complex numbers, bytes, lists and dictionaries with distinct text keys, none with a marker as its only key |
| Attributes.OwnNormalForm | src/qimchi_connect/protocol.py:68-122 | Exactly those values are their own normal form, and every normal form is one |
| Values.SurvivorsMeaning | src/qimchi_connect/protocol.py:95-96 | Of the keys of a dictionary each text survives once, in order of first appearance, with the position of its last |
| Attributes.FieldsEncoded | src/qimchi_connect/protocol.py:95-96 | An encoded dictionary has one field for each key text, in that order, with the value of the last key of that text |
| Attributes.DistinctFieldsEncoded | src/qimchi_connect/protocol.py:95-96 | With distinct key texts every field is encoded in its place |
| Decoding.MarkersExactly | src/qimchi_connect/protocol.py:101-122 | A complex number or bytes come out of an object with the marker as its one key and of nothing else |
| Markers.WalkOfNested | src/qimchi_connect/protocol.py:79-84 | Converting nested lists element by element is nesting the converted elements |
| Markers.PlainShortcutAgrees | src/qimchi_connect/protocol.py:80-83 | The shortcut for numeric and boolean arrays gives what the element walk gives |
| Markers.CompatibleKeys | src/qimchi_connect/protocol.py:95-96 | Every object produced has distinct keys |
| Framing.LengthRoundTrip | src/qimchi_connect/protocol.py:27-31 | The four-byte length is read back whatever follows it |
| Framing.UnpackSnapshot | src/qimchi_connect/protocol.py:284-306 | The offset loop computes the unpacked message; its offset is always the sum of shape product times item size over the earlier variables |
| FramingTheorems.FramingRoundTrip | src/qimchi_connect/protocol.py:244-306 | Packing succeeds exactly when the header is shorter than 2^32 bytes, and unpacking then gives header and every array back, with any bytes appended |
| FramingTheorems.CutMessagesAreRejected | src/qimchi_connect/protocol.py:288-303 | A message cut anywhere in its blob is rejected as truncated at the variable the cut hits, with its size, offset and remaining bytes |
| Decoding.UnpackExactly | src/qimchi_connect/protocol.py:284-306 | Any bytes are unpacked exactly when they hold a length, a header and as many bytes as its arrays take, each array read at the sum of the lengths before it; otherwise the error names the first that is missing |
| FramingTheorems.FilledGet | src/qimchi_connect/protocol.py:291-305 | Under distinct names every array is found under its own, and JSON content stays |
| FramingTheorems.ItemsOfBytes | src/qimchi_connect/protocol.py:300-302 | Cutting the bytes of items into items of their size gives the items back |
| HeaderText.LawfulTextExists | src/qimchi_connect/protocol.py:259-286 | A witness that the law assumed of the header text can be met: some encoding of headers, not JSON text, decodes all it encodes |
| Payloads.SnapshotPayload | src/qimchi_connect/protocol.py:210-241 | The loop over the variables fills the two dictionaries of the payload in order |
| Payloads.RebuildInOrder | src/qimchi_connect/protocol.py:352-371 | A rebuilding loop gathers the variables that have content, or stops at the first error |
| Payloads.MeasurementFromSnapshot | src/qimchi_connect/protocol.py:309-383 | The three loops compute the rebuilt measurement |
| Decoding.RebuiltExactly | src/qimchi_connect/protocol.py:331-373 | One variable for each listed name with content, in order; undeclared dimensions default to the coordinate itself, or to all coordinates for a data variable of that rank |
| Decoding.AttributedExactly | src/qimchi_connect/protocol.py:380-382 | Attributes reach the variables of their name only, and entries under unknown names are skipped even if they do not decode |
| Decoding.MeasurementExactly | src/qimchi_connect/protocol.py:309-383 | Whatever is rebuilt from any message has the listed names, dimensions, content and attributes, an axis name for every axis and sizes in agreement |
| WireTheorems.InferredExact | src/qimchi_connect/protocol.py:348-351 | The shape read off nested lists is the original exactly when no dimension before the last is empty |
| WireTheorems.NestedBack | src/qimchi_connect/protocol.py:79-84 | Nested complex items come back in order, with the shape nesting keeps |
| WireTheorems.ComplexArrives | src/qimchi_connect/protocol.py:331-351 | A complex variable is decoded to its items and the shape nesting keeps |
| WholeDatasets.RebuildExact | src/qimchi_connect/protocol.py:309-383 | Rebuilding gives the dataset back if and only if its shapes survive nesting, and fails otherwise |
| WholeDatasets.WholeDatasetRoundTrip | src/qimchi_connect/protocol.py:189-383 | What fits in a frame arrives with its header and is rebuilt as the same dataset, attributes included, if and only if its shapes survive nesting |
| Deltas.SlicedSendable | src/qimchi_connect/server.py:323-324 | Slicing rows of a sendable dataset leaves a sendable dataset |
| Deltas.DeltaRoundTrip | src/qimchi_connect/server.py:323-339 | An incremental answer arrives and is rebuilt exactly, unless it is empty and a complex variable keeps its rows before its last dimension |
| Deltas.DecodedExactly | src/qimchi_connect/client.py:205-222 | A client decodes the server's own answer exactly when its header can be framed and its shapes survive nesting, and nothing otherwise |
| Deltas.DecodedMergeExact | src/qimchi_connect/client.py:205-222 | Decoded and merged, the copy is the written rows if and only if it held the snapshot's rows before |
| Limits.EmptyComplexDeltaIsLost | src/qimchi_connect/protocol.py:348-351 | A dataset that arrives whole but whose empty delta cannot be rebuilt |
| RegistryStore.Store.RegisterMeasurement | src/qimchi_connect/registry.py:164-200 | Replaces the whole row with a live one, so heartbeat and miss stamp are forgotten |
| RegistryStore.Store.EndMeasurement | src/qimchi_connect/registry.py:203-222 | Ends the row under the identifier, whoever wrote it, and no other |
| RegistryStore.Store.Heartbeat | src/qimchi_connect/registry.py:225-243 | Stamps the row, live or not, and creates none |
| RegistryStore.Store.UpdateMeasurementPath | src/qimchi_connect/registry.py:246-264 | Changes the path only |
| RegistryStore.Store.NoteUnreachable | src/qimchi_connect/registry.py:444-477 | The first miss stamps and reports zero, later ones leave the stamp and report the time since |
| RegistryStore.Store.NoteReachable | src/qimchi_connect/registry.py:480-492 | Clears the miss stamp |
| RegistryStore.Store.ListLive | src/qimchi_connect/registry.py:296-307 | Every live row once, newest first |
| RegistryStore.Store.GetLiveMeasurements | src/qimchi_connect/registry.py:310-361 | Exactly the live rows whose heartbeat has not stopped, once each, newest first |
| RegistryStore.Store.AskEndpoint | src/qimchi_connect/registry.py:582-593 | The retry loop returns the first answer and counts the attempts up to it |
| RegistryStore.Store.SettleHeard | src/qimchi_connect/registry.py:561-579 | The first loop settles the rows with a heartbeat and groups the others by endpoint, each once |
| RegistryStore.Store.SettleEndpoint | src/qimchi_connect/registry.py:594-609 | The inner loop settles the rows of one endpoint by its answer or silence, as `PassDecides` and `PassKeeps` spell out |
| RegistryStore.Store.ReconcileLiveMeasurements | src/qimchi_connect/registry.py:495-610 | Fails exactly on invalid arguments, then changing nothing; otherwise the result lists, each once, exactly the live rows that must be ended by their heartbeat, else by the first answer of their endpoint, else by the time unanswered, and only endpoints of rows without a heartbeat are asked, until they answer |
| RegistryStore.Store.CleanupOldMeasurements | src/qimchi_connect/registry.py:410-441 | Deletes exactly the ended rows whose end, in whole seconds, lies before the cutoff, and counts them |
| RegistryStore.Store.MaintainRegistry | src/qimchi_connect/registry.py:613-654 | A pass and then the deletion, succeeding exactly on valid arguments; a negative retention is noticed only after the pass has been made |
| RegistryTheorems.PassIsIdempotent | src/qimchi_connect/registry.py:561-610 | Repeating a pass with the same clock and answers changes nothing and ends nothing |
| RegistryTheorems.PassDecides | src/qimchi_connect/registry.py:561-609 | Every live row: with a heartbeat ended if and only if it is before the cutoff; without, by the first answer, ended if and only if not listed; without an answer, if and only if the time since the miss stamp, zero if unset, is at least the grace |
| RegistryTheorems.PassKeeps | src/qimchi_connect/registry.py:561-609 | A pass writes nothing else than the end stamp of a row it ends and the miss stamp of a row it keeps, cleared by a beat or an answer and set by the first silence |
| RegistryTheorems.LiveMeansListed | src/qimchi_connect/registry.py:339-361 | After a pass the rows still live are those listed at its cutoff, they are the live rows it did not end, other rows are untouched, and only a silent endpoint of a row without a heartbeat leaves a miss stamp |
| RegistryTheorems.AttemptsExact | src/qimchi_connect/registry.py:582-593 | At most `retries` attempts, none after the first answer, all of them when there is none |
| RegistryTheorems.DeletionBounds | src/qimchi_connect/registry.py:426-441 | Every deleted row ended before the cutoff, and every row ended a second or more before it is deleted |
| RegistryTheorems.CleanedExactly | src/qimchi_connect/registry.py:428-441 | A row is left exactly if it is live, has no end stamp, or ended in the cutoff's second or later, and is left as it is |
| RegistryTheorems.EndedRowsGo | src/qimchi_connect/registry.py:203-222 | A row ended by its producer or by a pass is deleted by every cleanup whose cutoff is a second or more past the end stamp |
| RegistryTheorems.MaintenanceKeeps | src/qimchi_connect/registry.py:646-654 | Maintenance deletes no row that was live, nor one it just ended when the deletion falls within the retention of the stamp |
| Grace.MissStampIsFirstFailure | src/qimchi_connect/registry.py:444-492 | In every run the miss stamp of a live row without a heartbeat is the time of the first failed round since its latest registration or answering round |
| Grace.UnreachableExactly | src/qimchi_connect/registry.py:606-609 | At a failed round such a row is ended if and only if that first failure is at least the grace ago |
| Grace.TwoFailuresEnd | src/qimchi_connect/registry.py:606-609 | Two failed rounds a grace apart with no answer between end the row |
| Grace.AnswerRestarts | src/qimchi_connect/registry.py:595-602 | A failed round less than the grace after an answer does not |
| Publication.NotEndedBeforeClosing | src/qimchi_connect/producer.py:538-574 | Advertised before its insert, left alone and beaten for in time, a publication is live and listed after every move, whatever passes any process makes |
| Publication.PunctualMeansInTime | src/qimchi_connect/registry.py:27-32 | Beats at most `stale_after` apart, the first within the grace of the insert, are in time at every pass with such a window |
| Publication.OverdueIsEnded | src/qimchi_connect/registry.py:568-573 | The first pass that finds the latest beat too old ends it |
| Publication.InsertFirstIsUnsafe | src/qimchi_connect/producer.py:538-549 | With the insert before the advertising, a pass can end a punctual publication |
| Producer.OneMoreEffect | src/qimchi_connect/producer.py:417-421 | An insert while served, or an end when no longer served, keeps the order of effects |
| Producer.InsertFollowsAdvertising | src/qimchi_connect/producer.py:538-549 | What is served was registered with no removal since |
| Producer.Process.Close | src/qimchi_connect/producer.py:410-423 | Keeps the invariant; a late close of a replaced handle touches nothing of its successor; a failed end write leaves the handle unclosed |
| Producer.Process.StartServer | src/qimchi_connect/server.py:779-803 | A start, successful or not, clears cache and locks first; a running server is left alone |
| Producer.Process.Announce | src/qimchi_connect/producer.py:538-553 | Serve, start, insert; the whole server state after it, cache and locks included; a failed start or insert takes the provider back and writes no row |
| Producer.Process.Publish | src/qimchi_connect/producer.py:538-575 | A publication is kept exactly when announced, also when the first beat fails; it fails with the first of four failures that applies, touches no other row and no other handle |
| Producer.Process.Register | src/qimchi_connect/producer.py:513-575 | Keeps the invariant that registered and served identifiers are the same; states the row, the handle and exactly when it fails and with what; other rows change only by maintenance |
| Producer.Process.Maintain | src/qimchi_connect/producer.py:518-536 | Sweeps the registry with the default windows before publishing, or leaves it when it cannot be swept |
| Producer.SweepDecides | src/qimchi_connect/registry.py:23-32 | Maintenance leaves a live row live exactly if it has beaten within fifteen seconds, or has no beat and is listed by its endpoint within two attempts or unanswered for less than a minute |
| Producer.PortsTellEndpointsApart | src/qimchi_connect/producer.py:543-545 | On one host two endpoints are the same exactly when their ports are |
| Producer.Process.GetRegistration | src/qimchi_connect/producer.py:578-591 | The current, unclosed handle of the identifier, if there is one |
| Producer.Process.CloseById | src/qimchi_connect/producer.py:594-612 | Closes what is published under the identifier, if anything is |
| Producer.Process.constructor | src/qimchi_connect/producer.py:513-516 | The invariant holds at the start |
| Producer.Interleave | src/qimchi_connect/producer.py:410-612 | Over any interleaving of registrations, lookups and closes, failing starts and writes included, registered and served identifiers agree and effects are only added; if every end write succeeds the unclosed handles are exactly the current ones |
| Producer.UnclosedYetNotCurrent | src/qimchi_connect/producer.py:417-422 | A failing end write leaves an unclosed handle that is not the current one |
| ProcessSafety.OpenMeansLive | src/qimchi_connect/producer.py:538-574 | Among all processes' moves, whatever a process has inserted and not yet withdrawn is live and listed while it beats in time |
| ProcessSafety.RegisteredMeansLive | src/qimchi_connect/producer.py:538-575 | Whatever is registered with a process is live in the shared table and listed by its endpoint, whatever passes any process makes, while it beats in time |
| ProcessSafety.EndFollowsWithdrawing | src/qimchi_connect/producer.py:418-421 | A process ends a row only after withdrawing its measurement |

## Left out

- CacheTheorems.StoredBuildsAreApart: assumes one loop in the epoch and no restart after its first lock fetch for the measurement; `CloseStoresWereParted` is free of both, and `RestartBreaksSpacing` shows that such a restart does harm.
- CacheLocks.BuildsOverlapOnlyAcrossADrop: a cancelled request's build, which runs on in its worker thread, is not counted as in flight.
- CacheLocks.OnOneLoopBuildsOverlapOnlyAcrossInvalidation: the same.
- EndToEnd.EveryPollIsExact: assumes one run under the identifier, and that rows below a frontier above zero stay as they are in every other state that has an append dimension; `CompletedRowsAreNotResent` shows the second is needed.
- Merging.DeltaBytesFollow: plain concatenation is stated for the leading axis, where the append dimension of every data variable is; a coordinate that has it elsewhere is covered by `DeltaBytesJoin`.
- Markers.RoundTrip: Base64 text outside the alphabet is an error, where Python's decoder skips it; complex parts given as integers are converted without rounding.
- WholeDatasets.WholeDatasetRoundTrip: variables are plain or complex; date, byte-string and object variables, `binary=False`, and names that only become equal as strings are not covered. A dtype without the item size its name implies is not represented, nor are byte orders.
- WholeDatasets.RebuildExact: the same variables.
- HeaderText.LawfulTextExists: says nothing of the JSON encoder itself, whose text is not modelled.
- Payloads.SnapshotPayload: the binary form, for plain and complex variables.
- Payloads.RebuildInOrder: as `MeasurementFromSnapshot` below.
- Payloads.MeasurementFromSnapshot: nested JSON of a declared dtype other than complex is an error, where NumPy would convert it.
- Publication.NotEndedBeforeClosing: a pass is one atomic move. In the code another process can replace a row between a pass's query and its end write, which is keyed on the identifier alone.
- Producer.Process.Register: a maintenance pass that fails midway, a server stopped between registrations, and the heartbeat thread's start and stop are not modelled; beats after the first are moves of the environment.
- Producer.Process.CloseById: looks up and closes with nothing in between; in `Interleave` other sections run between a lookup and the close of its handle, as in the code.
- RegistryStore.Store.NoteUnreachable: a stored stamp that is no time, for which the code reports zero.
- RegistryStore.Store.ListLive: start times compare as times, where the query compares their texts.
- RegistryStore.Store.GetLiveMeasurements: the same order.
- RegistryStore.Store.ReconcileLiveMeasurements: other processes write before or after the pass, not during it.
- RegistryStore.Store.CleanupOldMeasurements: rounding of time stamps to milliseconds inside SQLite.
- Sockets, port reservation, thread start and stop, and the client's connections: calls into libraries.
- SQLite, schema migration, paths and environment variables: the table is a map, each transaction one step.
- Single-precision complex numbers, extended-precision floats, JSON as characters, UTF-8, NaN payloads, and the range of machine integers in shapes.
- `since_rows` of a wrong type or below zero, unknown actions and missing identifiers: answered before any state is read.
- `get_data`, `get_zarr_array`, `update_live_disk_path` and the listing of all rows: single lookups.
- The framework providers and their throttle: foreign libraries, and a simpler case of spacing.
- Waiting order of asyncio locks: any waiting request may take a free lock.
