# A verified model of the Matter Interaction Model core

This project models, in Dafny, the parts of the Matter SDK that read, report, cache, override,
authorise and write attributes, and proves what they promise.

* **Path expansion** (`PathExpansion`, `EmberIterator`, `DataModelIterator`, `ExpansionTheorems`,
  `ResetTheorems`, `CheckedIterator`). Requested attribute paths with wildcards are expanded over the tree of endpoints,
  clusters and attributes by two resumable iterators: one counts through index tables with wrapping
  sentinels, the other walks the tree by ids. Both are classes whose every operation is proved against one
  cursor over the nested comprehension, and a third class runs them in lockstep.
* **List chunking** (`TlvWriter`, `ListEncoder`, `BufferedRead`, `Wire`, `ListRoundTrip`, `LongLists`,
  `ReportRoundTrip`). A list
  attribute is encoded item by item into packets of limited size, with checkpoints, rollback and reserved
  closing bytes; the reader buffers the pieces and delivers one list. The encoder, the packets, the parser and
  the reader are composed into one round trip, first of one list and then of a whole report in which lists,
  values and failures share packets.
* **Client cache** (`ClusterStateCache`, `VersionFilters`). The client's data versions, pending and
  committed, and the list of version filters that it sends.
* **Overrides** (`OverrideRegistry`). The linked list of attribute overrides with its one-slot cache.
* **Access** (`AccessTypes`, `AccessControl`, `AccessRestriction`). The access control list, its changes
  over whole runs, and the restrictions on top of it.
* **Chunked write responses** (`ChunkedWrite`). Many responses to one list write become one.

`Ids` holds the identifiers that all of them share. Objects that the SDK updates in place are classes; code
that only computes is functions; loops stay loops.

Some promises do not hold of the code as it stands. For each the model keeps the code's behaviour, and says
exactly when the promise holds:

* The index-based iterator never gets past a wildcard path that names an attribute at index 65534 of a
  cluster: the index after it is the sentinel for "not prepared yet", so the attribute is produced again and
  again. `AgreeIffNoCollision` proves that the two iterators agree for ever if and only if no path of the
  request does that; `CollisionWitness` gives a tree and a request where one does.
* The index that is saved between packets is a 16-bit number whose last value means "not started", so a long
  list can arrive with items repeated or never end. In packets of a given capacity, every list that is sent whole
  arrives right if and only if it has at most 65536 items, or its items from index 65534 on do not fit into one
  packet or some item before them does not fit at all (`RoundTripIff`). A list of more than 65534 items can be
  sent at all if and only if that tail does fit, or the whole list does (`CanBeSentIff`). `DefaultRepeats` gives a
  repetition within the default packet capacity. With room for any one item in every packet, chunking ends for all
  lists of a length if and only if it is below 65536 (`EndsIff`).
* A failure status on the path of a buffered list is to take its place. Over every continuation it does if and
  only if the items do not come up again (`FailureSuppressesIff`): without a list operation they come up only by
  leaking, see next; with one, also as the list that is waited for. Even with nothing buffered a list follows a
  failure with a list operation (`StatusSeenAlone`).
* Items are to be delivered under their own path. Items that a plain report or a failure leaves in the buffer are
  delivered under whatever path is waited for when its wait ends, unless a whole list or an error comes first.
  `Leaks` follows the inputs to tell when, `LeaksIff` proves that it tells exactly, and `ItemsUnderAnotherPath` and
  `AppendUnderAnotherPath` show inputs where it happens.
* A list group is lost if the next report is on its own path. Every group is seen if and only if that never
  happens (`AllSeenIff`).
* An error in the middle of a list drops the items but not the path. Whatever is appended afterwards, or
  nothing at all, is then delivered as the list when the report ends or turns to another path. Nothing of it is
  delivered if and only if no list was pending, or the path is reported anew first and what was appended in
  between does not leak (`NothingTruncatedIff`).
* The client cache forgets the requested paths when a request is done, but not a version that is still
  pending. A version that it returns is right if and only if the last data of the cluster was covered by a
  requested path, in every state (`GetVersion`); bracketed reports guarantee that. From every state where a
  version is pending, `StaleVersion` shows a run that returns the old version for new data.
* The registry answers for the pair of invalid ids from a cache entry that means "empty". For every other pair
  the cached answer is the searched one (`Registry.Get`), and `InvalidPairMissed` shows the pair where it is not.
* The limit on access control entries per fabric is checked by a creation for the fabric of the call and by an
  update not at all, while an entry counts for the fabric it names. The limit is kept if and only if no entry is
  brought to a full fabric (`QuotaIff`, with `CreateOverQuota` and `UpdateOverQuota`), and over every run whose
  entries name the fabric of the call (`RunKeepsQuota`).

The source's comparator for requested paths in the client cache is not a strict weak order; the model keeps
them as a mathematical set.

## Model

| member | source | states |
|---|---|---|
| PathExpansion.LookUpEndpoint | src/app/AttributePathExpandIterator-Ember.cpp:76-90 | looking up the id of any enabled endpoint gives back its index |
| PathExpansion.LookUpCluster | src/app/AttributePathExpandIterator-Ember.cpp:92-106 | looking up the id of any cluster of an endpoint gives back its index |
| PathExpansion.LookUpAttribute | src/app/AttributePathExpandIterator-Ember.cpp:108-152 | looking up the id of any listed attribute gives back its index |
| PathExpansion.FirstFromValid | src/app/AttributePathExpandIterator-Ember.cpp:175-259 | the first position at or after any point of the request is a real position of the expansion or its end |
| PathExpansion.SkipClusters | src/app/AttributePathExpandIterator-Ember.cpp:217-250 | clusters that yield nothing can be skipped without changing what comes next |
| PathExpansion.SkipEndpoints | src/app/AttributePathExpandIterator-Ember.cpp:199-252 | endpoints that are disabled or not asked for can be skipped without changing what comes next |
| EmberIterator.UnpreparedIffSticky | src/app/AttributePathExpandIterator-Ember.cpp:108-152 | after an attribute was produced, the index reads as "not prepared" if and only if the path names the attribute just before the sentinel |
| EmberIterator.Iterator.PrepareEndpointIndexRange | src/app/AttributePathExpandIterator-Ember.cpp:76-90 | the prepared range holds every wanted endpoint and nothing before it is wanted |
| EmberIterator.Iterator.PrepareClusterIndexRange | src/app/AttributePathExpandIterator-Ember.cpp:92-106 | the prepared range holds every matching cluster and nothing before it matches |
| EmberIterator.Iterator.PrepareAttributeIndexRange | src/app/AttributePathExpandIterator-Ember.cpp:108-152 | the prepared attribute and global indices are those of a cluster nothing of which was produced yet |
| EmberIterator.Iterator.EmitAttribute | src/app/AttributePathExpandIterator-Ember.cpp:223-248 | produces the next attribute of the cluster in order, listed ones before globals, or reports that none is left |
| EmberIterator.Iterator.ScanClusters | src/app/AttributePathExpandIterator-Ember.cpp:217-250 | resuming in the middle finds the next position within the endpoint, or shows that the next one is past it |
| EmberIterator.Iterator.ScanEndpoints | src/app/AttributePathExpandIterator-Ember.cpp:199-252 | resuming in the middle finds the next position of the path, or shows that the next one belongs to a later path |
| EmberIterator.Iterator.constructor | src/app/AttributePathExpandIterator-Ember.cpp:56-74 | starts at the first position of the whole expansion |
| EmberIterator.Iterator.Next | src/app/AttributePathExpandIterator-Ember.cpp:175-259 | moves exactly one position on, and stays only where the index reads as not prepared; tells whether there is a position |
| EmberIterator.Iterator.Get | src/app/AttributePathExpandIterator-Ember.h:87-91 | gives the path at the current position, with its expanded flag |
| EmberIterator.Iterator.ResetCurrentCluster | src/app/AttributePathExpandIterator-Ember.cpp:154-173 | goes back to the first attribute of the cluster the position is in, and nowhere for a concrete path or at the end |
| EmberIterator.Iterator.ResetTo | src/app/AttributePathExpandIterator-Ember.h:103-106 | starts over at the first position of a new request |
| DataModelIterator.FirstAttributeId | src/app/AttributePathExpandIterator-DataModel.cpp:55-108 | the first attribute id of a cluster is the first of its expansion |
| DataModelIterator.FollowingAttributeId | src/app/AttributePathExpandIterator-DataModel.cpp:55-108 | the id after the k-th of the expansion is the next one, from listed attributes over to globals, or none after the last |
| DataModelIterator.FirstClusterId | src/app/AttributePathExpandIterator-DataModel.cpp:110-135 | the first cluster id is that of the first matching cluster, and nothing in between yields |
| DataModelIterator.FollowingClusterId | src/app/AttributePathExpandIterator-DataModel.cpp:110-135 | the next cluster id is that of the next matching cluster, and nothing in between yields |
| DataModelIterator.EndpointMove | src/app/AttributePathExpandIterator-DataModel.cpp:137-154 | the next endpoint id is that of the next wanted endpoint, and none means that the path is done |
| DataModelIterator.Iterator.TryAttribute | src/app/AttributePathExpandIterator-DataModel.cpp:168-219 | finds the next attribute of the cluster exactly if it has one left |
| DataModelIterator.Iterator.TryCluster | src/app/AttributePathExpandIterator-DataModel.cpp:168-219 | entering a cluster loses no position and leaves fewer clusters |
| DataModelIterator.Iterator.TryEndpoint | src/app/AttributePathExpandIterator-DataModel.cpp:168-219 | entering an endpoint loses no position and leaves fewer endpoints |
| DataModelIterator.Iterator.Search | src/app/AttributePathExpandIterator-DataModel.cpp:168-219 | the endless loop ends, by a lexicographic measure over endpoints and clusters left, at the next position of the path or past it |
| DataModelIterator.Iterator.AdvanceOutputPath | src/app/AttributePathExpandIterator-DataModel.cpp:168-219 | concrete paths come once as they are, wildcard paths position by position |
| DataModelIterator.Iterator.constructor | src/app/AttributePathExpandIterator-DataModel.cpp:26-37 | starts at the first position of the whole expansion |
| DataModelIterator.Iterator.Next | src/app/AttributePathExpandIterator-DataModel.cpp:221-236 | moves exactly one position on, always; tells whether there is a position |
| DataModelIterator.Iterator.Get | src/app/AttributePathExpandIterator-DataModel.h:69-73 | gives the path at the current position, with its expanded flag |
| DataModelIterator.Iterator.ResetCurrentCluster | src/app/AttributePathExpandIterator-DataModel.cpp:156-166 | goes back to the first attribute of the cluster the position is in |
| DataModelIterator.Iterator.ResetTo | src/app/AttributePathExpandIterator-DataModel.h:85-88 | starts over at the first position of a new request |
| ExpansionTheorems.StepTakesOne | src/app/AttributePathExpandIterator-DataModel.cpp:221-236 | one step takes exactly the current path off what remains |
| ExpansionTheorems.StartIsWhole | src/app/AttributePathExpandIterator-Ember.cpp:56-74 | at the start, what remains is the concatenation over the request of the nested comprehension |
| ExpansionTheorems.PathContents | src/app/AttributePathParams.h:59-82 | said with ids only: a requested path with an id left open expands to exactly the existing paths of enabled endpoints that agree with the ids it gives, any other to itself |
| ExpansionTheorems.RequestContents | src/app/AttributePathExpandIterator-Ember.cpp:175-259 | the expansion of a request holds exactly what its paths stand for |
| ExpansionTheorems.NoInvalidIds | src/app/AttributePathExpandIterator-Ember.cpp:175-259 | over a valid tree no produced path carries an invalid id |
| ExpansionTheorems.ExpandAppend | src/app/AttributePathExpandIterator-Ember.cpp:175-197 | paths of the request are expanded one after the other |
| ExpansionTheorems.PathInOrder | src/app/AttributePathExpandIterator-Ember.cpp:199-252 | what a requested path expands to comes in the order of endpoints, clusters, listed attributes and global ones |
| ExpansionTheorems.PathDistinct | src/app/AttributePathExpandIterator-Ember.cpp:199-252 | one requested path never produces the same path twice |
| ExpansionTheorems.RunsAgree | src/app/AttributePathExpandIterator-Checked.cpp:31-63 | over every run of moves and resets on requests without collisions, both iterators are at the same position |
| ExpansionTheorems.MovesExhaust | src/app/AttributePathExpandIterator-DataModel.cpp:221-236 | as many moves as there are paths left exhaust the tree-walking iterator |
| ExpansionTheorems.CollisionNeverEnds | src/app/AttributePathExpandIterator-Ember.cpp:108-152 | with a collision ahead, the index-based iterator never ends |
| ExpansionTheorems.AgreeIffNoCollision | src/app/AttributePathExpandIterator-Checked.cpp:31-96 | the iterators agree however far they are moved if and only if the request has no collision |
| ResetTheorems.ResetRepeats | src/app/AttributePathExpandIterator-Ember.cpp:154-173 | for a path for all attributes, what remains after a reset is the whole current cluster and then what lies behind it; for every other path nothing changes |
| ResetTheorems.ResetResumes | src/app/AttributePathExpandIterator-DataModel.cpp:156-166 | by the numbers of the produced paths: after so many moves and a reset, production goes on from the first path of the current cluster, within the same requested path |
| CheckedIterator.Iterator.CheckOutputsIdentical | src/app/AttributePathExpandIterator-Checked.cpp:65-96 | the process goes on exactly if both are exhausted or both are at the same path with the same flag |
| CheckedIterator.Iterator.Next | src/app/AttributePathExpandIterator-Checked.cpp:31-41 | both move; the comparison decides, and never fails for iterators in step |
| CheckedIterator.Iterator.ResetCurrentCluster | src/app/AttributePathExpandIterator-Checked.cpp:49-55 | both go back; the comparison decides, and never fails for iterators at one position |
| CheckedIterator.Iterator.ResetTo | src/app/AttributePathExpandIterator-Checked.cpp:57-63 | never fails and puts both at the start of the new request |
| CheckedIterator.RunChecked | src/app/AttributePathExpandIterator-Checked.cpp:23-63 | no run of operations on requests without collisions ends the process |
| CheckedIterator.DrainChecked | src/app/AttributePathExpandIterator-Checked.cpp:23-96 | moving both classes over a whole request never ends the process if and only if the request has no collision |
| CheckedIterator.DrainEmber | src/app/AttributePathExpandIterator-Ember.cpp:175-259 | draining ends and yields the nested comprehension, in order, which holds exactly what the requested paths stand for |
| CheckedIterator.DrainDataModel | src/app/AttributePathExpandIterator-DataModel.cpp:221-236 | draining ends and yields the same for every request |
| CheckedIterator.ResumeEmber | src/app/AttributePathExpandIterator-Ember.cpp:154-173 | moving the class so many times, resetting the cluster and draining yields everything from the first path of the cluster on |
| CheckedIterator.ResumeDataModel | src/app/AttributePathExpandIterator-DataModel.cpp:156-166 | the same for the tree-walking class and every request |
| CheckedIterator.CollisionWitness | src/app/AttributePathExpandIterator-Ember.cpp:108-152 | a tree within all table limits and a request with a collision exist |
| TlvWriter.ParseFlat | src/lib/core/TLVWriter.cpp:546-593 | elements that were written one after the other are read back unchanged |
| TlvWriter.PutAllFits | src/lib/core/TLVWriter.cpp:657-830 | writing succeeds whole if the bytes fit, and fails for lack of room if they do not |
| TlvWriter.PutElement | src/lib/core/TLVWriter.cpp:430-445 | copying an element adds exactly its bytes and leaves the open containers as they were, or fails for lack of room |
| ListEncoder.ReportTokens | src/app/AttributeReportBuilder.cpp:22-54 | prepare, value and finish together write exactly one attribute report |
| ListEncoder.HeaderIs | src/app/MessageDef/AttributeDataIB.h:35-40 | before its value a report has the version and the path under their tags, and a null list index for an append |
| ListEncoder.WidthIs | src/lib/core/TLVWriter.cpp:188-200 | an unsigned number takes the fewest of 1, 2, 4 or 8 bytes that can hold it |
| ListEncoder.DecodeReportElem | src/app/AttributeReportBuilder.cpp:22-54 | an attribute report is read back as path, list operation, version and value |
| ListEncoder.AttributeValueEncoder.EncodeAttributeReportIB | src/app/AttributeValueEncoder.h:216-225 | prepare, value and finish write one whole report for the list operation that is set, or fail |
| ListEncoder.AttributeValueEncoder.EncodeListItem | src/app/AttributeValueEncoder.h:167-206 | skips what earlier chunks hold, adds the item whole if it fits, and otherwise leaves no trace of it |
| ListEncoder.AttributeValueEncoder.Encode | src/app/AttributeValueEncoder.h:48-65 | leaves out items of other fabrics when filtering, refuses an undefined fabric, encodes the rest |
| ListEncoder.AttributeValueEncoder.EnsureListStarted | src/app/AttributeValueEncoder.cpp:31-78 | starts the list with its closing bytes reserved, or fails with a fresh state; no check that would end the process fails |
| ListEncoder.AttributeValueEncoder.EnsureListEnded | src/app/AttributeValueEncoder.cpp:80-110 | the reserved bytes always suffice to close the list; partial data is allowed only with at least one item |
| ListEncoder.AttributeValueEncoder.EncodeItems | src/app/AttributeValueEncoder.h:124-146 | for lists of any length takes exactly the longest run of items from the saved index on that fits, and fails at the first that does not; the index is kept in 16 bits |
| ListEncoder.AttributeValueEncoder.EncodeList | src/app/AttributeValueEncoder.h:124-146 | for every budget and every item that may fail: the process never ends, and the packet holds whole reports of the items taken |
| ListEncoder.FitCosts | src/app/AttributeValueEncoder.h:167-206 | what fits behind some items that fit is the rest of what fits |
| ListEncoder.ChunkWriter | src/app/AttributeValueEncoder.cpp:80-110 | a closed chunk is exactly the reports of its items and fits the packet |
| BufferedRead.BufferedReadCallback.BufferData | src/app/BufferedReadCallback.cpp:138-171 | a whole list replaces the buffer, an append extends it, a whole list that is no array fails without a trace |
| BufferedRead.BufferedReadCallback.DispatchBufferedData | src/app/BufferedReadCallback.cpp:173-228 | delivers the buffered list once when another path or the end of the report comes, and not before |
| BufferedRead.BufferedReadCallback.OnAttributeData | src/app/BufferedReadCallback.cpp:230-264 | dispatches, then buffers or forwards, as the abstract reader does |
| BufferedRead.BufferedReadCallback.OnReportEnd | src/app/BufferedReadCallback.cpp:37-47 | the pending list comes before the end of the report |
| BufferedRead.BufferedReadCallback.OnError | src/app/BufferedReadCallback.h:74-78 | drops the buffered items and forwards the error |
| BufferedRead.ReportSeen | src/app/BufferedReadCallback.cpp:230-264 | for every mixed stream, each group of a whole list and its appends is seen as one whole list unless its own path follows directly, everything else as it came, in order |
| BufferedRead.AllSeenIff | src/app/BufferedReadCallback.cpp:173-196 | every group and every other report is seen if and only if no group is directly followed by a report on its own path |
| BufferedRead.StatusSeenAlone | src/app/BufferedReadCallback.cpp:230-264 | in every state, a failure status is followed by a list if and only if it carries a list operation, and by which |
| BufferedRead.LeaksIff | src/app/BufferedReadCallback.cpp:244-257 | over every continuation, left-over items in the buffer change what is delivered exactly if a list that is waited for is ended before a whole list or an error comes |
| BufferedRead.SurfacesIff | src/app/BufferedReadCallback.cpp:173-257 | over every continuation, a list that is waited for comes up exactly if its wait ends before a whole list on its path, or its items leak |
| BufferedRead.FailureSuppressesIff | src/app/BufferedReadCallback.cpp:188-196 | over every continuation, a failure on the path of the group before it suppresses the group if and only if its items do not come up again; without a list operation only a leak brings them up |
| BufferedRead.ItemsUnderAnotherPath | src/app/BufferedReadCallback.cpp:244-257 | the items of a suppressed list are delivered under another path |
| BufferedRead.StepDelivers | src/app/BufferedReadCallback.cpp:173-228 | in every state and for every input, the buffered list is delivered if and only if the report ends or turns to another path |
| BufferedRead.AfterError | src/app/BufferedReadCallback.h:74-78 | everything that can follow an error with a list pending: how long it is waited for, which list is delivered without the items from before, and what stays in the buffer when the path is reported anew |
| BufferedRead.NothingTruncatedIff | src/app/BufferedReadCallback.h:74-78 | over every continuation nothing of the interrupted list or of what is appended to it is delivered if and only if no list was pending, or its path is reported anew before the report ends or turns to another path and the appended items do not leak |
| BufferedRead.AppendUnderAnotherPath | src/app/BufferedReadCallback.cpp:244-257 | an item appended after an error is delivered under another path |
| BufferedRead.ErrorLeavesEmptyList | src/app/BufferedReadCallback.h:74-78 | the next report after an error begins with an empty list exactly if a list was pending and the report does not begin with its path |
| Wire.ReceivedBack | src/app/ReadClient.cpp:787-841 | data and failure reports are read back from the bytes they were written as |
| Wire.StatusTokens | src/app/MessageDef/AttributeStatusIB.h:35-39 | a failure is written as its path and its status under their tags |
| Wire.ReportsReceived | src/app/ReadClient.cpp:826-841 | the bytes of reports are read back as those reports, arrays as whole lists |
| ListRoundTrip.SendChunk | src/app/reporting/Engine.cpp:204-262 | one packet keeps the chunk and its state if partial data is allowed, and is rolled back otherwise; only an item that cannot be encoded makes it fail for another reason than room, and one that heads a packet with room for it always does |
| ListRoundTrip.SendList | src/app/reporting/Engine.cpp:204-267 | successive packets of any sizes hold what the chunks of the filtered list are; a list with an item that cannot be encoded is never sent whole |
| ListRoundTrip.KeptBytesAreReports | src/app/AttributeValueEncoder.h:124-206 | whatever the budget, the bytes of a chunk are whole, closed reports and nothing else |
| ListRoundTrip.DriveReceived | src/app/AttributeValueEncoder.h:124-206 | all packets of a finished list together are groups on its path, the last of which holds the whole list, no item lost or repeated |
| ListRoundTrip.OnlyLastSeen | src/app/BufferedReadCallback.cpp:173-196 | of groups on one path only the last is seen |
| ListRoundTrip.RoundTrip | src/app/AttributeValueEncoder.h:124-206 | for every list, filter and packet sizes under which encoding finishes, the reader gets exactly one whole list: the filtered one, in order |
| ListRoundTrip.DeliveredItems | src/app/AttributeValueEncoder.h:48-65 | said with the fields of items: the list delivered holds, in order and each as often as it occurs, exactly the items that belong to no fabric or to the one that reads, or all without a filter, each with its own contents |
| ListRoundTrip.NoneBadIff | src/app/AttributeValueEncoder.h:48-65 | the list can be encoded if and only if no item it is to hold belongs to the undefined fabric or cannot be encoded |
| ListRoundTrip.RoundTripItems | src/app/AttributeValueEncoder.h:48-65 | the round trip delivers exactly that list |
| ListRoundTrip.RoomyTakes | src/app/AttributeValueEncoder.h:167-206 | a packet with room for the headers and any one item takes at least one new item |
| ListRoundTrip.ChunkingEnds | src/app/AttributeValueEncoder.h:167-206 | with such packets a list of n items is done within max(1, n) packets |
| LongLists.SingleCost | src/app/AttributeValueEncoder.h:124-206 | an item costs as much in a report of its own as in a list that holds nothing else |
| LongLists.LongListRepeats | src/app/AttributeEncodeState.h:34-103 | for every list of more than 65536 items whose tail fits, there are packets within the capacity, one item each but for the tail, under which the reader gets the first 65536 items twice |
| LongLists.CanBeSentIff | src/app/AttributeValueEncoder.cpp:31-78 | in packets of a capacity, a list of more than 65534 items can be finished if and only if it fits into one, or each item before index 65534 fits into one and all from there on fit into one together |
| LongLists.LongListRight | src/app/AttributeEncodeState.h:34-103 | a long list whose tail does not fit arrives right whenever it is finished |
| LongLists.RoundTripIff | src/app/AttributeEncodeState.h:34-103 | in packets of a capacity, a list arrives right whenever it is finished, if and only if it has at most 65536 items or its tail does not fit |
| LongLists.SnugNeverEnds | src/app/AttributeValueEncoder.cpp:31-78 | a list of 65536 items that goes one item to a packet starts over for ever |
| LongLists.EndsIff | src/app/AttributeValueEncoder.cpp:31-78 | with room in every packet chunking ends for all lists of a length if and only if the length is below 65536 |
| LongLists.DefaultRepeats | src/system/SystemConfig.h:808-810 | 65537 one-byte items can arrive with 65536 of them repeated, in packets within the default capacity |
| ReportRoundTrip.SendStatus | src/app/reporting/Engine.cpp:237-252 | a failure is encoded whole in place of the attribute, or left for the next packet if it does not fit |
| ReportRoundTrip.SendList | src/app/reporting/Engine.cpp:204-262 | a list of any items and length is finished, carried on or rolled back, and the packet stays made of whole reports; with room less of the list is left afterwards |
| ReportRoundTrip.SendValue | src/app/AttributeValueEncoder.h:84-89 | a value is encoded whole or not at all, and a failure becomes a status; with room it is done |
| ReportRoundTrip.SendPacket | src/app/reporting/Engine.cpp:155-269 | a packet is filled attribute by attribute until one has to go on in the next; with room less of the report is left afterwards |
| ReportRoundTrip.AllBlocksSeen | src/app/BufferedReadCallback.cpp:230-264 | of whatever was sent, given up and sent again, the reader sees each attribute as it is in the end |
| ReportRoundTrip.ShownValue | src/app/AttributeValueEncoder.h:84-89 | what is seen of a value has its contents, whole or item by item |
| ReportRoundTrip.EachShownIff | src/app/BufferedReadCallback.cpp:230-264 | every attribute of a report is seen exactly once, in order, if and only if no list is directly followed by its own path |
| ReportRoundTrip.SendReport | src/app/reporting/Engine.cpp:112-269 | for all attributes and packet sizes under which the report finishes: lists whole, values as they are, failures in place of what cannot be encoded, each once and in order; with lists shorter than 65536 and room in every packet it finishes within the sum of max(1, n) packets |
| ReportRoundTrip.Transfer | src/app/BufferedReadCallback.cpp:37-264 | the same from the encoder class of one side to the callbacks of the reader class on the other |
| ClusterStateCache.SizeOfAny | src/app/ClusterStateCache.cpp:517-547 | the size of a cluster does not depend on the order of counting |
| ClusterStateCache.ClusterSize | src/app/ClusterStateCache.cpp:517-547 | adds up data, statuses and remembered sizes of all attributes |
| ClusterStateCache.StatusSize | src/app/ClusterStateCache.cpp:29-48 | a status is counted with the bytes it takes as a structure of one-byte numbers |
| ClusterStateCache.ReportSound | src/app/ClusterStateCache.cpp:113-142 | a report of data keeps what committed and pending versions mean and leaves the cluster being reported uncommitted; bracketed, it also keeps the version of all covered data |
| ClusterStateCache.ClusterStateCache.CommitPendingDataVersion | src/app/ClusterStateCache.cpp:240-253 | turns the pending version of the cluster reported last, if valid, into its committed one |
| ClusterStateCache.ClusterStateCache.OnReportBegin | src/app/ClusterStateCache.cpp:231-237 | no cluster is being reported; a report inside a report ends the bracketing |
| ClusterStateCache.ClusterStateCache.OnReportEnd | src/app/ClusterStateCache.cpp:256-259 | commits the last cluster and keeps all versions sound; bracketed, the version of all covered data is committed then |
| ClusterStateCache.ClusterStateCache.FindCovering | src/app/ClusterStateCache.cpp:124-133 | true exactly if a requested path covers the whole cluster |
| ClusterStateCache.ClusterStateCache.UpdateCacheWithData | src/app/ClusterStateCache.cpp:69-179 | the whole new cache: version withdrawn, the previous cluster committed, the new version pending if covered, the data or its size stored; soundness kept |
| ClusterStateCache.ClusterStateCache.UpdateCacheWithStatus | src/app/ClusterStateCache.cpp:144-179 | stores the status or its size and touches no version |
| ClusterStateCache.ClusterStateCache.OnDone | src/app/ClusterStateCache.h:645-649 | forgets the requested paths and keeps all versions; between reports the bracketing is kept |
| ClusterStateCache.ClusterStateCache.ClearEndpoint | src/app/ClusterStateCache.cpp:644-647 | forgets exactly the clusters of the endpoint and keeps versions sound |
| ClusterStateCache.ClusterStateCache.ClearCluster | src/app/ClusterStateCache.cpp:650-661 | forgets exactly the cluster and keeps versions sound |
| ClusterStateCache.ClusterStateCache.ClearAttribute | src/app/ClusterStateCache.cpp:664-682 | forgets exactly the attribute and keeps versions sound |
| ClusterStateCache.ClusterStateCache.GetAttributeState | src/app/ClusterStateCache.cpp:366-385 | what is kept of an attribute, if anything |
| ClusterStateCache.ClusterStateCache.GetVersion | src/app/ClusterStateCache.cpp:438-447 | in every reachable state: none for the cluster being reported; a version is that of the last data of the cluster, settled, if and only if that data was covered; in every bracketed state there is one exactly for covered and settled data, and it is its version |
| ClusterStateCache.StaleVersion | src/app/ClusterStateCache.h:645-649 | from every state with a version pending, finishing the request leads to the old version being returned for uncovered newer data |
| ClusterStateCache.StaleRun | src/app/ClusterStateCache.h:645-649 | a run from a new cache that gets there |
| ClusterStateCache.RunReport | src/app/ClusterStateCache.cpp:231-259 | a whole report of any data, statuses and clearing: of every attribute the last thing told is kept, of every cluster the last data counts, and the bracketing stays |
| ClusterStateCache.RunSessions | src/app/ClusterStateCache.cpp:231-259 | over every run of requests with whole reports, a version is held exactly for the clusters whose last data was covered, it is the version of that data, and none is pending |
| ClusterStateCache.ClusterStateCache.AdmitPaths | src/app/ClusterStateCache.cpp:580-604 | adds exactly the paths for all attributes that meet no path naming an attribute |
| ClusterStateCache.ClusterStateCache.GetSortedFilters | src/app/ClusterStateCache.cpp:502-566 | exactly the committed clusters with data, each once, largest first |
| ClusterStateCache.ClusterStateCache.OnUpdateDataVersionFilterList | src/app/ClusterStateCache.cpp:569-641 | encodes, of exactly the wanted clusters by falling size, the longest prefix that fits, whole filters only; the flag tells whether there is one |
| VersionFilters.AdmittedAlone | src/app/ClusterStateCache.cpp:580-604 | no cluster covered by an admitted path is reached by a path of the request that names an attribute |
| VersionFilters.LeftOutWitness | src/app/AttributePathParams.h:109-132 | a path for all attributes is left out only if there is such a valid cluster |
| VersionFilters.IntersectsIff | src/app/AttributePathParams.h:109-116 | requested paths meet exactly if they ask for an attribute in common |
| VersionFilters.ReachesIff | src/app/AttributePathParams.h:118-132 | a path reaches a cluster exactly if it asks for some attribute there, and covers it exactly if it asks for all |
| VersionFilters.AdmittedIff | src/app/ClusterStateCache.cpp:580-604 | a path is admitted exactly if it leaves the attribute open and shares no attribute with a path that names one |
| VersionFilters.MeetsSpecific | src/app/ClusterStateCache.cpp:584-598 | true exactly if a path of the request that names an attribute meets this one |
| VersionFilters.Sort | src/app/ClusterStateCache.cpp:562-565 | sorts by falling size and keeps every entry as often as it was |
| VersionFilters.WantedSorted | src/app/ClusterStateCache.cpp:606-628 | leaving out clusters that the request does not reach keeps the order |
| VersionFilters.FittingMaximal | src/app/ClusterStateCache.cpp:606-641 | the encoded prefix fits and with one filter more it would not |
| VersionFilters.FiltersReadBack | src/app/MessageDef/DataVersionFilterIBs.cpp:72-85 | the encoded list reads back as the clusters and versions, in order |
| VersionFilters.FilterTokens | src/app/MessageDef/DataVersionFilterIB.h:33-37 | a filter is written as its cluster and its version under their tags |
| VersionFilters.EncodeOne | src/app/MessageDef/DataVersionFilterIBs.cpp:72-85 | one more filter is encoded whole or fails for lack of room |
| VersionFilters.EncodeFilters | src/app/ClusterStateCache.cpp:606-641 | running out of space leaves only whole filters, the longest prefix of the wanted ones |
| OverrideRegistry.OverlapsIff | src/app/AttributeAccessInterface.h:130-150 | two overrides overlap exactly if they answer a lookup in common |
| OverrideRegistry.SearchUnique | src/app/AttributeAccessInterfaceRegistry.cpp:100-129 | without overlaps at most one override matches, and the search finds it |
| OverrideRegistry.SearchNone | src/app/AttributeAccessInterfaceRegistry.cpp:100-129 | the search finds nothing exactly if nothing matches |
| OverrideRegistry.SearchIff | src/app/AttributeAccessInterface.h:130-133 | a search finds an override exactly if it is registered for the cluster and for that endpoint or for all |
| OverrideRegistry.SearchWithout | src/app/AttributeAccessInterfaceRegistry.cpp:28-57 | after a removal a lookup finds what it found before, unless that was removed |
| OverrideRegistry.KeptApart | src/app/AttributeAccessInterfaceRegistry.cpp:28-57 | what is left after a removal has no node twice and no overlap |
| OverrideRegistry.Registry.Unlink | src/app/AttributeAccessInterfaceRegistry.cpp:28-57 | taking a node out joins its neighbours and clears its link |
| OverrideRegistry.Registry.UnregisterMatching | src/app/AttributeAccessInterfaceRegistry.cpp:28-57 | the list surgery equals filtering the sequence, and every removed node has no successor |
| OverrideRegistry.Registry.Unregister | src/app/AttributeAccessInterfaceRegistry.cpp:70-75 | removes exactly the given override, empties the cache, and no other lookup changes |
| OverrideRegistry.Registry.UnregisterAllForEndpoint | src/app/AttributeAccessInterfaceRegistry.cpp:77-82 | removes exactly the overrides that name the endpoint, so that those for all endpoints stay and go on answering, empties the cache and clears the links |
| OverrideRegistry.Registry.Register | src/app/AttributeAccessInterfaceRegistry.cpp:84-98 | adds an override in front exactly if it overlaps none and empties the cache; it then answers exactly its own lookups |
| OverrideRegistry.Registry.Get | src/app/AttributeAccessInterfaceRegistry.cpp:100-129 | the cached lookup is the search of the current list, for all but the pair of invalid ids, and for that pair exactly unless the cache is empty and the search finds something |
| OverrideRegistry.InvalidPairMissed | src/app/AttributeAccessInterfaceCache.h:86-104 | a registered override that the search finds for the pair of invalid ids and the lookup does not |
| AccessControl.IsValid | src/access/AccessControl.cpp:627-701 | true exactly for entries with a fabric, a fitting authentication and privilege, and valid subjects and targets |
| AccessControl.CheckSubjectAgainstCats | src/lib/core/CASEAuthTag.h:162-178 | true exactly if a tag of the subject has the identifier in that version or a later one |
| AccessControl.MatchSubjects | src/access/AccessControl.cpp:423-469 | matches exactly if a listed subject stands for the one who asks, and fails only on an entry that validation refuses |
| AccessControl.MatchTargets | src/access/AccessControl.cpp:471-500 | matches exactly if some target hits the request |
| AccessControl.MatchEntry | src/access/AccessControl.cpp:401-512 | matches exactly on authentication, privilege, subject and target, and fails only on an entry that validation refuses |
| AccessControl.GrantedIff | src/access/AccessControl.cpp:52-71 | an entry grants exactly the privileges that are at or under its own in the order View under ProxyView and Operate, Operate under Manage, Manage and ProxyView under Administer |
| AccessControl.CarriesIff | src/lib/core/CASEAuthTag.h:162-178 | a subject carries a tag exactly if one of its tags has the same identifier and the same version or a later one, put together from identifier and version |
| AccessControl.AllowedIff | src/access/AccessControl.cpp:401-512 | access at a privilege takes exactly an entry that matches in everything and has that privilege or one above it |
| AccessControl.ValidEntryIff | src/access/AccessControl.cpp:627-701 | what an entry must be to be stored, by its fields |
| AccessControl.AccessControl.CheckACL | src/access/AccessControl.cpp:352-513 | whatever the list holds, only a matching entry grants; on valid entries access is given if and only if some entry matches in fabric, authentication, subject and target and has the privilege or one above it |
| AccessControl.OrderDoesNotMatter | src/access/AccessControl.cpp:401-512 | the answer is the same for every order of entries |
| AccessControl.MoreEntries | src/access/AccessControl.cpp:401-512 | a list that has every entry of another grants all that the other grants |
| AccessControl.LowerPrivileges | src/access/AccessControl.cpp:52-71 | a grant at a privilege is a grant at every privilege under it |
| AccessControl.ValidEntriesNeverGrant | src/access/AccessControl.cpp:627-701 | valid entries never let a group administer, nor grant anything to a subject without authentication or fabric |
| AccessControl.PositionFinds | src/access/examples/ExampleAccessControlDelegate.cpp:454-479 | an index relative to a fabric finds that entry of the fabric, and nothing past the last |
| AccessControl.RemovedOne | src/access/examples/ExampleAccessControlDelegate.cpp:1086-1112 | removal by relative index takes that entry of the fabric and no other |
| AccessControl.UpdatedOne | src/access/examples/ExampleAccessControlDelegate.cpp:1077-1084 | update by relative index replaces that entry of the fabric, or takes it from there if the new entry names another fabric |
| AccessControl.RunNeverGrants | src/access/AccessControl.cpp:223-279 | after every run of changes all entries are valid, no group administers and no unauthenticated subject is let in |
| AccessControl.CreatingNeverRevokes | src/access/AccessControl.cpp:223-247 | no run of creations takes access away |
| AccessControl.OtherFabricsKept | src/access/AccessControl.cpp:223-279 | a change of one fabric leaves the entries of every other alone, unless it brings in an entry naming it |
| AccessControl.ChangedCount | src/access/AccessControl.cpp:223-279 | how many entries every fabric has after every change that succeeds |
| AccessControl.QuotaIff | src/access/AccessControl.cpp:223-257 | a change keeps a fabric within its limit if and only if it does not bring an entry to a fabric that is full |
| AccessControl.CreateOverQuota | src/access/AccessControl.cpp:223-247 | a creation for one fabric that fills another over its limit |
| AccessControl.UpdateOverQuota | src/access/AccessControl.cpp:249-257 | an update that moves an entry to a fabric that is full |
| AccessControl.RunKeepsQuota | src/access/AccessControl.cpp:223-279 | over runs whose entries name the fabric of the call no fabric exceeds its limit |
| AccessControl.AccessControl.GetEntryCount | src/access/examples/ExampleAccessControlDelegate.cpp:994-1009 | the number of entries of the fabric |
| AccessControl.AccessControl.ConvertIndex | src/access/examples/ExampleAccessControlDelegate.cpp:454-479 | the position of the entry with that relative index, the end if there is none |
| AccessControl.AccessControl.RelativeIndex | src/access/examples/ExampleAccessControlDelegate.cpp:454-479 | the index that leads to the position within the fabric of the entry there |
| AccessControl.AccessControl.CreateEntry | src/access/AccessControl.cpp:223-247 | adds a valid entry at the end within both limits and returns the index that leads to it, otherwise the right error and no change |
| AccessControl.AccessControl.UpdateEntry | src/access/AccessControl.cpp:249-257 | replaces that entry of the fabric by a valid one, or takes it from there if the new one names another fabric; all other fabrics stay; otherwise the right error and no change |
| AccessControl.AccessControl.DeleteEntry | src/access/AccessControl.cpp:259-279 | removes that entry of the fabric and leaves all others, otherwise an error and no change |
| AccessControl.AccessControl.DeleteAllEntriesForFabric | src/access/AccessControl.h:585-604 | deleting backwards removes all entries of the fabric without error and keeps all others in order |
| AccessControl.AccessControl.CheckARL | src/access/AccessControl.cpp:516-546 | an unknown request type is refused; otherwise the restrictions of the fabric or of commissioning decide |
| AccessControl.AccessControl.Check | src/access/AccessControl.cpp:335-350 | access is given if and only if the list grants it and no restriction stands against it |
| AccessRestriction.GlobalAttributesStayOpen | src/access/AccessRestrictionProvider.cpp:187-208 | no restrictions ever stop access to a global attribute |
| AccessRestriction.MoreRestrictions | src/access/AccessRestrictionProvider.cpp:176-229 | a list with every restriction of another stops all that the other stops |
| AccessRestriction.CheckEntry | src/access/AccessRestrictionProvider.cpp:176-229 | true exactly if a restriction of the entry applies to the request |
| AccessRestriction.DoCheck | src/access/AccessRestrictionProvider.cpp:146-232 | for known types with an entity denies if and only if the path is restrictable and a stored restriction applies; the other cases answer as specified |
| AccessRestriction.DeniedIff | src/access/AccessRestrictionProvider.cpp:146-232 | for each kind of request which restrictions deny it, on which clusters and endpoints, and when the request is refused as invalid |
| AccessTypes.IdsIff | src/lib/core/DataModelTypes.h:97-144 | which ids are valid clusters, valid device types and global attributes, by vendor and suffix |
| AccessRestriction.AccessRestrictionProvider.SetCommissioningEntries | src/access/AccessRestrictionProvider.cpp:74-93 | all or nothing; everything stored stays restrictable |
| AccessRestriction.AccessRestrictionProvider.SetEntries | src/access/AccessRestrictionProvider.cpp:95-120 | all or nothing for one fabric, other fabrics untouched; everything stored stays restrictable and belongs to its fabric |
| AccessRestriction.AccessRestrictionProvider.Check | src/access/AccessRestrictionProvider.cpp:141-144 | decides by the entries of the fabric; a fabric without any gets an empty list |
| ChunkedWrite.GroupsSplit | src/app/ChunkedWriteCallback.cpp:24-55 | the groups split the responses, in order and without loss: a group is a response and the appends on its path that follow it, and the next group begins with anything else |
| ChunkedWrite.AnsweredSuccess | src/app/ChunkedWriteCallback.cpp:24-55 | a group is answered with success exactly if a plain or whole-list write opened it and all its responses succeeded |
| ChunkedWrite.AnsweredFailure | src/app/ChunkedWriteCallback.cpp:24-55 | any other answer is on the path of the group and is its first failure, or a general failure if an item was written on its own |
| ChunkedWrite.ChunkedWriteCallback.IsAppendingToLastItem | src/app/ChunkedWriteCallback.cpp:78-89 | true exactly for an append on the path being collected |
| ChunkedWrite.ChunkedWriteCallback.OnResponse | src/app/ChunkedWriteCallback.cpp:24-55 | keeps the first failure of a group and answers a group when another begins |
| ChunkedWrite.ChunkedWriteCallback.OnDone | src/app/ChunkedWriteCallback.cpp:62-76 | answers the open group, then reports the end and starts afresh |
| ChunkedWrite.ChunkedWriteCallback.Exchange | src/app/ChunkedWriteCallback.cpp:24-76 | a whole exchange, with errors in between, does what the specified run does |
| ChunkedWrite.ToldSoFar | src/app/ChunkedWriteCallback.cpp:24-60 | at every moment of an exchange exactly the groups that another response has ended are answered, in order, and all errors told |
| ChunkedWrite.OneAnswerPerGroup | src/app/ChunkedWriteCallback.cpp:24-89 | over every exchange the application gets exactly one answer for each group and every error, in order, and then, once and last, the end |

## Left out

- ReportRoundTrip.SendReport: of a list of more than 65536 selected items it only says that items of the list arrive in one list, because `RoundTripIff` shows that they can be repeated; data version filters, dirty paths and events of a report are not modelled.
- ListEncoder.AttributeValueEncoder.EncodeList: the second call on one encoder, which the source forbids, and a list that changes between packets.
- ClusterStateCache.ClusterStateCache.UpdateCacheWithData: allocation failures, which return before anything changes, and the set of changed attributes for the notifications at the end of a report.
- ClusterStateCache.ClusterStateCache.UpdateCacheWithStatus: the set of changed attributes for the notifications at the end of a report.
- TlvWriter.ParseFlat: the byte layout of TLV; elements are written and read as tokens with sizes, and a write that does not fit leaves torn bytes.
- TlvWriter.PutAllFits: the second length limit of the TLV writer, which the report engine leaves unlimited, and its checks of tags.
- TlvWriter.PutElement: errors of the reader that an element is copied from.
- AccessControl.AccessControl.CreateEntry: the notification of entry listeners.
- AccessControl.AccessControl.UpdateEntry: the notification of entry listeners.
- AccessControl.AccessControl.DeleteEntry: the notification of entry listeners.
- AccessRestriction.AccessRestrictionProvider.SetCommissioningEntries: the notification of listeners.
- AccessRestriction.AccessRestrictionProvider.SetEntries: the notification of listeners.
- The report engine and the read client: only what they keep or roll back of a packet, and how they mark an array as a whole list.
- Events, attribute change notifications and the callbacks behind the client cache.
- Access control before `Init` and after `Finish`, entry handles whose getters fail, and the storage limits on subjects and targets of one entry.
- The answer of an access control delegate that decides by itself is a parameter; so is which device types are on which endpoint.
- Listener lists of access control and access restrictions, `Dump`, logging and global singletons.
- Session set-up, command handling, device information and the tools around the SDK.
