# Verification of the NFC class extension

A Dafny model of the NFC class extension (`Cx/`), with proofs of what its stateful parts
keep over whole runs. `dafny verify dfyconfig.toml` checks everything.

## What is modelled

| file | what it models |
|---|---|
| `ListEntries.dfy` | intrusive circular doubly linked lists (`LIST_ENTRY`), their insertions, removals and traversals |
| `MessageTypes.dfy` | the names under which clients publish and subscribe, their analysis, and what it means for sending |
| `Publications.dfy` | when a publication must be sent, and the order of queueing and sending, on plain sequences |
| `NfpInterface.dfy` | the publication side of the NFP interface on its linked lists: `PubsList`, `SendList`, references, drain, send worker |
| `SendProtocol.dfy` | the same send path as a transition system whose steps are the sections under `PubsLock`, `SubsLock` and `StateLock`; client threads, connection handlers and the worker interleave freely |
| `Subscriber.dfy` | one subscription client: bounded queue, pended request, length-prefixed copy, overflow handshake, unresponsive-client timer |
| `Distribution.dfy` | the three subscription lists and the distribution of events to all clients |
| `Atr.dfy` | the ATR of a contactless card: the encoder in place, and a decoder written from the standards |
| `SmartCard.dfy` | the smart card reader as a state machine over its `SmartCardLock` sections |
| `ScInterface.dfy` | the handlers of that reader, updating fields in place, each tied to its step |
| `Sequences.dfy` | sequences of asynchronous entries with skip, repeat and override: a meaning, the engine that knows sequences by address, and when the two agree |
| `StateInterface.dfy` | the state interface that starts the sequences: event queue, transitions, chained events, the state tables |
| `SecureElements.dfy` | the secure-element list, the sequence that turns all elements off, recovery of host card emulation |
| `RemoteDevices.dfy` | the remote-device list and the preference for peer-to-peer targets |
| `Sockets.dfy` | the list of DTA sockets as the table of valid handles; verification and use of a handle as separate sections |
| `RoutingTable.dfy` | validation and conversion of the DTA routing table |
| `Codecs.dfy`, `Bytes.dfy` | EVT_TRANSACTION event data and the block it is written into, packed service names, little-endian lengths |
| `Options.dfy` | a value that may be absent |

What the environment decides (libnfc's answers, allocation, flags of the client driver,
timer expiry, whether a write succeeds) is a parameter of the step it decides.

## Where a property fails, and exactly when it holds

- An overflowed pended request. The timer is stopped without waiting for a callback that
  was already dispatched, so a late callback can mark the client unresponsive while its
  request is pended; the next overflowing event is then announced and dropped. It is kept
  whatever the timer does exactly when no callback was in flight
  (`Subscriber.PendedOverflowIsKeptExactly`); a new client can come to lose an event so
  (`Subscriber.LateCallbackLosesEvent`).
- A disabled client that reaches the head of `SendList` stays recorded as the current
  client: the assertion at the next dequeue fails exactly then, and the client is not
  queued again until another one is taken (`SendProtocol.CurrentClientAssertions`,
  `SendProtocol.SkippedClientIsStarved`). It happens with two clients
  (`SendProtocol.DequeueAssertionFails`).
- A P2P publication can reach a tag through two interleavings: a run all of whose steps
  satisfy `SendProtocol.Guarded` misdirects none
  (`SendProtocol.NoP2pPublicationReachesATag`), and every step that does not, in every
  reachable state, can be continued to a misdirected write (`SendProtocol.UnguardedStepMisdirects`).
  Both interleavings occur from the initial state, for every P2P publication
  (`SendProtocol.P2pPublicationReachesATag`). With atomic handlers and worker iterations
  every step satisfies the guard. A tag publication can reach a P2P peer even then, since a
  lost tag does not drain `SendList` (`SendProtocol.TagPublicationReachesP2p`).
- Every name that starts with NfcBarcode is taken for a barcode publication, so that one
  ending in :WriteTag does not go to a tag; every other such name does
  (`MessageTypes.PublicationKindExactly`).
- A client that asks loses nothing that is queued, whatever its timer does, exactly when no
  callback was in flight (`Subscriber.RequestStopsTimerExactly`); one that does not ask is
  drained (`Subscriber.SilentClientIsDrained`).
- The ATR frame is well formed exactly when there are at most 15 historical bytes, all that
  T0 can count; a type A card may supply more (`Atr.AtrDecodesExactly`).
- The cached ATR can differ from a recomputed one after a protocol switch, exactly for the
  lists that `SmartCard.Ambiguous` describes (`SmartCard.CacheAgreesExactly`): a MIFARE
  entry behind a first entry of another kind of storage card (`SmartCard.AmbiguousExactly`).
  Every list can be discovered (`SmartCard.EveryListIsDiscovered`).
- A connected card of an unsupported type counts as a storage card without a storage-card
  object, against the assertion in the ATR read (`SmartCard.NoFaultExactly`).
- Recovery keeps host card emulation exactly when discovery of secure elements is enabled
  or the host was off (`SecureElements.RecoveryKeepsHostModeExactly`,
  `SecureElements.RecoveryIsSafeExactly`).
- Initialisation turns off every secure element in the list, but one that libnfc holds
  stays on when the enumeration is skipped: all are off exactly when it was not skipped or
  none was on (`SecureElements.InitializeTurnsAllOff`, `SecureElements.InitializeIsSafeExactly`).
- By its own interface, which lets a start override a suspended sequence, the sequence
  engine is not safe: resume messages and callbacks name an address, which may be that of a
  new sequence, the callbacks of the two LLCP operations resume whatever is current, and so
  does a redo of the initialisation. A new sequence has exactly one thing that can resume it
  if and only if nothing is on its way to its address and no such operation is in flight
  (`Sequences.OneResumerExactly`). Every sequence completes as it means in all runs whose
  starts are not `Sequences.Spoilable` (`Sequences.CompletesAsItMeans`), and in every
  reachable state of the engine each spoilable start can be continued to a wrong completion
  of the very sequence it starts (`Sequences.SpoilableStartMisleads`); all kinds are
  reachable (`Sequences.SpoilableStartsAreReachable`). The state interface makes no such
  start: over every run of it each sequence is started with none current and nothing
  outstanding (`StateInterface.EveryStartIsQuiet`), so that every sequence completes as it
  means, unconditionally (`StateInterface.SequencesRunAsTheyMean`).
- The state interface comes to rest in a state that only a running sequence leaves exactly
  when the sequence of that state's handler cannot be started for want of memory
  (`StateInterface.RestsSettledExactly`); from a failed initialisation or shutdown no event
  leads out (`StateInterface.StuckForEver`, `StateInterface.NoMemoryIsStuck`).
- A queued publication can be left without a worker. It is attended until the worker stops
  at a failed P2P write, or the work item runs while nothing is connected, with no other
  wake-up left, and not after the first such step
  (`SendProtocol.QueuedClientsAreAttendedExactly`). Both happen
  (`SendProtocol.FailedWriteStrands`, `SendProtocol.LostTagStrands`).
- The event data is called BER-TLV in the code, but its length byte is plain: a reader of
  the basic encoding rules recovers it exactly when both fields are at most 127 bytes long
  (`Codecs.BerReaderAgreesExactly`).
- The DTA interface writes the Transaction event into a block of 24 bytes, the header size
  of another structure. Its own header leaves 8 bytes of that on a 64-bit build and 12 on a
  32-bit one. The record stays in the block, and a client recovers both fields, exactly when
  the fields fit; an AID of 7 to 16 bytes never does on a 64-bit build
  (`Codecs.DeliveredExactly`, `Codecs.LongAidIsLost`). The secure-element interface, which
  allocates by the fields' sizes, delivers them always (`Codecs.EventDataRoundTrip`).
- The dispatcher checks neither the number of packed service names against the byte that
  counts them nor their lengths against the request. The walk ends inside the request
  exactly when there are at most 255 names and that many are packed there
  (`Codecs.WalkNames`, `Codecs.NamesExactly`). The byte counter of the routing-table loop is
  safe behind the validated bound (`RoutingTable.ConvertEndsExactly`).
- When the copy of a remote device cannot be allocated, the list is cleared although the
  entries behind it were not filled. It is harmless exactly for the last entry
  (`RemoteDevices.LibNfcContext.SetRemoteDevList`).
- A socket handle is verified in one section and used in another. It is used for the socket
  it was verified for in every run in which no handle is closed while another thread has
  verified it (`Sockets.VerifiedHandlesStayLive`), and each such close can be followed by
  the use of a dead handle (`Sockets.UnguardedCloseFaults`).
- When only the error queue of a new socket cannot be set up, libnfc's own handle is left in
  the output of the failed request (`Sockets.DtaInterface.LlcpSocketCreate`).

## Model

| member | source | states |
|---|---|---|
| `ListEntries.IsListEmpty` | Cx/NfcCxNFP.cpp:1338-1341 | a link points to itself exactly when it is alone in its ring: emptiness of a head, membership of an entry |
| `ListEntries.InsertHeadList` | Cx/NfcCxNFP.cpp:1350-1351 | the ring stays a well-formed cycle both ways, with the entry first |
| `ListEntries.InsertTailList` | Cx/NfcCxDTAInternal.cpp:1616-1618 | the ring stays a well-formed cycle both ways, with the entry last |
| `ListEntries.RemoveEntryList` | Cx/NfcCxNFP.cpp:1388-1393 | the ring stays a well-formed cycle without the entry, which is found by nobody: neither head nor position is needed |
| `ListEntries.RemoveHeadList` | Cx/NfcCxNFP.cpp:1672-1675 | gives the first entry and leaves the ring without it |
| `ListEntries.EntryList.Follow` | Cx/NfcCxNFP.cpp:875-880 | a traversal by Flink meets the records in order and comes back to the head after the last |
| `ListEntries.EntryList.PushFront` | Cx/NfcCxNFP.cpp:1234-1235 | the list's records gain the new one in front and nothing else changes |
| `ListEntries.EntryList.PushBack` | Cx/NfcCxDTAInternal.cpp:1736-1738 | the list's records gain the new one behind and nothing else changes |
| `ListEntries.EntryList.Remove` | Cx/NfcCxDTAInternal.cpp:1647-1649 | the list's records lose exactly the one removed, order kept |
| `ListEntries.EntryList.PopFront` | Cx/NfcCxDTA.cpp:334-338 | the list's records lose the first, which is given back |
| `Publications.MustSendExactly` | Cx/NfcCxNFP.cpp:1454-1475 | a publication must be sent iff it is enabled, its kind fits the connected peer, and there is something to send |
| `MessageTypes.AnalyzeIsInverse` | libs/Proximity/lib/NfcProximityBuffer.cpp:379-573 | for every publication: a name is analysed as a kind with its type iff it is the name of that kind and type; so no two share a name, and every name is accepted |
| `MessageTypes.PublicationKindExactly` | Cx/fileObject.h:204-213 | for every accepted name, a publication may go to a tag iff the name is SetTagReadOnly or ends in :WriteTag ahead of any type, and makes a tag read-only iff it is SetTagReadOnly |
| `MessageTypes.MustSendByName` | Cx/NfcCxNFP.cpp:1454-1475 | a publication must be sent iff it is enabled, the connected peer is a tag iff the name asks for one, and there is something to send or the name is SetTagReadOnly |
| `MessageTypes.SubscriptionKindExactly` | libs/Proximity/lib/NfcProximityBuffer.cpp:379-573 | for every accepted name, a subscription is for arrivals, departures or writable tags iff it has the one name for that, and never for writing |
| `MessageTypes.RecordSubscriptions` | libs/Proximity/lib/NfcProximityBuffer.cpp:474-525 | a subscription to records of one type is taken for that type |
| `Publications.DelistRemoves` | Cx/NfcCxNFP.cpp:1361-1394 | removal from a list without repetition takes out that client and no other |
| `Publications.VerifyAllOrder` | Cx/NfcCxNFP.cpp:850-882 | one pass yields the reverse of the newly wanted clients in front of the old list |
| `Publications.RegistrationOrderIsSendOrder` | Cx/NfcCxNFP.cpp:1207-1236 | through two head insertions newly wanted publications stand in registration order, so the worker takes the oldest first |
| `Publications.EnabledQueueIsAttemptedInOrder` | Cx/NfcCxNFP.cpp:1660-1728 | with enabled clients the worker attempts a prefix in order, ending at the first client at which it must stop, the whole queue on a tag; its assertions hold |
| `Publications.CountIsNoDuplicates` | Cx/NfcCxNFP.cpp:1338-1341 | at most one place per client is the same as a list without repetition |
| `NfpInterface.NfpInterface.constructor` | Cx/NfcCxNFP.cpp:54-163 | empty lists, nothing connected, nothing current |
| `NfpInterface.NfpInterface.OpenClient` | Cx/fileObject.cpp:24-447 | a new publication client is enabled and in neither list |
| `NfpInterface.NfpInterface.AddPublicationClientLocked` | Cx/NfcCxNFP.cpp:1209-1236 | registration at the head of PubsList |
| `NfpInterface.NfpInterface.AddSendClientLocked` | Cx/NfcCxNFP.cpp:1310-1357 | queued in front, once, with one reference taken; never for a read-only publication |
| `NfpInterface.NfpInterface.RemoveSendClientLocked` | Cx/NfcCxNFP.cpp:1361-1394 | afterwards not queued, its reference dropped iff it was |
| `NfpInterface.NfpInterface.IsQueued` | Cx/NfcCxNFP.cpp:1338-1341 | a client's own link tells whether it is in SendList |
| `NfpInterface.NfpInterface.VerifyStateAndSendPublicationLocked` | Cx/NfcCxNFP.cpp:1482-1546 | queued iff eligible, not current, not queued, and the worker was scheduled |
| `NfpInterface.NfpInterface.VerifyAndSendPublication` | Cx/NfcCxNFP.cpp:850-882 | the walk of PubsList gives SendList = reverse(PubsList filtered by wanted and not queued) ++ old SendList, with the reference count of every client in step |
| `NfpInterface.NfpInterface.DrainSendList` | Cx/NfcCxNFP.cpp:1031-1045 | the drain on P2P loss empties SendList and drops each queued client's reference |
| `NfpInterface.NfpInterface.Dequeue` | Cx/NfcCxNFP.cpp:1665-1682 | the head leaves SendList, becomes current, its reference is the worker's; the assertion holds iff nothing was current |
| `NfpInterface.NfpInterface.Finish` | Cx/NfcCxNFP.cpp:1719-1725 | nothing is current afterwards |
| `NfpInterface.NfpInterface.Dereference` | Cx/NfcCxNFP.cpp:1727 | the reference taken at queueing is dropped once |
| `NfpInterface.NfpInterface.WorkerTurn` | Cx/NfcCxNFP.cpp:1660-1728 | one turn takes the head, attempts it iff enabled, tells it iff the write succeeds, stops iff a P2P write failed, and leaves a skipped client current |
| `NfpInterface.NfpInterface.CheckIfReadOnlyTagPublicationsExist` | Cx/NfcCxNFP.cpp:926-966 | true iff some registered client asks for the tag to be made read-only |
| `NfpInterface.NfpInterface.CompleteReadOnlyRequests` | Cx/NfcCxNFP.cpp:1549-1590 | exactly the read-only clients are told, in the order of PubsList |
| `NfpInterface.NfpInterface.SendWorker` | Cx/NfcCxNFP.cpp:1623-1749 | the loop terminates; exactly the clients up to the first failing P2P write are taken, the enabled ones attempted in order, the rest stays queued in order; then a connected tag is made read-only iff a client asks for it and it can be; told are in order exactly the clients sent and then those that asked for it |
| `NfpInterface.NfpInterface.PubsDistinct` | Cx/NfcCxNFP.cpp:1209-1236 | no client is registered twice |
| `NfpInterface.NfpInterface.QueueDistinct` | Cx/NfcCxNFP.cpp:1338-1351 | no client is queued twice |
| `SendProtocol.StepKeepsInv` | Cx/NfcCxNFP.cpp:1310-1394 | every section of every thread keeps, for each client, references = place in SendList + worker's hands, and the lifetime of what is referenced |
| `SendProtocol.ReferencesAreConserved` | Cx/NfcCxNFP.cpp:1034-1045 | over every interleaving: references taken less dropped = [in SendList] + [in the worker's hands]; no client listed twice |
| `SendProtocol.PublicationStays` | Cx/fileObject.cpp:1104-1180 | over every interleaving a client keeps its kind, and its payload once it has one |
| `SendProtocol.ClientSettings` | Cx/fileObject.cpp:962-1180 | a first payload is taken, and a client is enabled or disabled as it asks, with nothing else of it changed |
| `SendProtocol.VerifyQueuesExactly` | Cx/NfcCxNFP.cpp:1482-1546 | a verification puts the client in front iff it is enabled, of the kind of the connected peer, with something to send, not current, not queued and not read-only; and schedules the worker iff it is due |
| `SendProtocol.FileCloseEnds` | Cx/fileObject.cpp:474-632 | the sections of a file close can follow each other unless the worker has the client; then it is destroyed, in no list and unreferenced, and no other client is touched |
| `SendProtocol.QueuedClientsOutliveTheirPlace` | Cx/fileObject.cpp:474-632 | over every interleaving with file close: what is queued or being sent is not destroyed, and no freed buffer is sent |
| `SendProtocol.CurrentClientAssertions` | Cx/NfcCxNFP.cpp:1677-1723 | the assertion after a write always holds; the one at a dequeue holds iff the client taken before was not skipped |
| `SendProtocol.SkippedClientIsStarved` | Cx/NfcCxNFP.cpp:1686-1691 | a skipped client is not queued again before another is dequeued, whatever happens |
| `SendProtocol.DequeueAssertionFails` | Cx/NfcCxNFP.cpp:1677-1691 | from the initial state, with two P2P publications, a run leads to a dequeue whose assertion fails |
| `SendProtocol.QueuedClientsAreAttendedExactly` | Cx/NfcCxNFP.cpp:1514-1530 | over every interleaving a queued client has a scheduled, waiting or running worker until the last wake-up is spent on a failed P2P write or with nothing connected, and has none after the first such step |
| `SendProtocol.ServedExactly` | Cx/NfcCxNFP.cpp:1650-1728 | in every reachable state with clients queued, the worker by itself can take the first iff it goes on, a callback is past its look at DeviceConnected, or the work item is queued and a device is connected |
| `SendProtocol.WorkerEmptiesTheQueue` | Cx/NfcCxNFP.cpp:1660-1728 | a worker that goes on, left alone, empties the queue and ends, when its writes succeed |
| `SendProtocol.FailedWriteStrands` | Cx/NfcCxNFP.cpp:1705-1711 | from the initial state a failed P2P write leaves the client behind it without a worker |
| `SendProtocol.LostTagStrands` | Cx/NfcCxNFP.cpp:1653-1656 | from the initial state a tag that is lost before the work item runs leaves a queued publication without a worker |
| `SendProtocol.NoP2pPublicationReachesATag` | Cx/NfcCxNFP.cpp:1693-1715 | outside two interleavings no P2P publication is ever written to a tag, over every run |
| `SendProtocol.TagsGetWhatIsNamedForThem` | Cx/NfcCxNFP.cpp:1460-1473 | the same by name: outside the two interleavings, whatever is written to a tag was published under a name that asks for one |
| `SendProtocol.AtomicHandlersAreGuarded` | Cx/NfcCxNFP.cpp:1010-1050 | runs with atomic handlers and worker iterations contain neither interleaving |
| `SendProtocol.LossUnderTheWorkerMisdirects` | Cx/NfcCxNFP.cpp:661-672 | first interleaving: link lost while the worker has the publication leads to a misdirected write |
| `SendProtocol.QueueingInHalfDoneChangeMisdirects` | Cx/NfcCxNFP.cpp:1502-1530 | second interleaving: queueing a P2P publication during a half-done connection change leads to a misdirected write, whatever the worker is doing |
| `SendProtocol.UnguardedStepMisdirects` | Cx/NfcCxNFP.cpp:1454-1475 | the exclusion is exact: in every reachable state each excluded step can be continued to a write of a P2P publication to a tag |
| `SendProtocol.LossUnderTheWorkerHappens` | Cx/NfcCxNFP.cpp:1665-1693 | the first interleaving occurs from the initial state, for every P2P publication |
| `SendProtocol.QueueingInHalfDoneChangeHappens` | Cx/NfcCxNFP.cpp:1482-1546 | the second occurs too, within a tag's arrival and within the loss of a P2P link |
| `SendProtocol.P2pPublicationReachesATag` | Cx/NfcCxNFP.cpp:1693-1715 | through either, a P2P publication of any kind and size is written to a tag in a run from the initial state |
| `SendProtocol.StaleTagPublicationReachesP2p` | Cx/NfcCxNFP.cpp:794-818 | the converse direction fails: a queued tag publication outlives its tag and goes to a P2P peer |
| `SendProtocol.TagPublicationReachesP2p` | Cx/NfcCxNFP.cpp:794-818 | such a write happens from the initial state, with atomic handlers, for a tag publication of any kind |
| `Subscriber.CopyAnnouncesLength` | Cx/NfcCxNFP.cpp:457-525 | success or overflow, the first four bytes are the payload length; success iff the buffer has four more bytes than that |
| `Subscriber.CopySubscriptionData` | Cx/NfcCxNFP.cpp:457-525 | the copy in place is that result, and the rest of the buffer is untouched |
| `Subscriber.ApplyKeepsInv` | Cx/NfcCxNFP.cpp:2139-2225 | at most one pended request, at most 50 queued, and a pended request implies an empty queue and a stopped timer |
| `Subscriber.SettledInOrder` | Cx/NfcCxNFP.cpp:700-750 | over every run: queued ++ accepted = settled ++ queued, in order; what was settled with the client is what its requests carried |
| `Subscriber.DeliveryIsFifo` | Cx/NfcCxNFP.cpp:2151-2185 | without a timer callback, accepted events = delivered payloads ++ queued payloads |
| `Subscriber.OverflowThenRetry` | Cx/NfcCxNFP.cpp:2151-2185 | an overflow announces the head's length and changes nothing; the first request with room gets exactly that payload whatever came between |
| `Subscriber.RequestStopsTimerExactly` | Cx/NfcCxNFP.cpp:2147-2152 | after a request, whatever is queued, no run of the timer drains the queue or marks the client unresponsive, iff no callback was in flight |
| `Subscriber.AskingLosesNothing` | Cx/NfcCxNFP.cpp:2151-2185 | over every run of requests and timer steps that begins with a request, what was queued is delivered or still queued, in order |
| `Subscriber.SilentClientIsDrained` | Cx/fileObject.cpp:1301-1356 | the counterpart: an event left queued starts the timer; when it runs out the queue and later events are dropped, until the client asks again |
| `Subscriber.WaitingAndEnabling` | Cx/NfcCxNFP.cpp:2139-2225 | one request waits at a time, a cancelled one gets nothing, and a disabled client gets nothing but keeps its queue |
| `Subscriber.FiftyWait` | Cx/NfcCxNFP.cpp:704-750 | events are queued up to the fiftieth and no further |
| `Subscriber.PendedOverflow` | Cx/NfcCxNFP.cpp:587-610 | an overflowed pended request learns the length and its event takes the head of the queue iff the client is not marked unresponsive |
| `Subscriber.PendedOverflowIsKeptExactly` | Cx/fileObject.cpp:1301-1356 | that event is kept whatever the timer does iff no callback was in flight when the request was pended, or no payload can overflow it |
| `Subscriber.LateCallbackLosesEvent` | Cx/fileObject.cpp:1301-1356 | from a new client, a timer callback that runs late makes an event overflow its pended request and be dropped |
| `Subscriber.FileContext.CompleteSubscriptionRequestLocked` | Cx/NfcCxNFP.cpp:528-618 | the pended request is completed with the copy's result; processed iff that succeeded |
| `Subscriber.FileContext.ReceiveEvent` | Cx/NfcCxNFP.cpp:699-755 | a client's turn in a distribution loop is the step of the specification, in place |
| `Subscriber.FileContext.DispatchGetNextSubscribedMessage` | Cx/NfcCxNFP.cpp:2091-2238 | the request is completed from the queue, pended, or refused as specified; the second pended request is refused |
| `Subscriber.FileContext.NfpEnable` | Cx/fileObject.cpp:1033-1101 | enabling is refused iff enabled |
| `Subscriber.FileContext.NfpDisable` | Cx/fileObject.cpp:962-1030 | disabling drops the pended request and keeps the queue |
| `Subscriber.FileContext.TimerCallback` | Cx/fileObject.cpp:1301-1356 | the queue is drained and the client marked unresponsive |
| `Bytes.Le32RoundTrip` | Cx/NfcCxNFP.cpp:503-504 | a DWORD length is read back as written |
| `Bytes.Le32OfFrom` | Cx/NfcCxNFP.cpp:503-504 | and every four bytes are written again as read |
| `Bytes.LeastFirst` | Cx/NfcCxNFP.cpp:503-504 | the least significant byte comes first |
| `Distribution.WalkVisitsOnce` | Cx/NfcCxNFP.cpp:682-755 | the walk for an event applies it to each client of the list once and to no other |
| `Distribution.UnsubscribeKeepsInv` | Cx/NfcCxNFP.cpp:424-454 | removal takes the client out of the one list it is in |
| `Distribution.StepKeepsInv` | Cx/NfcCxNFP.cpp:376-420 | a registered client is in exactly the list of its subscription, once |
| `Distribution.EventsReachTheirNames` | Cx/NfcCxNFP.cpp:629-762 | an event changes a registered client iff it carries something for the name under which the client subscribed, and then with just that: arrivals to DeviceArrived, departures to DeviceDeparted, sizes to WriteableTag, messages to the rest |
| `Distribution.RunProjects` | Cx/NfcCxNFP.cpp:629-762 | over every run a client is where its own operations and the events it subscribed to alone would bring it: the list that is walked and the list chosen at registration agree |
| `Distribution.UnknownRunProjects` | Cx/NfcCxNFP.cpp:376-420 | the same from the moment of registration: no earlier event is the client's |
| `Distribution.VisitMember` | Cx/NfcCxNFP.cpp:699-755 | one turn of the loop is the specified turn, in place |
| `Distribution.DistributeEvent` | Cx/NfcCxNFP.cpp:694-757 | the walk of a list gives every member its turn exactly once, in place |
| `Distribution.EverySubscriberIsFifo` | Cx/NfcCxNFP.cpp:1053-1170 | for every registered client, over every run: the events it subscribed to and accepted are, in order, those delivered to it or drained by its timer, then those queued; all of them delivered when its timer callback never runs |
| `Atr.ComputeChecksum` | Cx/NfcCxSC.cpp:3420-3440 | TCK is the exclusive or of the bytes from T0 on |
| `Atr.XorOne` | Cx/NfcCxSC.cpp:3420-3440 | the check byte of one byte is that byte |
| `Atr.FrameDecodesExactly` | Cx/NfcCxSC.cpp:2866-2895 | the frame decodes (ISO/IEC 7816-3:2006) to its historical bytes iff there are at most 15; the bytes from T0 xor to zero |
| `Atr.AtrDecodesExactly` | Cx/NfcCxSC.cpp:2864-3196 | for every card: fails iff unsupported or too long, otherwise well formed and decodable unless a type A card has more than 15 historical bytes |
| `Atr.CardNameDecodes` | Cx/NfcCxSC.cpp:2935-3191 | a storage card's inner length counts what follows it and SS, NN come back (PC/SC Part 3 section 3.1.3.2.3) |
| `Atr.CardNameIdentifies` | Cx/NfcCxSC.cpp:2957-3179 | two storage cards with the same SS and known NN are of the same technology, and two such MIFARE cards the same product |
| `Atr.AtrNamesProduct` | Cx/NfcCxSC.cpp:2935-3191 | the card name that a reader decodes from a storage card's ATR names exactly the product the card is, MIFARE 1K and 4K by their SAK included, and the standard byte its technology |
| `Atr.ContactlessBytes` | Cx/NfcCxSC.cpp:2866-2934 | a reader gets the application data of a type A card, and of a type B card application data, protocol information and a zero, in that order |
| `Atr.EmitBody` | Cx/NfcCxSC.cpp:2864-3184 | the byte-by-byte encoder writes the frame of the card's historical bytes, or fails as specified |
| `Atr.EmitAtr` | Cx/NfcCxSC.cpp:2864-3196 | with TCK appended it is the specified encoding |
| `Atr.GetAtr` | Cx/NfcCxSC.cpp:2828-3212 | the output buffer receives that encoding if it has room and is untouched otherwise |
| `SmartCard.FirstOf` | Cx/NfcCxSC.cpp:3443-3474 | the first entry of the type, or none iff there is none |
| `SmartCard.StepKeepsInv` | Cx/NfcCxSC.cpp:727-968 | each locked section keeps the cross-field invariant and the power accounting of every client |
| `SmartCard.RunKeepsInv` | Cx/NfcCxSC.cpp:3475-3532 | over every run: power held => client and card; session => card; storage card => card; key store => storage card; outstanding references of c = others + [held and c current], so a release never underflows |
| `SmartCard.ConnectedExactly` | Cx/NfcCxSC.cpp:834-968 | over every run: connected iff a connection was reported and none lost since |
| `SmartCard.ClientExactly` | Cx/NfcCxSC.cpp:727-827 | over every run: a client is current iff it was added when there was none and has not been removed since |
| `SmartCard.SessionExactly` | Cx/NfcCxSC.cpp:772-968 | over every run: a session is open iff a transmission began with a card and the card was neither reset nor lost since |
| `SmartCard.StepFields` | Cx/NfcCxSC.cpp:727-968 | which steps change the connection, the session and the list of devices, and to what |
| `SmartCard.ConnectionTakesPowerExactly` | Cx/NfcCxSC.cpp:834-907 | a connection leaves the power reference held iff it was, or there is a client, the card is supported, its storage class can be loaded and the framework grants it; then it counts once |
| `SmartCard.LoadsExactly` | Cx/NfcCxSC.cpp:2348-2442 | the storage class of a card is loaded iff the card is supported and what it needs is there |
| `SmartCard.SwitchTakesEffect` | Cx/NfcCxSC.cpp:2557-2587 | over any list: a switch to MIFARE or ISO 14443-4A selects the least entry of that kind and its information, whatever was selected, and changes nothing when there is none |
| `SmartCard.SwitchLoadsStorage` | Cx/NfcCxSC.cpp:2583-2587 | after a switch of a connected card to MIFARE the storage card object is there, a new one with its key store |
| `SmartCard.OtherReferencesCount` | Cx/NfcCxSC.cpp:3477-3532 | references elsewhere count one each, and a closed file has none |
| `SmartCard.WithoutCard` | Cx/NfcCxSC.cpp:910-968 | requests without a card are refused, and the power reference goes with the card or the client |
| `SmartCard.InitialInv` | Cx/NfcCxSC.cpp:727-769 | the invariant holds at the start |
| `SmartCard.AgreementFromInv` | Cx/NfcCxSC.cpp:1923-1953 | with an unambiguous list a read answers what recomputation would |
| `SmartCard.CacheAgreesExactly` | Cx/NfcCxSC.cpp:1923-1953 | the cached ATR agrees with recomputation in every state of every run over a list iff the list is not ambiguous |
| `SmartCard.AmbiguousExactly` | Cx/NfcCxSC.cpp:2935-3191 | a list is ambiguous iff it has a MIFARE entry behind a first entry that is a Jewel, FeliCa or ISO 15693 card: their ATRs always differ |
| `SmartCard.EveryListIsDiscovered` | Cx/NfcCxRF.cpp:201-249 | every list can be discovered from the initial state, the ambiguous ones included |
| `SmartCard.AmbiguousRunDisagrees` | Cx/NfcCxSC.cpp:2573-2586 | for every ambiguous list, the run that reads, switches to MIFARE and reads again gets the stale ATR |
| `SmartCard.NoFaultExactly` | Cx/NfcCxSC.cpp:872-900 | a connected storage card has its object in every run with successful allocation iff the first discovered entry is of a supported type |
| `ScInterface.StorageCardManager.GetCachedAtr` | Cx/StorageCardManager.cpp:113-129 | the cached bytes if the buffer has room, otherwise nothing is written |
| `ScInterface.StorageCardManager.CacheAtr` | Cx/StorageCardManager.cpp:132-140 | what is cached is what was given |
| `ScInterface.Interface.AddClient` | Cx/NfcCxSC.cpp:728-769 | the first client wins: refused iff there is one |
| `ScInterface.Interface.RemoveClient` | Cx/NfcCxSC.cpp:772-827 | the reference is released before the client is forgotten; a reset is asked for iff a session was open on an unformatted card |
| `ScInterface.Interface.EnsurePowerReferenceIsHeld` | Cx/NfcCxSC.cpp:3477-3504 | one reference for the current client, taken once |
| `ScInterface.Interface.EnsurePowerReferenceIsReleased` | Cx/NfcCxSC.cpp:3508-3532 | that reference dropped once |
| `ScInterface.Interface.LoadStorageClassFromAtr` | Cx/NfcCxSC.cpp:2348-2442 | the storage-card object is created only when absent and allocation succeeds, with every failure path |
| `ScInterface.Interface.HandleConnectionEstablished` | Cx/NfcCxSC.cpp:834-907 | the selected entry is connected whatever its type; the client's reference is taken only when the type is supported and the storage class loaded |
| `ScInterface.Interface.HandleConnectionLost` | Cx/NfcCxSC.cpp:910-968 | everything of the card is dropped and the reference released, once; nothing happens when no card is connected |
| `ScInterface.Interface.GetIndexOfProtocolType` | Cx/NfcCxSC.cpp:3443-3474 | the first entry of the type; the sentinel 0xFF iff there is none, never an index |
| `ScInterface.Interface.SelectEntry` | Cx/NfcCxSC.cpp:2583-2587 | the entry becomes selected and its storage class is loaded |
| `ScInterface.Interface.LoadNewSelectedProtocol` | Cx/NfcCxSC.cpp:2522-2592 | the least entry of the type is selected and its information copied, whatever was selected, or nothing changes when there is none; it succeeds iff there is one and its storage class could be loaded |
| `ScInterface.Interface.DispatchAttributeAtr` | Cx/NfcCxSC.cpp:1881-1960 | reply, cache and buffer of an ATR read are those of the step |
| `Sequences.StepKeepsInv` | Cx/NfcCxSequence.cpp:83-195 | every step but a spoilable start, a redo included, keeps for each sequence ever started its agreement with its meaning |
| `Sequences.CompletesAsItMeans` | Cx/NfcCxSequence.cpp:28-377 | over every run of the engine without a spoilable start, with overrides, reused addresses, redone initialisations and LLCP callbacks: a sequence completes at most once, with the status and the entries that its outcomes mean, whatever was synchronous |
| `Sequences.SpoilableStartMisleads` | Cx/NfcCxSequence.cpp:119-195 | the exclusion is exact: in every reachable state of the engine each spoilable start can be continued, without another start, so that the sequence it starts completes wrongly |
| `Sequences.SpoilableStartsAreReachable` | Cx/NfcCxRF.cpp:4026-4056 | such starts of the engine are an override of a suspended sequence at its own address, and one at any address while an LLCP operation or one that can be redone is in flight |
| `Sequences.CurrentIsNeverStuck` | Cx/NfcCxSequence.cpp:252-279 | over every run the current sequence has something that will resume it, an operation in flight or a queued resume; one, and nothing else that can, as long as every start was fresh |
| `Sequences.OneResumerExactly` | Cx/NfcCxSequence.cpp:83-91 | in every reachable state a start gives the new sequence exactly one thing that can resume it iff no resume or callback for its address is outstanding and no operation that resumes or comes to resume whatever is current |
| `Sequences.Sequence.SkipSteps` | Cx/NfcCxSequence.cpp:282-328 | refused iff the sequence is not the current one or it would pass the end |
| `Sequences.Sequence.RepeatSteps` | Cx/NfcCxSequence.cpp:331-377 | refused iff the sequence is not the current one or it would pass the start |
| `Sequences.Sequence.Run` | Cx/NfcCxSequence.cpp:198-249 | the loop runs entries until one fails, one is pending, or the end |
| `StateInterface.EveryStartIsQuiet` | Cx/NfcCxState.cpp:284-427 | over every run of the state interface each sequence is started with no current one, no operation in flight and no resume queued |
| `StateInterface.SequencesRunAsTheyMean` | Cx/NfcCxState.cpp:284-427 | so over every run each sequence completes at most once and as its outcomes mean, and exactly one thing will or can resume the current one |
| `StateInterface.MoveUsesWell` | Cx/NfcCxRF.cpp:4562-4599 | each message keeps the engine in a state that fresh, unspoilable starts lead to |
| `StateInterface.TransitionsAreSequences` | Cx/NfcCxState.cpp:338-427 | over every run a transition is in progress iff a sequence is current, no chained event is refused or posted, and what the current sequence will chain has a target whatever its status |
| `StateInterface.ChainedIsAccepted` | Cx/NfcCxState.cpp:97-107 | every event that a completion step chains has a target in the state it finds |
| `StateInterface.EventsServePurpose` | Cx/NfcCxState.cpp:67-107 | over every run, each event takes the interface to the state it is for: configuration, a tag's deactivation and the end of a recovery to discovery iff it is to be enabled and to idle otherwise; each other event to its own; nothing else moves it |
| `StateInterface.TablesServePurpose` | Cx/NfcCxState.cpp:67-107 | the event and connector tables, with the connector checks, give that state for every state and event, and none where the event has no purpose |
| `StateInterface.HandlersServeStates` | Cx/NfcCxState.cpp:112-122 | a handler stands in the table exactly where its two states are |
| `StateInterface.HandlersServePurpose` | Cx/NfcCxState.cpp:430-539 | an event calls a handler iff it has a purpose there, the handler belongs to both states, and an internal event does not find the state already right |
| `StateInterface.ExitsServePurpose` | Cx/NfcCxRF.cpp:4822-6230 | a handler ends through a completion step iff that step is one for what the handler does |
| `StateInterface.CompletionsServePurpose` | Cx/NfcCxRF.cpp:4822-5507 | a completion step chains Activated, Deactivated, Recovery, Failed or Completed exactly by what it is for and the status |
| `StateInterface.HandlerExits` | Cx/NfcCxState.cpp:112-122 | the completion steps that a handler uses belong to the state that it leads to |
| `StateInterface.EventsAreTakenInOrder` | Cx/NfcCxState.cpp:237-427 | over every run events are taken in the order queued, each user event is reported complete once and in order, and while an event waits a transition is in progress or a message for it is posted |
| `StateInterface.MoveKeepsInv` | Cx/NfcCxState.cpp:284-427 | every message, queueing and callback keeps all this |
| `StateInterface.RestsSettledExactly` | Cx/NfcCxState.cpp:430-539 | the interface comes to rest in Init, Recovery or Shutdown exactly when the handler of one cannot start its sequence |
| `StateInterface.StuckForEver` | Cx/NfcCxState.cpp:82-107 | at rest in Init or Shutdown, no event that can be queued leads out, over every run |
| `StateInterface.NoMemoryIsStuck` | Cx/NfcCxState.cpp:82-92 | a first initialisation that cannot be started leads there |
| `StateInterface.Interface.constructor` | Cx/NfcCxState.cpp:125-181 | nothing queued, nothing running, in state Idle |
| `StateInterface.Interface.QueueEvent` | Cx/NfcCxState.cpp:237-281 | the event goes to the end of the queue and a message for it is posted |
| `StateInterface.Interface.FindTargetState` | Cx/NfcCxState.cpp:216-234 | the loop over connectors ends, with the state that the tables say; that this is the state the event is for is `StateInterface.TablesServePurpose` |
| `StateInterface.Interface.CallStateHandler` | Cx/NfcCxState.cpp:430-539 | state, engine and status are those of the tables and the handler; an internal event leaves a state alone that is already right |
| `StateInterface.Interface.ProcessEvent` | Cx/NfcCxState.cpp:384-427 | the transition ends unless the handler is pending, with its report and the next message |
| `StateInterface.Interface.ProcessNextQueuedEvent` | Cx/NfcCxState.cpp:284-335 | the oldest event is taken iff nothing runs |
| `StateInterface.Interface.ChainStateEvent` | Cx/NfcCxState.cpp:338-381 | refused with nothing running, posted within a handler, otherwise processed |
| `SecureElements.ExecIsMeaning` | Cx/NfcCxRF.h:522-606 | a sequence over its table stands where its outcomes mean, so what is proved of it is what the engine does |
| `SecureElements.VisitsFollow` | Cx/NfcCxRF.cpp:4626-4820 | over every run of both tables, redos and repeats included, each entry executed is one that may follow the last, the first is the first, and a run that succeeds has come to the last |
| `SecureElements.BehindInitialization` | Cx/NfcCxRF.cpp:4026-4056 | in every run of either table, whenever the sequence stands behind PostInitialize, PreInitialize and Initialize have been executed in that order since the last deinitialisation, a redo's included |
| `SecureElements.StatusDecides` | Cx/NfcCxRF.cpp:3398-3757 | an entry ends with the status of its operation, except where it has none |
| `SecureElements.RecoveryKeepsHostModeExactly` | Cx/NfcCxRF.cpp:4761-4820 | every successful recovery, with any redos, skips and enumerations, restores the device host's mode iff discovery is enabled or the host was off |
| `SecureElements.RecoveredList` | Cx/NfcCxRF.cpp:4761-4820 | every successful recovery leaves exactly the host, with the mode it had when discovery is enabled, and what libnfc holds when it was enumerated |
| `SecureElements.RecoveryIsSafeExactly` | Cx/NfcCxRF.cpp:4761-4820 | every successful recovery keeps the mode iff discovery is enabled or the host was off; otherwise one without any failure loses it |
| `SecureElements.DisableEntry` | Cx/NfcCxRF.cpp:3706-3757 | one execution turns off exactly the first active element and repeats, or finds none and ends |
| `SecureElements.InitializeTurnsAllOff` | Cx/NfcCxRF.cpp:4626-4670 | every successful initialisation ends with all of the list and the device host off, and with all that libnfc holds off iff the enumeration was not skipped or none was on |
| `SecureElements.InitializeIsSafeExactly` | Cx/NfcCxRF.cpp:4626-4670 | every successful initialisation turns off all that libnfc holds iff nothing was on before; otherwise one without any failure leaves it on |
| `SecureElements.DisableTerminates` | Cx/NfcCxRF.cpp:3706-3757 | the self-repeating entry ends after at most one more execution than there are active elements |
| `SecureElements.TurnOffInList` | Cx/NfcCxRF.cpp:114-135 | the refreshed list differs in that element's mode only |
| `SecureElements.EmptySlotReadsOn` | Cx/NfcCxRF.cpp:114-135 | an enumeration into an empty list leaves the host's slot zeroed, which is then the first element to be turned off |
| `SecureElements.RfInterface.UpdateSEList` | Cx/NfcCxRF.cpp:114-135 | libnfc's list behind the host's entry, which keeps its slot |
| `SecureElements.RfInterface.DeinitializeCB` | Cx/NfcCxRF.cpp:2464-2484 | the list is wiped |
| `SecureElements.RfInterface.SENtfRegister` | Cx/NfcCxRF.cpp:3398-3435 | the host's entry gets the remembered mode, which is then forgotten |
| `SecureElements.RfInterface.DisableSecureElements` | Cx/NfcCxRF.cpp:3730-3757 | the first element that is on and not the host |
| `SecureElements.RfInterface.DisableSecureElementsCB` | Cx/NfcCxRF.cpp:3706-3727 | the list is refreshed; repeated iff the operation succeeded |
| `SecureElements.RfInterface.RunDisableEntry` | Cx/NfcCxRF.cpp:3706-3757 | entry and callback together are the specified execution |
| `SecureElements.RfInterface.StateRecovery` | Cx/NfcCxRF.cpp:4761-4820 | the mode to restore is remembered before the list is wiped, and the right table is started |
| `RemoteDevices.P2pComesFirstExactly` | Cx/NfcCxRF.cpp:3874-3884 | the stored list is a suffix of the notified one; its head is a peer-to-peer target iff one was notified |
| `RemoteDevices.StartIsFirst` | Cx/NfcCxRF.cpp:3876-3884 | it starts at the first such target behind entry 0, else at 0 |
| `RemoteDevices.LibNfcContext.ClearRemoteDevList` | Cx/NfcCxRF.cpp:170-197 | unless it comes to an entry that was never filled, no list is left, and the card-emulation flag is cleared iff the list had a reader |
| `RemoteDevices.LibNfcContext.SetRemoteDevList` | Cx/NfcCxRF.cpp:201-249 | the list is the one given; the card-emulation flag holds iff the stored list has a type A or B reader; index 0 selected; after a failed allocation there is no list, provided it was the list's or the last entry's, and exactly otherwise entries that were never filled are read |
| `RemoteDevices.LibNfcContext.RemoteDevNtfCB` | Cx/NfcCxRF.cpp:3856-3907 | the preferred suffix is stored and the selected entry exists and is peer-to-peer iff one was notified |
| `Sockets.LiveExactly` | Cx/NfcCxDTA.cpp:5173-5210 | a handle is live iff it was opened and not closed since |
| `Sockets.DtaInterface.LlcpSocketCreate` | Cx/NfcCxDTAInternal.cpp:1559-1627 | a new handle becomes live iff every step succeeded; otherwise none is, and the output holds libnfc's own handle iff only the error queue failed |
| `Sockets.DtaInterface.LlcpSocketListenCB` | Cx/NfcCxDTAInternal.cpp:1702-1751 | an incoming connection's handle becomes live |
| `Sockets.DtaInterface.VerifySocketHandle` | Cx/NfcCxDTA.cpp:5174-5210 | succeeds iff the handle is live; the traversal terminates |
| `Sockets.DtaInterface.LlcpSocketClose` | Cx/NfcCxDTAInternal.cpp:1630-1658 | a successful close ends the handle, a failed one leaves it live |
| `Sockets.DtaInterface.DispatchLlcpSocketClose` | Cx/NfcCxDTA.cpp:2569-2638 | with no other thread in between, only a live handle is closed |
| `Sockets.VerifiedHandlesStayLive` | Cx/NfcCxDTA.cpp:2618-2634 | over every run in which no handle is closed while another thread has verified it, each verified handle is used for the socket it was verified for |
| `Sockets.UnguardedCloseFaults` | Cx/NfcCxDTA.cpp:2618-2634 | in every reachable state each close outside that guard can be followed by the use of a dead handle, also of one whose address a new socket has |
| `Sockets.UnguardedCloseHappens` | Cx/NfcCxDTA.cpp:2618-2634 | two threads that verify the same new handle lead to such a close |
| `Sockets.DtaInterface.Drain` | Cx/NfcCxDTA.cpp:329-340 | destruction closes each remaining handle once, in order |
| `RoutingTable.Validate` | Cx/NfcCxDTA.cpp:4870-4924 | accepted iff 1 to 32 entries, all of known types, none for NFC-DEP, AIDs of 5 to 16 bytes |
| `RoutingTable.ValidRoutes` | Cx/NfcCxDTA.cpp:4870-4924 | a table is valid iff it has 1 to 32 known entries whose routes are for no NFC-DEP and for identifiers of 5 to 16 bytes |
| `RoutingTable.PowerBits` | Cx/NfcCxDTA.h:30 | on + 2 * off + 4 * battery = low three bits of the power byte |
| `RoutingTable.Convert` | Cx/NfcCxDTA.cpp:4927-4995 | on a validated table it ends and succeeds, and every entry routes the same target to the same element in the same power states, in order |
| `RoutingTable.ConvertEndsExactly` | Cx/NfcCxDTA.cpp:4955-4990 | the conversion loop with its byte counter ends iff the table has at most 255 entries or one of the first 256 is of an unknown type |
| `Codecs.EventDataRoundTrip` | Cx/NfcCxSE.cpp:2184-2210 | in a block sized by the fields, a client recovers AID and parameters for all lengths up to 255 |
| `Codecs.RecordLayout` | Cx/NfcCxDTA.cpp:5048-5084 | byte by byte: handle, event type, the AID behind tag 0x81 and its length, the parameters behind 0x82 and theirs |
| `Codecs.DeliveredExactly` | Cx/NfcCxDTA.cpp:5041-5084 | through the DTA interface's block of 24 bytes a client recovers them, by either reading of a length, iff they fit in the 8 or 12 bytes behind the header, which is iff the record stays in the block |
| `Codecs.LongAidIsLost` | Cx/NfcCxDTA.cpp:5041-5076 | on a 64-bit build an AID of 7 to 16 bytes leaves the block, whatever the parameters, and is not recovered |
| `Codecs.BerReaderAgreesExactly` | Cx/NfcCxDTA.cpp:5055-5056 | a reader of the basic encoding rules recovers them iff both are at most 127 bytes |
| `Codecs.GetEventPayload` | Cx/NfcCxDTA.cpp:5041-5094 | memory at the block becomes the whole record and is otherwise unchanged, so outside the block when the fields fit; the payload is the block's 24 bytes; refused iff the type is another or a length exceeds 255 |
| `Codecs.WalkNames` | Cx/NfcCxDTAInternal.cpp:1445-1453 | the walk ends inside the request iff there are at most 255 entries and that many lie in it; then the list names exactly them |
| `Codecs.NamesExactly` | inc/NfcDTADev.h:210-219 | the entries found are the names that were packed, and are found whenever they were |
| `Codecs.FirstPacked` | inc/NfcDTADev.h:210-213 | a request starts with packed names iff it starts with a DWORD length and that many bytes of the first, and the rest starts with the others |

## Left out

- WDF and operating-system plumbing: device interfaces, IO queues beyond the one pended request, work items, timers beyond armed / dispatched / fired, registry, telemetry, tracing.
- libnfc: its answers are parameters. Secure elements keep their handles, `SetMode(Off)` turns off the element with that handle, and a failed operation leaves libnfc's list alone.
- `MessageTypes.AnalyzeIsInverse`: a name is a sequence of characters without a terminating zero; the buffers that hold it, and the length checks on it, are not part of the model.
- `NfpInterface.NfpInterface.VerifyStateAndSendPublicationLocked`: does not model how the worker is scheduled; whether that succeeds is a parameter.
- `NfpInterface.NfpInterface.SendWorker`: does not model the counters of sent messages and the requests that wait for them, beyond which clients are told.
- `SendProtocol.NoP2pPublicationReachesATag`: an arrival is taken to come only when nothing is connected, and a file handle is not reopened under its old identity.
- `Distribution.EverySubscriberIsFifo`: registration and removal choose among the lists on values; the walk itself is in place. Which patterns a received message matches, and its payloads, are part of the event. Allocation of a queue entry succeeds.
- `SmartCard.CacheAgreesExactly`: the list of devices changes only while no card is connected; the reader's handlers outside SmartCardLock are single steps.
- `ScInterface.Interface.LoadNewSelectedProtocol`: the parsing of the command bytes is a parameter.
- `Atr.AtrDecodesExactly`: the card's data as libnfc fills it; the type A data length is at most 48.
- MIFARE key table, APDU conversion and transmit responses of the storage cards.
- `Sequences.CompletesAsItMeans`: a start from within a running entry is refused and changes nothing, so it is no step. A callback that reads a freed sequence is taken to find its address. Each operation ends with one callback. A redo repeats before its deinitialisation is answered. A start from within a completion step is a start at another address.
- `StateInterface.EveryStartIsQuiet`: which case of a handler applies, whether discovery is enabled and a tag present, and whether there is memory are decided by the environment. The message for a chained event falls through to a resume; it is never posted. The timeout of a client that waits for its event fails the device and is not modelled.
- `SecureElements.RecoveryKeepsHostModeExactly`: support for host card emulation does not change; presence check, watchdog and routing configuration have no effect on the list.
- `RemoteDevices.LibNfcContext.SetRemoteDevList`: does not model what a read of an entry that was never filled does, only that it happens.
- `Sockets.DtaInterface.DispatchLlcpSocketClose`: verification and close are one step in the class; the other threads are in the transition system beside it. SNEP server handles are checked by the same loop.
- `RoutingTable.Convert`: casts of technology and protocol numbers to enumerations are the identity.
- `Codecs.GetEventPayload`: allocation succeeds, and a refused payload is freed.
- `Codecs.WalkNames`: what a walk behind the request reads; the header of the request is not part of it.
- DTA dispatch wrappers, status mapping, IOCTL tables, embedded secure element, LLCP and SNEP link management: each is settled by reading one branch.
