/** The publication side of the NFP interface on its linked lists: registration,
    queueing, the P2P-loss drain and the send worker.  Each method is one section under
    PubsLock (the worker is the sequence of its sections); `SendProtocol` interleaves
    the same sections. */
module NfpInterface {
  import opened ListEntries
  import opened Publications

  /** NFCCX_FILE_CONTEXT of a publication client. */
  class FileContext {
    const translation: TranslationType
    var enabled: bool
    var payloadSize: nat
    var sendReferences: int      // references held under SEND_LIST_ENTRY_TAG
    var listEntry: ListEntry<FileContext?>
    var sendListEntry: ListEntry<FileContext?>

    constructor (translation: TranslationType)
      ensures this.translation == translation && enabled && payloadSize == 0 && sendReferences == 0
      ensures fresh(listEntry) && fresh(sendListEntry) && listEntry != sendListEntry
      ensures listEntry.record == this == sendListEntry.record
      ensures Ring([listEntry]) && Ring([sendListEntry])
    {
      this.translation := translation;
      enabled, payloadSize, sendReferences := true, 0, 0;
      var unlinked := new ListEntry<FileContext?>(null);
      listEntry, sendListEntry := unlinked, unlinked;
      new;
      listEntry := new ListEntry<FileContext?>(this);
      sendListEntry := new ListEntry<FileContext?>(this);
    }

    function Attributes(): Attributes
      reads this
    {
      Publications.Attributes(enabled, translation, payloadSize)
    }
  }

  class NfpInterface {
    const pubsList: EntryList<FileContext?>
    const sendList: EntryList<FileContext?>
    var sendWorkerCurrentClient: FileContext?
    var deviceConnected: bool
    var tagConnected: bool

    ghost var clients: set<FileContext>        // every open publication client
    ghost var inWorker: set<FileContext>       // dequeued and not yet dereferenced
    ghost var pubNodes: set<ListEntry<FileContext?>>
    ghost var sendNodes: set<ListEntry<FileContext?>>

    ghost predicate PubsValid()
      reads this`clients, this`pubNodes, pubsList, pubNodes, clients`listEntry
    {
      && (forall e :: e in pubsList.ring ==> e in pubNodes)
      && pubsList.Valid()
      && (forall e :: e in pubsList.ring && e != pubsList.head ==>
            e.record != null && e.record in clients && e.record.listEntry == e)
      && (forall c :: c in clients ==>
            c.listEntry in pubNodes && c.listEntry.record == c && c.listEntry != pubsList.head)
    }

    ghost predicate SendValid()
      reads this`clients, this`sendNodes, sendList, sendNodes, clients`sendListEntry
    {
      && (forall e :: e in sendList.ring ==> e in sendNodes)
      && sendList.Valid()
      && (forall e :: e in sendList.ring && e != sendList.head ==>
            e.record != null && e.record in clients && e.record.sendListEntry == e && !IsReadOnly(e.record.translation))
      && (forall c :: c in clients ==>
            && c.sendListEntry in sendNodes && c.sendListEntry.record == c && c.sendListEntry != sendList.head
            && (c.sendListEntry !in sendList.ring ==> Ring([c.sendListEntry])))
    }

    ghost predicate Valid()
      reads this, pubsList, sendList, pubNodes, sendNodes, clients
    {
      && pubsList != sendList && pubNodes !! sendNodes
      && PubsValid() && SendValid()
      && inWorker <= clients
      && forall c :: c in clients ==>
           c.sendReferences == (if c.sendListEntry in sendList.ring then 1 else 0) + (if c in inWorker then 1 else 0)
    }

    function Peer(): Connection
      reads this
    {
      Connection(deviceConnected, tagConnected)
    }

    constructor ()
      ensures Valid() && fresh(pubsList) && fresh(sendList) && fresh(pubNodes) && fresh(sendNodes)
      ensures clients == {} && pubsList.items == [] && sendList.items == [] && inWorker == {}
      ensures sendWorkerCurrentClient == null && !deviceConnected && !tagConnected
    {
      pubsList := new EntryList<FileContext?>(null);
      sendList := new EntryList<FileContext?>(null);
      sendWorkerCurrentClient, deviceConnected, tagConnected := null, false, false;
      clients, inWorker := {}, {};
      new;
      pubNodes, sendNodes := {pubsList.head}, {sendList.head};
    }

    /** NfcCxEvtDeviceFileCreate for a publication: both links start out unlinked. */
    method OpenClient(translation: TranslationType) returns (c: FileContext)
      requires Valid()
      modifies this`clients, this`pubNodes, this`sendNodes
      ensures Valid() && fresh(c) && c.translation == translation && c.enabled
      ensures clients == old(clients) + {c} && fresh(pubNodes - old(pubNodes)) && fresh(sendNodes - old(sendNodes))
      ensures c !in pubsList.items && c !in sendList.items
    {
      c := new FileContext(translation);
      Register(c);
    }

    /** The bookkeeping of a new client. */
    ghost method Register(c: FileContext)
      requires Valid() && c !in clients && c.sendReferences == 0
      requires c.listEntry !in pubNodes + sendNodes && c.sendListEntry !in pubNodes + sendNodes
      requires c.listEntry != c.sendListEntry && c.listEntry.record == c == c.sendListEntry.record
      requires Ring([c.sendListEntry])
      modifies this`clients, this`pubNodes, this`sendNodes
      ensures Valid() && clients == old(clients) + {c}
      ensures pubNodes == old(pubNodes) + {c.listEntry} && sendNodes == old(sendNodes) + {c.sendListEntry}
      ensures c !in pubsList.items && c !in sendList.items
    {
      pubNodes, sendNodes := pubNodes + {c.listEntry}, sendNodes + {c.sendListEntry};
      clients := clients + {c};
      Membership(c);
      PubMembership(c);
    }

    /** NfcCxNfpInterfaceAddPublicationClientLocked. */
    method AddPublicationClientLocked(c: FileContext)
      requires Valid() && c in clients && c !in pubsList.items
      modifies pubsList, pubNodes
      ensures Valid()
      ensures pubsList.items == [c] + old(pubsList.items)
    {
      PubMembership(c);
      pubsList.PushFront(c.listEntry);
      assert sendList.Valid() by {
        assert forall e :: e in sendList.ring ==> e in sendNodes;
      }
    }

    lemma PubMembership(c: FileContext)
      requires PubsValid() && c in clients
      ensures c in pubsList.items <==> c.listEntry in pubsList.ring
    {
      if c in pubsList.items {
        var i :| 0 <= i < |pubsList.items| && pubsList.items[i] == c;
        assert pubsList.ring[i + 1] in pubsList.ring && pubsList.ring[i + 1] != pubsList.head;
      }
      if c.listEntry in pubsList.ring {
        var j :| 0 <= j < |pubsList.ring| && pubsList.ring[j] == c.listEntry;
        assert pubsList.items[j - 1] == c;
      }
    }

    /** IsListEmpty of a client's send link, negated. */
    method IsQueued(c: FileContext) returns (queued: bool)
      requires SendValid() && c in clients
      ensures queued <==> c in sendList.items
      ensures queued <==> c.sendListEntry in sendList.ring
    {
      Membership(c);
      var unlinked := IsListEmpty(c.sendListEntry,
                                  if c.sendListEntry in sendList.ring then sendList.ring else [c.sendListEntry]);
      queued := !unlinked;
    }

    /** NfcCxNfpInterfaceAddSendClientLocked. */
    method AddSendClientLocked(c: FileContext) returns (added: bool)
      requires Valid() && c in clients
      modifies c`sendReferences, sendList, sendNodes
      ensures Valid()
      ensures sendList.items == Enlist(old(sendList.items), c, IsReadOnly(c.translation))
      ensures added == (c !in old(sendList.items) && !IsReadOnly(c.translation))
    {
      hide NfpInterface.PubsValid, NfpInterface.SendValid;
      added := false;
      var queued := IsQueued(c);
      if !IsReadOnly(c.translation) {
        if queued {
          return;
        }
        added := true;
        c.sendReferences := c.sendReferences + 1;
        LinkFirst(c);
      }
    }

    /** InsertHeadList of a client's send link. */
    method LinkFirst(c: FileContext)
      requires SendValid() && c in clients && c.sendListEntry !in sendList.ring && !IsReadOnly(c.translation)
      modifies sendList, sendNodes
      ensures SendValid()
      ensures sendList.items == [c] + old(sendList.items)
      ensures forall d :: d in clients ==>
                (d.sendListEntry in sendList.ring <==> d.sendListEntry in old(sendList.ring) || d == c)
    {
      sendList.PushFront(c.sendListEntry);
    }

    /** A client is among the queue's records exactly when its own link is in the ring. */
    lemma Membership(c: FileContext)
      requires SendValid() && c in clients
      ensures c in sendList.items <==> c.sendListEntry in sendList.ring
    {
      if c in sendList.items {
        var i :| 0 <= i < |sendList.items| && sendList.items[i] == c;
        assert sendList.ring[i + 1] in sendList.ring && sendList.ring[i + 1] != sendList.head;
      }
      if c.sendListEntry in sendList.ring {
        var j :| 0 <= j < |sendList.ring| && sendList.ring[j] == c.sendListEntry;
        assert sendList.items[j - 1] == c;
      }
    }

    /** NfcCxNfpInterfaceRemoveSendClientLocked. */
    method RemoveSendClientLocked(c: FileContext)
      requires Valid() && c in clients
      modifies c`sendReferences, sendList, sendNodes
      ensures Valid()
      ensures sendList.items == Delist(old(sendList.items), c)
      ensures c !in sendList.items
    {
      hide NfpInterface.PubsValid, NfpInterface.SendValid;
      var queued := IsQueued(c);
      if queued {
        Unlink(c);
        c.sendReferences := c.sendReferences - 1;
      } else {
        DelistAbsent(sendList.items, c);
      }
    }

    /** RemoveEntryList and InitializeListHead on a queued client's send link. */
    method Unlink(c: FileContext)
      requires SendValid() && c in clients && c.sendListEntry in sendList.ring
      modifies sendList, sendNodes
      ensures SendValid() && c !in sendList.items
      ensures sendList.items == Delist(old(sendList.items), c)
      ensures forall d :: d in clients ==>
                (d.sendListEntry in sendList.ring <==> d.sendListEntry in old(sendList.ring) && d != c)
    {
      ghost var ring := sendList.ring;
      ghost var j :| 0 <= j < |ring| && ring[j] == c.sendListEntry;
      ghost var k := j - 1;
      assert Delist(sendList.items, c) == sendList.items[..k] + sendList.items[k + 1..] by {
        QueueDistinct();
        DelistAt(sendList.items, k);
      }
      sendList.Remove(c.sendListEntry, k);
      InitializeListHead(c.sendListEntry);
      Membership(c);
    }

    lemma QueueDistinct()
      requires SendValid()
      ensures NoDuplicates(sendList.items)
    {
      var ring, items := sendList.ring, sendList.items;
      forall i, j | 0 <= i < j < |items| ensures items[i] != items[j] {
        assert ring[i + 1] != ring[j + 1] && ring[i + 1] in ring && ring[j + 1] in ring;
      }
    }

    /** NfcCxNfpInterfaceVerifyStateAndSendPublicationLocked.  `scheduled` is what
        NfcCxNfpInterfaceScheduleSendWorker returns; when it fails, the client that was
        just queued is taken off again. */
    method VerifyStateAndSendPublicationLocked(c: FileContext, scheduled: bool)
      requires Valid() && c in clients
      modifies c`sendReferences, sendList, sendNodes
      ensures Valid()
      ensures sendList.items ==
              if c == sendWorkerCurrentClient || !MustSend(Peer(), c.Attributes()) || !scheduled
              then old(sendList.items)
              else Enlist(old(sendList.items), c, IsReadOnly(c.translation))
    {
      if sendWorkerCurrentClient == c {
        return;
      }
      var cleanUp := false;
      if MustSend(Peer(), c.Attributes()) {
        cleanUp := AddSendClientLocked(c);
        if scheduled {
          cleanUp := false;
        }
      }
      if cleanUp {
        RemoveSendClientLocked(c);
      }
    }

    /** The clients that a pass over PubsList must leave in SendList. */
    ghost function Wanted(): (w: set<FileContext?>)
      reads this, pubsList, clients
    {
      set c: FileContext | c in clients && c in pubsList.items && c != sendWorkerCurrentClient
                           && !IsReadOnly(c.translation) && MustSend(Peer(), c.Attributes())
    }

    /** One turn of the pass: the client is queued exactly when it is wanted, and no
        turn changes which clients are. */
    method VisitClient(c: FileContext)
      requires Valid() && c in clients && c in pubsList.items
      modifies c`sendReferences, sendList, sendNodes
      ensures Valid() && Wanted() == old(Wanted())
      ensures sendList.items == Enlist(old(sendList.items), c, c !in Wanted())
    {
      assert pubsList != sendList;
      hide NfpInterface.Valid, NfpInterface.PubsValid, NfpInterface.SendValid, EntryList.Valid, Enlist;
      VerifyStateAndSendPublicationLocked(c, true);
      assert forall d :: d in clients ==> d.Attributes() == old(d.Attributes());
    }

    /** NfcCxNfpInterfaceVerifyAndSendPublication, also the second half of
        NfcCxNfpInterfaceHandleP2pConnectionEstablished. */
    method VerifyAndSendPublication()
      requires Valid()
      modifies clients`sendReferences, sendList, sendNodes
      ensures Valid()
      ensures sendList.items
              == Reverse(Filter(pubsList.items, Wanted() - Elements(old(sendList.items)))) + old(sendList.items)
    {
      hide NfpInterface.SendValid, NfpInterface.Wanted, EntryList.Valid;
      ghost var pubs, start, wanted := pubsList.items, sendList.items, Wanted();
      ghost var i := 0;
      assert pubs[0..] == pubs;
      pubsList.Follow(0);
      var ple := pubsList.head.flink;
      while ple != pubsList.head
        invariant Valid() && Wanted() == wanted
        invariant i <= |pubs| && |pubsList.ring| == |pubs| + 1 && pubsList.ring[0] == pubsList.head
        invariant ple == pubsList.ring[if i == |pubs| then 0 else i + 1]
        invariant i < |pubs| ==> ple != pubsList.head && ple.record == pubs[i]
        invariant VerifyAll(pubs[i..], sendList.items, wanted) == VerifyAll(pubs, start, wanted)
        decreases |pubs| - i
      {
        assert ple in pubsList.ring;
        assert pubs[i..][0] == pubs[i] && pubs[i..][1..] == pubs[i + 1..];
        VisitClient(ple.record);
        pubsList.Follow(i + 1);
        ple := ple.flink;
        i := i + 1;
      }
      assert pubs[i..] == [];
      OrderOfPass(start, wanted);
    }

    lemma OrderOfPass(send: seq<FileContext?>, wanted: set<FileContext?>)
      requires PubsValid()
      ensures VerifyAll(pubsList.items, send, wanted)
              == Reverse(Filter(pubsList.items, wanted - Elements(send))) + send
    {
      PubsDistinct();
      VerifyAllOrder(pubsList.items, send, wanted);
    }

    lemma PubsDistinct()
      requires PubsValid()
      ensures NoDuplicates(pubsList.items)
    {
      var ring, items := pubsList.ring, pubsList.items;
      forall i, j | 0 <= i < j < |items| ensures items[i] != items[j] {
        assert ring[i + 1] != ring[j + 1] && ring[i + 1] in ring && ring[j + 1] in ring;
      }
    }

    /** RemoveHeadList and InitializeListHead on SendList. */
    method TakeFirst() returns (c: FileContext)
      requires SendValid() && sendList.items != []
      modifies sendList, sendNodes
      ensures SendValid() && c in clients && c.sendListEntry in old(sendList.ring)
      ensures c == old(sendList.items)[0] && sendList.items == old(sendList.items)[1..]
      ensures forall d :: d in clients ==>
                (d.sendListEntry in sendList.ring <==> d.sendListEntry in old(sendList.ring) && d != c)
    {
      var e := sendList.PopFront();
      c := e.record;
      InitializeListHead(c.sendListEntry);
    }

    /** One turn of the drain in NfcCxNfpInterfaceHandleP2pConnectionLost. */
    method DropFirst()
      requires Valid() && sendList.items != []
      modifies clients`sendReferences, sendList, sendNodes
      ensures Valid() && sendList.items == old(sendList.items)[1..]
    {
      hide NfpInterface.PubsValid, NfpInterface.SendValid;
      var c := TakeFirst();
      c.sendReferences := c.sendReferences - 1;
    }

    /** The drain of NfcCxNfpInterfaceHandleP2pConnectionLost: every pended write is
        removed and its reference dropped. */
    method DrainSendList()
      requires Valid()
      modifies clients`sendReferences, sendList, sendNodes
      ensures Valid() && sendList.items == []
      ensures forall c :: c in clients && c !in inWorker ==> c.sendReferences == 0
    {
      var empty := sendList.IsEmpty();
      while !empty
        invariant Valid() && (empty <==> sendList.items == [])
        decreases |sendList.items|
      {
        DropFirst();
        empty := sendList.IsEmpty();
      }
      forall c | c in clients ensures c.sendListEntry !in sendList.ring { Membership(c); }
    }

    ghost function EnabledClients(): (r: set<FileContext?>)
      reads this, clients
    {
      set c: FileContext | c in clients && c.enabled
    }

    /** First section of a worker turn: the head of the queue becomes the current client.
        `asserted` is the assertion that there was none. */
    method Dequeue() returns (c: FileContext, asserted: bool)
      requires Valid() && inWorker == {} && sendList.items != []
      modifies this`sendWorkerCurrentClient, this`inWorker, sendList, sendNodes
      ensures Valid() && c in clients && inWorker == {c} && sendWorkerCurrentClient == c
      ensures c == old(sendList.items)[0] && sendList.items == old(sendList.items)[1..]
      ensures asserted == (old(sendWorkerCurrentClient) == null)
    {
      hide NfpInterface.PubsValid, NfpInterface.SendValid;
      c := TakeFirst();
      asserted := sendWorkerCurrentClient == null;
      sendWorkerCurrentClient := c;
      inWorker := {c};
    }

    /** Section after the write: no client is current.  The assertion that `c` was the
        current client holds. */
    method Finish(c: FileContext)
      requires Valid() && sendWorkerCurrentClient == c
      modifies this`sendWorkerCurrentClient
      ensures Valid() && sendWorkerCurrentClient == null
    {
      sendWorkerCurrentClient := null;
    }

    /** Last section of a worker turn: the reference taken when `c` was queued is dropped. */
    method Dereference(c: FileContext)
      requires Valid() && inWorker == {c}
      modifies this`inWorker, c`sendReferences
      ensures Valid() && inWorker == {}
    {
      c.sendReferences := c.sendReferences - 1;
      inWorker := {};
    }

    method QueueIsEmpty() returns (empty: bool)
      requires Valid()
      ensures empty <==> sendList.items == []
    {
      empty := sendList.IsEmpty();
    }

    /** One turn of the worker on the head of the queue.  `failing` are the clients whose
        tag or P2P write fails, should there be one; after a write that does not, `sent`,
        the client's sent-message request is completed. */
    method WorkerTurn(failing: set<FileContext?>)
      returns (c: FileContext, attempted: bool, sent: bool, stop: bool, asserted: bool)
      requires Valid() && inWorker == {} && sendList.items != []
      modifies this`sendWorkerCurrentClient, this`inWorker, clients`sendReferences, sendList, sendNodes
      ensures Valid() && inWorker == {} && c in clients
      ensures c == old(sendList.items)[0] && sendList.items == old(sendList.items)[1..]
      ensures EnabledClients() == old(EnabledClients()) && attempted == (c in EnabledClients())
      ensures sent == (attempted && c !in failing)
      ensures stop == (attempted && !tagConnected && c in failing)
      ensures asserted == (old(sendWorkerCurrentClient) == null)
      ensures sendWorkerCurrentClient == if attempted then null else c
    {
      hide NfpInterface.Valid;
      sent, stop := false, false;
      c, asserted := Dequeue();
      attempted := c.enabled;
      if !c.enabled {
        // The client stays recorded as the current one: nothing resets it here.
        Dereference(c);
        return;
      }
      if c !in failing {
        sent := true;
      } else if !tagConnected {
        stop := true;
      }
      Finish(c);
      Dereference(c);
    }

    /** Publications that make a tag read-only. */
    ghost function ReadOnlyClients(): (r: set<FileContext?>)
      reads this
    {
      set c: FileContext | c in clients && IsReadOnly(c.translation)
    }

    /** Where a walk of PubsList stands: at the record with index `i`, or back at the head. */
    ghost predicate IsAt(ple: ListEntry<FileContext?>, i: nat)
      reads this, pubsList, pubNodes, clients`listEntry
      requires PubsValid()
    {
      i <= |pubsList.items| && ple == pubsList.ring[if i == |pubsList.items| then 0 else i + 1]
    }

    lemma AtRecord(ple: ListEntry<FileContext?>, i: nat)
      requires PubsValid() && IsAt(ple, i)
      ensures ple != pubsList.head <==> i < |pubsList.items|
      ensures i < |pubsList.items| ==>
                ple.record == pubsList.items[i] && ple.record != null && ple.record in clients && IsAt(ple.flink, i + 1)
    {
      pubsList.Follow(i);
      if i < |pubsList.items| {
        assert ple in pubsList.ring;
        pubsList.Follow(i + 1);
      }
    }

    /** NfcCxNfpInterfaceCheckIfReadOnlyTagPublicationsExist. */
    method CheckIfReadOnlyTagPublicationsExist() returns (exist: bool)
      requires PubsValid()
      ensures exist <==> exists c :: c in pubsList.items && c in ReadOnlyClients()
    {
      exist := false;
      ghost var i := 0;
      pubsList.Follow(0);
      var ple := pubsList.head.flink;
      AtRecord(ple, i);
      while ple != pubsList.head && !exist
        invariant IsAt(ple, i) && (ple != pubsList.head <==> i < |pubsList.items|)
        invariant exist <==> exists c :: c in pubsList.items[..i] && c in ReadOnlyClients()
        decreases |pubsList.items| - i
      {
        AtRecord(ple, i);
        assert pubsList.items[..i + 1] == pubsList.items[..i] + [pubsList.items[i]];
        exist := IsReadOnly(ple.record.translation);
        assert exist ==> pubsList.items[..i + 1][i] in ReadOnlyClients();
        ple := ple.flink;
        i := i + 1;
        AtRecord(ple, i);
      }
    }

    lemma FilterFrom(pubs: seq<FileContext?>, i: nat, keep: set<FileContext?>)
      requires i < |pubs|
      ensures Filter(pubs[i..], keep) == (if pubs[i] in keep then [pubs[i]] else []) + Filter(pubs[i + 1..], keep)
    {
      assert pubs[i..][0] == pubs[i] && pubs[i..][1..] == pubs[i + 1..];
    }

    /** NfcCxNfpInterfaceCompleteReadOnlyRequests: the clients whose sent message is
        completed, in the order of PubsList. */
    method CompleteReadOnlyRequests() returns (completed: seq<FileContext?>)
      requires PubsValid()
      ensures completed == Filter(pubsList.items, ReadOnlyClients())
    {
      completed := [];
      ghost var i, pubs := 0, pubsList.items;
      assert pubs[0..] == pubs;
      pubsList.Follow(0);
      var ple := pubsList.head.flink;
      AtRecord(ple, i);
      assert Filter(pubs[|pubs|..], ReadOnlyClients()) == [];
      hide Filter, EntryList.Valid, NfpInterface.PubsValid;
      while ple != pubsList.head
        invariant IsAt(ple, i) && (ple != pubsList.head <==> i < |pubs|)
        invariant completed + Filter(pubs[i..], ReadOnlyClients()) == Filter(pubs, ReadOnlyClients())
        decreases |pubs| - i
      {
        AtRecord(ple, i);
        FilterFrom(pubs, i, ReadOnlyClients());
        if IsReadOnly(ple.record.translation) {
          completed := completed + [ple.record];
        }
        ple := ple.flink;
        i := i + 1;
        AtRecord(ple, i);
      }
    }

    /** NfcCxNfpInterfaceSendWorker with no section of another thread in between.
        `failing` are the clients whose write fails, and `convertible` tells whether the tag
        can be made read-only.  `told` are the clients whose sent-message request is
        completed: those that were sent, then the read-only ones. */
    method SendWorker(failing: set<FileContext?>, convertible: bool)
      returns (attempted: seq<FileContext?>, asserted: bool, converted: bool, told: seq<FileContext?>)
      requires Valid() && inWorker == {}
      modifies this`sendWorkerCurrentClient, this`inWorker, clients`sendReferences, sendList, sendNodes
      ensures Valid() && inWorker == {}
      ensures var q := old(sendList.items);
              var n := if !deviceConnected then 0
                       else Through(q, if tagConnected then {} else EnabledClients() * failing);
              && sendList.items == q[n..]
              && Progress(q, EnabledClients(), null, old(sendWorkerCurrentClient), n,
                          attempted, sendWorkerCurrentClient, asserted)
              && told == Filter(q[..n], EnabledClients() - failing)
                         + (if converted then Filter(pubsList.items, ReadOnlyClients()) else [])
      ensures converted <==> deviceConnected && tagConnected && convertible
                             && exists c :: c in pubsList.items && c in ReadOnlyClients()
    {
      hide NfpInterface.Valid;
      attempted, asserted, converted, told := [], true, false, [];
      if !deviceConnected {
        return;
      }
      var readOnly;
      attempted, asserted, told := SendAll(failing);
      converted, readOnly := ConvertTag(convertible);
      told := told + readOnly;
    }

    /** The loop of the worker. */
    method SendAll(failing: set<FileContext?>)
      returns (attempted: seq<FileContext?>, asserted: bool, told: seq<FileContext?>)
      requires Valid() && inWorker == {}
      modifies this`sendWorkerCurrentClient, this`inWorker, clients`sendReferences, sendList, sendNodes
      ensures Valid() && inWorker == {} && EnabledClients() == old(EnabledClients())
      ensures var q := old(sendList.items);
              var n := Through(q, if tagConnected then {} else EnabledClients() * failing);
              && sendList.items == q[n..] && told == Filter(q[..n], EnabledClients() - failing)
              && Progress(q, EnabledClients(), null, old(sendWorkerCurrentClient), n,
                          attempted, sendWorkerCurrentClient, asserted)
    {
      hide NfpInterface.Valid;
      attempted, asserted, told := [], true, [];
      ghost var q, on, start := sendList.items, EnabledClients(), sendWorkerCurrentClient;
      ghost var bad := if tagConnected then {} else on * failing;
      ghost var k := 0;
      var stop := false;
      assert q[0..] == q && q[..0] == [];
      while !stop
        invariant Valid() && inWorker == {} && EnabledClients() == on
        invariant Turns(q, on, bad, null, start, k, attempted, sendWorkerCurrentClient, asserted, stop)
        invariant sendList.items == q[k..]
        invariant told == Filter(q[..k], on - failing)
        decreases |q| - k
      {
        var empty := QueueIsEmpty();
        if empty { break; }
        assert q[k..][1..] == q[k + 1..] && q[k] != null by { NoNullRecords(); assert q[k..][0] == q[k]; }
        TurnsStep(q, on, bad, null, start, k, attempted, sendWorkerCurrentClient, asserted);
        ToldStep(q, k, on, failing);
        var c, tried, sent, last, ok := WorkerTurn(failing);
        asserted := asserted && ok;
        if tried { attempted := attempted + [c]; }
        if sent { told := told + [c]; }
        stop := last;
        k := k + 1;
      }
      ThroughIs(q, bad, k);
    }

    lemma ToldStep(q: seq<FileContext?>, k: nat, on: set<FileContext?>, failing: set<FileContext?>)
      requires k < |q|
      ensures Filter(q[..k + 1], on - failing)
              == Filter(q[..k], on - failing) + (if q[k] in on && q[k] !in failing then [q[k]] else [])
    {
      assert q[..k + 1] == q[..k] + [q[k]];
      FilterAppend(q[..k], [q[k]], on - failing);
    }

    /** The end of the worker: a connected tag is made read-only when a client asks for it. */
    method ConvertTag(convertible: bool) returns (converted: bool, completed: seq<FileContext?>)
      requires Valid()
      ensures converted <==> tagConnected && convertible && exists c :: c in pubsList.items && c in ReadOnlyClients()
      ensures completed == if converted then Filter(pubsList.items, ReadOnlyClients()) else []
    {
      converted, completed := false, [];
      if tagConnected {
        var exist := CheckIfReadOnlyTagPublicationsExist();
        if exist && convertible {
          converted := true;
          completed := CompleteReadOnlyRequests();
        }
      }
    }

    lemma NoNullRecords()
      requires Valid()
      ensures null !in sendList.items
    {
      forall i | 0 <= i < |sendList.items| ensures sendList.items[i] != null {
        assert sendList.ring[i + 1] in sendList.ring && sendList.ring[i + 1] != sendList.head;
      }
    }
  }
}
