/** The publication send path as a transition system at lock granularity: client threads,
    the connection handlers and the send worker interleave freely between the sections
    that PubsLock, SubsLock and a client's StateLock make atomic.

    PubsLock guards `send` and `current`; the worker holds the StateLock of the client it
    is `Locked` on or has `Written`; the connection flags are written under SubsLock only,
    so every other section may see a half-done change (`pending`).  The work item is queued
    with a client; its callbacks take turns under SendWorkerLock. */
module SendProtocol {
  import opened Options
  import opened Publications
  import M = MessageTypes

  type Id = nat

  /** What is left of a client: EvtFileClose takes it out of PubsList, then out of SendList,
      then frees its buffer under StateLock; the file object goes when its last reference does. */
  datatype Phase = Open | Unlisted | Unsent | Freed | Destroyed

  datatype Client = Client(phase: Phase, attributes: Attributes)

  datatype Worker =
    | Outside
    | AtTop
    | Locked(c: Id)                 // dequeued, StateLock held, nothing sent yet
    | Written(c: Id, stop: bool)    // write done, StateLock held
    | Unlocked(c: Id, stop: bool)   // StateLock released, still the current client
    | Dropping(c: Id, stop: bool)   // about to drop the list's reference

  datatype Pending = Settled | TagArriving | P2pLosing

  datatype Write = Write(c: Id, toTag: bool)

  datatype State = State(
    clients: map<Id, Client>,
    send: seq<Id>,
    current: Option<Id>,
    references: map<Id, int>,      // SEND_LIST_ENTRY_TAG references taken less those dropped
    conn: Connection,
    pending: Pending,
    worker: Worker,
    scheduled: bool,                // the work item is queued
    waiting: nat,                   // its callbacks that wait for SendWorkerLock
    skipped: Option<Id>,            // history: the last client taken, if it was disabled
    writes: seq<Write>)             // history: every write started

  const INITIAL: State :=
    State(map[], [], None, map[], Connection(false, false), Settled, Outside, false, 0, None, [])

  /** Threads of clients: file creation, IOCTLs, and the sections of EvtFileClose. */
  datatype ClientStep =
    | Create(translation: TranslationType)
    | SetPayload(size: nat)
    | SetEnabled(enabled: bool)
    | Verify
    | RemovePublication | RemoveSend | FreeBuffer | Destroy

  /** The connection handlers; an arrival of a tag and a loss of a P2P link have two sections. */
  datatype PeerStep = TagArrival | TagArrived | TagLost | P2pArrival | P2pDrain | P2pLost

  /** The sections of the send worker: a callback of the work item looks at DeviceConnected
      before it waits for its turn. */
  datatype WorkerStep = Check | Enter | Dequeue | Leave | Skip | WriteOut(succeeds: bool) | Unlock | Reset | Drop

  datatype Step = ByClient(id: Id, c: ClientStep) | ByPeer(p: PeerStep) | ByWorker(w: WorkerStep)

  predicate InPhase(s: State, c: Id, p: Phase) {
    c in s.clients && s.clients[c].phase == p
  }

  function References(s: State, c: Id): int {
    if c in s.references then s.references[c] else 0
  }

  function AddReferences(s: State, c: Id, n: int): (r: map<Id, int>) {
    s.references[c := References(s, c) + n]
  }

  /** The worker holds the StateLock of `c`. */
  predicate HoldsStateLock(w: Worker, c: Id) {
    (w.Locked? || w.Written?) && w.c == c
  }

  predicate ClientEnabled(s: State, c: Id, e: ClientStep) {
    match e
    case Create(_) => c !in s.clients
    case SetPayload(_) => InPhase(s, c, Open) && !HoldsStateLock(s.worker, c)
    case SetEnabled(_) => InPhase(s, c, Open) && !HoldsStateLock(s.worker, c)
    case Verify => InPhase(s, c, Open) && (s.current != Some(c) ==> !HoldsStateLock(s.worker, c))
    case RemovePublication => InPhase(s, c, Open)
    case RemoveSend => InPhase(s, c, Unlisted)
    case FreeBuffer => InPhase(s, c, Unsent) && !HoldsStateLock(s.worker, c)
    case Destroy => InPhase(s, c, Freed) && References(s, c) == 0
  }

  predicate PeerEnabled(s: State, e: PeerStep) {
    match e
    case TagArrival => s.pending == Settled && !s.conn.device
    case TagArrived => s.pending == TagArriving
    case TagLost => s.pending == Settled && s.conn.device && s.conn.tag
    case P2pArrival => s.pending == Settled && !s.conn.device
    case P2pDrain => s.pending == Settled && s.conn.device && !s.conn.tag
    case P2pLost => s.pending == P2pLosing
  }

  predicate WorkerEnabled(s: State, e: WorkerStep) {
    match e
    case Check => s.scheduled
    case Enter => s.worker == Outside && s.waiting > 0
    case Dequeue => s.worker == AtTop && s.send != []
    case Leave => s.worker == AtTop && s.send == []
    case Skip => s.worker.Locked? && s.worker.c in s.clients && !s.clients[s.worker.c].attributes.enabled
    case WriteOut(_) => s.worker.Locked? && s.worker.c in s.clients && s.clients[s.worker.c].attributes.enabled
    case Unlock => s.worker.Written?
    case Reset => s.worker.Unlocked?
    case Drop => s.worker.Dropping?
  }

  /** When a thread can take the step: its locks are free, and its code leads there. */
  predicate Enabled(s: State, e: Step) {
    match e
    case ByClient(c, ce) => ClientEnabled(s, c, ce)
    case ByPeer(pe) => PeerEnabled(s, pe)
    case ByWorker(we) => WorkerEnabled(s, we)
  }

  ghost function SetPhase(s: State, c: Id, p: Phase): (r: State)
    requires c in s.clients
  {
    s.(clients := s.clients[c := s.clients[c].(phase := p)])
  }

  ghost function SetAttributes(s: State, c: Id, a: Attributes): (r: State)
    requires c in s.clients
  {
    s.(clients := s.clients[c := s.clients[c].(attributes := a)])
  }

  ghost function ClientNext(s: State, c: Id, e: ClientStep): (r: State)
    requires ClientEnabled(s, c, e)
  {
    match e
    case Create(t) => s.(clients := s.clients[c := Client(Open, Attributes(true, t, 0))])
    case SetPayload(n) =>
      var a := s.clients[c].attributes;
      if a.payloadSize != 0 then s else SetAttributes(s, c, a.(payloadSize := n))
    case SetEnabled(on) => SetAttributes(s, c, s.clients[c].attributes.(enabled := on))
    case Verify =>
      var a := s.clients[c].attributes;
      if s.current == Some(c) || !MustSend(s.conn, a) then s
      else if IsReadOnly(a.translation) || c in s.send then s.(scheduled := true)
      else s.(scheduled := true, send := [c] + s.send, references := AddReferences(s, c, 1))
    case RemovePublication => SetPhase(s, c, Unlisted)
    case RemoveSend =>
      var s' := SetPhase(s, c, Unsent);
      if c in s.send then s'.(send := Delist(s.send, c), references := AddReferences(s, c, -1)) else s'
    case FreeBuffer => SetPhase(s, c, Freed)
    case Destroy => SetPhase(s, c, Destroyed)
  }

  ghost function PeerNext(s: State, e: PeerStep): (r: State)
    requires PeerEnabled(s, e)
  {
    match e
    case TagArrival => s.(conn := Connection(true, false), pending := TagArriving)
    case TagArrived => s.(conn := Connection(true, true), pending := Settled)
    case TagLost => s.(conn := Connection(false, false))
    case P2pArrival => s.(conn := Connection(true, false))
    case P2pDrain => s.(send := [], pending := P2pLosing,
         references := map c | c in s.references.Keys + (set d | d in s.send) :: References(s, c) - Count(s.send, c))
    case P2pLost => s.(conn := Connection(false, false), pending := Settled)
  }

  ghost function WorkerNext(s: State, e: WorkerStep): (r: State)
    requires WorkerEnabled(s, e)
  {
    match e
    case Check => s.(scheduled := false, waiting := if s.conn.device then s.waiting + 1 else s.waiting)
    case Enter => s.(worker := AtTop, waiting := s.waiting - 1)
    case Dequeue => s.(worker := Locked(s.send[0]), send := s.send[1..], current := Some(s.send[0]), skipped := None)
    case Leave => s.(worker := Outside)
    case Skip => s.(worker := Dropping(s.worker.c, false), skipped := Some(s.worker.c))
    case WriteOut(succeeds) =>
      s.(worker := Written(s.worker.c, !s.conn.tag && !succeeds), writes := s.writes + [Write(s.worker.c, s.conn.tag)])
    case Unlock => s.(worker := Unlocked(s.worker.c, s.worker.stop))
    case Reset => s.(worker := Dropping(s.worker.c, s.worker.stop), current := None)
    case Drop =>
      s.(worker := if s.worker.stop then Outside else AtTop, references := AddReferences(s, s.worker.c, -1))
  }

  ghost function Next(s: State, e: Step): (r: State)
    requires Enabled(s, e)
  {
    match e
    case ByClient(c, ce) => ClientNext(s, c, ce)
    case ByPeer(pe) => PeerNext(s, pe)
    case ByWorker(we) => WorkerNext(s, we)
  }

  ghost predicate IsRun(s: State, run: seq<Step>)
    decreases |run|
  {
    run == [] || (Enabled(s, run[0]) && IsRun(Next(s, run[0]), run[1..]))
  }

  ghost function After(s: State, run: seq<Step>): (r: State)
    requires IsRun(s, run)
    decreases |run|
  {
    if run == [] then s else After(Next(s, run[0]), run[1..])
  }

  lemma {:induction false} RunAppend(s: State, run: seq<Step>, rest: seq<Step>)
    requires IsRun(s, run) && IsRun(After(s, run), rest)
    ensures IsRun(s, run + rest) && After(s, run + rest) == After(After(s, run), rest)
    decreases |run|
  {
    if run == [] {
      assert [] + rest == rest;
    } else {
      RunAppend(Next(s, run[0]), run[1..], rest);
      assert (run + rest)[1..] == run[1..] + rest;
    }
  }

  ghost predicate IsRunTo(s: State, run: seq<Step>, s': State) {
    IsRun(s, run) && After(s, run) == s'
  }

  ghost predicate IsReachable(s: State) {
    exists run :: IsRunTo(INITIAL, run, s)
  }

  lemma InitialIsReachable()
    ensures IsReachable(INITIAL)
  {
    assert IsRunTo(INITIAL, [], INITIAL);
  }

  lemma Reach(s: State, e: Step) returns (s': State)
    requires IsReachable(s) && Enabled(s, e)
    ensures s' == Next(s, e) && IsReachable(s')
  {
    var run :| IsRunTo(INITIAL, run, s);
    s' := Next(s, e);
    assert [e][1..] == [];
    RunAppend(INITIAL, run, [e]);
    assert IsRunTo(INITIAL, run + [e], s');
  }

  // ---------- references and lifetimes ----------

  /** The worker has taken over the list's reference to `c`. */
  predicate Holds(w: Worker, c: Id) {
    !w.Outside? && !w.AtTop? && w.c == c
  }

  /** What holds of each client, whatever the others do.  Conservation: each reference
      still held belongs to a place in SendList or to the worker's hands, and no client is
      listed twice.  Lifetime: SendList holds only clients that have not passed its step of
      EvtFileClose; a referenced client is not destroyed, and its buffer is not freed while
      it is being sent. */
  ghost predicate InvFor(s: State, c: Id) {
    && References(s, c) == Count(s.send, c) + (if Holds(s.worker, c) then 1 else 0)
    && Count(s.send, c) <= 1
    && (c in s.send ==> InPhase(s, c, Open) || InPhase(s, c, Unlisted))
    && (References(s, c) > 0 ==> c in s.clients && s.clients[c].phase != Destroyed)
    && (HoldsStateLock(s.worker, c) ==> s.clients[c].phase != Freed)
  }

  /** SendWorkerCurrentClient is the client being processed, or none, or a client that was
      skipped because it was disabled. */
  ghost predicate CurrentKnown(s: State) {
    && s.current == (if s.worker.Outside? || s.worker.AtTop? || s.worker.Dropping? then s.skipped else Some(s.worker.c))
    && (s.worker.Locked? || s.worker.Written? || s.worker.Unlocked? ==> s.skipped == None)
  }

  ghost predicate Inv(s: State) {
    CurrentKnown(s) && forall c :: InvFor(s, c)
  }

  lemma VerifyKeepsInvFor(s: State, d: Id, c: Id)
    requires InvFor(s, c) && ClientEnabled(s, d, Verify)
    ensures InvFor(ClientNext(s, d, Verify), c)
  {
    assert ([d] + s.send)[1..] == s.send;
  }

  lemma RemoveSendKeepsInvFor(s: State, d: Id, c: Id)
    requires InvFor(s, c) && ClientEnabled(s, d, RemoveSend)
    ensures InvFor(ClientNext(s, d, RemoveSend), c)
  {
    DelistCount(s.send, d, c);
    hide Delist, Count;
  }

  lemma ClientKeepsInvFor(s: State, d: Id, e: ClientStep, c: Id)
    requires InvFor(s, c) && ClientEnabled(s, d, e)
    ensures InvFor(ClientNext(s, d, e), c)
  {
    hide Delist, MustSend;
    match e
    case Verify => VerifyKeepsInvFor(s, d, c);
    case RemoveSend => RemoveSendKeepsInvFor(s, d, c);
    case _ =>
  }

  lemma PeerKeepsInvFor(s: State, e: PeerStep, c: Id)
    requires InvFor(s, c) && PeerEnabled(s, e)
    ensures InvFor(PeerNext(s, e), c)
  {
  }

  lemma WorkerKeepsInvFor(s: State, e: WorkerStep, c: Id)
    requires InvFor(s, c) && WorkerEnabled(s, e)
    ensures InvFor(WorkerNext(s, e), c)
  {
  }

  lemma StepKeepsCurrent(s: State, e: Step)
    requires CurrentKnown(s) && Enabled(s, e)
    ensures CurrentKnown(Next(s, e))
  {
    match e
    case ByClient(c, f) => ClientKeepsCurrent(s, c, f);
    case ByPeer(f) => PeerKeepsCurrent(s, f);
    case ByWorker(f) => WorkerKeepsCurrent(s, f);
    hide ClientNext, PeerNext, WorkerNext;
  }

  lemma PeerKeepsCurrent(s: State, e: PeerStep)
    requires CurrentKnown(s) && PeerEnabled(s, e)
    ensures CurrentKnown(PeerNext(s, e))
  {
  }

  lemma WorkerKeepsCurrent(s: State, e: WorkerStep)
    requires CurrentKnown(s) && WorkerEnabled(s, e)
    ensures CurrentKnown(WorkerNext(s, e))
  {
    hide AddReferences;
  }

  lemma ClientKeepsCurrent(s: State, c: Id, e: ClientStep)
    requires CurrentKnown(s) && ClientEnabled(s, c, e)
    ensures CurrentKnown(ClientNext(s, c, e))
  {
    hide Delist, MustSend, AddReferences;
  }

  lemma StepKeepsInv(s: State, e: Step)
    requires Inv(s) && Enabled(s, e)
    ensures Inv(Next(s, e))
  {
    StepKeepsCurrent(s, e);
    forall c ensures InvFor(Next(s, e), c) {
      assert InvFor(s, c);
      match e
      case ByClient(d, f) => ClientKeepsInvFor(s, d, f, c);
      case ByPeer(f) => PeerKeepsInvFor(s, f, c);
      case ByWorker(f) => WorkerKeepsInvFor(s, f, c);
    }
  }

  lemma {:induction false} RunKeepsInv(s: State, run: seq<Step>)
    requires Inv(s) && IsRun(s, run)
    ensures Inv(After(s, run))
    decreases |run|
  {
    if run != [] {
      StepKeepsInv(s, run[0]);
      RunKeepsInv(Next(s, run[0]), run[1..]);
    }
  }

  lemma InitialInv()
    ensures Inv(INITIAL)
  {
  }

  /** Over every interleaving: SEND_LIST_ENTRY_TAG references taken less those dropped are
      one for a place in SendList and one for the worker's hands, and no client is listed
      twice. */
  lemma ReferencesAreConserved(run: seq<Step>)
    requires IsRun(INITIAL, run)
    ensures var s := After(INITIAL, run);
            && NoDuplicates(s.send)
            && forall c :: References(s, c) == (if c in s.send then 1 else 0) + (if Holds(s.worker, c) then 1 else 0)
  {
    InitialInv();
    RunKeepsInv(INITIAL, run);
    var s := After(INITIAL, run);
    forall c ensures InvFor(s, c) && Count(s.send, c) <= 1 { }
    CountIsNoDuplicates(s.send);
    forall c ensures References(s, c) == (if c in s.send then 1 else 0) + (if Holds(s.worker, c) then 1 else 0) {
      assert InvFor(s, c);
    }
  }

  /** The reference keeps the client: what is queued or in the worker's hands is never
      destroyed, and the worker never sends a buffer that EvtFileClose has freed. */
  lemma QueuedClientsOutliveTheirPlace(run: seq<Step>, c: Id)
    requires IsRun(INITIAL, run)
    ensures var s := After(INITIAL, run);
            && (c in s.send || Holds(s.worker, c) ==> c in s.clients && s.clients[c].phase != Destroyed)
            && (c in s.send ==> s.clients[c].phase != Unsent && s.clients[c].phase != Freed)
            && (HoldsStateLock(s.worker, c) ==> s.clients[c].phase != Freed)
  {
    InitialInv();
    RunKeepsInv(INITIAL, run);
    assert InvFor(After(INITIAL, run), c);
  }

  // ---------- the current client ----------

  /** The two assertions on SendWorkerCurrentClient: the one after a write always holds;
      the one at a dequeue holds exactly when the client taken before was not skipped for
      being disabled. */
  lemma CurrentClientAssertions(run: seq<Step>)
    requires IsRun(INITIAL, run)
    ensures var s := After(INITIAL, run);
            && (WorkerEnabled(s, Reset) ==> s.current == Some(s.worker.c))
            && (WorkerEnabled(s, Dequeue) ==> (s.current == None <==> s.skipped == None))
  {
    InitialInv();
    RunKeepsInv(INITIAL, run);
  }

  /** A client that has been opened and has its payload, in an otherwise unchanged state. */
  lemma ReachClient(s: State, c: Id, t: TranslationType, size: nat) returns (s': State)
    requires IsReachable(s) && c !in s.clients && !HoldsStateLock(s.worker, c)
    ensures IsReachable(s') && s' == s.(clients := s.clients[c := Client(Open, Attributes(true, t, size))])
  {
    s' := Reach(s, ByClient(c, Create(t)));
    s' := Reach(s', ByClient(c, SetPayload(size)));
    assert s'.clients == s.clients[c := Client(Open, Attributes(true, t, size))];
  }

  /** A P2P publication waits for the worker. */
  lemma ReachQueued(t: TranslationType, size: nat) returns (s: State)
    requires !IsTagWrite(t) && size > 0
    ensures IsReachable(s)
    ensures s == State(map[0 := Client(Open, Attributes(true, t, size))], [0], None, map[0 := 1],
                       Connection(true, false), Settled, Outside, true, 0, None, [])
  {
    InitialIsReachable();
    s := ReachClient(INITIAL, 0, t, size);
    s := Reach(s, ByPeer(P2pArrival));
    s := Reach(s, ByClient(0, Verify));
  }

  /** The assertion at a dequeue does fail: two P2P publications are queued and the one in
      front is disabled before the worker takes it. */
  lemma DequeueAssertionFails(t: TranslationType, size: nat)
    requires !IsTagWrite(t) && size > 0
    ensures exists run :: IsRun(INITIAL, run) && WorkerEnabled(After(INITIAL, run), Dequeue)
                          && After(INITIAL, run).current != None
  {
    var s := ReachQueued(t, size);
    s := ReachClient(s, 1, t, size);
    s := Reach(s, ByClient(1, Verify));
    assert s.send == [1, 0];
    s := Reach(s, ByClient(1, SetEnabled(false)));
    s := Reach(s, ByWorker(Check));
    s := Reach(s, ByWorker(Enter));
    s := Reach(s, ByWorker(Dequeue));
    s := Reach(s, ByWorker(Skip));
    s := Reach(s, ByWorker(Drop));
    assert WorkerEnabled(s, Dequeue) && s.current == Some(1);
    var run :| IsRunTo(INITIAL, run, s);
  }

  ghost predicate NoDequeue(run: seq<Step>) {
    ByWorker(Dequeue) !in run
  }

  /** A skipped client stays the current one, so that it is not queued again, enabled and
      eligible or not, until the worker takes some other client. */
  lemma {:induction false} SkippedClientIsStarved(s: State, c: Id, run: seq<Step>)
    requires IsRun(s, run) && NoDequeue(run)
    requires s.current == Some(c) && c !in s.send
    requires s.worker.Outside? || s.worker.AtTop? || s.worker.Dropping?
    ensures After(s, run).current == Some(c) && c !in After(s, run).send
    decreases |run|
  {
    if run != [] {
      var s' := Next(s, run[0]);
      assert run[0] in run;
      if run[0].ByClient? && run[0].c == RemoveSend { DelistCount(s.send, run[0].id, c); }
      SkippedClientIsStarved(s', c, run[1..]);
    }
  }

  // ---------- a queued client has a worker ----------

  /** The worker ends after this turn: its P2P write failed. */
  predicate Stops(w: Worker) {
    (w.Written? || w.Unlocked? || w.Dropping?) && w.stop
  }

  /** The work item is queued, or a callback of it waits, or one goes on with the queue. */
  predicate IsAwake(s: State) {
    s.scheduled || s.waiting > 0 || (s.worker != Outside && !Stops(s.worker))
  }

  predicate IsAttended(s: State) {
    s.send != [] ==> IsAwake(s)
  }

  /** The last wake-up is spent while clients are queued: the work item runs when nothing is
      connected, or the worker stops at a failed P2P write. */
  predicate Strands(s: State, e: Step)
    requires Enabled(s, e)
  {
    && s.send != [] && s.waiting == 0
    && match e
       case ByWorker(Check) => !s.conn.device && (s.worker == Outside || Stops(s.worker))
       case ByWorker(WriteOut(false)) => !s.conn.tag && !s.scheduled
       case _ => false
  }

  lemma StepAttendsExactly(s: State, e: Step)
    requires IsAttended(s) && Enabled(s, e)
    ensures IsAttended(Next(s, e)) <==> !Strands(s, e)
  {
    if e.ByClient? && e.c == RemoveSend { EmptyDelist(s.send, e.id); }
    hide MustSend, Delist;
  }

  lemma EmptyDelist(send: seq<Id>, c: Id)
    ensures send == [] ==> Delist(send, c) == []
  {
  }

  ghost predicate StrandsNever(s: State, run: seq<Step>)
    requires IsRun(s, run)
    decreases |run|
  {
    run == [] || (!Strands(s, run[0]) && StrandsNever(Next(s, run[0]), run[1..]))
  }

  lemma {:induction false} RunAttends(s: State, run: seq<Step>)
    requires IsAttended(s) && IsRun(s, run) && StrandsNever(s, run)
    ensures IsAttended(After(s, run))
    decreases |run|
  {
    if run != [] {
      StepAttendsExactly(s, run[0]);
      RunAttends(Next(s, run[0]), run[1..]);
    }
  }

  /** Until one of those two steps, a queued client always has a worker that is scheduled,
      waiting or running; and it has none after the first of them. */
  lemma QueuedClientsAreAttendedExactly(run: seq<Step>, e: Step)
    requires IsRun(INITIAL, run) && StrandsNever(INITIAL, run) && Enabled(After(INITIAL, run), e)
    ensures IsAttended(After(INITIAL, run))
    ensures IsAttended(Next(After(INITIAL, run), e)) <==> !Strands(After(INITIAL, run), e)
  {
    RunAttends(INITIAL, run);
    StepAttendsExactly(After(INITIAL, run), e);
  }

  ghost predicate WorkerOnly(ws: seq<Step>) {
    forall i :: 0 <= i < |ws| ==> ws[i].ByWorker?
  }

  /** The worker by itself takes the first of the queue. */
  ghost predicate Serves(s: State, ws: seq<Step>) {
    WorkerOnly(ws) && IsRun(s, ws) && s.send != [] && After(s, ws).send == s.send[1..]
  }

  ghost predicate IsServed(s: State) {
    exists ws :: Serves(s, ws)
  }

  /** A wake-up counts when it is past its look at DeviceConnected, or will pass it. */
  predicate CanServe(s: State) {
    s.waiting > 0 || (s.worker != Outside && !Stops(s.worker)) || (s.scheduled && s.conn.device)
  }

  /** Over every interleaving, whether the worker can take the first queued client without
      another thread's help can be read off its wake-ups. */
  lemma ServedExactly(run: seq<Step>)
    requires IsRun(INITIAL, run) && After(INITIAL, run).send != []
    ensures IsServed(After(INITIAL, run)) <==> CanServe(After(INITIAL, run))
  {
    InitialInv();
    RunKeepsInv(INITIAL, run);
    var s := After(INITIAL, run);
    if CanServe(s) {
      WorkerServes(s);
    } else if IsServed(s) {
      var ws :| Serves(s, ws);
      NothingIsServed(s, ws);
    }
  }

  lemma {:induction false} NothingIsServed(s: State, ws: seq<Step>)
    requires !CanServe(s) && WorkerOnly(ws) && IsRun(s, ws)
    ensures After(s, ws).send == s.send
    decreases |ws|
  {
    if ws != [] {
      assert ws[0].ByWorker?;
      assert WorkerOnly(ws[1..]) by { assert forall i :: 0 <= i < |ws| - 1 ==> ws[1..][i] == ws[i + 1]; }
      NothingIsServed(Next(s, ws[0]), ws[1..]);
    }
  }

  lemma ServeNext(s: State, w: WorkerStep)
    requires WorkerEnabled(s, w) && w != Dequeue && IsServed(WorkerNext(s, w)) && WorkerNext(s, w).send == s.send
    ensures IsServed(s)
  {
    var ws :| Serves(WorkerNext(s, w), ws);
    var e := ByWorker(w);
    assert ([e] + ws)[1..] == ws;
    assert Serves(s, [e] + ws);
  }

  function ServeRank(s: State): (n: nat) {
    match s.worker
    case AtTop => 0
    case Outside => if s.waiting > 0 then 1 else 2
    case _ => Rank(s.worker) + 2
  }

  lemma WorkerServes(s: State)
    requires Inv(s) && s.send != [] && CanServe(s)
    ensures IsServed(s)
    decreases ServeRank(s)
  {
    if s.worker == AtTop {
      var e := ByWorker(Dequeue);
      assert [e][1..] == [] && IsRun(Next(s, e), []) && After(Next(s, e), []) == Next(s, e);
      assert Serves(s, [e]);
    } else {
      var w := if s.worker != Outside then Finishing(s) else if s.waiting > 0 then Enter else Check;
      if s.worker != Outside { FinishingWorks(s); }
      StepKeepsInv(s, ByWorker(w));
      hide Inv;
      WorkerServes(WorkerNext(s, w));
      ServeNext(s, w);
    }
  }

  ghost predicate Empties(s: State, ws: seq<Step>) {
    WorkerOnly(ws) && IsRun(s, ws) && After(s, ws).send == [] && After(s, ws).worker == Outside
  }

  lemma EmptyNext(s: State, w: WorkerStep)
    requires WorkerEnabled(s, w) && exists ws :: Empties(WorkerNext(s, w), ws)
    ensures exists ws :: Empties(s, ws)
  {
    var ws :| Empties(WorkerNext(s, w), ws);
    var e := ByWorker(w);
    assert ([e] + ws)[1..] == ws;
    assert Empties(s, [e] + ws);
  }

  /** A worker that goes on empties the queue and ends, when its writes succeed and no other
      thread interferes. */
  lemma WorkerEmptiesTheQueue(s: State)
    requires Inv(s) && s.worker != Outside && !Stops(s.worker)
    ensures exists ws :: Empties(s, ws)
    decreases |s.send|, Rank(s.worker)
  {
    if s.worker == AtTop && s.send == [] {
      var e := ByWorker(Leave);
      assert [e][1..] == [] && IsRun(Next(s, e), []) && After(Next(s, e), []) == Next(s, e);
      assert Empties(s, [e]);
    } else {
      var w := if s.worker == AtTop then Dequeue else Finishing(s);
      if s.worker != AtTop { FinishingWorks(s); }
      StepKeepsInv(s, ByWorker(w));
      hide Inv;
      WorkerEmptiesTheQueue(WorkerNext(s, w));
      EmptyNext(s, w);
    }
  }

  /** A failed P2P write strands whoever is queued behind it. */
  lemma FailedWriteStrands(t: TranslationType, size: nat)
    requires !IsTagWrite(t) && size > 0
    ensures exists run :: IsRun(INITIAL, run) && !IsAttended(After(INITIAL, run)) && After(INITIAL, run).conn.device
  {
    var s := ReachQueued(t, size);
    s := ReachClient(s, 1, t, size);
    s := Reach(s, ByClient(1, Verify));
    assert s.send == [1, 0];
    s := Reach(s, ByWorker(Check));
    s := Reach(s, ByWorker(Enter));
    s := Reach(s, ByWorker(Dequeue));
    s := Reach(s, ByWorker(WriteOut(false)));
    assert s.send == [0] && !IsAttended(s);
    var run :| IsRunTo(INITIAL, run, s);
  }

  /** A tag that is lost before the work item runs strands what was queued for it. */
  lemma LostTagStrands(t: TranslationType, size: nat)
    requires IsTagWrite(t) && !IsReadOnly(t) && size > 0
    ensures exists run :: IsRun(INITIAL, run) && !IsAttended(After(INITIAL, run))
  {
    InitialIsReachable();
    var s := ReachClient(INITIAL, 0, t, size);
    s := Reach(s, ByPeer(TagArrival));
    s := Reach(s, ByPeer(TagArrived));
    s := Reach(s, ByClient(0, Verify));
    assert s.send == [0] && s.worker == Outside && s.waiting == 0;
    s := Reach(s, ByPeer(TagLost));
    s := Reach(s, ByWorker(Check));
    assert s.send == [0] && !IsAttended(s);
    var run :| IsRunTo(INITIAL, run, s);
  }

  // ---------- a P2P publication is not written to a tag ----------

  ghost predicate IsP2p(s: State, c: Id) {
    c in s.clients && !IsTagWrite(s.clients[c].attributes.translation)
  }

  ghost predicate Misdirected(s: State, w: Write) {
    w.toTag && IsP2p(s, w.c)
  }

  /** The two interleavings that the code does not exclude: queueing a P2P publication while
      a connection change is half done, and clearing the connection flags while the worker
      has taken an enabled P2P publication and not yet looked at them. */
  ghost predicate Guarded(s: State, e: Step)
    requires Enabled(s, e)
  {
    && (e.ByClient? && e.c.Verify? && IsP2p(s, e.id) && Next(s, e).send != s.send ==> s.pending == Settled)
    && (e == ByPeer(P2pLost) ==> !(s.worker.Locked? && IsEnabledP2p(s, s.worker.c)))
  }

  ghost predicate IsEnabledP2p(s: State, c: Id) {
    IsP2p(s, c) && s.clients[c].attributes.enabled
  }

  ghost predicate GuardedRun(s: State, run: seq<Step>)
    requires IsRun(s, run)
    decreases |run|
  {
    run == [] || (Guarded(s, run[0]) && GuardedRun(Next(s, run[0]), run[1..]))
  }

  ghost predicate SafeFor(s: State, c: Id) {
    && (c in s.send && IsP2p(s, c) ==> s.conn == Connection(true, false) && s.pending == Settled)
    && (s.worker == Locked(c) && IsEnabledP2p(s, c) ==> s.conn == Connection(true, false) && s.pending != TagArriving)
    && (forall w :: w in s.writes && w.c == c ==> c in s.clients && !Misdirected(s, w))
  }

  lemma ClientKeepsSafe(s: State, d: Id, e: ClientStep, c: Id)
    requires InvFor(s, c) && SafeFor(s, c) && ClientEnabled(s, d, e)
    requires e.Verify? && IsP2p(s, d) && ClientNext(s, d, e).send != s.send ==> s.pending == Settled
    ensures SafeFor(ClientNext(s, d, e), c)
  {
    if e == RemoveSend { DelistCount(s.send, d, c); }
  }

  lemma PeerKeepsSafe(s: State, e: PeerStep, c: Id)
    requires InvFor(s, c) && SafeFor(s, c) && PeerEnabled(s, e)
    requires e == P2pLost ==> !(s.worker.Locked? && IsEnabledP2p(s, s.worker.c))
    ensures SafeFor(PeerNext(s, e), c)
  {
  }

  lemma WorkerKeepsSafe(s: State, e: WorkerStep, c: Id)
    requires InvFor(s, c) && SafeFor(s, c) && WorkerEnabled(s, e)
    ensures SafeFor(WorkerNext(s, e), c)
  {
  }

  lemma StepKeepsSafe(s: State, e: Step, c: Id)
    requires Inv(s) && SafeFor(s, c) && Enabled(s, e) && Guarded(s, e)
    ensures SafeFor(Next(s, e), c)
  {
    assert InvFor(s, c);
    match e
    case ByClient(d, f) => ClientKeepsSafe(s, d, f, c);
    case ByPeer(f) => PeerKeepsSafe(s, f, c);
    case ByWorker(f) => WorkerKeepsSafe(s, f, c);
  }

  lemma {:induction false} GuardedRunIsSafe(s: State, run: seq<Step>)
    requires Inv(s) && (forall c :: SafeFor(s, c)) && IsRun(s, run) && GuardedRun(s, run)
    ensures forall c :: SafeFor(After(s, run), c)
    decreases |run|
  {
    if run != [] {
      StepKeepsInv(s, run[0]);
      forall c ensures SafeFor(Next(s, run[0]), c) { StepKeepsSafe(s, run[0], c); }
      GuardedRunIsSafe(Next(s, run[0]), run[1..]);
    }
  }

  /** Outside those two interleavings no P2P publication is ever written to a tag. */
  lemma NoP2pPublicationReachesATag(run: seq<Step>)
    requires IsRun(INITIAL, run) && GuardedRun(INITIAL, run)
    ensures forall w :: w in After(INITIAL, run).writes ==> !Misdirected(After(INITIAL, run), w)
  {
    InitialInv();
    assert forall c :: SafeFor(INITIAL, c);
    GuardedRunIsSafe(INITIAL, run);
    var s := After(INITIAL, run);
    forall w | w in s.writes ensures !Misdirected(s, w) { assert SafeFor(s, w.c); }
  }

  /** No other thread gets a section while a connection handler is between its own, or
      while the worker is between its dequeue and its write. */
  ghost predicate HandlersAtomic(s: State, run: seq<Step>)
    requires IsRun(s, run)
    decreases |run|
  {
    run != [] ==>
      && (s.pending != Settled ==> run[0].ByPeer?)
      && (s.worker.Locked? ==> run[0].ByWorker?)
      && HandlersAtomic(Next(s, run[0]), run[1..])
  }

  lemma {:induction false} AtomicHandlersAreGuarded(s: State, run: seq<Step>)
    requires IsRun(s, run) && HandlersAtomic(s, run)
    ensures GuardedRun(s, run)
    decreases |run|
  {
    if run != [] { AtomicHandlersAreGuarded(Next(s, run[0]), run[1..]); }
  }

  lemma Extend(s: State, e: Step, run: seq<Step>)
    requires Enabled(s, e) && IsRun(Next(s, e), run)
    ensures IsRun(s, [e] + run) && After(s, [e] + run) == After(Next(s, e), run)
  {
    assert ([e] + run)[1..] == run;
  }

  ghost predicate Misdirects(s: State, run: seq<Step>) {
    IsRun(s, run) && exists w :: w in After(s, run).writes && Misdirected(After(s, run), w)
  }

  /** What remains of a run once the worker has a P2P publication and a tag is connected. */
  lemma WriteToTag(s: State, c: Id)
    requires s.worker == Locked(c) && IsP2p(s, c) && s.clients[c].attributes.enabled && s.conn.tag
    ensures Misdirects(s, [ByWorker(WriteOut(true))])
  {
    var e := ByWorker(WriteOut(true));
    Extend(s, e, []);
    assert [e] + [] == [e];
    assert Write(c, true) in Next(s, e).writes;
  }

  lemma PrependStep(s: State, e: Step, run: seq<Step>)
    requires Enabled(s, e) && Misdirects(Next(s, e), run)
    ensures Misdirects(s, [e] + run)
  {
    Extend(s, e, run);
  }

  /** First interleaving: the link is lost while the worker has the publication. */
  lemma LossUnderTheWorkerMisdirects(s: State, c: Id)
    requires s.worker == Locked(c) && IsEnabledP2p(s, c) && s.pending == P2pLosing
    ensures exists run :: run != [] && run[0] == ByPeer(P2pLost) && Misdirects(s, run)
  {
    var s1 := Next(s, ByPeer(P2pLost));
    var s2 := Next(s1, ByPeer(TagArrival));
    WriteToTag(Next(s2, ByPeer(TagArrived)), c);
    PrependStep(s2, ByPeer(TagArrived), [ByWorker(WriteOut(true))]);
    PrependStep(s1, ByPeer(TagArrival), [ByPeer(TagArrived)] + [ByWorker(WriteOut(true))]);
    PrependStep(s, ByPeer(P2pLost), [ByPeer(TagArrival)] + ([ByPeer(TagArrived)] + [ByWorker(WriteOut(true))]));
  }

  ghost predicate CanMisdirect(s: State) {
    exists run :: Misdirects(s, run)
  }

  lemma StepThenMisdirects(s: State, e: Step)
    requires Enabled(s, e) && CanMisdirect(Next(s, e))
    ensures exists run :: run != [] && run[0] == e && Misdirects(s, run)
  {
    var run :| Misdirects(Next(s, e), run);
    PrependStep(s, e, run);
    assert ([e] + run)[0] == e;
  }

  lemma IdleWorkerMisdirects(s: State, c: Id)
    requires s.send != [] && s.send[0] == c && IsEnabledP2p(s, c) && s.conn == Connection(true, true)
    requires s.worker == AtTop || (s.worker == Outside && (s.scheduled || s.waiting > 0))
    ensures CanMisdirect(s)
    decreases if s.worker == AtTop then 0 else if s.waiting > 0 then 1 else 2
  {
    if s.worker == Outside && s.waiting == 0 {
      IdleWorkerMisdirects(Next(s, ByWorker(Check)), c);
      StepThenMisdirects(s, ByWorker(Check));
    } else if s.worker == Outside {
      IdleWorkerMisdirects(Next(s, ByWorker(Enter)), c);
      StepThenMisdirects(s, ByWorker(Enter));
    } else {
      WriteToTag(Next(s, ByWorker(Dequeue)), c);
      StepThenMisdirects(s, ByWorker(Dequeue));
    }
  }

  lemma ChangeThenMisdirects(s: State, c: Id)
    requires s.send != [] && s.send[0] == c && IsEnabledP2p(s, c) && s.pending != Settled
    requires s.worker == AtTop || (s.worker == Outside && (s.scheduled || s.waiting > 0))
    ensures CanMisdirect(s)
    decreases if s.pending == P2pLosing then 1 else 0
  {
    if s.pending == TagArriving {
      IdleWorkerMisdirects(Next(s, ByPeer(TagArrived)), c);
      StepThenMisdirects(s, ByPeer(TagArrived));
    } else {
      var s1 := Next(s, ByPeer(P2pLost));
      ChangeThenMisdirects(Next(s1, ByPeer(TagArrival)), c);
      StepThenMisdirects(s1, ByPeer(TagArrival));
      StepThenMisdirects(s, ByPeer(P2pLost));
    }
  }

  /** How many sections the worker is from its loop head. */
  function Rank(w: Worker): (n: nat) {
    match w
    case Outside => 0
    case AtTop => 0
    case Dropping(_, _) => 1
    case Unlocked(_, _) => 2
    case Written(_, _) => 3
    case Locked(_) => 4
  }

  /** The worker can always finish what it has in hand, whatever that is. */
  function Finishing(s: State): (e: WorkerStep)
    requires Rank(s.worker) > 0
  {
    match s.worker
    case Dropping(_, _) => Drop
    case Unlocked(_, _) => Reset
    case Written(_, _) => Unlock
    case Locked(c) => if c in s.clients && s.clients[c].attributes.enabled then WriteOut(true) else Skip
  }

  lemma FinishingWorks(s: State)
    requires Inv(s) && Rank(s.worker) > 0
    ensures WorkerEnabled(s, Finishing(s))
    ensures var s' := WorkerNext(s, Finishing(s));
            && Rank(s'.worker) < Rank(s.worker) && s'.send == s.send && s'.clients == s.clients
            && s'.pending == s.pending && s'.scheduled == s.scheduled && s'.waiting == s.waiting
  {
    assert InvFor(s, s.worker.c);
  }

  lemma AnyWorkerMisdirects(s: State, c: Id)
    requires Inv(s) && s.send != [] && s.send[0] == c && IsEnabledP2p(s, c) && s.pending != Settled && s.scheduled
    ensures CanMisdirect(s)
    decreases Rank(s.worker)
  {
    if Rank(s.worker) == 0 {
      ChangeThenMisdirects(s, c);
    } else {
      var e := Finishing(s);
      FinishingWorks(s);
      StepKeepsInv(s, ByWorker(e));
      AnyWorkerMisdirects(WorkerNext(s, e), c);
      StepThenMisdirects(s, ByWorker(e));
    }
  }

  /** Second interleaving: a P2P publication is queued while a connection change is half
      done, whatever the worker is doing. */
  lemma QueueingInHalfDoneChangeMisdirects(s: State, c: Id)
    requires Inv(s) && ClientEnabled(s, c, Verify) && IsP2p(s, c) && s.pending != Settled
    requires ClientNext(s, c, Verify).send != s.send
    ensures exists run :: run != [] && run[0] == ByClient(c, Verify) && Misdirects(s, run)
  {
    var e := ByClient(c, Verify);
    StepKeepsInv(s, e);
    assert Next(s, e).send[0] == c;
    AnyWorkerMisdirects(Next(s, e), c);
    StepThenMisdirects(s, e);
  }

  /** The guard is exact: each step that it excludes can be continued, in every reachable
      state, to a run that writes a P2P publication to a tag. */
  lemma UnguardedStepMisdirects(run: seq<Step>, e: Step)
    requires IsRun(INITIAL, run) && Enabled(After(INITIAL, run), e) && !Guarded(After(INITIAL, run), e)
    ensures exists rest :: rest != [] && rest[0] == e && Misdirects(After(INITIAL, run), rest)
  {
    InitialInv();
    RunKeepsInv(INITIAL, run);
    var s := After(INITIAL, run);
    if e.ByClient? {
      QueueingInHalfDoneChangeMisdirects(s, e.id);
    } else {
      LossUnderTheWorkerMisdirects(s, s.worker.c);
    }
  }

  /** A run to a state in which `e` is enabled and outside the guard. */
  ghost predicate LeavesGuard(run: seq<Step>, e: Step) {
    IsRun(INITIAL, run) && Enabled(After(INITIAL, run), e) && !Guarded(After(INITIAL, run), e)
  }

  lemma ReachableLeavesGuard(s: State, e: Step)
    requires IsReachable(s) && Enabled(s, e) && !Guarded(s, e)
    ensures exists run :: LeavesGuard(run, e)
  {
    var run :| IsRunTo(INITIAL, run, s);
    assert LeavesGuard(run, e);
  }

  /** The link is lost while the worker is between its dequeue and its write. */
  lemma LossUnderTheWorkerHappens(t: TranslationType, size: nat)
    requires !IsTagWrite(t) && size > 0
    ensures exists run :: LeavesGuard(run, ByPeer(P2pLost))
  {
    var s := ReachQueued(t, size);
    s := Reach(s, ByWorker(Check));
    s := Reach(s, ByWorker(Enter));
    s := Reach(s, ByWorker(Dequeue));
    s := Reach(s, ByPeer(P2pDrain));
    ReachableLeavesGuard(s, ByPeer(P2pLost));
  }

  /** A client's verification comes between the two sections of a tag's arrival, or between
      those of the loss of a P2P link. */
  lemma QueueingInHalfDoneChangeHappens(t: TranslationType, size: nat, pending: Pending)
    requires !IsTagWrite(t) && size > 0 && pending != Settled
    ensures exists run :: LeavesGuard(run, ByClient(0, Verify)) && After(INITIAL, run).pending == pending
  {
    InitialIsReachable();
    var s := ReachClient(INITIAL, 0, t, size);
    if pending == TagArriving {
      s := Reach(s, ByPeer(TagArrival));
    } else {
      s := Reach(s, ByPeer(P2pArrival));
      s := Reach(s, ByPeer(P2pDrain));
    }
    assert s.pending == pending && s.send == [] && s.conn == Connection(true, false);
    assert Next(s, ByClient(0, Verify)).send == [0] + s.send;
    var run :| IsRunTo(INITIAL, run, s);
    assert LeavesGuard(run, ByClient(0, Verify));
  }

  /** A P2P publication of any kind and size can reach a tag from the initial state, through
      either interleaving. */
  lemma P2pPublicationReachesATag(t: TranslationType, size: nat, e: Step)
    requires !IsTagWrite(t) && size > 0 && e in {ByPeer(P2pLost), ByClient(0, Verify)}
    ensures exists run, rest :: LeavesGuard(run, e) && rest != [] && rest[0] == e && Misdirects(INITIAL, run + rest)
  {
    LossUnderTheWorkerHappens(t, size);
    QueueingInHalfDoneChangeHappens(t, size, TagArriving);
    var run :| LeavesGuard(run, e);
    UnguardedStepMisdirects(run, e);
    var rest :| rest != [] && rest[0] == e && Misdirects(After(INITIAL, run), rest);
    RunAppend(INITIAL, run, rest);
  }

  ghost predicate AtomicallyWrites(s: State, run: seq<Step>, w: Write) {
    IsRun(s, run) && HandlersAtomic(s, run) && w in After(s, run).writes
  }

  lemma PrependAtomicStep(s: State, e: Step, run: seq<Step>, w: Write)
    requires Enabled(s, e) && AtomicallyWrites(Next(s, e), run, w)
    requires (s.pending != Settled ==> e.ByPeer?) && (s.worker.Locked? ==> e.ByWorker?)
    ensures AtomicallyWrites(s, [e] + run, w)
  {
    Extend(s, e, run);
    assert ([e] + run)[1..] == run;
  }

  /** The converse fails even with atomic handlers: a lost tag does not drain SendList, so
      a tag publication that is still queued goes to the next P2P peer. */
  lemma StaleTagPublicationReachesP2p(s: State, c: Id)
    requires s.send != [] && s.send[0] == c && c in s.clients && IsTagWrite(s.clients[c].attributes.translation)
    requires s.clients[c].attributes.enabled && s.worker == Outside && s.scheduled
    requires s.conn == Connection(true, true) && s.pending == Settled
    ensures exists run :: AtomicallyWrites(s, run, Write(c, false))
  {
    var w := Write(c, false);
    var s1 := Next(s, ByPeer(TagLost));
    var s2 := Next(s1, ByPeer(P2pArrival));
    var s3 := Next(s2, ByWorker(Check));
    var s4 := Next(s3, ByWorker(Enter));
    var s5 := Next(s4, ByWorker(Dequeue));
    PrependAtomicStep(s5, ByWorker(WriteOut(true)), [], w);
    hide AtomicallyWrites;
    var run := [ByWorker(WriteOut(true))] + [];
    PrependAtomicStep(s4, ByWorker(Dequeue), run, w);
    run := [ByWorker(Dequeue)] + run;
    PrependAtomicStep(s3, ByWorker(Enter), run, w);
    run := [ByWorker(Enter)] + run;
    PrependAtomicStep(s2, ByWorker(Check), run, w);
    run := [ByWorker(Check)] + run;
    PrependAtomicStep(s1, ByPeer(P2pArrival), run, w);
    run := [ByPeer(P2pArrival)] + run;
    PrependAtomicStep(s, ByPeer(TagLost), run, w);
  }

  lemma TagPublicationIsQueued(s: State, t: TranslationType, size: nat)
    requires IsTagWrite(t) && !IsReadOnly(t) && size > 0
    requires s == INITIAL.(clients := map[0 := Client(Open, Attributes(true, t, size))])
    ensures exists run :: AtomicallyWrites(s, run, Write(0, false))
  {
    var w := Write(0, false);
    var s1 := Next(s, ByPeer(TagArrival));
    var s2 := Next(s1, ByPeer(TagArrived));
    var s3 := Next(s2, ByClient(0, Verify));
    StaleTagPublicationReachesP2p(s3, 0);
    hide AtomicallyWrites;
    var run :| AtomicallyWrites(s3, run, w);
    PrependAtomicStep(s2, ByClient(0, Verify), run, w);
    run := [ByClient(0, Verify)] + run;
    PrependAtomicStep(s1, ByPeer(TagArrived), run, w);
    run := [ByPeer(TagArrived)] + run;
    PrependAtomicStep(s, ByPeer(TagArrival), run, w);
  }

  /** Such a publication exists: from the initial state, with atomic handlers, a tag
      publication of any kind that is queued goes to the P2P peer that comes next. */
  lemma TagPublicationReachesP2p(t: TranslationType, size: nat)
    requires IsTagWrite(t) && !IsReadOnly(t) && size > 0
    ensures exists run :: AtomicallyWrites(INITIAL, run, Write(0, false))
  {
    var w := Write(0, false);
    var s1 := Next(INITIAL, ByClient(0, Create(t)));
    var s2 := Next(s1, ByClient(0, SetPayload(size)));
    assert s2.clients == map[0 := Client(Open, Attributes(true, t, size))];
    TagPublicationIsQueued(s2, t, size);
    hide AtomicallyWrites;
    var run :| AtomicallyWrites(s2, run, w);
    PrependAtomicStep(s1, ByClient(0, SetPayload(size)), run, w);
    run := [ByClient(0, SetPayload(size))] + run;
    PrependAtomicStep(INITIAL, ByClient(0, Create(t)), run, w);
  }

  // ---------- clients and their publications ----------

  /** Over every interleaving a client keeps its kind, and its payload once it has one. */
  lemma {:induction false} PublicationStays(s: State, run: seq<Step>, c: Id)
    requires IsRun(s, run) && c in s.clients
    ensures c in After(s, run).clients
    ensures var before, after := s.clients[c].attributes, After(s, run).clients[c].attributes;
            && after.translation == before.translation
            && (before.payloadSize != 0 ==> after.payloadSize == before.payloadSize)
    decreases |run|
  {
    if run != [] {
      StepKeepsPublication(s, run[0], c);
      PublicationStays(Next(s, run[0]), run[1..], c);
    }
  }

  lemma StepKeepsPublication(s: State, e: Step, c: Id)
    requires Enabled(s, e) && c in s.clients
    ensures c in Next(s, e).clients
    ensures var before, after := s.clients[c].attributes, Next(s, e).clients[c].attributes;
            && after.translation == before.translation
            && (before.payloadSize != 0 ==> after.payloadSize == before.payloadSize)
  {
    if e.ByClient? { ClientKeepsPublication(s, e.id, e.c, c); }
    hide ClientNext, AddReferences;
  }

  lemma ClientKeepsPublication(s: State, d: Id, e: ClientStep, c: Id)
    requires ClientEnabled(s, d, e) && c in s.clients
    ensures var s' := ClientNext(s, d, e);
            && c in s'.clients
            && s'.clients[c].attributes.translation == s.clients[c].attributes.translation
            && (s.clients[c].attributes.payloadSize != 0 ==>
                  s'.clients[c].attributes.payloadSize == s.clients[c].attributes.payloadSize)
  {
    hide Delist, MustSend, AddReferences;
  }

  /** A payload is taken when there is none yet, and a client is enabled or disabled as it asks. */
  lemma ClientSettings(s: State, c: Id, size: nat, on: bool)
    requires InPhase(s, c, Open) && !HoldsStateLock(s.worker, c)
    ensures var a := s.clients[c].attributes;
            && (a.payloadSize == 0 ==> Next(s, ByClient(c, SetPayload(size))).clients[c].attributes.payloadSize == size)
            && Next(s, ByClient(c, SetEnabled(on))).clients[c].attributes == a.(enabled := on)
  {
  }

  lemma RemoveSendEnds(s: State, c: Id)
    requires InvFor(s, c) && InPhase(s, c, Unlisted) && !Holds(s.worker, c)
    ensures var s' := Next(s, ByClient(c, RemoveSend));
            && s' == s.(clients := s.clients[c := s.clients[c].(phase := Unsent)], send := s'.send,
                        references := s'.references)
            && c !in s'.send && References(s', c) == 0
            && (forall d :: d != c ==> Count(s'.send, d) == Count(s.send, d))
  {
    forall d ensures Count(Delist(s.send, c), d) == Count(s.send, d) - (if d == c && c in s.send then 1 else 0) {
      DelistCount(s.send, c, d);
    }
    hide Delist;
  }

  /** Closing a file comes to its end: its four sections can follow each other when the worker
      does not have the client, and then it is in no list, unreferenced and destroyed, and no
      other client is touched. */
  lemma FileCloseEnds(s: State, c: Id)
    requires Inv(s) && InPhase(s, c, Open) && !Holds(s.worker, c)
    ensures var s1 := Next(s, ByClient(c, RemovePublication));
            && Enabled(s1, ByClient(c, RemoveSend))
            && var s2 := Next(s1, ByClient(c, RemoveSend));
            && Enabled(s2, ByClient(c, FreeBuffer))
            && var s3 := Next(s2, ByClient(c, FreeBuffer));
            && Enabled(s3, ByClient(c, Destroy))
            && var s4 := Next(s3, ByClient(c, Destroy));
            && InPhase(s4, c, Destroyed) && c !in s4.send && References(s4, c) == 0
            && (forall d :: d in s.clients && d != c ==> s4.clients[d] == s.clients[d])
            && (forall d :: d != c ==> Count(s4.send, d) == Count(s.send, d))
  {
    var s1 := Next(s, ByClient(c, RemovePublication));
    assert InvFor(s, c);
    RemoveSendEnds(s1, c);
    hide Delist, Count, MustSend;
  }

  /** A verification puts the client in front exactly when it is not queued, not current, has
      something to send for the peer there is, and is enabled; otherwise nothing moves. */
  lemma VerifyQueuesExactly(s: State, c: Id)
    requires Enabled(s, ByClient(c, Verify))
    ensures var a := s.clients[c].attributes;
            var due := && a.enabled && s.conn.device && s.conn.tag == IsTagWrite(a.translation)
                       && (a.payloadSize != 0 || IsReadOnly(a.translation)) && s.current != Some(c);
            var s' := Next(s, ByClient(c, Verify));
            && s'.send == (if due && !IsReadOnly(a.translation) && c !in s.send then [c] + s.send else s.send)
            && s'.scheduled == (s.scheduled || due)
  {
    MustSendExactly(s.conn, s.clients[c].attributes);
  }

  /** Every client was opened under a name of `names`. */
  ghost predicate IsNamed(run: seq<Step>, names: map<Id, string>) {
    forall i :: 0 <= i < |run| && run[i].ByClient? && run[i].c.Create? ==>
      run[i].id in names && IsKindOf(names[run[i].id], run[i].c.translation)
  }

  predicate IsKindOf(name: string, t: TranslationType) {
    M.Analyze(name, true).Recognized? && M.Analyze(name, true).translation == t
  }

  ghost predicate ClientsNamed(s: State, names: map<Id, string>) {
    forall c :: c in s.clients ==> c in names && IsKindOf(names[c], s.clients[c].attributes.translation)
  }

  lemma {:induction false} RunKeepsNamed(s: State, run: seq<Step>, names: map<Id, string>)
    requires IsRun(s, run) && IsNamed(run, names) && ClientsNamed(s, names)
    ensures ClientsNamed(After(s, run), names)
    decreases |run|
  {
    hide IsKindOf;
    if run != [] {
      var s' := Next(s, run[0]);
      forall c | c in s'.clients
        ensures c in names && IsKindOf(names[c], s'.clients[c].attributes.translation)
      {
        if c in s.clients { StepKeepsPublication(s, run[0], c); } else { assert run[0] == ByClient(c, run[0].c); }
      }
      assert forall i :: 0 <= i < |run| - 1 ==> run[1..][i] == run[i + 1];
      RunKeepsNamed(s', run[1..], names);
    }
  }

  /** In terms of the names under which clients publish: outside the two interleavings nothing
      is written to a tag but what was published for one. */
  lemma TagsGetWhatIsNamedForThem(run: seq<Step>, names: map<Id, string>)
    requires IsRun(INITIAL, run) && GuardedRun(INITIAL, run) && IsNamed(run, names)
    ensures forall w :: w in After(INITIAL, run).writes && w.toTag ==> w.c in names && M.IsTagName(names[w.c])
  {
    InitialInv();
    assert forall c :: SafeFor(INITIAL, c);
    GuardedRunIsSafe(INITIAL, run);
    RunKeepsNamed(INITIAL, run, names);
    var s := After(INITIAL, run);
    forall w | w in s.writes && w.toTag ensures w.c in names && M.IsTagName(names[w.c]) {
      assert SafeFor(s, w.c);
      M.PublicationKindExactly(names[w.c]);
    }
  }
}
