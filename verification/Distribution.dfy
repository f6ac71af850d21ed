/** The distribution of events to the subscription clients: three lists by translation type,
    walked under SubsLock.  What each client goes through is exactly the run of that client
    alone (module Subscriber) on its own operations and the events it subscribed to. */
module Distribution {
  import opened Bytes
  import ListEntries
  import M = MessageTypes
  import opened Options
  import P = Publications
  import opened Subscriber

  type Id = nat

  /** The translation type and, of a normal subscription, what its messages must match. */
  datatype Subscription = OnArrival | OnRemoval | OnWritableTag | OnMessage(pattern: nat)

  /** An event with its data; a received NDEF message has a payload for each pattern that it
      matches. */
  datatype Event = Arrival(mask: nat) | Departure | WritableTag(size: nat) | Message(payloads: map<nat, Payload>)

  datatype ListName = SubsList | ArrivalSubsList | RemovalSubsList

  /** NfcCxNfpInterfaceAddSubscriptionClient's choice. */
  function ListOf(s: Subscription): (l: ListName) {
    match s
    case OnArrival => ArrivalSubsList
    case OnRemoval => RemovalSubsList
    case OnWritableTag => SubsList
    case OnMessage(_) => SubsList
  }

  /** The list that the distribution of an event walks. */
  function ListFor(e: Event): (l: ListName) {
    match e
    case Arrival(_) => ArrivalSubsList
    case Departure => RemovalSubsList
    case WritableTag(_) => SubsList
    case Message(_) => SubsList
  }

  function Dword(n: nat): (p: Payload)
    ensures n < ULONG_LIMIT ==> |p| == 4 && FromLe32(p) == n
  {
    DwordIs(n);
    Le32(n % ULONG_LIMIT)
  }

  lemma DwordIs(n: nat)
    ensures n < ULONG_LIMIT ==> FromLe32(Le32(n % ULONG_LIMIT)) == n
  {
    if n < ULONG_LIMIT {
      assert n % ULONG_LIMIT == n;
      Le32RoundTrip(n);
    }
    hide Le32, FromLe32;
  }

  /** What a client with this subscription gets from an event, if anything. */
  function PayloadFor(e: Event, s: Subscription): (p: Option<Payload>) {
    match e
    case Arrival(mask) => if s == OnArrival then Some(Dword(mask)) else None
    case Departure => if s == OnRemoval then Some(Dword(0)) else None
    case WritableTag(size) => if s == OnWritableTag then Some(Dword(size)) else None
    case Message(payloads) => if s.OnMessage? && s.pattern in payloads then Some(payloads[s.pattern]) else None
  }

  datatype Hub = Hub(lists: map<ListName, seq<Id>>, subscriptions: map<Id, Subscription>, clients: map<Id, Client>)

  datatype Step =
    | Subscribe(id: Id, s: Subscription)
    | Unsubscribe(id: Id)
    | Distribute(e: Event)
    | ToClient(id: Id, op: Op)

  ghost predicate AllLists(h: Hub) {
    forall l: ListName :: l in h.lists
  }

  /** Every client is in good state; a listed client is listed once, in the list of its
      subscription. */
  ghost predicate Inv(h: Hub) {
    && AllLists(h)
    && h.subscriptions.Keys == h.clients.Keys
    && (forall i :: i in h.clients ==> Subscriber.Inv(h.clients[i]))
    && (forall l: ListName :: P.NoDuplicates(h.lists[l]))
    && (forall l: ListName, i :: i in h.lists[l] ==> i in h.subscriptions && ListOf(h.subscriptions[i]) == l)
  }

  ghost predicate Listed(h: Hub, i: Id)
    requires AllLists(h)
  {
    i in h.subscriptions && i in h.lists[ListOf(h.subscriptions[i])]
  }

  ghost predicate Enabled(h: Hub, st: Step)
    requires AllLists(h)
  {
    match st
    case Subscribe(i, _) => i !in h.clients
    case Unsubscribe(i) => Listed(h, i)
    case Distribute(_) => true
    case ToClient(i, op) => Listed(h, i) && Subscriber.Valid(op) && !op.Event?
  }

  lemma NothingListedInv(h: Hub)
    requires h == Hub(map[SubsList := [], ArrivalSubsList := [], RemovalSubsList := []], map[], map[])
    ensures Inv(h)
  {
    forall l: ListName
      ensures l in h.lists
    {
      match l
      case SubsList =>
      case ArrivalSubsList =>
      case RemovalSubsList =>
    }
    assert forall l: ListName :: h.lists[l] == [];
  }

  /** The hub that binding the interface creates. */
  ghost function Empty(): (h: Hub)
    ensures Inv(h)
  {
    var h := Hub(map[SubsList := [], ArrivalSubsList := [], RemovalSubsList := []], map[], map[]);
    NothingListedInv(h);
    h
  }

  /** What an event makes of a client, as a value. */
  ghost function Visited(c: Client, s: Subscription, e: Event): (r: Client)
    requires Subscriber.Inv(c)
  {
    match PayloadFor(e, s)
    case None => c
    case Some(p) => Apply(c, Op.Event(p)).0
  }

  /** One turn of a distribution loop. */
  ghost function Visit(h: Hub, i: Id, e: Event): (c: Client)
    requires i in h.clients && i in h.subscriptions && Subscriber.Inv(h.clients[i])
  {
    Visited(h.clients[i], h.subscriptions[i], e)
  }

  /** The loop over the rest of its list. */
  ghost function Walk(h: Hub, list: seq<Id>, e: Event): (r: Hub)
    requires Inv(h) && forall i :: i in list ==> i in h.clients
    ensures r == h.(clients := r.clients) && r.clients.Keys == h.clients.Keys && Inv(r)
    decreases |list|
  {
    if list == [] then h
    else
      var c := Visit(h, list[0], e);
      VisitKeepsInv(h, list[0], e);
      Walk(h.(clients := h.clients[list[0] := c]), list[1..], e)
  }

  lemma VisitKeepsInv(h: Hub, i: Id, e: Event)
    requires Inv(h) && i in h.clients
    ensures Inv(h.(clients := h.clients[i := Visit(h, i, e)]))
  {
    var p := PayloadFor(e, h.subscriptions[i]);
    if p.Some? { ApplyKeepsInv(h.clients[i], Op.Event(p.value)); }
  }

  ghost function Next(h: Hub, st: Step): (r: Hub)
    requires Inv(h) && Enabled(h, st)
  {
    match st
    case Subscribe(i, s) =>
      var l := ListOf(s);
      Hub(h.lists[l := [i] + h.lists[l]], h.subscriptions[i := s], h.clients[i := NEW_CLIENT])
    case Unsubscribe(i) =>
      var l := ListOf(h.subscriptions[i]);
      h.(lists := h.lists[l := P.Delist(h.lists[l], i)])
    case Distribute(e) => Walk(h, h.lists[ListFor(e)], e)
    case ToClient(i, op) => h.(clients := h.clients[i := Apply(h.clients[i], op).0])
  }

  /** A walk of a list without repetition visits each of its clients once and no other. */
  lemma {:induction false} WalkVisitsOnce(h: Hub, list: seq<Id>, e: Event, i: Id)
    requires Inv(h) && P.NoDuplicates(list) && (forall j :: j in list ==> j in h.clients) && i in h.clients
    ensures Walk(h, list, e).clients[i] == if i in list then Visit(h, i, e) else h.clients[i]
    decreases |list|
  {
    if list != [] {
      hide Apply, PayloadFor, ListOf, ListFor, Subscriber.Inv;
      VisitKeepsInv(h, list[0], e);
      var h1 := h.(clients := h.clients[list[0] := Visit(h, list[0], e)]);
      assert forall j :: j in list[1..] ==> j in list;
      WalkVisitsOnce(h1, list[1..], e, i);
      assert list[0] !in list[1..];
    }
  }

  lemma UnsubscribeKeepsInv(h: Hub, i: Id)
    requires Inv(h) && Listed(h, i)
    ensures Inv(Next(h, Unsubscribe(i))) && !Listed(Next(h, Unsubscribe(i)), i)
    ensures forall j :: j != i ==> (Listed(Next(h, Unsubscribe(i)), j) <==> Listed(h, j))
  {
    P.DelistRemoves(h.lists[ListOf(h.subscriptions[i])], i);
    hide Subscriber.Inv, ListOf, P.Delist, P.NoDuplicates;
  }

  lemma StepKeepsInv(h: Hub, st: Step)
    requires Inv(h) && Enabled(h, st)
    ensures Inv(Next(h, st))
  {
    match st
    case Subscribe(i, s) =>
    case Unsubscribe(i) => UnsubscribeKeepsInv(h, i);
    case Distribute(e) =>
    case ToClient(i, op) => ApplyKeepsInv(h.clients[i], op);
  }

  ghost predicate IsRun(h: Hub, run: seq<Step>)
    requires Inv(h)
    decreases |run|
  {
    run == [] || (Enabled(h, run[0]) && (StepKeepsInv(h, run[0]); IsRun(Next(h, run[0]), run[1..])))
  }

  ghost function AfterRun(h: Hub, run: seq<Step>): (r: Hub)
    requires Inv(h) && IsRun(h, run)
    ensures Inv(r)
    decreases |run|
  {
    if run == [] then h else
      StepKeepsInv(h, run[0]);
      AfterRun(Next(h, run[0]), run[1..])
  }

  // ---------- each client on its own ----------

  /** What client `i` goes through by a step while its registered subscription is `now`:
      its own operations, and each event that it subscribed to, once. */
  ghost function OpsOf(st: Step, i: Id, now: Option<Subscription>): (ops: seq<Op>) {
    match st
    case Distribute(e) =>
      if now.Some? && PayloadFor(e, now.value).Some? then [Op.Event(PayloadFor(e, now.value).value)] else []
    case ToClient(j, op) => if j == i then [op] else []
    case _ => []
  }

  function Registered(st: Step, i: Id, now: Option<Subscription>): (r: Option<Subscription>) {
    match st
    case Subscribe(j, s) => if j == i then Some(s) else now
    case Unsubscribe(j) => if j == i then None else now
    case _ => now
  }

  ghost function Project(run: seq<Step>, i: Id, now: Option<Subscription>): (ops: seq<Op>)
    decreases |run|
  {
    if run == [] then [] else OpsOf(run[0], i, now) + Project(run[1..], i, Registered(run[0], i, now))
  }

  ghost function Now(h: Hub, i: Id): (s: Option<Subscription>)
    requires AllLists(h)
  {
    if Listed(h, i) then Some(h.subscriptions[i]) else None
  }

  lemma AfterOne(c: Client, op: Op)
    requires Subscriber.Inv(c) && Subscriber.Valid(op)
    ensures ValidOps([op]) && After(c, [op]) == Apply(c, op).0
  {
    ApplyKeepsInv(c, op);
    assert After(Apply(c, op).0, [op][1..]) == Apply(c, op).0;
  }

  lemma DistributeProjects(h: Hub, e: Event, i: Id)
    requires Inv(h) && i in h.clients
    ensures var h' := Next(h, Distribute(e));
            var ops := OpsOf(Distribute(e), i, Now(h, i));
            i in h'.clients && ValidOps(ops) && h'.clients[i] == After(h.clients[i], ops) && Now(h', i) == Now(h, i)
  {
    hide Apply, Walk, Subscriber.Inv, P.NoDuplicates;
    WalkVisitsOnce(h, h.lists[ListFor(e)], e, i);
    var p := PayloadFor(e, h.subscriptions[i]);
    if p.Some? { AfterOne(h.clients[i], Op.Event(p.value)); }
  }

  lemma SubscribeProjects(h: Hub, j: Id, s: Subscription, i: Id)
    requires Inv(h) && j !in h.clients && i in h.clients
    ensures var h' := Next(h, Subscribe(j, s));
            AllLists(h') && h'.clients[i] == h.clients[i] && Now(h', i) == Now(h, i)
  {
    hide Subscriber.Inv, P.NoDuplicates;
  }

  /** One step of the hub is, for each client it knows, that client's own operations. */
  lemma StepProjects(h: Hub, st: Step, i: Id)
    requires Inv(h) && Enabled(h, st) && i in h.clients
    ensures var h' := Next(h, st);
            && i in h'.clients && Inv(h')
            && ValidOps(OpsOf(st, i, Now(h, i)))
            && h'.clients[i] == After(h.clients[i], OpsOf(st, i, Now(h, i)))
            && Now(h', i) == Registered(st, i, Now(h, i))
  {
    StepKeepsInv(h, st);
    match st
    case Subscribe(j, s) => SubscribeProjects(h, j, s, i);
    case Unsubscribe(j) => UnsubscribeKeepsInv(h, j);
    case Distribute(e) => DistributeProjects(h, e, i); hide Next;
    case ToClient(j, op) =>
      if i == j { AfterOne(h.clients[i], op); }
      hide Apply, Subscriber.Inv;
  }

  lemma {:induction false} AfterAppend(c: Client, a: seq<Op>, b: seq<Op>)
    requires Subscriber.Inv(c) && ValidOps(a) && ValidOps(b)
    ensures ValidOps(a + b) && After(c, a + b) == After(After(c, a), b)
    decreases |a|
  {
    if a == [] {
      assert a + b == b;
    } else {
      ApplyKeepsInv(c, a[0]);
      AfterAppend(Apply(c, a[0]).0, a[1..], b);
      assert (a + b)[0] == a[0] && (a + b)[1..] == a[1..] + b;
      hide Apply, Subscriber.Inv;
    }
  }

  /** Over every run of the hub, each client it knows is where its own operations and its
      own events alone would have brought it. */
  lemma {:induction false} RunProjects(h: Hub, run: seq<Step>, i: Id)
    requires Inv(h) && IsRun(h, run) && i in h.clients
    ensures var ops := Project(run, i, Now(h, i));
            && ValidOps(ops) && i in AfterRun(h, run).clients
            && AfterRun(h, run).clients[i] == After(h.clients[i], ops)
    decreases |run|
  {
    if run != [] {
      var h' := Next(h, run[0]);
      StepKeepsInv(h, run[0]);
      StepProjects(h, run[0], i);
      RunProjects(h', run[1..], i);
      AfterAppend(h.clients[i], OpsOf(run[0], i, Now(h, i)), Project(run[1..], i, Now(h', i)));
      hide Next, OpsOf, After, Inv, Enabled;
    }
  }

  /** The same from the moment a client registers: no event before that is its own. */
  lemma {:induction false} UnknownRunProjects(h: Hub, run: seq<Step>, i: Id)
    requires Inv(h) && IsRun(h, run) && i !in h.clients && i in AfterRun(h, run).clients
    ensures var ops := Project(run, i, None);
            ValidOps(ops) && AfterRun(h, run).clients[i] == After(NEW_CLIENT, ops)
    decreases |run|
  {
    var st := run[0];
    var h' := Next(h, st);
    StepKeepsInv(h, st);
    assert OpsOf(st, i, None) == [];
    assert [] + Project(run[1..], i, Registered(st, i, None)) == Project(run[1..], i, Registered(st, i, None));
    if i in h'.clients {
      assert st == Subscribe(i, h'.subscriptions[i]);
      assert h'.lists[ListOf(st.s)][0] == i;
      RunProjects(h', run[1..], i);
    } else {
      UnknownRunProjects(h', run[1..], i);
    }
  }

  /** The accepted events among `ops`, in order, are those that were settled, then `queue`;
      of the settled ones the client's requests carried exactly those not drained. */
  ghost predicate IsAccountedFor(ops: seq<Op>, queue: seq<Payload>) {
    && ValidOps(ops)
    && Accepted(NEW_CLIENT, ops) == Payloads(Fates(NEW_CLIENT, ops)) + queue
    && OnlyDelivered(Fates(NEW_CLIENT, ops)) == Deliveries(NEW_CLIENT, ops)
  }

  /** Nothing was drained: the accepted events are the delivered payloads, then `queue`. */
  ghost predicate InOrder(ops: seq<Op>, queue: seq<Payload>) {
    ValidOps(ops) && Accepted(NEW_CLIENT, ops) == Deliveries(NEW_CLIENT, ops) + queue
  }

  /** Every subscriber is first in, first out: the events that it subscribed to while
      registered and that it accepted are in order those delivered to it or drained by its
      timer, then those still queued.  When its timer callback never runs, all were delivered. */
  lemma EverySubscriberIsFifo(run: seq<Step>, i: Id)
    requires IsRun(Empty(), run) && i in AfterRun(Empty(), run).clients
    ensures var ops := Project(run, i, None);
            var queue := AfterRun(Empty(), run).clients[i].queue;
            IsAccountedFor(ops, queue) && (TimerCallback !in ops ==> InOrder(ops, queue))
  {
    var ops := Project(run, i, None);
    UnknownRunProjects(Empty(), run, i);
    SettledInOrder(NEW_CLIENT, ops);
    assert [] + Accepted(NEW_CLIENT, ops) == Accepted(NEW_CLIENT, ops);
    if TimerCallback !in ops { DeliveryIsFifo(ops); }
  }

  // ---------- by the name of the subscription ----------

  /** The subscription of a client that subscribes under a name; a normal one is for messages
      that match `pattern`. */
  function SubscriptionOf(name: string, pattern: nat): (s: Option<Subscription>) {
    match M.Analyze(name, false)
    case Recognized(t, _, _) =>
      Some(if t == P.Arrival then OnArrival else if t == P.Removal then OnRemoval
           else if t == P.WritableTagSize then OnWritableTag else OnMessage(pattern))
    case _ => None
  }

  /** What an event carries for a client that subscribed under a name: arrivals their mask,
      departures a zero, writable tags their size, and messages what they hold for each
      pattern they match, under any other name. */
  function CarriedTo(name: string, pattern: nat, e: Event): (p: Option<Payload>) {
    var zero: Payload := [0, 0, 0, 0];
    match e
    case Arrival(mask) => if name == "DeviceArrived" then Some(Dword(mask)) else None
    case Departure => if name == "DeviceDeparted" then Some(zero) else None
    case WritableTag(size) => if name == "WriteableTag" then Some(Dword(size)) else None
    case Message(payloads) =>
      if name in {"DeviceArrived", "DeviceDeparted", "WriteableTag"} || pattern !in payloads then None
      else Some(payloads[pattern])
  }

  lemma PayloadByName(e: Event, s: Subscription, name: string, pattern: nat)
    requires SubscriptionOf(name, pattern) == Some(s)
    ensures PayloadFor(e, s) == CarriedTo(name, pattern, e)
  {
    M.SubscriptionKindExactly(name);
    assert Le32(0) == [0, 0, 0, 0];
    hide Le32, M.Analyze;
  }

  /** An event reaches a registered client exactly when it carries something for the name under
      which the client subscribed, and then with that. */
  lemma EventsReachTheirNames(h: Hub, i: Id, name: string, pattern: nat, e: Event)
    requires Inv(h) && Listed(h, i) && i in h.clients && SubscriptionOf(name, pattern) == Some(h.subscriptions[i])
    ensures Next(h, Distribute(e)).clients[i] ==
            match CarriedTo(name, pattern, e)
            case None => h.clients[i]
            case Some(p) => Apply(h.clients[i], Op.Event(p)).0
  {
    PayloadByName(e, h.subscriptions[i], name, pattern);
    InItsList(h, i, e);
    Distributed(h, i, e);
    hide CarriedTo, PayloadFor, SubscriptionOf, Apply, Next, ListFor, Inv, Listed;
  }

  lemma Distributed(h: Hub, i: Id, e: Event)
    requires Inv(h) && i in h.clients
    ensures Next(h, Distribute(e)).clients[i] ==
            if i in h.lists[ListFor(e)] then Visited(h.clients[i], h.subscriptions[i], e) else h.clients[i]
  {
    hide PayloadFor, Apply, Walk, Subscriber.Inv, P.NoDuplicates;
    WalkVisitsOnce(h, h.lists[ListFor(e)], e, i);
  }

  /** The list that an event walks holds the clients that the event can be for. */
  lemma InItsList(h: Hub, i: Id, e: Event)
    requires Inv(h) && Listed(h, i)
    ensures PayloadFor(e, h.subscriptions[i]).Some? ==> i in h.lists[ListFor(e)]
  {
  }

  // ---------- the walk in place ----------

  /** NFCCX_FILE_CONTEXT of a subscription client. */
  class Member {
    const subscription: Subscription
    const context: FileContext

    constructor (subscription: Subscription)
      ensures this.subscription == subscription && fresh(context) && context.Valid() && context.Value() == NEW_CLIENT
    {
      this.subscription := subscription;
      context := new FileContext();
    }
  }

  /** Members are clients of their own. */
  ghost predicate Separate(ms: seq<Member>)
    reads set m | m in ms :: m.context
  {
    && (forall i :: 0 <= i < |ms| ==> ms[i].context.Valid())
    && forall i, j :: 0 <= i < j < |ms| ==> ms[i].context != ms[j].context
  }

  /** One turn of the loop. */
  method VisitMember(m: Member, e: Event)
    requires m.context.Valid()
    modifies m.context, m.context.requestQueue, set r | r in m.context.requestQueue :: r.output
    ensures m.context.Valid() && m.context.Value() == Visited(old(m.context.Value()), m.subscription, e)
    ensures forall r :: r in m.context.requestQueue ==> r in old(m.context.requestQueue)
  {
    var p := PayloadFor(e, m.subscription);
    if p.Some? {
      m.context.ReceiveEvent(p.value);
    }
  }

  /** The requests that are pended with any of the members. */
  ghost function Pended(ms: seq<Member>): (rs: set<Request>)
    reads set m | m in ms :: m.context
  {
    set m, r | m in ms && r in m.context.requestQueue :: r
  }

  /** The same turn, as part of the list. */
  method VisitAt(ghost ms: seq<Member>, ghost i: nat, m: Member, e: Event)
    requires Separate(ms) && i < |ms| && ms[i] == m
    modifies m.context, Pended(ms), set r | r in Pended(ms) :: r.output
    ensures Separate(ms) && Pended(ms) <= old(Pended(ms))
    ensures m.context.Value() == Visited(old(m.context.Value()), m.subscription, e)
    ensures forall k :: 0 <= k < |ms| && k != i ==> ms[k].context.Value() == old(ms[k].context.Value())
  {
    assert forall r :: r in m.context.requestQueue ==> r in Pended(ms);
    VisitMember(m, e);
  }

  /** NfcCxNfpInterfaceDistributeArrivalDepartureEvent and
      NfcCxNfpInterfaceHandleReceivedNdefMessage on the list that they walk. */
  method DistributeEvent(list: ListEntries.EntryList<Member?>, e: Event, ghost ms: seq<Member>)
    requires list.Valid() && list.items == ms && Separate(ms)
    modifies set m | m in ms :: m.context, Pended(ms), set r | r in Pended(ms) :: r.output
    ensures list.Valid() && list.items == ms && Separate(ms)
    ensures forall i :: 0 <= i < |ms| ==>
              ms[i].context.Value() == Visited(old(ms[i].context.Value()), ms[i].subscription, e)
  {
    hide FileContext.Value, PayloadFor, Subscriber.Inv, Apply, ListEntries.EntryList.Valid;
    ghost var i := 0;
    list.Follow(0);
    var ple := list.head.flink;
    while ple != list.head
      invariant list.Valid() && list.items == ms && Separate(ms) && Pended(ms) <= old(Pended(ms))
      invariant i <= |ms| && |list.ring| == |ms| + 1 && list.ring[0] == list.head
      invariant ple == list.ring[if i == |ms| then 0 else i + 1]
      invariant i < |ms| ==> ple != list.head && ple.record == ms[i]
      invariant forall k :: 0 <= k < i ==>
                  ms[k].context.Value() == Visited(old(ms[k].context.Value()), ms[k].subscription, e)
      invariant forall k :: i <= k < |ms| ==> ms[k].context.Value() == old(ms[k].context.Value())
      decreases |ms| - i
    {
      VisitAt(ms, i, ple.record, e);
      list.Follow(i + 1);
      ple := ple.flink;
      i := i + 1;
    }
  }
}
