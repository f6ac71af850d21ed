/** One subscription client: its bounded message queue, its pended "get next message"
    request, the length-prefixed copy with its overflow handshake, and the timer that
    detects an unresponsive client. */
module Subscriber {
  import opened Bytes

  const MAX_QUEUE_LENGTH: nat := 50

  /** The payload length is a USHORT. */
  type Payload = p: seq<byte> | |p| <= 0xFFFF witness []

  datatype Status = Success | BufferOverflow | IntegerOverflow

  /** A completed request: the bytes of the output buffer that were used. */
  datatype Completion = Completion(status: Status, bytes: seq<byte>)

  /** What an operation tells the client: a request was completed, an IOCTL was refused. */
  datatype Reply = Silent | Completed(c: Completion) | Refused

  // ---------- the copy ----------

  function CopyResult(bufferLength: nat, data: seq<byte>): (c: Completion)
    requires 4 <= bufferLength < ULONG_LIMIT && |data| < ULONG_LIMIT
  {
    if |data| + 4 >= ULONG_LIMIT then Completion(IntegerOverflow, Le32(|data|))
    else if bufferLength < |data| + 4 then Completion(BufferOverflow, Le32(|data|))
    else Completion(Success, Le32(|data|) + data)
  }

  /** Success or not, the first four bytes announce the length; exactly when the buffer
      has room for that many more, the payload follows. */
  lemma CopyAnnouncesLength(bufferLength: nat, p: Payload)
    requires 4 <= bufferLength < ULONG_LIMIT
    ensures var c := CopyResult(bufferLength, p);
            && |c.bytes| >= 4 && FromLe32(c.bytes[..4]) == |p|
            && (c.status == Success <==> bufferLength >= |p| + 4)
            && (c.status == Success ==> c.bytes[4..] == p)
            && (c.status != Success ==> c.status == BufferOverflow && |c.bytes| == 4)
  {
    Le32RoundTrip(|p|);
    assert CopyResult(bufferLength, p).bytes[..4] == Le32(|p|);
  }

  /** NfcCxNfpInterfaceCopySubcriptionData. */
  method CopySubscriptionData(output: array<byte>, data: seq<byte>) returns (status: Status, used: nat)
    requires 4 <= output.Length < ULONG_LIMIT && |data| < ULONG_LIMIT
    modifies output
    ensures 4 <= used <= output.Length
    ensures Completion(status, output[..used]) == CopyResult(output.Length, data)
    ensures output[used..] == old(output[used..])
  {
    status := Success;
    var prefix := Le32(|data|);
    forall i | 0 <= i < 4 { output[i] := prefix[i]; }
    used := 4;
    assert output[..4] == prefix;
    if |data| + 4 >= ULONG_LIMIT {
      status := IntegerOverflow;
      return;
    }
    if output.Length < |data| + 4 {
      status := BufferOverflow;
      return;
    }
    forall i | 0 <= i < |data| { output[4 + i] := data[i]; }
    used := |data| + 4;
    assert output[..used] == prefix + data;
  }

  // ---------- the client as a value ----------

  /** `requests` are the buffer lengths of the pended requests; `inFlight` counts timer
      callbacks that have been dispatched and wait for StateLock: stopping the timer
      without waiting does not recall them. */
  datatype Client = Client(
    enabled: bool, queue: seq<Payload>, requests: seq<nat>,
    unresponsive: bool, timerArmed: bool, inFlight: nat)

  const NEW_CLIENT: Client := Client(true, [], [], false, false, 0)

  datatype Op =
    | Event(p: Payload)        // a matching event for this client
    | GetNext(bufferLength: nat)
    | Enable | Disable
    | Cancel                   // the client cancels its pended request
    | TimerExpires | TimerCallback

  predicate Valid(op: Op) {
    op.GetNext? ==> 4 <= op.bufferLength < ULONG_LIMIT
  }

  ghost predicate Inv(c: Client) {
    && |c.queue| <= MAX_QUEUE_LENGTH
    && |c.requests| <= 1
    && (forall n :: n in c.requests ==> 4 <= n < ULONG_LIMIT)
    && (c.requests != [] ==> c.enabled && c.queue == [] && !c.timerArmed)
  }

  /** An event that no request could take: queued, or lost. */
  function Enqueue(c: Client, p: Payload): (r: Client) {
    if MAX_QUEUE_LENGTH <= |c.queue| || c.unresponsive then c
    else c.(queue := c.queue + [p], timerArmed := true)
  }

  function Apply(c: Client, op: Op): (r: (Client, Reply))
    requires Inv(c) && Valid(op)
  {
    match op
    case Event(p) =>
      if !c.enabled then (c, Silent)
      else if c.requests == [] then (Enqueue(c, p), Silent)
      else
        assert c.requests[0] in c.requests;
        var done := CopyResult(c.requests[0], p);
        var c' := c.(requests := c.requests[1..]);
        (if done.status == Success then c' else Enqueue(c', p), Completed(done))
    case GetNext(n) =>
      if !c.enabled then (c, Refused)
      else
        var c' := c.(timerArmed := false, unresponsive := false);
        if c.queue != [] then
          var done := CopyResult(n, c.queue[0]);
          (if done.status == Success then c'.(queue := c.queue[1..]) else c', Completed(done))
        else if c.requests != [] then (c', Refused)
        else (c'.(requests := [n]), Silent)
    case Enable => if c.enabled then (c, Refused) else (c.(enabled := true), Silent)
    case Disable => if !c.enabled then (c, Refused) else (c.(enabled := false, requests := []), Silent)
    case Cancel => (c.(requests := []), Silent)
    case TimerExpires => (if c.timerArmed then c.(timerArmed := false, inFlight := c.inFlight + 1) else c, Silent)
    case TimerCallback =>
      (if c.inFlight == 0 then c else c.(inFlight := c.inFlight - 1, queue := [], unresponsive := true), Silent)
  }

  lemma ApplyKeepsInv(c: Client, op: Op)
    requires Inv(c) && Valid(op)
    ensures Inv(Apply(c, op).0)
  {
  }

  // ---------- runs ----------

  ghost predicate ValidOps(ops: seq<Op>) {
    forall op :: op in ops ==> Valid(op)
  }

  ghost function After(c: Client, ops: seq<Op>): (r: Client)
    requires Inv(c) && ValidOps(ops)
    ensures Inv(r)
    decreases |ops|
  {
    if ops == [] then c else
      ApplyKeepsInv(c, ops[0]);
      After(Apply(c, ops[0]).0, ops[1..])
  }

  /** What an observer of the requests sees delivered: the bytes behind the length prefix
      of each request completed with success. */
  ghost function Delivered(r: Reply): (s: seq<seq<byte>>) {
    if r.Completed? && r.c.status == Success && |r.c.bytes| >= 4 then [r.c.bytes[4..]] else []
  }

  ghost function Deliveries(c: Client, ops: seq<Op>): (r: seq<seq<byte>>)
    requires Inv(c) && ValidOps(ops)
    decreases |ops|
  {
    if ops == [] then [] else
      ApplyKeepsInv(c, ops[0]);
      Delivered(Apply(c, ops[0]).1) + Deliveries(Apply(c, ops[0]).0, ops[1..])
  }

  /** An event is accepted when it is neither ignored nor dropped: a waiting request has
      room for it, or the queue has and the client is not unresponsive. */
  ghost predicate Accepts(c: Client, p: Payload) {
    && c.enabled
    && ((c.requests != [] && c.requests[0] >= |p| + 4) || (|c.queue| < MAX_QUEUE_LENGTH && !c.unresponsive))
  }

  ghost function AcceptedOf(c: Client, op: Op): (r: seq<seq<byte>>) {
    if op.Event? && Accepts(c, op.p) then [op.p] else []
  }

  ghost function Accepted(c: Client, ops: seq<Op>): (r: seq<seq<byte>>)
    requires Inv(c) && ValidOps(ops)
    decreases |ops|
  {
    if ops == [] then [] else
      ApplyKeepsInv(c, ops[0]);
      AcceptedOf(c, ops[0]) + Accepted(Apply(c, ops[0]).0, ops[1..])
  }

  /** Where a payload ended up: with the client, or drained by the timer callback. */
  datatype Fate = ToClient(p: seq<byte>) | Drained(p: seq<byte>)

  ghost function Payloads(f: seq<Fate>): (r: seq<seq<byte>>) {
    seq(|f|, i requires 0 <= i < |f| => f[i].p)
  }

  ghost function OnlyDelivered(f: seq<Fate>): (r: seq<seq<byte>>) {
    if f == [] then [] else (if f[0].ToClient? then [f[0].p] else []) + OnlyDelivered(f[1..])
  }

  ghost function AllDrained(q: seq<Payload>): (f: seq<Fate>) {
    if q == [] then [] else [Drained(q[0])] + AllDrained(q[1..])
  }

  ghost function FatesOf(c: Client, op: Op): (r: seq<Fate>)
    requires Inv(c) && Valid(op)
  {
    if op == TimerCallback && c.inFlight > 0 then AllDrained(c.queue)
    else
      var d := Delivered(Apply(c, op).1);
      if d == [] then [] else [ToClient(d[0])]
  }

  ghost function Fates(c: Client, ops: seq<Op>): (r: seq<Fate>)
    requires Inv(c) && ValidOps(ops)
    decreases |ops|
  {
    if ops == [] then [] else
      ApplyKeepsInv(c, ops[0]);
      FatesOf(c, ops[0]) + Fates(Apply(c, ops[0]).0, ops[1..])
  }

  // ---------- delivery is first in, first out ----------

  lemma StepIsFifo(c: Client, op: Op)
    requires Inv(c) && Valid(op)
    ensures c.queue + AcceptedOf(c, op) == Payloads(FatesOf(c, op)) + Apply(c, op).0.queue
    ensures OnlyDelivered(FatesOf(c, op)) == Delivered(Apply(c, op).1)
  {
    match op
    case Event(p) =>
      if c.enabled && c.requests != [] {
        assert c.requests[0] in c.requests;
        CopyAnnouncesLength(c.requests[0], p);
      }
    case GetNext(n) =>
      if c.enabled && c.queue != [] { CopyAnnouncesLength(n, c.queue[0]); }
    case TimerCallback => if c.inFlight > 0 { DrainedIsNotDelivered(c.queue); }
    case _ =>
  }

  lemma {:induction false} DrainedIsNotDelivered(q: seq<Payload>)
    ensures Payloads(AllDrained(q)) == q && OnlyDelivered(AllDrained(q)) == []
  {
    if q != [] {
      DrainedIsNotDelivered(q[1..]);
      OnlyDeliveredAppend([Drained(q[0])], AllDrained(q[1..]));
    }
  }

  lemma {:induction false} OnlyDeliveredAppend(f: seq<Fate>, g: seq<Fate>)
    ensures OnlyDelivered(f + g) == OnlyDelivered(f) + OnlyDelivered(g)
  {
    if f == [] {
      assert f + g == g;
    } else {
      OnlyDeliveredAppend(f[1..], g);
      assert (f + g)[0] == f[0] && (f + g)[1..] == f[1..] + g;
      var first := if f[0].ToClient? then [f[0].p] else [];
      assert first + (OnlyDelivered(f[1..]) + OnlyDelivered(g)) == (first + OnlyDelivered(f[1..])) + OnlyDelivered(g);
    }
  }

  lemma PayloadsAppend(f: seq<Fate>, g: seq<Fate>)
    ensures Payloads(f + g) == Payloads(f) + Payloads(g)
  {
  }

  /** Over any run: what was queued, then every accepted event, is in order what was
      settled, then what is queued; and what was settled with the client is in order what
      the completed requests carried.  Nothing is lost, duplicated or reordered except by
      the drain of an unresponsive client, and that is accounted for in place. */
  lemma {:induction false} SettledInOrder(c: Client, ops: seq<Op>)
    requires Inv(c) && ValidOps(ops)
    ensures c.queue + Accepted(c, ops) == Payloads(Fates(c, ops)) + After(c, ops).queue
    ensures OnlyDelivered(Fates(c, ops)) == Deliveries(c, ops)
    decreases |ops|
  {
    if ops != [] {
      var op, rest := ops[0], ops[1..];
      var c' := Apply(c, op).0;
      StepIsFifo(c, op);
      ApplyKeepsInv(c, op);
      SettledInOrder(c', rest);
      OnlyDeliveredAppend(FatesOf(c, op), Fates(c', rest));
      PayloadsAppend(FatesOf(c, op), Fates(c', rest));
      Regroup(c.queue, AcceptedOf(c, op), Payloads(FatesOf(c, op)), c'.queue,
              Accepted(c', rest), Payloads(Fates(c', rest)), After(c', rest).queue);
    }
  }

  lemma Regroup<T>(q: seq<T>, a: seq<T>, f: seq<T>, q': seq<T>, a': seq<T>, f': seq<T>, q'': seq<T>)
    requires q + a == f + q' && q' + a' == f' + q''
    ensures q + (a + a') == (f + f') + q''
  {
    assert q + (a + a') == (q + a) + a';
    assert (f + q') + a' == f + (q' + a');
  }

  lemma {:induction false} NoDrain(c: Client, ops: seq<Op>)
    requires Inv(c) && ValidOps(ops) && TimerCallback !in ops
    ensures Payloads(Fates(c, ops)) == OnlyDelivered(Fates(c, ops))
    decreases |ops|
  {
    if ops != [] {
      ApplyKeepsInv(c, ops[0]);
      NoDrain(Apply(c, ops[0]).0, ops[1..]);
      OnlyDeliveredAppend(FatesOf(c, ops[0]), Fates(Apply(c, ops[0]).0, ops[1..]));
      PayloadsAppend(FatesOf(c, ops[0]), Fates(Apply(c, ops[0]).0, ops[1..]));
      assert ops[0] != TimerCallback;
      assert Payloads(FatesOf(c, ops[0])) == OnlyDelivered(FatesOf(c, ops[0]));
    }
  }

  /** A client that is never drained receives exactly the accepted events, first in first
      out, less those still queued. */
  lemma DeliveryIsFifo(ops: seq<Op>)
    requires ValidOps(ops) && TimerCallback !in ops
    ensures Accepted(NEW_CLIENT, ops) == Deliveries(NEW_CLIENT, ops) + After(NEW_CLIENT, ops).queue
  {
    SettledInOrder(NEW_CLIENT, ops);
    NoDrain(NEW_CLIENT, ops);
    assert [] + Accepted(NEW_CLIENT, ops) == Accepted(NEW_CLIENT, ops);
  }

  // ---------- the overflow handshake ----------

  ghost predicate TooSmall(op: Op, p: Payload) {
    op.GetNext? ==> op.bufferLength < |p| + 4
  }

  lemma {:induction false} HeadIsHeld(c: Client, ops: seq<Op>)
    requires Inv(c) && c.queue != [] && ValidOps(ops) && TimerCallback !in ops
    requires forall op :: op in ops ==> TooSmall(op, c.queue[0])
    ensures c.queue <= After(c, ops).queue
    decreases |ops|
  {
    if ops != [] {
      assert ops[0] in ops;
      ApplyKeepsInv(c, ops[0]);
      if ops[0].GetNext? { CopyAnnouncesLength(ops[0].bufferLength, c.queue[0]); }
      HeadIsHeld(Apply(c, ops[0]).0, ops[1..]);
    }
  }

  /** A request that is too small for the payload at the head learns its length and changes
      nothing; whatever happens next, short of the drain or a request large enough, the
      first request with room for that length gets exactly that payload. */
  lemma OverflowThenRetry(c: Client, small: nat, ops: seq<Op>, large: nat)
    requires Inv(c) && c.enabled && c.queue != [] && 4 <= small < |c.queue[0]| + 4 <= large < ULONG_LIMIT
    requires ValidOps(ops) && TimerCallback !in ops && forall op :: op in ops ==> TooSmall(op, c.queue[0])
    ensures var (c', told) := Apply(c, GetNext(small));
            && Inv(c') && c'.queue == c.queue
            && told.Completed? && told.c.status == BufferOverflow && |told.c.bytes| == 4
            && FromLe32(told.c.bytes) == |c.queue[0]|
            && (After(c', ops).enabled ==>
                  Delivered(Apply(After(c', ops), GetNext(large)).1) == [c.queue[0]])
  {
    ApplyKeepsInv(c, GetNext(small));
    var (c', told) := Apply(c, GetNext(small));
    CopyAnnouncesLength(small, c.queue[0]);
    assert told.c.bytes[..4] == told.c.bytes;
    HeadIsHeld(c', ops);
    CopyAnnouncesLength(large, c.queue[0]);
  }

  /** A pended request that overflows is completed with the length, and the event takes the
      head of the queue, exactly when the client is not marked unresponsive. */
  lemma PendedOverflow(c: Client, p: Payload)
    requires Inv(c) && c.requests != [] && c.requests[0] < |p| + 4
    ensures var (c', told) := Apply(c, Event(p));
            && told.Completed? && told.c.status == BufferOverflow && |told.c.bytes| == 4
            && FromLe32(told.c.bytes) == |p|
            && c'.queue == if c.unresponsive then [] else [p]
  {
    assert c.requests[0] in c.requests;
    CopyAnnouncesLength(c.requests[0], p);
    var told := Apply(c, Event(p)).1;
    assert told.c.bytes[..4] == told.c.bytes;
  }

  ghost predicate TimerOnly(ops: seq<Op>) {
    forall op :: op in ops ==> op == TimerExpires || op == TimerCallback
  }

  lemma {:induction false} DisarmedTimerIsQuiet(c: Client, ops: seq<Op>)
    requires Inv(c) && TimerOnly(ops) && !c.timerArmed && c.inFlight == 0
    ensures ValidOps(ops) && After(c, ops) == c
    decreases |ops|
  {
    assert ValidOps(ops);
    if ops != [] {
      assert ops[0] in ops;
      assert TimerOnly(ops[1..]) by { assert forall op :: op in ops[1..] ==> op in ops; }
      DisarmedTimerIsQuiet(c, ops[1..]);
    }
  }

  ghost predicate KeptAfterTimer(c: Client, n: nat, ops: seq<Op>, p: Payload)
    requires Inv(c) && Valid(GetNext(n)) && ValidOps(ops)
  {
    ApplyKeepsInv(c, GetNext(n));
    var c' := After(Apply(c, GetNext(n)).0, ops);
    Apply(c', Event(p)).0.queue == [p]
  }

  /** The code stops the timer when a request is pended, but does not wait for a callback
      that has already been dispatched.  An event that overflows the pended request is
      therefore kept whatever the timer does in between exactly when no callback was in
      flight at that moment, or the buffer has room for any payload at all. */
  lemma PendedOverflowIsKeptExactly(c: Client, n: nat)
    requires Inv(c) && c.enabled && c.queue == [] && c.requests == [] && 4 <= n < ULONG_LIMIT
    ensures (forall ops, p: Payload :: TimerOnly(ops) && n < |p| + 4 && ValidOps(ops) ==> KeptAfterTimer(c, n, ops, p))
            <==> (c.inFlight == 0 || n >= 0xFFFF + 4)
  {
    ApplyKeepsInv(c, GetNext(n));
    var c' := Apply(c, GetNext(n)).0;
    if c.inFlight == 0 {
      forall ops, p: Payload | TimerOnly(ops) && n < |p| + 4 && ValidOps(ops) ensures KeptAfterTimer(c, n, ops, p) {
        DisarmedTimerIsQuiet(c', ops);
        PendedOverflow(c', p);
      }
    } else if n < 0xFFFF + 4 {
      var late := [TimerCallback];
      var p: Payload := seq(n - 3, i => 0);
      assert TimerOnly(late) && ValidOps(late);
      assert After(c', late) == Apply(c', TimerCallback).0;
      ApplyKeepsInv(c', TimerCallback);
      PendedOverflow(After(c', late), p);
      assert !KeptAfterTimer(c, n, late, p);
    }
  }

  // ---------- the timer of a client that asks ----------

  /** A request stops the timer whatever is queued: the client keeps its queue and stays
      responsive however the timer goes on, exactly when no callback was in flight. */
  lemma RequestStopsTimerExactly(c: Client, n: nat)
    requires Inv(c) && c.enabled && Valid(GetNext(n))
    ensures var c' := Apply(c, GetNext(n)).0;
            && Inv(c') && !c'.unresponsive
            && ((forall ops :: TimerOnly(ops) && ValidOps(ops) ==>
                   After(c', ops).queue == c'.queue && !After(c', ops).unresponsive) <==> c.inFlight == 0)
  {
    ApplyKeepsInv(c, GetNext(n));
    var c' := Apply(c, GetNext(n)).0;
    if c.inFlight == 0 {
      forall ops | TimerOnly(ops) && ValidOps(ops)
        ensures After(c', ops).queue == c'.queue && !After(c', ops).unresponsive
      {
        DisarmedTimerIsQuiet(c', ops);
      }
    } else {
      var late := [TimerCallback];
      assert TimerOnly(late) && ValidOps(late) && After(c', late) == Apply(c', TimerCallback).0;
    }
  }

  ghost predicate TimerOrRequest(ops: seq<Op>) {
    forall op :: op in ops ==> op == TimerExpires || op == TimerCallback || op.GetNext?
  }

  lemma AskStep(c: Client, op: Op)
    requires Inv(c) && Valid(op) && c.enabled && c.inFlight == 0
    requires op.GetNext? || (!c.timerArmed && (op == TimerExpires || op == TimerCallback))
    ensures var (c', told) := Apply(c, op);
            && Inv(c') && c'.enabled && !c'.timerArmed && c'.inFlight == 0
            && c.queue == Delivered(told) + c'.queue
  {
    ApplyKeepsInv(c, op);
    if op.GetNext? && c.queue != [] { CopyAnnouncesLength(op.bufferLength, c.queue[0]); }
  }

  /** A client that keeps asking loses nothing until another event comes: from its first
      request on, what was queued is delivered or still queued, in order, whatever the timer
      does in between. */
  lemma {:induction false} AskingLosesNothing(c: Client, ops: seq<Op>)
    requires Inv(c) && c.enabled && c.inFlight == 0 && ValidOps(ops) && TimerOrRequest(ops)
    requires !c.timerArmed || (ops != [] && ops[0].GetNext?)
    ensures c.queue == Deliveries(c, ops) + After(c, ops).queue
    decreases |ops|
  {
    if ops != [] {
      assert ops[0] in ops;
      assert TimerOrRequest(ops[1..]) && ValidOps(ops[1..]) by {
        assert forall o :: o in ops[1..] ==> o in ops;
      }
      AskStep(c, ops[0]);
      var (c', told) := Apply(c, ops[0]);
      AskingLosesNothing(c', ops[1..]);
      hide Apply, Inv, Delivered;
      assert Delivered(told) + (Deliveries(c', ops[1..]) + After(c', ops[1..]).queue)
          == (Delivered(told) + Deliveries(c', ops[1..])) + After(c', ops[1..]).queue;
    }
  }

  /** A client that does not ask loses what is queued: an event that it leaves queued starts
      the timer, and when that runs out the queue is dropped and so is every event until it
      asks again. */
  lemma SilentClientIsDrained(c: Client, p: Payload, q: Payload)
    requires Inv(c) && c.enabled && c.requests == [] && !c.unresponsive && |c.queue| < MAX_QUEUE_LENGTH
    ensures var c1 := Apply(c, Event(p)).0;
            && Inv(c1) && c1.queue == c.queue + [p]
            && var c2 := Apply(c1, TimerExpires).0;
            && Inv(c2) && c2.inFlight == c.inFlight + 1
            && var c3 := Apply(c2, TimerCallback).0;
            && Inv(c3) && c3.queue == [] && Apply(c3, Event(q)).0.queue == []
            && var c4 := Apply(c3, GetNext(4)).0;
            && Inv(c4) && Apply(Apply(c4, Cancel).0, Event(q)).0.queue == [q]
  {
  }

  /** Fifty events wait for a client, and no more. */
  lemma FiftyWait(c: Client, p: Payload)
    requires Inv(c) && c.enabled && c.requests == [] && !c.unresponsive
    ensures Apply(c, Event(p)).0.queue == if |c.queue| < 50 then c.queue + [p] else c.queue
    ensures |c.queue| <= 50
  {
  }

  /** One request waits at a time; a cancelled one gets nothing; and a disabled client gets
      nothing, keeps what is queued, and is refused what an enabled one is given. */
  lemma WaitingAndEnabling(c: Client, n: nat, p: Payload)
    requires Inv(c) && Valid(GetNext(n))
    ensures c.requests != [] ==> Apply(c, GetNext(n)).1 == Refused && Apply(c, GetNext(n)).0.requests == c.requests
    ensures c.enabled && c.queue == [] && c.requests == [] ==>
              Apply(c, GetNext(n)).1 == Silent && Apply(c, GetNext(n)).0.requests == [n]
    ensures c.requests != [] ==> Apply(c, Event(p)).1.Completed? && Apply(c, Event(p)).0.requests == []
    ensures Inv(Apply(c, Cancel).0) && Apply(Apply(c, Cancel).0, Event(p)).1 == Silent
    ensures Apply(c, Cancel).0.queue == c.queue && Apply(c, Disable).0.queue == c.queue == Apply(c, Enable).0.queue
    ensures Apply(c, Enable).0.enabled && (Apply(c, Enable).1 == Refused <==> c.enabled)
    ensures !Apply(c, Disable).0.enabled && (Apply(c, Disable).1 == Refused <==> !c.enabled)
    ensures !c.enabled ==> Apply(c, Event(p)) == (c, Silent) && Apply(c, GetNext(n)) == (c, Refused)
  {
  }

  lemma AfterCons(c: Client, op: Op, ops: seq<Op>)
    requires Inv(c) && Valid(op) && ValidOps(ops)
    ensures ValidOps([op] + ops) && Inv(Apply(c, op).0) && After(c, [op] + ops) == After(Apply(c, op).0, ops)
  {
    ApplyKeepsInv(c, op);
    assert ([op] + ops)[1..] == ops;
  }

  /** A client can lose an event so from its start: the timer expires while one event is
      queued, the client takes that event and waits for the next, and only then does the
      callback run. */
  lemma LateCallbackLosesEvent(p: Payload, n: nat)
    requires 4 <= n < |p| + 4
    ensures var ops := [Event([])] + ([TimerExpires] + ([GetNext(4)] + ([GetNext(n)] + ([TimerCallback] + []))));
            ValidOps(ops) &&
            var c := After(NEW_CLIENT, ops);
            var (c', told) := Apply(c, Event(p));
            && c.requests == [n] && c'.queue == []
            && told == Completed(CopyResult(n, p)) && told.c.status == BufferOverflow
  {
    var c1 := Apply(NEW_CLIENT, Event([])).0;
    var c2 := Apply(c1, TimerExpires).0;
    var c3 := Apply(c2, GetNext(4)).0;
    CopyAnnouncesLength(4, []);
    assert c3 == NEW_CLIENT.(inFlight := 1);
    var c4 := Apply(c3, GetNext(n)).0;
    var c5 := Apply(c4, TimerCallback).0;
    var rest := [TimerCallback] + [];
    AfterCons(c4, TimerCallback, []);
    AfterCons(c3, GetNext(n), rest);
    AfterCons(c2, GetNext(4), [GetNext(n)] + rest);
    AfterCons(c1, TimerExpires, [GetNext(4)] + ([GetNext(n)] + rest));
    AfterCons(NEW_CLIENT, Event([]), [TimerExpires] + ([GetNext(4)] + ([GetNext(n)] + rest)));
    PendedOverflow(c5, p);
    CopyAnnouncesLength(n, p);
  }

  // ---------- the client in place ----------

  /** A "get next message" request with its output buffer. */
  class Request {
    const output: array<byte>
    var completed: bool
    var status: Status
    var information: nat

    constructor (output: array<byte>)
      ensures this.output == output && !completed
    {
      this.output := output;
      completed, status, information := false, Success, 0;
    }

    ghost predicate CompletedWith(c: Completion)
      reads this, output
    {
      completed && information <= output.Length && Completion(status, output[..information]) == c
    }
  }

  ghost function BufferLengths(requests: seq<Request>): (r: seq<nat>) {
    seq(|requests|, i requires 0 <= i < |requests| => requests[i].output.Length)
  }

  /** The subscription part of NFCCX_FILE_CONTEXT. */
  class FileContext {
    var enabled: bool
    var messageQueue: seq<Payload>
    var messageQueueLength: int
    var requestQueue: seq<Request>
    var isUnresponsive: bool
    var timerArmed: bool
    var callbacksInFlight: nat

    ghost function Value(): (c: Client)
      reads this
    {
      Client(enabled, messageQueue, BufferLengths(requestQueue), isUnresponsive, timerArmed, callbacksInFlight)
    }

    ghost predicate Valid()
      reads this
    {
      Inv(Value()) && messageQueueLength == |messageQueue|
    }

    constructor ()
      ensures Valid() && Value() == NEW_CLIENT
    {
      enabled, messageQueue, messageQueueLength, requestQueue := true, [], 0, [];
      isUnresponsive, timerArmed, callbacksInFlight := false, false, 0;
    }

    /** NfpCxNfpInterfaceCompleteSubscriptionRequestLocked. */
    method CompleteSubscriptionRequestLocked(data: Payload) returns (processed: bool)
      requires Valid()
      modifies this`requestQueue, requestQueue, set r | r in requestQueue :: r.output
      ensures requestQueue == if old(requestQueue) == [] then [] else old(requestQueue)[1..]
      ensures old(requestQueue) == [] ==> !processed
      ensures old(requestQueue) != [] ==>
                var r := old(requestQueue)[0];
                && 4 <= r.output.Length < ULONG_LIMIT
                && r.CompletedWith(CopyResult(r.output.Length, data))
                && processed == (r.status == Success)
    {
      processed := false;
      if requestQueue == [] {
        return;
      }
      var request := requestQueue[0];
      assert BufferLengths(requestQueue)[0] in BufferLengths(requestQueue);
      requestQueue := requestQueue[1..];
      var status, used := CopySubscriptionData(request.output, data);
      request.completed, request.status, request.information := true, status, used;
      processed := status == Success;
    }

    /** What the distribution loops do for each matching client of their list. */
    method ReceiveEvent(data: Payload)
      requires Valid()
      modifies this, requestQueue, set r | r in requestQueue :: r.output
      ensures Valid()
      ensures Value() == Apply(old(Value()), Event(data)).0
      ensures forall r :: r in requestQueue ==> r in old(requestQueue)
      ensures var told := Apply(old(Value()), Event(data)).1;
              if told.Completed? then old(requestQueue) != [] && old(requestQueue)[0].CompletedWith(told.c)
              else requestQueue == old(requestQueue)
    {
      if !enabled {
        return;
      }
      ApplyKeepsInv(Value(), Event(data));
      assert requestQueue != [] ==> BufferLengths(requestQueue)[1..] == BufferLengths(requestQueue[1..]);
      var processed := CompleteSubscriptionRequestLocked(data);
      if !processed {
        if MAX_QUEUE_LENGTH <= messageQueueLength || isUnresponsive {
          return;
        }
        messageQueue := messageQueue + [data];
        messageQueueLength := messageQueueLength + 1;
        timerArmed := true;
      }
    }

    /** NfcCxNfpInterfaceDispatchGetNextSubscribedMessage; `refused` is an error status. */
    method DispatchGetNextSubscribedMessage(request: Request) returns (refused: bool)
      requires Valid() && !request.completed && 4 <= request.output.Length < ULONG_LIMIT
      modifies this, request, request.output
      ensures Valid()
      ensures var (c, told) := Apply(old(Value()), GetNext(request.output.Length));
              && Value() == c && refused == told.Refused?
              && (if told.Completed? then request.CompletedWith(told.c) else !request.completed)
              && (told.Silent? ==> requestQueue == [request])
    {
      ghost var n := request.output.Length;
      ApplyKeepsInv(Value(), GetNext(n));
      refused := false;
      if !enabled {
        return true;
      }
      timerArmed := false;
      isUnresponsive := false;
      if messageQueue != [] {
        var head := messageQueue[0];
        CopyAnnouncesLength(n, head);
        var status, used := CopySubscriptionData(request.output, head);
        if status != BufferOverflow && status != Success {
          return true;
        } else if status == Success {
          messageQueue := messageQueue[1..];
          messageQueueLength := messageQueueLength - 1;
        }
        request.completed, request.status, request.information := true, status, used;
      } else {
        if requestQueue != [] {
          return true;
        }
        requestQueue := requestQueue + [request];
        assert BufferLengths(requestQueue) == [n];
      }
    }

    /** NfcCxFileObjectNfpEnable and NfcCxFileObjectNfpDisable, which purges the pended
        request but keeps the queued messages. */
    method NfpEnable() returns (refused: bool)
      requires Valid()
      modifies this`enabled
      ensures Valid() && Value() == Apply(old(Value()), Enable).0 && refused == old(enabled)
    {
      refused := enabled;
      enabled := true;
    }

    method NfpDisable() returns (refused: bool)
      requires Valid()
      modifies this`enabled, this`requestQueue
      ensures Valid() && Value() == Apply(old(Value()), Disable).0 && refused == !old(enabled)
    {
      refused := !enabled;
      requestQueue := if enabled then [] else requestQueue;
      enabled := false;
    }

    /** NfcCxFileObjectUnresponsiveClientDetectionTimer. */
    method TimerCallback()
      requires Valid() && callbacksInFlight > 0
      modifies this
      ensures Valid() && Value() == Apply(old(Value()), Op.TimerCallback).0
    {
      callbacksInFlight := callbacksInFlight - 1;
      while messageQueue != []
        invariant Valid() && callbacksInFlight == old(callbacksInFlight) - 1
        invariant enabled == old(enabled) && requestQueue == old(requestQueue) && timerArmed == old(timerArmed)
        decreases |messageQueue|
      {
        messageQueue := messageQueue[1..];
        messageQueueLength := messageQueueLength - 1;
      }
      isUnresponsive := true;
    }
  }
}
