/** What a publication is, when it must be sent, and the order in which publications
    are queued and attempted, as functions of plain sequences.  Clients are an
    arbitrary type, so the same functions specify the linked lists of `NfpInterface`
    and the lock-granular steps of `SendProtocol`. */
module Publications {

  datatype TranslationType =
    | Undefined | Arrival | Removal | WritableTagSize | PayloadOnly | PayloadOnlyWriteTag
    | WindowsUri | WindowsUriWriteTag | Ndef | RawNdef | RawNdefWriteTag | WindowsMimeMatchAll
    | LaunchAppWriteTag | PairingBluetooth | SetTagReadOnly | NfcBarcode

  predicate IsTagWrite(t: TranslationType) {
    t in {PayloadOnlyWriteTag, RawNdefWriteTag, WindowsUriWriteTag, LaunchAppWriteTag, SetTagReadOnly}
  }

  predicate IsReadOnly(t: TranslationType) {
    t == SetTagReadOnly
  }

  datatype Attributes = Attributes(enabled: bool, translation: TranslationType, payloadSize: nat)

  datatype Connection = Connection(device: bool, tag: bool)

  /** NfcCxNfpInterfaceMustSendPublicationLocked. */
  predicate MustSend(conn: Connection, a: Attributes) {
    if conn.device && a.enabled then
      if conn.tag && IsTagWrite(a.translation) && (IsReadOnly(a.translation) || a.payloadSize != 0) then true
      else !conn.tag && !IsTagWrite(a.translation) && a.payloadSize != 0
    else false
  }

  /** The publication can go over the connection there is: its kind matches the peer. */
  predicate Fits(conn: Connection, t: TranslationType) {
    conn.device && conn.tag == IsTagWrite(t)
  }

  /** The decision in one line: fits the peer, and there is something to send. */
  lemma MustSendExactly(conn: Connection, a: Attributes)
    ensures MustSend(conn, a) <==>
            a.enabled && Fits(conn, a.translation) && (a.payloadSize != 0 || IsReadOnly(a.translation))
  {
    assert IsReadOnly(a.translation) ==> IsTagWrite(a.translation);
  }

  /** NfcCxNfpInterfaceAddSendClientLocked on the list: head insertion, never twice. */
  ghost function Enlist<C>(send: seq<C>, c: C, readOnly: bool): (r: seq<C>) {
    if readOnly || c in send then send else [c] + send
  }

  /** NfcCxNfpInterfaceRemoveSendClientLocked on the list. */
  ghost function Delist<C>(send: seq<C>, c: C): (r: seq<C>) {
    if send == [] then []
    else if send[0] == c then send[1..]
    else [send[0]] + Delist(send[1..], c)
  }

  ghost predicate NoDuplicates<C>(s: seq<C>) {
    forall i, j :: 0 <= i < j < |s| ==> s[i] != s[j]
  }

  lemma {:induction false} DelistAt<C>(send: seq<C>, k: nat)
    requires NoDuplicates(send) && k < |send|
    ensures Delist(send, send[k]) == send[..k] + send[k + 1..]
  {
    if k > 0 {
      DelistAt(send[1..], k - 1);
      assert send[1..][..k - 1] == send[1..k] && send[1..][k..] == send[k + 1..];
      assert [send[0]] + send[1..k] == send[..k];
    }
  }

  lemma {:induction false} DelistAbsent<C>(send: seq<C>, c: C)
    requires c !in send
    ensures Delist(send, c) == send
  {
    if send != [] { DelistAbsent(send[1..], c); }
  }

  lemma DelistRemoves<C>(send: seq<C>, c: C)
    requires NoDuplicates(send) && c in send
    ensures NoDuplicates(Delist(send, c))
    ensures forall d :: d in Delist(send, c) <==> d in send && d != c
  {
    var k :| 0 <= k < |send| && send[k] == c;
    DelistAt(send, k);
    var r := send[..k] + send[k + 1..];
    forall d | d in send && d != c ensures d in r {
      var m :| 0 <= m < |send| && send[m] == d;
      assert r[if m < k then m else m - 1] == d;
    }
  }

  /** How often `c` is listed. */
  ghost function Count<C>(s: seq<C>, c: C): (n: nat)
    ensures n > 0 <==> c in s
  {
    if s == [] then 0 else (if s[0] == c then 1 else 0) + Count(s[1..], c)
  }

  lemma {:induction false} DelistCount<C>(send: seq<C>, c: C, d: C)
    ensures Count(Delist(send, c), d) == if c == d && c in send then Count(send, d) - 1 else Count(send, d)
  {
    if send != [] && send[0] != c {
      DelistCount(send[1..], c, d);
      assert ([send[0]] + Delist(send[1..], c))[1..] == Delist(send[1..], c);
    }
  }

  lemma {:induction false} CountIsNoDuplicates<C>(s: seq<C>)
    requires forall c :: c in s ==> Count(s, c) <= 1
    ensures NoDuplicates(s)
  {
    if s != [] {
      var t := s[1..];
      forall c | c in t ensures Count(t, c) <= 1 { assert c in s; }
      CountIsNoDuplicates(t);
      assert s[0] in s && Count(t, s[0]) == 0;
      assert forall i :: 0 < i < |s| ==> s[i] == t[i - 1];
    }
  }

  ghost function Reverse<C>(s: seq<C>): (r: seq<C>)
    ensures |r| == |s|
  {
    if s == [] then [] else Reverse(s[1..]) + [s[0]]
  }

  ghost function Filter<C>(s: seq<C>, keep: set<C>): (r: seq<C>) {
    if s == [] then []
    else if s[0] in keep then [s[0]] + Filter(s[1..], keep)
    else Filter(s[1..], keep)
  }

  /** The loop of NfcCxNfpInterfaceVerifyAndSendPublication: each client of `pubs` in
      turn, queued at the head when it is `wanted`. */
  ghost function VerifyAll<C>(pubs: seq<C>, send: seq<C>, wanted: set<C>): (r: seq<C>) {
    if pubs == [] then send
    else VerifyAll(pubs[1..], Enlist(send, pubs[0], pubs[0] !in wanted), wanted)
  }

  lemma {:induction false} FilterAppend<C>(a: seq<C>, b: seq<C>, keep: set<C>)
    ensures Filter(a + b, keep) == Filter(a, keep) + Filter(b, keep)
  {
    if a == [] {
      assert a + b == b;
    } else {
      FilterAppend(a[1..], b, keep);
      assert (a + b)[1..] == a[1..] + b;
    }
  }

  lemma {:induction false} FilterReverse<C>(s: seq<C>, keep: set<C>)
    ensures Filter(Reverse(s), keep) == Reverse(Filter(s, keep))
  {
    if s != [] {
      FilterReverse(s[1..], keep);
      FilterAppend(Reverse(s[1..]), [s[0]], keep);
      if s[0] in keep { assert ([s[0]] + Filter(s[1..], keep))[1..] == Filter(s[1..], keep); }
    }
  }

  lemma {:induction false} ReverseAppend<C>(a: seq<C>, b: seq<C>)
    ensures Reverse(a + b) == Reverse(b) + Reverse(a)
  {
    if a == [] {
      assert a + b == b;
    } else {
      ReverseAppend(a[1..], b);
      assert (a + b)[1..] == a[1..] + b;
    }
  }

  lemma {:induction false} ReverseTwice<C>(s: seq<C>)
    ensures Reverse(Reverse(s)) == s
  {
    if s != [] {
      ReverseTwice(s[1..]);
      ReverseAppend(Reverse(s[1..]), [s[0]]);
    }
  }

  lemma {:induction false} FilterAgree<C>(s: seq<C>, k1: set<C>, k2: set<C>)
    requires forall c :: c in s ==> (c in k1 <==> c in k2)
    ensures Filter(s, k1) == Filter(s, k2)
  {
    if s != [] { FilterAgree(s[1..], k1, k2); }
  }

  ghost function Elements<C>(s: seq<C>): (r: set<C>) {
    set c | c in s
  }

  /** One pass of the loop puts the newly wanted clients in front, in the reverse of
      the order in which the pass meets them, and leaves the rest of the list alone. */
  lemma {:induction false} VerifyAllOrder<C>(pubs: seq<C>, send: seq<C>, wanted: set<C>)
    requires NoDuplicates(pubs)
    ensures VerifyAll(pubs, send, wanted) == Reverse(Filter(pubs, wanted - Elements(send))) + send
  {
    if pubs != [] {
      var c, rest := pubs[0], pubs[1..];
      var send' := Enlist(send, c, c !in wanted);
      VerifyAllOrder(rest, send', wanted);
      FilterAgree(rest, wanted - Elements(send'), wanted - Elements(send));
      var listed := Filter(rest, wanted - Elements(send));
      if send' != send { assert ([c] + listed)[1..] == listed; }
    }
  }

  /** Registration inserts at the head, the pass inserts at the head, the worker takes
      from the head: two reversals, so publications leave oldest registered first. */
  lemma RegistrationOrderIsSendOrder<C>(registered: seq<C>, send: seq<C>, wanted: set<C>)
    requires NoDuplicates(registered)
    ensures VerifyAll(Reverse(registered), send, wanted) == Filter(registered, wanted - Elements(send)) + send
  {
    ReverseNoDuplicates(registered);
    VerifyAllOrder(Reverse(registered), send, wanted);
    FilterReverse(registered, wanted - Elements(send));
    ReverseTwice(Filter(registered, wanted - Elements(send)));
  }

  lemma {:induction false} ReverseElements<C>(s: seq<C>)
    ensures forall c :: c in Reverse(s) <==> c in s
  {
    if s != [] { ReverseElements(s[1..]); }
  }

  lemma {:induction false} ReverseNoDuplicates<C>(s: seq<C>)
    requires NoDuplicates(s)
    ensures NoDuplicates(Reverse(s))
  {
    if s != [] {
      var t := Reverse(s[1..]);
      ReverseNoDuplicates(s[1..]);
      ReverseElements(s[1..]);
      assert s[0] !in s[1..];
      assert forall i :: 0 <= i < |t| ==> (t + [s[0]])[i] == t[i] && t[i] in t;
    }
  }

  /** How many clients the worker takes from the queue when it stops after the first
      client in `stop`, or when the queue is empty. */
  ghost function Through<C>(queue: seq<C>, stop: set<C>): (n: nat)
    ensures n <= |queue|
    ensures forall i :: 0 <= i < n - 1 ==> queue[i] !in stop
    ensures n < |queue| ==> n > 0 && queue[n - 1] in stop
  {
    if queue == [] then 0
    else if queue[0] in stop then 1
    else 1 + Through(queue[1..], stop)
  }

  /** What the worker has done once it has taken `k` clients from `queue`: those among
      `on` (the enabled ones) were attempted in order; the current client is none, or the
      last one taken when that was not attempted; and the assertion that there is no
      current client held at each of the `k` dequeues. */
  ghost predicate Progress<C>(queue: seq<C>, on: set<C>, none: C, start: C, k: nat,
                              attempted: seq<C>, current: C, asserted: bool)
    requires k <= |queue|
  {
    && attempted == Filter(queue[..k], on)
    && current == (if k == 0 then start else if queue[k - 1] in on then none else queue[k - 1])
    && (asserted <==> (k > 0 ==> start == none) && forall i :: 0 <= i < k - 1 ==> queue[i] in on)
  }

  lemma ProgressStep<C>(queue: seq<C>, on: set<C>, none: C, start: C, k: nat,
                        attempted: seq<C>, current: C, asserted: bool)
    requires k < |queue| && (k > 0 ==> queue[k - 1] != none)
    requires Progress(queue, on, none, start, k, attempted, current, asserted)
    ensures var c := queue[k];
            Progress(queue, on, none, start, k + 1,
                     if c in on then attempted + [c] else attempted,
                     if c in on then none else c,
                     asserted && current == none)
  {
    FilterAppend(queue[..k], [queue[k]], on);
    assert queue[..k] + [queue[k]] == queue[..k + 1];
  }

  /** The state of the worker's loop: progress so far, and where it stands with respect to
      the first client at which it must stop (never, on a tag). */
  ghost predicate Turns<C>(queue: seq<C>, on: set<C>, bad: set<C>, none: C, start: C, k: nat,
                           attempted: seq<C>, current: C, asserted: bool, stop: bool)
  {
    && k <= |queue| && (k > 0 ==> queue[k - 1] != none)
    && Progress(queue, on, none, start, k, attempted, current, asserted)
    && (forall i :: 0 <= i < (if stop then k - 1 else k) ==> queue[i] !in bad)
    && (stop ==> k > 0 && queue[k - 1] in bad)
  }

  lemma TurnsStep<C>(queue: seq<C>, on: set<C>, bad: set<C>, none: C, start: C, k: nat,
                     attempted: seq<C>, current: C, asserted: bool)
    requires Turns(queue, on, bad, none, start, k, attempted, current, asserted, false)
    requires k < |queue| && queue[k] != none
    ensures var c := queue[k];
            Turns(queue, on, bad, none, start, k + 1,
                  if c in on then attempted + [c] else attempted,
                  if c in on then none else c,
                  asserted && current == none, c in bad)
  {
    ProgressStep(queue, on, none, start, k, attempted, current, asserted);
  }

  lemma {:induction false} ThroughIs<C>(queue: seq<C>, bad: set<C>, k: nat)
    requires k <= |queue|
    requires forall i :: 0 <= i < k - 1 ==> queue[i] !in bad
    requires k == |queue| || (k > 0 && queue[k - 1] in bad)
    ensures k == Through(queue, bad)
  {
    if queue != [] && queue[0] !in bad { ThroughIs(queue[1..], bad, k - 1); }
  }

  lemma {:induction false} FilterAll<C>(s: seq<C>, keep: set<C>)
    requires forall c :: c in s ==> c in keep
    ensures Filter(s, keep) == s
  {
    if s != [] { FilterAll(s[1..], keep); }
  }

  /** The worker on a queue of enabled clients, with no client current when it starts: every
      assertion on the current client holds; it attempts a prefix of the queue in order,
      which ends with the first client at which it must stop and is the whole queue when
      there is none (always so on a tag). */
  lemma EnabledQueueIsAttemptedInOrder<C>(queue: seq<C>, on: set<C>, bad: set<C>, none: C,
                                          attempted: seq<C>, current: C, asserted: bool)
    requires forall c :: c in queue ==> c in on
    requires Progress(queue, on, none, none, Through(queue, bad), attempted, current, asserted)
    ensures asserted && current == none
    ensures attempted == queue[..Through(queue, bad)]
    ensures (forall c :: c in queue ==> c !in bad) ==> attempted == queue
    ensures Through(queue, bad) < |queue| ==> attempted != [] && attempted[|attempted| - 1] in bad
  {
    var n := Through(queue, bad);
    FilterAll(queue[..n], on);
  }
}
