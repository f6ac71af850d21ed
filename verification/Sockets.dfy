/** The DTA interface's socket contexts: an intrusive list that doubles as the table of
    valid socket handles.  A handle is the address of its context. */
module Sockets {
  import opened ListEntries
  import opened Options

  class SocketContext {
    var entry: ListEntry<SocketContext?>

    constructor ()
      ensures entry.record == this && fresh(entry)
    {
      entry := new ListEntry<SocketContext?>(null);
      new;
      entry := new ListEntry<SocketContext?>(this);
    }
  }

  /** What a client is given as a handle: nothing, libnfc's own, or a context. */
  datatype Output = NoHandle | RawSocket(socket: nat) | Context(context: SocketContext)

  /** What happened to handles: created or accepted, and closed or drained. */
  datatype Event<H> = Opened(handle: H) | Closed(handle: H)

  /** The handles that were opened and not closed since. */
  ghost function Live<H>(log: seq<Event<H>>): (s: set<H>) {
    if log == [] then {}
    else match log[|log| - 1]
         case Opened(h) => Live(log[..|log| - 1]) + {h}
         case Closed(h) => Live(log[..|log| - 1]) - {h}
  }

  lemma {:induction false} LiveExactly<H>(log: seq<Event<H>>, h: H)
    ensures h in Live(log) <==>
            exists i :: 0 <= i < |log| && log[i] == Opened(h) && forall j :: i < j < |log| ==> log[j] != Closed(h)
    decreases |log|
  {
    if log != [] {
      var init := log[..|log| - 1];
      var last := log[|log| - 1];
      LiveExactly(init, h);
      assert forall k :: 0 <= k < |init| ==> init[k] == log[k];
      if last == Opened(h) {
        assert log[|log| - 1] == Opened(h);
      } else if last != Closed(h) && h in Live(init) {
        var i :| 0 <= i < |init| && init[i] == Opened(h) && forall j :: i < j < |init| ==> init[j] != Closed(h);
        assert log[i] == Opened(h);
      }
    }
  }

  lemma LiveSnoc<H>(log: seq<Event<H>>, e: Event<H>)
    ensures Live(log + [e]) == if e.Opened? then Live(log) + {e.handle} else Live(log) - {e.handle}
  {
    assert (log + [e])[..|log|] == log;
  }

  lemma RemovedItems<H>(hs: seq<H>, k: nat)
    requires k < |hs| && forall i, j :: 0 <= i < j < |hs| ==> hs[i] != hs[j]
    ensures var r := hs[..k] + hs[k + 1..];
            (set h | h in r) == (set h | h in hs) - {hs[k]}
  {
    var r := hs[..k] + hs[k + 1..];
    forall h | h in hs && h != hs[k]
      ensures h in r
    {
      var i :| 0 <= i < |hs| && hs[i] == h;
      assert r[if i < k then i else i - 1] == h;
    }
  }

  ghost function Drained<H>(hs: seq<H>): (es: seq<Event<H>>) {
    if hs == [] then [] else [Closed(hs[0])] + Drained(hs[1..])
  }

  lemma DrainedFirst<H>(log: seq<Event<H>>, hs: seq<H>)
    requires hs != []
    ensures (log + [Closed(hs[0])]) + Drained(hs[1..]) == log + Drained(hs)
  {
  }

  // ---------- a verified handle and the other threads ----------

  type Thread = nat
  type Address = nat

  /** Verification and use are two sections.  `live` gives each address in the list the
      socket it stands for, `held` the handles that threads have verified and not yet
      used; `faulted` when one was used for a deleted context, or for the socket that
      later took its address. */
  datatype Table = Table(live: map<Address, nat>, held: map<Thread, (Address, nat)>, next: nat, faulted: bool)

  const EMPTY: Table := Table(map[], map[], 0, false)

  datatype Step = Create(a: Address) | Verify(t: Thread, h: Address) | Use(user: Thread, closes: bool)

  predicate Enabled(s: Table, e: Step) {
    match e
    case Create(a) => a !in s.live
    case Verify(t, a) => t !in s.held && a in s.live
    case Use(t, _) => t in s.held
  }

  predicate IsLive(s: Table, h: (Address, nat)) {
    h.0 in s.live && s.live[h.0] == h.1
  }

  ghost function Next(s: Table, e: Step): (r: Table)
    requires Enabled(s, e)
  {
    match e
    case Create(a) => s.(live := s.live[a := s.next], next := s.next + 1)
    case Verify(t, a) => s.(held := s.held[t := (a, s.live[a])])
    case Use(t, closes) =>
      var s' := s.(held := s.held - {t});
      if !IsLive(s, s.held[t]) then s'.(faulted := true)
      else if closes then s'.(live := s.live - {s.held[t].0})
      else s'
  }

  ghost predicate IsRun(s: Table, run: seq<Step>)
    decreases |run|
  {
    run == [] || (Enabled(s, run[0]) && IsRun(Next(s, run[0]), run[1..]))
  }

  ghost function After(s: Table, run: seq<Step>): (r: Table)
    requires IsRun(s, run)
    decreases |run|
  {
    if run == [] then s else After(Next(s, run[0]), run[1..])
  }

  /** No handle is closed while another thread has verified it. */
  predicate Guarded(s: Table, e: Step)
    requires Enabled(s, e)
  {
    e.Use? && e.closes ==> forall t :: t in s.held && t != e.user ==> s.held[t].0 != s.held[e.user].0
  }

  ghost predicate GuardedRun(s: Table, run: seq<Step>)
    requires IsRun(s, run)
    decreases |run|
  {
    run == [] || (Guarded(s, run[0]) && GuardedRun(Next(s, run[0]), run[1..]))
  }

  ghost predicate Sound(s: Table) {
    !s.faulted && forall t :: t in s.held ==> IsLive(s, s.held[t])
  }

  lemma {:induction false} GuardedRunIsSound(s: Table, run: seq<Step>)
    requires Sound(s) && IsRun(s, run) && GuardedRun(s, run)
    ensures Sound(After(s, run))
    decreases |run|
  {
    if run != [] { GuardedRunIsSound(Next(s, run[0]), run[1..]); }
  }

  /** Under that guard every verified handle is used for the socket it was verified for. */
  lemma VerifiedHandlesStayLive(run: seq<Step>)
    requires IsRun(EMPTY, run) && GuardedRun(EMPTY, run)
    ensures !After(EMPTY, run).faulted
  {
    GuardedRunIsSound(EMPTY, run);
  }

  ghost predicate FaultsAfter(s: Table, run: seq<Step>) {
    IsRun(s, run) && After(s, run).faulted
  }

  ghost predicate Numbered(s: Table) {
    && (forall a :: a in s.live ==> s.live[a] < s.next)
    && (forall t :: t in s.held ==> s.held[t].1 < s.next)
  }

  lemma {:induction false} RunKeepsNumbered(s: Table, run: seq<Step>)
    requires Numbered(s) && IsRun(s, run)
    ensures Numbered(After(s, run))
    decreases |run|
  {
    if run != [] { RunKeepsNumbered(Next(s, run[0]), run[1..]); }
  }

  lemma OneStep(s: Table, e: Step)
    requires Enabled(s, e)
    ensures IsRun(s, [e]) && After(s, [e]) == Next(s, e)
  {
    assert [e][1..] == [];
  }

  /** The guard is exact: in whatever reachable state a close outside it is taken, the other
      thread can then use a dead handle, and one whose address a new socket has taken. */
  lemma UnguardedCloseFaults(run: seq<Step>, e: Step)
    requires IsRun(EMPTY, run) && Enabled(After(EMPTY, run), e) && !Guarded(After(EMPTY, run), e)
    ensures var s := After(EMPTY, run);
            var h := s.held[e.user];
            exists t :: t in s.held && t != e.user && s.held[t].0 == h.0
                        && FaultsAfter(Next(s, e), [Use(t, false)])
                        && (IsLive(s, h) ==> FaultsAfter(Next(s, e), [Create(h.0), Use(t, false)]))
  {
    RunKeepsNumbered(EMPTY, run);
    var s := After(EMPTY, run);
    var h := s.held[e.user];
    var t :| t in s.held && t != e.user && s.held[t].0 == h.0;
    var s1 := Next(s, e);
    OneStep(s1, Use(t, false));
    if IsLive(s, h) {
      OneStep(Next(s1, Create(h.0)), Use(t, false));
      assert [Create(h.0), Use(t, false)][1..] == [Use(t, false)];
    }
  }

  /** Such a close can come from the start: two threads verify the same new handle. */
  lemma UnguardedCloseHappens(a: Address)
    ensures var run := [Create(a), Verify(0, a), Verify(1, a)];
            && IsRun(EMPTY, run) && Enabled(After(EMPTY, run), Use(0, true))
            && !Guarded(After(EMPTY, run), Use(0, true))
  {
    var s1 := Next(EMPTY, Create(a));
    var s2 := Next(s1, Verify(0, a));
    OneStep(s2, Verify(1, a));
    assert [Create(a), Verify(0, a), Verify(1, a)][1..] == [Verify(0, a), Verify(1, a)];
    assert [Verify(0, a), Verify(1, a)][1..] == [Verify(1, a)];
    var s3 := Next(s2, Verify(1, a));
    assert After(EMPTY, [Create(a), Verify(0, a), Verify(1, a)]) == s3;
    assert 1 in s3.held && s3.held[1].0 == s3.held[0].0;
  }

  class DtaInterface {
    const sockets: EntryList<SocketContext?>
    ghost var log: seq<Event<SocketContext?>>

    ghost predicate Valid()
      reads this, sockets, set e | e in sockets.ring, set s | s in sockets.items
    {
      && sockets.Valid()
      && (forall e :: e in sockets.ring && e != sockets.head ==>
            e.record != null && e.record in sockets.items && e.record.entry == e)
      && Live(log) == (set s | s in sockets.items)
    }

    constructor ()
      ensures Valid() && log == [] && fresh(sockets) && forall e :: e in sockets.ring ==> fresh(e)
    {
      sockets := new EntryList<SocketContext?>(null);
      log := [];
    }

    /** NfcCxDTAInterfaceLlcpSocketCreate.  `prepared` when the context could be allocated and
        initialised, `socket` is what libnfc opens, `enabled` when its error queue could be
        set up.  When only that fails, libnfc's own handle is left in the output, which no
        handle check accepts. */
    method LlcpSocketCreate(prepared: bool, socket: Option<nat>, enabled: bool) returns (ok: bool, output: Output)
      requires Valid()
      modifies this, sockets, sockets.ring
      ensures Valid()
      ensures ok <==> prepared && socket.Some? && enabled
      ensures ok ==> output.Context? && fresh(output.context) && log == old(log) + [Opened(output.context)]
      ensures !ok ==> log == old(log)
                      && output == if prepared && socket.Some? then RawSocket(socket.value) else NoHandle
      ensures forall e :: e in sockets.ring ==> e in old(sockets.ring) || fresh(e)
    {
      ok, output := false, NoHandle;
      if !prepared {
        return;
      }
      var handle := new SocketContext();
      if socket.None? {
        return;
      }
      output := RawSocket(socket.value);
      if !enabled {
        return;
      }
      output := Context(handle);
      Link(handle);
      ok := true;
    }

    /** InsertTailList of a new context. */
    method Link(handle: SocketContext)
      requires Valid() && handle.entry !in sockets.ring && handle.entry.record == handle
      modifies this, sockets, sockets.ring, handle.entry
      ensures Valid() && log == old(log) + [Opened(handle)]
      ensures forall e :: e in sockets.ring <==> e in old(sockets.ring) || e == handle.entry
    {
      sockets.PushBack(handle.entry);
      LiveSnoc(log, Opened(handle));
      log := log + [Opened(handle)];
      assert sockets.items[|sockets.items| - 1] == handle;
    }

    /** NfcCxDTAInterfaceLlcpSocketListenCB; `granted` when its allocations succeed.  The
        context stays in the list even when its handle cannot be delivered. */
    method LlcpSocketListenCB(granted: bool) returns (handle: SocketContext?)
      requires Valid()
      modifies this, sockets, sockets.ring
      ensures Valid()
      ensures granted ==> handle != null && fresh(handle) && log == old(log) + [Opened(handle)]
      ensures !granted ==> handle == null && log == old(log)
      ensures forall e :: e in sockets.ring ==> e in old(sockets.ring) || fresh(e)
    {
      handle := null;
      if !granted {
        return;
      }
      handle := new SocketContext();
      Link(handle);
    }

    /** NfcCxDTAInterfaceVerifySocketHandle: the loop tests its condition after the body, so
        it is entered only when the list is not empty, and it stops back at the head. */
    method VerifySocketHandle(handle: SocketContext?) returns (ok: bool)
      requires Valid()
      ensures ok <==> handle in Live(log)
    {
      ok := false;
      var empty := sockets.IsEmpty();
      if empty {
        return;
      }
      var ple := sockets.head.flink;
      ghost var i := 1;
      sockets.Follow(0);
      while true
        invariant 1 <= i <= |sockets.items| && ple == sockets.ring[i]
        invariant handle !in sockets.items[..i - 1]
        decreases |sockets.items| - i
      {
        var context := ple.record;
        assert sockets.items[..i] == sockets.items[..i - 1] + [context];
        if handle == context {
          return true;
        }
        sockets.Follow(i);
        ple := ple.flink;
        i := i + 1;
        if ple == sockets.head {
          assert sockets.items[..i - 1] == sockets.items;
          break;
        }
      }
    }

    /** NfcCxDTAInterfaceLlcpSocketClose for a verified handle; when libnfc cannot close the
        socket the handle stays valid. */
    method LlcpSocketClose(handle: SocketContext?, closed: bool)
      requires Valid() && handle in Live(log)
      modifies this, sockets, sockets.ring
      ensures Valid() && log == old(log) + (if closed then [Closed(handle)] else [])
      ensures forall e :: e in sockets.ring ==> e in old(sockets.ring)
    {
      if !closed {
        return;
      }
      assert handle in sockets.items;
      ghost var k :| 0 <= k < |sockets.items| && sockets.items[k] == handle;
      Unlink(handle, k);
    }

    /** RemoveEntryList of the context, which sits at position `k`. */
    method Unlink(handle: SocketContext?, ghost k: nat)
      requires Valid() && k < |sockets.items| && sockets.items[k] == handle
      modifies this, sockets, sockets.ring
      ensures Valid() && log == old(log) + [Closed(handle)]
      ensures sockets.items == old(sockets.items)[..k] + old(sockets.items)[k + 1..]
      ensures forall e :: e in sockets.ring ==> e in old(sockets.ring)
    {
      forall i | 0 <= i < |sockets.items|
        ensures sockets.items[i] != null && sockets.items[i].entry == sockets.ring[i + 1]
      {
        sockets.Follow(i);
      }
      RemovedItems(sockets.items, k);
      LiveSnoc(log, Closed(handle));
      sockets.Remove(handle.entry, k);
      log := log + [Closed(handle)];
    }

    /** The dispatch of a close: only a handle that verifies is closed. */
    method DispatchLlcpSocketClose(handle: SocketContext?, closed: bool) returns (ok: bool)
      requires Valid()
      modifies this, sockets, sockets.ring
      ensures Valid() && (ok <==> handle in Live(old(log)))
      ensures log == old(log) + (if ok && closed then [Closed(handle)] else [])
    {
      ok := VerifySocketHandle(handle);
      if ok {
        LlcpSocketClose(handle, closed);
      }
    }

    /** Destruction: every context that is left is removed from the head of the list. */
    method Drain()
      requires Valid()
      modifies this, sockets, sockets.ring
      ensures Valid() && sockets.items == [] && Live(log) == {}
      ensures log == old(log) + Drained(old(sockets.items))
    {
      ghost var drained := log + Drained(sockets.items);
      ghost var nodes := set e | e in sockets.ring;
      var empty := sockets.IsEmpty();
      while !empty
        modifies this, sockets, nodes
        invariant Valid() && (empty <==> sockets.items == [])
        invariant forall e :: e in sockets.ring ==> e in nodes
        invariant log + Drained(sockets.items) == drained
        decreases |sockets.items|
      {
        UnlinkFirst();
        empty := sockets.IsEmpty();
      }
    }

    /** One turn of that loop. */
    method UnlinkFirst()
      requires Valid() && sockets.items != []
      modifies this, sockets, sockets.ring
      ensures Valid() && sockets.items == old(sockets.items)[1..]
      ensures log + Drained(sockets.items) == old(log) + Drained(old(sockets.items))
      ensures forall e :: e in sockets.ring ==> e in old(sockets.ring)
    {
      ghost var items := sockets.items;
      DrainedFirst(log, items);
      forall i | 0 <= i < |items| ensures items[i] != null && items[i].entry == sockets.ring[i + 1] {
        sockets.Follow(i);
      }
      RemovedItems(items, 0);
      assert items[..0] + items[1..] == items[1..];
      LiveSnoc(log, Closed(items[0]));
      hide Drained, Live, EntryList.Valid;
      var ple := sockets.PopFront();
      log := log + [Closed(ple.record)];
    }
  }
}
