/** Sequences: little programs of entries that run one after another.  An entry succeeds or
    fails at once, or returns PENDING and is resumed later by a message on the LibNfc
    thread; while it runs, or from its callback, it may skip entries or repeat some.

    `Meaning` says what a sequence does, in terms of the outcomes of its entries alone.  The
    engine below it starts, suspends, overrides and resumes sequences, which it knows by
    their addresses.  What it executes and reports for each sequence is its meaning over
    every run in which no start can be spoiled by leftovers of earlier sequences, and each
    start that can be is a way to a wrong completion.  `StateInterface` starts sequences so
    that there are never any leftovers. */
module Sequences {
  import opened Options

  type Id = nat

  /** Where a sequence is allocated; freed addresses are used again. */
  type Address = nat

  /** A final status; PENDING is not one. */
  datatype Status = Success | Failure(code: nat)

  datatype Jump = Stay | Skip(n: nat) | Repeat(m: nat)

  datatype Outcome = Outcome(jump: Jump, status: Status)

  /** NfcCxSkipSequence and NfcCxRepeatSequence; the index already points behind the entry. */
  function Moved(next: nat, size: nat, jump: Jump): (k: nat)
    requires next <= size
    ensures k <= size
  {
    match jump
    case Stay => next
    case Skip(n) => if next + n > size then next else next + n
    case Repeat(m) => if next < m then next else next - m
  }

  // ---------- meaning ----------

  /** Before entry `next`, or behind the last entry when it is the size. */
  datatype Verdict = At(next: nat) | Failed(code: nat)

  function Advance(size: nat, v: Verdict, o: Outcome): (r: Verdict) {
    if v.Failed? || v.next >= size then v
    else match o.status
         case Failure(code) => Failed(code)
         case Success => At(Moved(v.next + 1, size, o.jump))
  }

  function Meaning(size: nat, os: seq<Outcome>): (v: Verdict)
    ensures v.At? ==> v.next <= size
  {
    if os == [] then At(0) else Advance(size, Meaning(size, os[..|os| - 1]), os[|os| - 1])
  }

  /** The final status of a sequence that is over. */
  predicate Ends(size: nat, v: Verdict, status: Status) {
    if v.Failed? then status == Failure(v.code) else v.next == size && status == Success
  }

  // ---------- engine ----------

  /** An NFCCX_CX_SEQUENCE, at its address.  `entries` and `outcomes` record what it has
      executed, and how each of its own entries ended. */
  datatype Program = Program(address: Address, size: nat, next: nat, entries: seq<nat>, outcomes: seq<Outcome>)

  /** How an operation finds the sequence that it resumes.  Most carry the address of the
      sequence that was current at the call.  The two LLCP operations resume `Whatever` is
      current when they end.  The one of PostInitialize carries an address, too, but its
      callback may redo the initialisation: then it is a deinitialisation that is to end,
      and that carries the address of what is current at the redo. */
  datatype Call = Carrying | Whatever | Redoable

  datatype Return = Sync(outcome: Outcome) | Pending(call: Call)

  datatype Result = Finished(status: Status) | Suspended(call: Call) | Starved

  /** NfcCxSequenceRun, given what the entries that it calls return. */
  ghost function RunEntries(p: Program, rs: seq<Return>): (r: (Program, Result))
    requires p.next <= p.size
    ensures r.0.next <= r.0.size == p.size && r.0.address == p.address
    decreases |rs|
  {
    if p.next >= p.size then (p, Finished(Success))
    else if rs == [] then (p, Starved)
    else
      var p1 := p.(next := p.next + 1, entries := p.entries + [p.next]);
      match rs[0]
      case Pending(call) => (p1, Suspended(call))
      case Sync(o) =>
        var p2 := p1.(next := Moved(p1.next, p.size, o.jump), outcomes := p.outcomes + [o]);
        if o.status.Success? then RunEntries(p2, rs[1..]) else (p2, Finished(o.status))
  }

  /** An operation in flight, of an entry of sequence `owner`; `redone` is the jump that a redo
      has made already. */
  datatype Operation = Operation(owner: Id, call: Call, carried: Option<Address>, redone: Option<Jump>)

  /** A LIBNFC_SEQUENCE_RESUME message; it names a sequence by address, or none. */
  datatype Message = Message(to: Option<Address>, status: Status)

  datatype Completion = Completion(id: Id, status: Status)

  datatype Engine = Engine(
    programs: seq<Program>,            // in the order they were started; only the current one is allocated
    current: Option<Id>,
    operations: map<nat, Operation>,   // in flight, numbered as they were issued
    issued: nat,
    queue: seq<Message>,
    completed: seq<Completion>)        // calls of the completion step

  const INITIAL: Engine := Engine([], None, map[], 0, [], [])

  /** The allocator may place a new sequence at any address: whatever was allocated before
      has been deleted by then. */
  datatype Step =
    | Start(address: Address, size: nat, returned: seq<Return>)
    | Callback(operation: nat, outcome: Outcome)
    | Redo(operation: nat, jump: Jump)
    | Deliver(returned: seq<Return>)

  predicate Valid(e: Engine) {
    && (forall i :: 0 <= i < |e.programs| ==> e.programs[i].next <= e.programs[i].size)
    && (e.current.Some? ==> e.current.value < |e.programs|)
    && (forall k :: k in e.operations ==> k < e.issued && ValidOperation(e, e.operations[k]))
  }

  /** Operations of the current sequence carry its address: a redo keeps that. */
  predicate ValidOperation(e: Engine, op: Operation) {
    && op.owner < |e.programs| && (op.redone.Some? ==> op.call == Carrying)
    && (e.current == Some(op.owner) && op.call != Whatever ==> op.carried == Some(e.programs[op.owner].address))
  }

  function New(address: Address, size: nat): (p: Program) {
    Program(address, size, 0, [], [])
  }

  function CurrentAddress(e: Engine): (a: Option<Address>)
    requires Valid(e)
  {
    if e.current.Some? then Some(e.programs[e.current.value].address) else None
  }

  ghost predicate Enabled(e: Engine, s: Step)
    requires Valid(e)
  {
    match s
    case Start(a, size, rs) => RunEntries(New(a, size), rs).1 != Starved
    case Callback(k, o) =>
      && k in e.operations
      && (e.operations[k].call == Whatever ==> o.jump == Stay)
      && (e.operations[k].redone.Some? ==> o == Outcome(e.operations[k].redone.value, Success))
    case Redo(k, _) => k in e.operations && e.operations[k].call == Redoable
    case Deliver(rs) =>
      && e.queue != []
      && (e.current.Some? && e.queue[0].to == CurrentAddress(e) ==>
            RunEntries(e.programs[e.current.value], rs).1 != Starved)
  }

  /** NfcCxSequenceStart: a suspended sequence is overridden; a sequence that is already
      over is completed by a later message, with its index forced to the end. */
  ghost function OnStart(e: Engine, a: Address, size: nat, rs: seq<Return>): (r: Engine) {
    var id := |e.programs|;
    match RunEntries(New(a, size), rs)
    case (p, Finished(status)) =>
      e.(programs := e.programs + [p.(next := size)], current := Some(id),
         queue := e.queue + [Message(Some(a), status)])
    case (p, Suspended(call)) =>
      e.(programs := e.programs + [p], current := Some(id),
         operations := e.operations[e.issued := Operation(id, call, Some(a), None)], issued := e.issued + 1)
    case (p, Starved) => e
  }

  /** Where the callback of an operation sends its resume. */
  function Target(e: Engine, op: Operation): (to: Option<Address>)
    requires Valid(e)
  {
    if op.call == Whatever then CurrentAddress(e) else op.carried
  }

  /** A jump from a callback is refused unless the address that is carried is the current one. */
  predicate CanJump(e: Engine, op: Operation)
    requires Valid(e)
  {
    op.call != Whatever && op.redone.None? && op.carried == CurrentAddress(e)
  }

  /** The end of an operation: jump, then NfcCxSequenceDispatchResume.  The outcome belongs to
      the sequence whose entry issued the operation. */
  ghost function OnCallback(e: Engine, k: nat, o: Outcome): (r: Engine)
    requires Valid(e) && k in e.operations
  {
    var op := e.operations[k];
    var e1 := e.(operations := e.operations - {k}, queue := e.queue + [Message(Target(e, op), o.status)]);
    if e.current.None? then e1
    else
      var c := e.current.value;
      var p := e.programs[c];
      e1.(programs := e.programs[c := p.(next := if CanJump(e, op) then Moved(p.next, p.size, o.jump) else p.next,
                                         outcomes := if op.owner == c then p.outcomes + [o] else p.outcomes)])
  }

  /** NfcCxRFInterfacePostInitializeCB with the redo flag: deinitialise on behalf of what is
      current, and go back in the sequence whose address is carried. */
  ghost function OnRedo(e: Engine, k: nat, jump: Jump): (r: Engine)
    requires Valid(e) && k in e.operations
  {
    var op := e.operations[k];
    var redo := op.(call := Carrying, carried := CurrentAddress(e), redone := Some(jump));
    var e1 := e.(operations := e.operations[k := redo]);
    if e.current.None? || !CanJump(e, op) then e1
    else
      var p := e.programs[e.current.value];
      e1.(programs := e.programs[e.current.value := p.(next := Moved(p.next, p.size, jump))])
  }

  /** NfcCxSequenceResume for the oldest message, which compares addresses. */
  ghost function OnDeliver(e: Engine, rs: seq<Return>): (r: Engine)
    requires Valid(e) && e.queue != []
  {
    var m := e.queue[0];
    var e1 := e.(queue := e.queue[1..]);
    if e.current.None? || m.to != CurrentAddress(e) then e1
    else Resumed(e1, m.status, rs)
  }

  ghost function Resumed(e: Engine, status: Status, rs: seq<Return>): (r: Engine)
    requires Valid(e) && e.current.Some?
  {
    var id := e.current.value;
    if status.Failure? then e.(current := None, completed := e.completed + [Completion(id, status)])
    else match RunEntries(e.programs[id], rs)
         case (p, Finished(final)) =>
           e.(programs := e.programs[id := p], current := None, completed := e.completed + [Completion(id, final)])
         case (p, Suspended(call)) =>
           e.(programs := e.programs[id := p],
              operations := e.operations[e.issued := Operation(id, call, Some(p.address), None)],
              issued := e.issued + 1)
         case (p, Starved) => e
  }

  ghost function Next(e: Engine, s: Step): (r: Engine)
    requires Valid(e) && Enabled(e, s)
  {
    match s
    case Start(a, size, rs) => OnStart(e, a, size, rs)
    case Callback(k, o) => OnCallback(e, k, o)
    case Redo(k, jump) => OnRedo(e, k, jump)
    case Deliver(rs) => OnDeliver(e, rs)
  }

  lemma StepKeepsValid(e: Engine, s: Step)
    requires Valid(e) && Enabled(e, s)
    ensures Valid(Next(e, s))
  {
  }

  ghost predicate Possible(e: Engine, ss: seq<Step>)
    decreases |ss|
  {
    Valid(e) && (ss == [] || (Enabled(e, ss[0]) && Possible(Next(e, ss[0]), ss[1..])))
  }

  ghost function Run(e: Engine, ss: seq<Step>): (r: Engine)
    requires Possible(e, ss)
    ensures Valid(r)
    decreases |ss|
  {
    if ss == [] then e else Run(Next(e, ss[0]), ss[1..])
  }

  // ---------- what resumes a sequence ----------

  /** The operations in flight that would resume a current sequence at `a`. */
  ghost function Sure(e: Engine, a: Address): (ks: set<nat>) {
    set k | k in e.operations && (e.operations[k].call == Whatever || e.operations[k].carried == Some(a))
  }

  /** Those that can: a redo makes its operation resume whatever is current then. */
  ghost function Hits(e: Engine, a: Address): (ks: set<nat>) {
    set k | k in e.operations && (e.operations[k].call != Carrying || e.operations[k].carried == Some(a))
  }

  function CountTo(q: seq<Message>, a: Address): (n: nat) {
    if q == [] then 0 else (if q[0].to == Some(a) then 1 else 0) + CountTo(q[1..], a)
  }

  /** The status of the oldest message to `a`. */
  function First(q: seq<Message>, a: Address): (s: Option<Status>) {
    if q == [] then None else if q[0].to == Some(a) then Some(q[0].status) else First(q[1..], a)
  }

  lemma {:induction false} Posted(q: seq<Message>, m: Message, a: Address)
    ensures CountTo(q + [m], a) == CountTo(q, a) + (if m.to == Some(a) then 1 else 0)
    ensures First(q + [m], a)
            == if First(q, a).Some? then First(q, a) else if m.to == Some(a) then Some(m.status) else None
    ensures First(q, a).Some? <==> CountTo(q, a) > 0
  {
    if q == [] {
      assert q + [m] == [m] && [m][1..] == [];
    } else {
      Posted(q[1..], m, a);
      assert (q + [m])[1..] == q[1..] + [m];
    }
  }

  /** How many things are on their way to resume the sequence at `a`, or can come to be. */
  ghost function Resumers(e: Engine, a: Address): (n: nat) {
    |Hits(e, a)| + CountTo(e.queue, a)
  }

  /** Something is sure to resume the sequence at `a`. */
  ghost predicate IsResumed(e: Engine, a: Address) {
    Sure(e, a) != {} || CountTo(e.queue, a) > 0
  }

  /** One thing will resume it, and nothing else can. */
  ghost predicate IsResumedOnce(e: Engine, a: Address) {
    Hits(e, a) == Sure(e, a) && |Sure(e, a)| + CountTo(e.queue, a) == 1
  }

  lemma StartHits(e: Engine, a: Address, size: nat, rs: seq<Return>)
    requires Valid(e) && Enabled(e, Start(a, size, rs))
    ensures var e' := OnStart(e, a, size, rs);
            var more := if RunEntries(New(a, size), rs).1.Finished? then {} else {e.issued};
            && Valid(e') && e.issued !in Hits(e, a)
            && Hits(e', a) == Hits(e, a) + more && Sure(e', a) == Sure(e, a) + more
            && CountTo(e'.queue, a) == CountTo(e.queue, a) + 1 - |more|
  {
    StepKeepsValid(e, Start(a, size, rs));
    var r := RunEntries(New(a, size), rs).1;
    if r.Finished? { Posted(e.queue, Message(Some(a), r.status), a); }
    StartIssues(e, a, size, rs);
    hide RunEntries, CountTo, Hits, Sure;
  }

  lemma StartIssues(e: Engine, a: Address, size: nat, rs: seq<Return>)
    requires Valid(e) && Enabled(e, Start(a, size, rs))
    ensures var e' := OnStart(e, a, size, rs);
            var more := if RunEntries(New(a, size), rs).1.Finished? then {} else {e.issued};
            && e.issued !in Hits(e, a) && Hits(e', a) == Hits(e, a) + more && Sure(e', a) == Sure(e, a) + more
  {
    hide RunEntries;
  }

  lemma CallbackHits(e: Engine, k: nat, o: Outcome)
    requires Valid(e) && e.current.Some? && Enabled(e, Callback(k, o))
    ensures var a := CurrentAddress(e).value;
            var e' := OnCallback(e, k, o);
            && Valid(e') && CurrentAddress(e') == Some(a)
            && Hits(e', a) == Hits(e, a) - {k} && Sure(e', a) == Sure(e, a) - {k}
            && CountTo(e'.queue, a) == CountTo(e.queue, a) + (if k in Sure(e, a) then 1 else 0)
  {
    StepKeepsValid(e, Callback(k, o));
    Posted(e.queue, Message(Target(e, e.operations[k]), o.status), CurrentAddress(e).value);
    hide CountTo;
  }

  lemma RedoHits(e: Engine, k: nat, jump: Jump)
    requires Valid(e) && e.current.Some? && Enabled(e, Redo(k, jump))
    ensures var a := CurrentAddress(e).value;
            var e' := OnRedo(e, k, jump);
            && Valid(e') && CurrentAddress(e') == Some(a) && e'.queue == e.queue
            && Hits(e', a) == Hits(e, a) && Sure(e', a) == Sure(e, a) + {k} && k in Hits(e, a)
  {
    StepKeepsValid(e, Redo(k, jump));
  }

  lemma DeliverHits(e: Engine, rs: seq<Return>)
    requires Valid(e) && e.current.Some? && Enabled(e, Deliver(rs)) && OnDeliver(e, rs).current == e.current
    requires e.queue[0].to == CurrentAddress(e)
    ensures var a := CurrentAddress(e).value;
            var e' := OnDeliver(e, rs);
            && Valid(e') && CurrentAddress(e') == Some(a) && e.issued !in Hits(e, a)
            && Hits(e', a) == Hits(e, a) + {e.issued} && Sure(e', a) == Sure(e, a) + {e.issued}
            && CountTo(e'.queue, a) == CountTo(e.queue, a) - 1
  {
    var a := CurrentAddress(e).value;
    ResumedIssues(e.(queue := e.queue[1..]), e.queue[0].status, rs);
    HeadCounts(e.queue, a);
    SameHits(e, e.queue[1..], a);
    hide RunEntries, Resumed, Hits, Sure, CountTo;
  }

  lemma HeadCounts(q: seq<Message>, a: Address)
    requires q != []
    ensures CountTo(q, a) == (if q[0].to == Some(a) then 1 else 0) + CountTo(q[1..], a)
  {
  }

  lemma SameHits(e: Engine, q: seq<Message>, a: Address)
    ensures Hits(e.(queue := q), a) == Hits(e, a) && Sure(e.(queue := q), a) == Sure(e, a)
  {
  }

  /** A resume that does not complete the sequence leaves it with one operation more. */
  lemma ResumedIssues(e: Engine, status: Status, rs: seq<Return>)
    requires Valid(e) && e.current.Some? && Resumed(e, status, rs).current == e.current
    requires RunEntries(e.programs[e.current.value], rs).1 != Starved
    ensures var a := CurrentAddress(e).value;
            var e' := Resumed(e, status, rs);
            && Valid(e') && CurrentAddress(e') == Some(a) && e'.queue == e.queue
            && status.Success? && e.issued in e'.operations && e'.operations[e.issued].owner == e.current.value
            && e'.operations[e.issued].redone.None?
            && Hits(e', a) == Hits(e, a) + {e.issued} && Sure(e', a) == Sure(e, a) + {e.issued}
            && e.issued !in Hits(e, a)
  {
    var (p, r) := RunEntries(e.programs[e.current.value], rs);
    hide RunEntries;
  }

  /** Nothing is on its way to the address of a new sequence, and nothing is in flight that
      can come to resume whatever is current. */
  ghost predicate Fresh(e: Engine, a: Address) {
    Hits(e, a) == {} && CountTo(e.queue, a) == 0
  }

  ghost predicate FreshStarts(e: Engine, ss: seq<Step>)
    requires Possible(e, ss)
    decreases |ss|
  {
    ss == [] || ((ss[0].Start? ==> Fresh(e, ss[0].address)) && FreshStarts(Next(e, ss[0]), ss[1..]))
  }

  ghost predicate CurrentIs(e: Engine, once: bool)
    requires Valid(e)
  {
    e.current.Some? ==>
      var a := CurrentAddress(e).value;
      if once then IsResumedOnce(e, a) else IsResumed(e, a)
  }

  lemma StepKeepsResumed(e: Engine, s: Step, once: bool)
    requires Valid(e) && Enabled(e, s) && CurrentIs(e, once)
    requires once && s.Start? ==> Fresh(e, s.address)
    ensures Valid(Next(e, s)) && CurrentIs(Next(e, s), once)
  {
    StepKeepsValid(e, s);
    match s
    case Start(a, size, rs) => StartHits(e, a, size, rs);
    case Callback(k, o) => if e.current.Some? { CallbackKeepsResumed(e, k, o, once); }
    case Redo(k, jump) => if e.current.Some? { RedoHits(e, k, jump); }
    case Deliver(rs) =>
      if e.current.Some? && e.queue[0].to == CurrentAddress(e) {
        if OnDeliver(e, rs).current.Some? { DeliverHits(e, rs); }
      } else if e.current.Some? {
        HeadCounts(e.queue, CurrentAddress(e).value);
        SameHits(e, e.queue[1..], CurrentAddress(e).value);
      }
  }

  lemma CallbackKeepsResumed(e: Engine, k: nat, o: Outcome, once: bool)
    requires Valid(e) && e.current.Some? && Enabled(e, Callback(k, o)) && CurrentIs(e, once)
    ensures Valid(OnCallback(e, k, o)) && CurrentIs(OnCallback(e, k, o), once)
  {
    CallbackHits(e, k, o);
    var a := CurrentAddress(e).value;
    hide OnCallback, Sure, Hits, CountTo;
    if k !in Sure(e, a) { assert Sure(e, a) - {k} == Sure(e, a); }
  }

  lemma {:induction false} RunKeepsResumed(e: Engine, ss: seq<Step>, once: bool)
    requires Possible(e, ss) && CurrentIs(e, once) && (once ==> FreshStarts(e, ss))
    ensures CurrentIs(Run(e, ss), once)
    decreases |ss|
  {
    if ss != [] {
      StepKeepsResumed(e, ss[0], once);
      RunKeepsResumed(Next(e, ss[0]), ss[1..], once);
    }
  }

  /** The current sequence is never left without something that will resume it, over every
      run.  As long as every start was fresh that is one thing, and nothing else can. */
  lemma CurrentIsNeverStuck(ss: seq<Step>)
    requires Possible(INITIAL, ss)
    ensures var e := Run(INITIAL, ss);
            e.current.Some? ==>
              && IsResumed(e, CurrentAddress(e).value)
              && (FreshStarts(INITIAL, ss) ==> IsResumedOnce(e, CurrentAddress(e).value))
  {
    RunKeepsResumed(INITIAL, ss, false);
    if FreshStarts(INITIAL, ss) { RunKeepsResumed(INITIAL, ss, true); }
  }

  /** A start that is not fresh gives the new sequence a second thing that can resume it, at
      once: in every reachable state, one exactly when it is fresh. */
  lemma OneResumerExactly(ss: seq<Step>, a: Address, size: nat, rs: seq<Return>)
    requires Possible(INITIAL, ss) && Enabled(Run(INITIAL, ss), Start(a, size, rs))
    ensures var e := Run(INITIAL, ss);
            var e' := OnStart(e, a, size, rs);
            Valid(e') && CurrentAddress(e') == Some(a) && (Resumers(e', a) == 1 <==> Fresh(e, a))
  {
    var e := Run(INITIAL, ss);
    StartHits(e, a, size, rs);
    if Hits(e, a) != {} { assert |Hits(e, a)| > 0; }
    StepKeepsValid(e, Start(a, size, rs));
  }

  // ---------- what a sequence completes with ----------

  /** What has been executed so far is what the meaning visits. */
  ghost predicate Faithful(p: Program) {
    && |p.outcomes| <= |p.entries| <= |p.outcomes| + 1
    && forall k :: 0 <= k < |p.entries| ==>
         p.entries[k] < p.size && Meaning(p.size, p.outcomes[..k]) == At(p.entries[k])
  }

  /** Suspended in the entry it entered last, after what a redo may have jumped. */
  ghost predicate InEntry(p: Program, redone: Option<Jump>) {
    && Faithful(p) && |p.entries| == |p.outcomes| + 1
    && var behind := p.entries[|p.entries| - 1] + 1;
    p.next == match redone case None => behind case Some(jump) => Moved(behind, p.size, jump)
  }

  /** Between entries, about to be resumed with `status`. */
  ghost predicate Between(p: Program, status: Status) {
    && Faithful(p) && |p.entries| == |p.outcomes|
    && (match status
        case Success => Meaning(p.size, p.outcomes) == At(p.next)
        case Failure(code) => Meaning(p.size, p.outcomes) == Failed(code))
  }

  /** Over, as its outcomes mean: each entry that was executed is one that the outcomes
      lead to and has ended, and the final status is theirs. */
  ghost predicate Over(p: Program, status: Status) {
    && Faithful(p) && |p.entries| == |p.outcomes|
    && Ends(p.size, Meaning(p.size, p.outcomes), status)
  }

  lemma MeaningSnoc(size: nat, os: seq<Outcome>, o: Outcome)
    ensures Meaning(size, os + [o]) == Advance(size, Meaning(size, os), o)
  {
    assert (os + [o])[..|os|] == os;
  }

  /** The outcome of the entry a program is in. */
  lemma EntryOutcome(p: Program, redone: Option<Jump>, o: Outcome)
    requires InEntry(p, redone) && (redone.Some? ==> o.jump == redone.value)
    ensures p.next <= p.size
    ensures Between(p.(next := if redone.Some? then p.next else Moved(p.next, p.size, o.jump),
                       outcomes := p.outcomes + [o]), o.status)
  {
    var os := p.outcomes + [o];
    MeaningSnoc(p.size, p.outcomes, o);
    assert p.outcomes[..|p.outcomes|] == p.outcomes;
    forall k | 0 <= k < |p.entries|
      ensures Meaning(p.size, os[..k]) == At(p.entries[k])
    {
      assert os[..k] == p.outcomes[..k];
    }
  }

  lemma JumpsInEntry(p: Program, jump: Jump)
    requires InEntry(p, None)
    ensures p.next <= p.size && InEntry(p.(next := Moved(p.next, p.size, jump)), Some(jump))
  {
  }

  lemma EnterNext(p: Program)
    requires Between(p, Success) && p.next < p.size
    ensures InEntry(p.(next := p.next + 1, entries := p.entries + [p.next]), None)
  {
    assert p.outcomes[..|p.outcomes|] == p.outcomes;
  }

  lemma SyncEntry(p: Program, o: Outcome)
    requires Between(p, Success) && p.next < p.size
    ensures Between(p.(next := Moved(p.next + 1, p.size, o.jump), entries := p.entries + [p.next],
                       outcomes := p.outcomes + [o]), o.status)
  {
    EnterNext(p);
    EntryOutcome(p.(next := p.next + 1, entries := p.entries + [p.next]), None, o);
  }

  lemma BetweenIsOver(p: Program, status: Status)
    requires Between(p, status) && (status.Success? ==> p.next == p.size)
    ensures Over(p, status)
  {
  }

  lemma {:induction false} RunEntriesKeeps(p: Program, rs: seq<Return>)
    requires Between(p, Success) && p.next <= p.size
    ensures var (q, r) := RunEntries(p, rs);
            match r
            case Suspended(_) => InEntry(q, None)
            case Finished(status) => Over(q, status)
            case Starved => true
    decreases |rs|
  {
    hide Between, InEntry, Over;
    if p.next >= p.size {
      BetweenIsOver(p, Success);
    } else if rs != [] {
      EnterNext(p);
      if rs[0].Sync? {
        var o := rs[0].outcome;
        SyncEntry(p, o);
        var p2 := p.(next := Moved(p.next + 1, p.size, o.jump), entries := p.entries + [p.next],
                     outcomes := p.outcomes + [o]);
        if o.status.Success? { RunEntriesKeeps(p2, rs[1..]); } else { BetweenIsOver(p2, o.status); }
      }
    }
  }

  lemma NewRuns(a: Address, size: nat, rs: seq<Return>)
    ensures var (p, r) := RunEntries(New(a, size), rs);
            match r
            case Suspended(_) => InEntry(p, None)
            case Finished(status) => Over(p, status) && Between(p.(next := size), status)
            case Starved => true
  {
    assert Between(New(a, size), Success);
    RunEntriesKeeps(New(a, size), rs);
  }

  /** A start that leftovers of earlier sequences can spoil.  A sequence that is suspended is
      spoiled by anything on its way to it.  One that is over at once only waits for its own
      message: an older message to its address with another status comes first, and a
      callback that carries its address can move its index back from the end. */
  ghost predicate Spoilable(e: Engine, a: Address, size: nat, rs: seq<Return>)
    requires Valid(e)
  {
    match RunEntries(New(a, size), rs).1
    case Suspended(_) => !Fresh(e, a)
    case Finished(status) =>
      || (First(e.queue, a).Some? && First(e.queue, a) != Some(status))
      || (status.Success? && size > 0 && CarriersTo(e, a) != {})
    case Starved => false
  }

  ghost function CarriersTo(e: Engine, a: Address): (ks: set<nat>) {
    set k | k in e.operations && e.operations[k].call != Whatever && e.operations[k].redone.None?
            && e.operations[k].carried == Some(a)
  }

  ghost predicate Guarded(e: Engine, s: Step)
    requires Valid(e)
  {
    s.Start? ==> !Spoilable(e, s.address, s.size, s.returned)
  }

  ghost predicate GuardedRun(e: Engine, ss: seq<Step>)
    requires Possible(e, ss)
    decreases |ss|
  {
    ss == [] || (Guarded(e, ss[0]) && GuardedRun(Next(e, ss[0]), ss[1..]))
  }

  /** An operation of the current sequence, which will resume it. */
  ghost predicate IsOwn(e: Engine, k: nat)
    requires Valid(e) && e.current.Some?
  {
    && k in e.operations && e.operations[k].owner == e.current.value
    && k in Sure(e, e.programs[e.current.value].address)
  }

  /** The current sequence is in an entry, and only that entry's operation is on its way. */
  ghost predicate Waiting(e: Engine)
    requires Valid(e) && e.current.Some?
  {
    var id := e.current.value;
    var p := e.programs[id];
    && First(e.queue, p.address) == None
    && exists k: nat :: IsOwn(e, k) && Hits(e, p.address) == {k} && InEntry(p, e.operations[k].redone)
  }

  /** The entry has ended, and only the message about it is on its way. */
  ghost predicate Notified(e: Engine)
    requires Valid(e) && e.current.Some?
  {
    var p := e.programs[e.current.value];
    && Hits(e, p.address) == {} && CountTo(e.queue, p.address) == 1
    && First(e.queue, p.address).Some? && Between(p, First(e.queue, p.address).value)
  }

  /** The sequence was over when it started; the oldest message to its address says so. */
  ghost predicate Ending(e: Engine)
    requires Valid(e) && e.current.Some?
  {
    var p := e.programs[e.current.value];
    && (forall k :: k in e.operations ==> e.operations[k].owner != e.current.value)
    && First(e.queue, p.address).Some?
    && var status := First(e.queue, p.address).value;
    && Over(p, status) && Between(p, status)
    && (status.Success? && p.size > 0 ==> CarriersTo(e, p.address) == {})
  }

  ghost predicate CompletedWell(e: Engine) {
    && (forall j :: 0 <= j < |e.completed| ==>
          && e.completed[j].id < |e.programs| && e.current != Some(e.completed[j].id)
          && Over(e.programs[e.completed[j].id], e.completed[j].status))
    && (forall i, j :: 0 <= i < j < |e.completed| ==> e.completed[i].id != e.completed[j].id)
  }

  ghost predicate Inv(e: Engine) {
    && Valid(e) && CompletedWell(e)
    && (e.current.Some? ==> Waiting(e) || Notified(e) || Ending(e))
  }

  lemma StartKeepsInv(e: Engine, a: Address, size: nat, rs: seq<Return>)
    requires Inv(e) && Enabled(e, Start(a, size, rs)) && Guarded(e, Start(a, size, rs))
    ensures Inv(OnStart(e, a, size, rs))
  {
    StepKeepsValid(e, Start(a, size, rs));
    assert CompletedWell(OnStart(e, a, size, rs)) by { hide Over; }
    if RunEntries(New(a, size), rs).1.Finished? { StartEnds(e, a, size, rs); } else { StartWaits(e, a, size, rs); }
  }

  lemma StartEnds(e: Engine, a: Address, size: nat, rs: seq<Return>)
    requires Inv(e) && Enabled(e, Start(a, size, rs)) && Guarded(e, Start(a, size, rs))
    requires RunEntries(New(a, size), rs).1.Finished?
    ensures Valid(OnStart(e, a, size, rs)) && Ending(OnStart(e, a, size, rs))
  {
    StepKeepsValid(e, Start(a, size, rs));
    NewRuns(a, size, rs);
    Posted(e.queue, Message(Some(a), RunEntries(New(a, size), rs).1.status), a);
    assert CarriersTo(OnStart(e, a, size, rs), a) == CarriersTo(e, a);
    hide RunEntries, Between, Over;
  }

  lemma StartWaits(e: Engine, a: Address, size: nat, rs: seq<Return>)
    requires Inv(e) && Enabled(e, Start(a, size, rs)) && Guarded(e, Start(a, size, rs))
    requires RunEntries(New(a, size), rs).1.Suspended?
    ensures Valid(OnStart(e, a, size, rs)) && Waiting(OnStart(e, a, size, rs))
  {
    StepKeepsValid(e, Start(a, size, rs));
    NewRuns(a, size, rs);
    StartHits(e, a, size, rs);
    Posted(e.queue, Message(Some(a), Success), a);
    hide RunEntries, InEntry, Over;
    assert IsOwn(OnStart(e, a, size, rs), e.issued);
  }

  lemma CallbackKeepsInv(e: Engine, k: nat, o: Outcome)
    requires Inv(e) && Enabled(e, Callback(k, o))
    ensures Inv(OnCallback(e, k, o))
  {
    StepKeepsValid(e, Callback(k, o));
    if e.current.Some? {
      if Waiting(e) {
        CallbackWhileWaiting(e, k, o);
      } else if Notified(e) {
        CallbackWhileNotified(e, k, o);
      } else {
        CallbackWhileEnding(e, k, o);
      }
    }
  }

  lemma CallbackKeepsCompleted(e: Engine, k: nat, o: Outcome)
    requires Inv(e) && Enabled(e, Callback(k, o))
    ensures Valid(OnCallback(e, k, o)) && CompletedWell(OnCallback(e, k, o))
  {
    hide Over;
  }

  lemma CallbackWhileWaiting(e: Engine, k: nat, o: Outcome)
    requires Inv(e) && Enabled(e, Callback(k, o)) && e.current.Some? && Waiting(e)
    ensures Inv(OnCallback(e, k, o))
  {
    CallbackKeepsCompleted(e, k, o);
    var id := e.current.value;
    var p := e.programs[id];
    var e' := OnCallback(e, k, o);
    var m := Message(Target(e, e.operations[k]), o.status);
    Posted(e.queue, m, p.address);
    assert Hits(e', p.address) == Hits(e, p.address) - {k};
    if k in Hits(e, p.address) {
      EntryOutcome(p, e.operations[k].redone, o);
      hide InEntry, Between, Over;
      assert Notified(e');
    } else {
      var j: nat :| IsOwn(e, j) && Hits(e, p.address) == {j} && InEntry(p, e.operations[j].redone);
      hide InEntry, Between, Over;
      assert IsOwn(e', j) && Hits(e', p.address) == {j};
      assert Waiting(e');
    }
  }

  lemma CallbackWhileNotified(e: Engine, k: nat, o: Outcome)
    requires Inv(e) && Enabled(e, Callback(k, o)) && e.current.Some? && Notified(e)
    ensures Inv(OnCallback(e, k, o))
  {
    CallbackKeepsCompleted(e, k, o);
    var p := e.programs[e.current.value];
    var e' := OnCallback(e, k, o);
    CallbackHits(e, k, o);
    Posted(e.queue, Message(Target(e, e.operations[k]), o.status), p.address);
    assert k !in Hits(e, p.address);
    hide Between, Over, CountTo, First;
    assert e'.programs[e.current.value] == p;
    assert Notified(e');
  }

  lemma CallbackWhileEnding(e: Engine, k: nat, o: Outcome)
    requires Inv(e) && Enabled(e, Callback(k, o)) && e.current.Some? && Ending(e)
    ensures Inv(OnCallback(e, k, o))
  {
    CallbackKeepsCompleted(e, k, o);
    var p := e.programs[e.current.value];
    var e' := OnCallback(e, k, o);
    Posted(e.queue, Message(Target(e, e.operations[k]), o.status), p.address);
    assert CarriersTo(e', p.address) <= CarriersTo(e, p.address);
    if CanJump(e, e.operations[k]) {
      assert k in CarriersTo(e, p.address);
    }
    var p' := e'.programs[e.current.value];
    assert p'.outcomes == p.outcomes && p'.entries == p.entries;
    assert Ending(e');
  }

  /** Only the sequence's own operation can be redone while it is in an entry. */
  lemma RedoKeepsInv(e: Engine, k: nat, jump: Jump)
    requires Inv(e) && Enabled(e, Redo(k, jump))
    ensures Inv(OnRedo(e, k, jump))
  {
    StepKeepsValid(e, Redo(k, jump));
    var e' := OnRedo(e, k, jump);
    assert CompletedWell(e') by { hide Over; }
    if e.current.Some? {
      RedoHits(e, k, jump);
      hide Between, Over, InEntry;
      if Waiting(e) { RedoWhileWaiting(e, k, jump); } else if Ending(e) { RedoWhileEnding(e, k, jump); }
    }
  }

  lemma RedoWhileWaiting(e: Engine, k: nat, jump: Jump)
    requires Inv(e) && Enabled(e, Redo(k, jump)) && e.current.Some? && Waiting(e)
    ensures Valid(OnRedo(e, k, jump)) && Waiting(OnRedo(e, k, jump))
  {
    StepKeepsValid(e, Redo(k, jump));
    RedoHits(e, k, jump);
    var p := e.programs[e.current.value];
    if InEntry(p, None) { JumpsInEntry(p, jump); }
    hide Between, Over, InEntry, Moved;
    var j: nat :| IsOwn(e, j) && Hits(e, p.address) == {j} && InEntry(p, e.operations[j].redone);
    assert j == k && IsOwn(OnRedo(e, k, jump), k);
  }

  lemma RedoWhileEnding(e: Engine, k: nat, jump: Jump)
    requires Inv(e) && Enabled(e, Redo(k, jump)) && e.current.Some? && Ending(e)
    ensures Valid(OnRedo(e, k, jump)) && Ending(OnRedo(e, k, jump))
  {
    StepKeepsValid(e, Redo(k, jump));
    var p := e.programs[e.current.value];
    assert CarriersTo(OnRedo(e, k, jump), p.address) <= CarriersTo(e, p.address);
    if CanJump(e, e.operations[k]) { assert k in CarriersTo(e, p.address); }
  }

  lemma DeliverKeepsInv(e: Engine, rs: seq<Return>)
    requires Inv(e) && Enabled(e, Deliver(rs))
    ensures Inv(OnDeliver(e, rs))
  {
    StepKeepsValid(e, Deliver(rs));
    if e.current.Some? && e.queue[0].to == CurrentAddress(e) {
      ResumeKeepsInv(e, rs);
    } else if e.current.Some? {
      var e' := OnDeliver(e, rs);
      var a := CurrentAddress(e).value;
      assert Hits(e', a) == Hits(e, a) && CarriersTo(e', a) == CarriersTo(e, a);
      hide InEntry, Between, Over;
      if Waiting(e) { assert Waiting(e'); } else if Notified(e) { assert Notified(e'); } else { assert Ending(e'); }
    }
  }

  lemma ResumeKeepsInv(e: Engine, rs: seq<Return>)
    requires Inv(e) && Enabled(e, Deliver(rs)) && e.current.Some? && e.queue[0].to == CurrentAddress(e)
    ensures Inv(OnDeliver(e, rs))
  {
    StepKeepsValid(e, Deliver(rs));
    if OnDeliver(e, rs).current.Some? { ResumeWaits(e, rs); } else { ResumeCompletes(e, rs); }
  }

  lemma ResumeCompletes(e: Engine, rs: seq<Return>)
    requires Inv(e) && Enabled(e, Deliver(rs)) && e.current.Some? && e.queue[0].to == CurrentAddress(e)
    requires OnDeliver(e, rs).current.None?
    ensures CompletedWell(OnDeliver(e, rs))
  {
    var p := e.programs[e.current.value];
    var status := e.queue[0].status;
    assert First(e.queue, p.address) == Some(status) && Between(p, status);
    if status.Success? { RunEntriesKeeps(p, rs); } else { BetweenIsOver(p, status); }
    hide RunEntries, Over, Between, InEntry;
  }

  lemma ResumeWaits(e: Engine, rs: seq<Return>)
    requires Inv(e) && Enabled(e, Deliver(rs)) && e.current.Some? && e.queue[0].to == CurrentAddress(e)
    requires OnDeliver(e, rs).current.Some?
    ensures Inv(OnDeliver(e, rs))
  {
    StepKeepsValid(e, Deliver(rs));
    var e' := OnDeliver(e, rs);
    var p := e.programs[e.current.value];
    ResumedIssues(e.(queue := e.queue[1..]), e.queue[0].status, rs);
    RunEntriesKeeps(p, rs);
    NotOverYet(e, rs);
    Posted(e.queue[1..], e.queue[0], p.address);
    hide RunEntries, Over, Between, InEntry, Faithful;
    assert CompletedWell(e');
    assert Waiting(e');
  }

  /** A sequence that was over when it started does not run again. */
  lemma NotOverYet(e: Engine, rs: seq<Return>)
    requires Inv(e) && Enabled(e, Deliver(rs)) && e.current.Some? && e.queue[0].to == CurrentAddress(e)
    requires OnDeliver(e, rs).current.Some?
    ensures Notified(e)
  {
    hide Faithful;
  }

  lemma StepKeepsInv(e: Engine, s: Step)
    requires Inv(e) && Enabled(e, s) && Guarded(e, s)
    ensures Inv(Next(e, s))
  {
    match s
    case Start(a, size, rs) => StartKeepsInv(e, a, size, rs);
    case Callback(k, o) => CallbackKeepsInv(e, k, o);
    case Redo(k, jump) => RedoKeepsInv(e, k, jump);
    case Deliver(rs) => DeliverKeepsInv(e, rs);
  }

  lemma {:induction false} RunKeepsInv(e: Engine, ss: seq<Step>)
    requires Inv(e) && Possible(e, ss) && GuardedRun(e, ss)
    ensures Inv(Run(e, ss))
    decreases |ss|
  {
    if ss != [] {
      StepKeepsInv(e, ss[0]);
      RunKeepsInv(Next(e, ss[0]), ss[1..]);
    }
  }

  /** Asynchrony is transparent.  Over every run in which no start is spoilable, whatever
      returned at once and whatever was pending, and whatever was overridden meanwhile: a
      sequence calls its completion step at most once, and then with the status that its
      outcomes mean, having executed exactly the entries that its outcomes mean. */
  lemma CompletesAsItMeans(ss: seq<Step>)
    requires Possible(INITIAL, ss) && GuardedRun(INITIAL, ss)
    ensures CompletedWell(Run(INITIAL, ss))
  {
    RunKeepsInv(INITIAL, ss);
  }

  lemma {:induction false} RunSnoc(e: Engine, ss: seq<Step>, s: Step)
    requires Possible(e, ss) && Enabled(Run(e, ss), s)
    ensures Possible(e, ss + [s]) && Run(e, ss + [s]) == Next(Run(e, ss), s)
    ensures FreshStarts(e, ss + [s]) <==> FreshStarts(e, ss) && (s.Start? ==> Fresh(Run(e, ss), s.address))
    ensures GuardedRun(e, ss + [s]) <==> GuardedRun(e, ss) && Guarded(Run(e, ss), s)
    decreases |ss|
  {
    hide Fresh, Spoilable;
    if ss == [] {
      StepKeepsValid(e, s);
      assert [] + [s] == [s] && [s][1..] == [];
    } else {
      RunSnoc(Next(e, ss[0]), ss[1..], s);
      assert (ss + [s])[1..] == ss[1..] + [s];
    }
  }

  // ---------- every excluded start can go wrong ----------

  ghost predicate NoStart(ss: seq<Step>) {
    forall i :: 0 <= i < |ss| ==> !ss[i].Start?
  }

  /** Without another start, the current sequence can call its completion step with an entry
      of its own not ended, or with a status that its outcomes do not mean. */
  ghost predicate Misleads(e: Engine, id: Id, ss: seq<Step>) {
    && NoStart(ss) && Possible(e, ss)
    && var r := Run(e, ss);
    && id < |r.programs| && r.completed != []
    && var last := r.completed[|r.completed| - 1];
    last.id == id && !Over(r.programs[id], last.status)
  }

  ghost predicate CanMislead(e: Engine, id: Id) {
    exists ss :: Misleads(e, id, ss)
  }

  lemma StepThenMisleads(e: Engine, id: Id, s: Step)
    requires Valid(e) && Enabled(e, s) && !s.Start? && CanMislead(Next(e, s), id)
    ensures CanMislead(e, id)
  {
    var ss :| Misleads(Next(e, s), id, ss);
    assert ([s] + ss)[1..] == ss;
    assert Misleads(e, id, [s] + ss);
  }

  /** What the entries return after a premature resume: the next one fails at once. */
  function NextFails(p: Program): (rs: seq<Return>) {
    if p.next < p.size then [Sync(Outcome(Stay, Failure(0)))] else []
  }

  /** Being resumed with `status` completes the sequence as it should not. */
  ghost predicate Spoils(p: Program, status: Status)
    requires p.next <= p.size
  {
    match status
    case Failure(_) => !Over(p, status)
    case Success =>
      var (q, r) := RunEntries(p, NextFails(p));
      r.Finished? && !Over(q, r.status)
  }

  lemma ResumeMisleads(e: Engine, status: Status)
    requires Valid(e) && e.current.Some? && e.queue != []
    requires e.queue[0] == Message(CurrentAddress(e), status) && Spoils(e.programs[e.current.value], status)
    ensures CanMislead(e, e.current.value)
  {
    var id := e.current.value;
    var p := e.programs[id];
    var s := Deliver(NextFails(p));
    assert Enabled(e, s);
    StepKeepsValid(e, s);
    var e' := Next(e, s);
    assert Possible(e', []) && Run(e', []) == e';
    assert Misleads(e', id, []);
    StepThenMisleads(e, id, s);
  }

  lemma {:induction false} OldestMessageMisleads(e: Engine)
    requires Valid(e) && e.current.Some? && First(e.queue, CurrentAddress(e).value).Some?
    requires Spoils(e.programs[e.current.value], First(e.queue, CurrentAddress(e).value).value)
    ensures CanMislead(e, e.current.value)
    decreases |e.queue|
  {
    if e.queue[0].to == CurrentAddress(e) {
      ResumeMisleads(e, e.queue[0].status);
    } else {
      var s := Deliver([]);
      StepKeepsValid(e, s);
      OldestMessageMisleads(Next(e, s));
      StepThenMisleads(e, e.current.value, s);
    }
  }

  /** A sequence with an entry in flight is spoiled by any resume. */
  lemma InEntrySpoils(p: Program, redone: Option<Jump>, status: Status)
    requires InEntry(p, redone) && p.next <= p.size
    ensures Spoils(p, status)
  {
    var p1 := p.(next := p.next + 1, entries := p.entries + [p.next]);
    if status.Success? && p.next < p.size {
      assert RunEntries(p, NextFails(p)).0 ==
             p1.(outcomes := p.outcomes + [Outcome(Stay, Failure(0))]);
    }
  }

  /** A sequence that is over is spoiled by another status. */
  lemma OverSpoils(p: Program, status: Status, other: Status)
    requires Over(p, status) && p.next == p.size && other != status
    ensures Spoils(p, other)
  {
  }

  /** It is spoiled by its own success once its index has been moved back. */
  lemma MovedBackSpoils(p: Program)
    requires Over(p, Success) && p.next < p.size
    ensures Spoils(p, Success)
  {
    var o := Outcome(Stay, Failure(0));
    MeaningSnoc(p.size, p.outcomes, o);
    assert RunEntries(p, NextFails(p)) ==
           (p.(next := p.next + 1, entries := p.entries + [p.next], outcomes := p.outcomes + [o]),
            Finished(Failure(0)));
  }

  /** An operation of an earlier sequence ends: its message reaches the current one. */
  lemma StaleCallbackPosts(e: Engine, k: nat, o: Outcome)
    requires Valid(e) && e.current.Some? && Enabled(e, Callback(k, o)) && e.operations[k].owner != e.current.value
    ensures var a := CurrentAddress(e).value;
            var e' := OnCallback(e, k, o);
            && Valid(e') && e'.current == e.current && CurrentAddress(e') == Some(a)
            && (k in Sure(e, a) ==> First(e'.queue, a).Some?)
            && (First(e.queue, a).Some? ==> First(e'.queue, a) == First(e.queue, a))
            && var p := e.programs[e.current.value];
            e'.programs[e.current.value] ==
              if k in CarriersTo(e, a) then p.(next := Moved(p.next, p.size, o.jump)) else p
  {
    StepKeepsValid(e, Callback(k, o));
    Posted(e.queue, Message(Target(e, e.operations[k]), o.status), CurrentAddress(e).value);
  }

  /** After a redo, should it take one, an operation of an earlier sequence reaches the
      current one with what it carries. */
  lemma SuspendedMisleads(e: Engine, k: nat)
    requires Valid(e) && e.current.Some? && InEntry(e.programs[e.current.value], None)
    requires k in Hits(e, CurrentAddress(e).value) && e.operations[k].owner != e.current.value
    ensures CanMislead(e, e.current.value)
  {
    if k in Sure(e, CurrentAddress(e).value) {
      StaleMisleads(e, k);
    } else {
      StepKeepsValid(e, Redo(k, Stay));
      RedoHits(e, k, Stay);
      StaleMisleads(OnRedo(e, k, Stay), k);
      StepThenMisleads(e, e.current.value, Redo(k, Stay));
    }
  }

  lemma StaleMisleads(e: Engine, k: nat)
    requires Valid(e) && e.current.Some? && InEntry(e.programs[e.current.value], None)
    requires k in Sure(e, CurrentAddress(e).value) && e.operations[k].owner != e.current.value
    ensures CanMislead(e, e.current.value)
  {
    var id := e.current.value;
    var redone := e.operations[k].redone;
    var o := Outcome(if redone.Some? then redone.value else Stay, Success);
    StaleCallbackPosts(e, k, o);
    var e' := OnCallback(e, k, o);
    InEntrySpoils(e'.programs[id], None, First(e'.queue, CurrentAddress(e).value).value);
    OldestMessageMisleads(e');
    StepThenMisleads(e, id, Callback(k, o));
  }

  lemma MoveBackMisleads(e: Engine, k: nat)
    requires Valid(e) && e.current.Some? && Over(e.programs[e.current.value], Success)
    requires 0 < e.programs[e.current.value].size == e.programs[e.current.value].next
    requires k in CarriersTo(e, CurrentAddress(e).value) && e.operations[k].owner != e.current.value
    requires First(e.queue, CurrentAddress(e).value) == Some(Success)
    ensures CanMislead(e, e.current.value)
  {
    var id := e.current.value;
    var o := Outcome(Repeat(1), Success);
    StaleCallbackPosts(e, k, o);
    var e' := OnCallback(e, k, o);
    MovedBackSpoils(e'.programs[id]);
    OldestMessageMisleads(e');
    StepThenMisleads(e, id, Callback(k, o));
  }

  /** The guard is exact.  In every reachable state, a spoilable start can be continued,
      with no other start, so that the very sequence it starts completes wrongly. */
  lemma SpoilableStartMisleads(ss: seq<Step>, a: Address, size: nat, rs: seq<Return>)
    requires Possible(INITIAL, ss) && Enabled(Run(INITIAL, ss), Start(a, size, rs))
    requires Spoilable(Run(INITIAL, ss), a, size, rs)
    ensures var e := Run(INITIAL, ss);
            CanMislead(OnStart(e, a, size, rs), |e.programs|)
  {
    StartMisleads(Run(INITIAL, ss), a, size, rs);
  }

  lemma StartMisleads(e: Engine, a: Address, size: nat, rs: seq<Return>)
    requires Valid(e) && Enabled(e, Start(a, size, rs)) && Spoilable(e, a, size, rs)
    ensures CanMislead(OnStart(e, a, size, rs), |e.programs|)
  {
    StepKeepsValid(e, Start(a, size, rs));
    match RunEntries(New(a, size), rs) {
      case (p, Suspended(_)) => SuspendedStartMisleads(e, a, size, rs);
      case (p, Finished(status)) => FinishedStartMisleads(e, a, size, rs);
    }
  }

  lemma SuspendedStartMisleads(e: Engine, a: Address, size: nat, rs: seq<Return>)
    requires Valid(e) && Enabled(e, Start(a, size, rs)) && Spoilable(e, a, size, rs)
    requires RunEntries(New(a, size), rs).1.Suspended?
    ensures CanMislead(OnStart(e, a, size, rs), |e.programs|)
  {
    var e' := OnStart(e, a, size, rs);
    StepKeepsValid(e, Start(a, size, rs));
    NewRuns(a, size, rs);
    Posted(e.queue, Message(None, Success), a);
    if CountTo(e.queue, a) > 0 {
      InEntrySpoils(RunEntries(New(a, size), rs).0, None, First(e.queue, a).value);
      OldestMessageMisleads(e');
    } else {
      var k :| k in Hits(e, a);
      assert k in Hits(e', a);
      hide RunEntries, InEntry;
      SuspendedMisleads(e', k);
    }
  }

  lemma FinishedStartMisleads(e: Engine, a: Address, size: nat, rs: seq<Return>)
    requires Valid(e) && Enabled(e, Start(a, size, rs)) && Spoilable(e, a, size, rs)
    requires RunEntries(New(a, size), rs).1.Finished?
    ensures CanMislead(OnStart(e, a, size, rs), |e.programs|)
  {
    var e' := OnStart(e, a, size, rs);
    StepKeepsValid(e, Start(a, size, rs));
    NewRuns(a, size, rs);
    var (p, r) := RunEntries(New(a, size), rs);
    Posted(e.queue, Message(Some(a), r.status), a);
    if First(e'.queue, a) != Some(r.status) {
      OverSpoils(p.(next := size), r.status, First(e'.queue, a).value);
      OldestMessageMisleads(e');
    } else {
      var k :| k in CarriersTo(e, a);
      assert k in CarriersTo(e', a);
      MoveBackMisleads(e', k);
    }
  }

  /** All three ways occur.  A suspended sequence is overridden by one that gets its address;
      and a sequence with an LLCP operation in flight, or with one that can be redone, is
      overridden at any address. */
  lemma SpoilableStartsAreReachable(a: Address, b: Address, call: Call)
    requires call == Carrying ==> a == b
    ensures var ss := [Start(a, 1, [Pending(call)])];
            && Possible(INITIAL, ss)
            && Enabled(Run(INITIAL, ss), Start(b, 1, [Pending(Carrying)]))
            && Spoilable(Run(INITIAL, ss), b, 1, [Pending(Carrying)])
  {
    var s := Start(a, 1, [Pending(call)]);
    var e := Next(INITIAL, s);
    StepKeepsValid(INITIAL, s);
    assert [s][1..] == [] && Possible(e, []) && Run(e, []) == e;
    assert 0 in Hits(e, b);
    assert RunEntries(New(b, 1), [Pending(Carrying)]).1 == Suspended(Carrying);
  }

  // ---------- the sequence object ----------

  /** RFInterface->CurrentSequence is the sequence at `a`. */
  predicate IsAt(current: Sequence?, a: Address) {
    current != null && current.address == a
  }

  class Sequence {
    const address: Address
    const size: nat
    var stepsNext: nat
    ghost var entries: seq<nat>
    ghost var outcomes: seq<Outcome>

    ghost predicate Valid()
      reads this
    {
      stepsNext <= size
    }

    ghost function State(): (p: Program)
      reads this
    {
      Program(address, size, stepsNext, entries, outcomes)
    }

    constructor (address: Address, size: nat)
      ensures Valid() && State() == New(address, size)
    {
      this.address, this.size := address, size;
      stepsNext, entries, outcomes := 0, [], [];
    }

    /** Refused unless this sequence is the current one and the index stays inside. */
    method SkipSteps(current: Sequence?, value: nat) returns (ok: bool)
      requires Valid()
      modifies this
      ensures ok <==> IsAt(current, address) && old(stepsNext) + value <= size
      ensures Valid() && State() == old(State()).(next := if ok then old(stepsNext) + value else old(stepsNext))
      ensures IsAt(current, address) ==> stepsNext == Moved(old(stepsNext), size, Skip(value))
    {
      if current == null || current.address != address {
        return false;
      }
      if stepsNext + value > size {
        return false;
      }
      stepsNext := stepsNext + value;
      ok := true;
    }

    method RepeatSteps(current: Sequence?, value: nat) returns (ok: bool)
      requires Valid()
      modifies this
      ensures ok <==> IsAt(current, address) && value <= old(stepsNext)
      ensures Valid() && State() == old(State()).(next := if ok then old(stepsNext) - value else old(stepsNext))
      ensures IsAt(current, address) ==> stepsNext == Moved(old(stepsNext), size, Repeat(value))
    {
      if current == null || current.address != address {
        return false;
      }
      if stepsNext < value {
        return false;
      }
      stepsNext := stepsNext - value;
      ok := true;
    }

    /** NfcCxSequenceRun; entry number k of this run returns `returned[k]`. */
    method Run(returned: seq<Return>) returns (result: Result)
      requires Valid()
      modifies this
      ensures Valid() && (State(), result) == RunEntries(old(State()), returned)
    {
      result := Finished(Success);
      var k := 0;
      while stepsNext < size
        invariant Valid() && 0 <= k <= |returned| && result == Finished(Success)
        invariant RunEntries(old(State()), returned) == RunEntries(State(), returned[k..])
        decreases |returned| - k
      {
        if k == |returned| {
          return Starved;
        }
        entries := entries + [stepsNext];
        stepsNext := stepsNext + 1;
        match returned[k] {
          case Pending(call) =>
            return Suspended(call);
          case Sync(o) =>
            match o.jump {
              case Skip(n) => var _ := SkipSteps(this, n);
              case Repeat(n) => var _ := RepeatSteps(this, n);
              case Stay =>
            }
            outcomes := outcomes + [o];
            if o.status != Success {
              return Finished(o.status);
            }
        }
        k := k + 1;
      }
    }
  }
}
