/** The state interface: one queue of events, one transition at a time, and the state handlers
    that start sequences.  Everything here but queueing and the callbacks of operations runs on
    the LibNfc thread, one message at a time. */
module StateInterface {
  import opened Options
  import opened Sequences

  // ---------- the tables ----------

  datatype State = Idle | Init | RfIdle | RfDiscovery | RfDiscovered | RfDataXchg | Recovery | Shutdown

  datatype Event =
    | Initialize | Deinitialize | ConfigDiscovery | StopDiscovery | Activate | DeactivateSleep
    | Configure | Exchange | SecureElement                        // user events
    | ReqCompleted | TimedOut | Recover | Discovered | Activated | Deactivated | ReqFailed
    | Invalid

  predicate IsUser(e: Event) {
    e in {Initialize, Deinitialize, ConfigDiscovery, StopDiscovery, Activate, DeactivateSleep,
          Configure, Exchange, SecureElement}
  }

  /** A table entry: a state, a connector that chooses one, or none. */
  datatype Target = To(state: State) | CheckDiscMode | CheckDeviceType | Nowhere

  /** g_NfcCxUsrEvent2StateMap. */
  function UserTarget(s: State, e: Event): (t: Target) {
    match s
    case Idle => if e == Initialize then To(Init) else Nowhere
    case Init => Nowhere
    case RfIdle =>
      (match e
       case Deinitialize => To(Shutdown)
       case ConfigDiscovery => CheckDiscMode
       case StopDiscovery => To(RfIdle)
       case Configure => To(RfIdle)
       case SecureElement => To(RfIdle)
       case _ => Nowhere)
    case RfDiscovery =>
      (match e
       case Deinitialize => To(Shutdown)
       case ConfigDiscovery => CheckDiscMode
       case StopDiscovery => To(RfIdle)
       case SecureElement => To(RfDiscovery)
       case _ => Nowhere)
    case RfDiscovered =>
      (match e
       case Deinitialize => To(Shutdown)
       case ConfigDiscovery => CheckDiscMode
       case StopDiscovery => To(RfIdle)
       case Activate => CheckDeviceType
       case SecureElement => To(RfDiscovered)
       case _ => Nowhere)
    case RfDataXchg =>
      (match e
       case Deinitialize => To(Shutdown)
       case ConfigDiscovery => CheckDiscMode
       case StopDiscovery => To(RfIdle)
       case DeactivateSleep => CheckDeviceType
       case Exchange => To(RfDataXchg)
       case SecureElement => To(RfDataXchg)
       case _ => Nowhere)
    case Recovery => if e == Deinitialize then To(Shutdown) else Nowhere
    case Shutdown => Nowhere
  }

  /** g_NfcCxIntEvent2StateMap. */
  function InternalTarget(s: State, e: Event): (t: Target) {
    match s
    case Idle => if e == ReqCompleted then To(Idle) else Nowhere
    case Init =>
      if e == ReqCompleted then To(RfIdle) else if e == TimedOut || e == ReqFailed then To(Shutdown) else Nowhere
    case RfIdle =>
      if e == ReqCompleted || e == ReqFailed then To(RfIdle)
      else if e == TimedOut || e == Recover then To(Recovery) else Nowhere
    case RfDiscovery =>
      if e == ReqCompleted || e == ReqFailed then To(RfDiscovery)
      else if e == TimedOut || e == Recover then To(Recovery)
      else if e == Discovered then To(RfDiscovered) else Nowhere
    case RfDiscovered =>
      if e == ReqCompleted then To(RfDiscovered)
      else if e == TimedOut || e == Recover then To(Recovery)
      else if e == Activated then To(RfDataXchg)
      else if e == Deactivated || e == ReqFailed then CheckDiscMode else Nowhere
    case RfDataXchg =>
      if e == ReqCompleted || e == ReqFailed then To(RfDataXchg)
      else if e == TimedOut || e == Recover then To(Recovery)
      else if e == Deactivated then CheckDiscMode else Nowhere
    case Recovery =>
      if e == ReqCompleted then CheckDiscMode else if e == TimedOut || e == ReqFailed then To(Idle) else Nowhere
    case Shutdown =>
      if e == ReqCompleted || e == ReqFailed then To(Idle) else if e == TimedOut then To(Shutdown) else Nowhere
  }

  /** g_NfcCxState2StateMap, behind the two connectors: whether discovery should be enabled,
      and whether a tag is present. */
  function Resolve(s: State, t: Target, discovery: bool, tag: bool): (r: Option<State>) {
    match t
    case To(state) => Some(state)
    case Nowhere => None
    case CheckDiscMode =>
      if s in {Idle, Init, Shutdown} then None else Some(if discovery then RfDiscovery else RfIdle)
    case CheckDeviceType =>
      if !tag then None
      else if s == RfDiscovered then Some(RfDataXchg)
      else if s == RfDataXchg then Some(RfDiscovered)
      else None
  }

  datatype Handler =
    | StateInitialize | StateShutdown | StateRecovery
    | StateRfIdle | StateRfDiscovery | StateRfDiscovered | StateRfDataXchg
    | RfIdle2RfDiscovery | RfDiscovery2RfIdle | RfDiscovery2RfDiscovered | RfDiscovered2RfDataXchg
    | RfDataXchg2RfDiscovered | RfActive2RfIdle | RfActive2RfDiscovery

  /** g_NfcCxStateHandlers. */
  function HandlerOf(s: State, t: State): (h: Option<Handler>) {
    match t
    case Idle => None
    case Init => if s == Idle then Some(StateInitialize) else None
    case RfIdle =>
      (match s
       case RfIdle => Some(StateRfIdle)
       case RfDiscovery => Some(RfDiscovery2RfIdle)
       case RfDiscovered => Some(RfActive2RfIdle)
       case RfDataXchg => Some(RfActive2RfIdle)
       case _ => None)
    case RfDiscovery =>
      (match s
       case RfIdle => Some(RfIdle2RfDiscovery)
       case RfDiscovery => Some(StateRfDiscovery)
       case RfDiscovered => Some(RfActive2RfDiscovery)
       case RfDataXchg => Some(RfActive2RfDiscovery)
       case Recovery => Some(RfIdle2RfDiscovery)
       case _ => None)
    case RfDiscovered =>
      (match s
       case RfDiscovery => Some(RfDiscovery2RfDiscovered)
       case RfDiscovered => Some(StateRfDiscovered)
       case RfDataXchg => Some(RfDataXchg2RfDiscovered)
       case _ => None)
    case RfDataXchg =>
      if s == RfDiscovered then Some(RfDiscovered2RfDataXchg)
      else if s == RfDataXchg then Some(StateRfDataXchg) else None
    case Recovery =>
      if s in {RfIdle, RfDiscovery, RfDiscovered, RfDataXchg} then Some(StateRecovery) else None
    case Shutdown => if s in {Idle, Shutdown} then None else Some(StateShutdown)
  }

  // ---------- completion steps ----------

  /** STATUS_LINK_FAILED. */
  const LINK_FAILED: Status := Failure(0xC000013E)

  /** The completion steps, by the events that they chain. */
  datatype Exit =
    | OrFail         // ReqCompleted or ReqFailed
    | OrRecover      // ReqCompleted, or Recover unless recovery is disabled
    | OrDeactivate   // ReqCompleted or Deactivated
    | OrLinkLost     // ReqCompleted, Deactivated when the link failed, or ReqFailed
    | UnlessLinkLost // ReqCompleted whatever the status, or Deactivated when the link failed
    | Activates      // Activated or Deactivated
    | Deactivates    // Deactivated

  function Chained(x: Exit, status: Status, recovery: bool): (e: Event) {
    match x
    case OrFail => if status.Success? then ReqCompleted else ReqFailed
    case OrRecover => if status.Success? then ReqCompleted else if recovery then Recover else ReqFailed
    case OrDeactivate => if status.Success? then ReqCompleted else Deactivated
    case OrLinkLost =>
      if status.Success? then ReqCompleted else if status == LINK_FAILED then Deactivated else ReqFailed
    case UnlessLinkLost => if status == LINK_FAILED then Deactivated else ReqCompleted
    case Activates => if status.Success? then Activated else Deactivated
    case Deactivates => Deactivated
  }

  /** What a state handler does: start a sequence, which is then pending, or end with a
      status, be it that there is nothing to do, a refusal, or that there is no memory. */
  datatype Action = Begin(exit: Exit, address: Address, size: nat, returned: seq<Return>) | Finish(status: Status)

  /** The completion steps that a handler passes to NfcCxSequenceStart. */
  function ExitsOf(h: Handler, e: Event): (xs: set<Exit>) {
    match h
    case StateInitialize => {OrFail}
    case StateShutdown => {OrFail}
    case StateRecovery => {OrFail}
    case StateRfIdle => if e in {Configure, SecureElement} then {OrFail} else {}
    case StateRfDiscovery => if e == ConfigDiscovery then {OrRecover} else {OrFail}
    case StateRfDiscovered => {OrFail}
    case StateRfDataXchg => if e == SecureElement then {OrFail} else {OrFail, OrLinkLost, OrDeactivate}
    case RfIdle2RfDiscovery => {OrRecover}
    case RfDiscovery2RfIdle => {OrRecover}
    case RfDiscovery2RfDiscovered => {OrDeactivate, Deactivates, Activates}
    case RfDiscovered2RfDataXchg => if IsUser(e) then {OrFail} else {OrDeactivate, UnlessLinkLost}
    case RfDataXchg2RfDiscovered => {OrFail}
    case RfActive2RfIdle => {OrRecover}
    case RfActive2RfDiscovery => {OrRecover}
  }

  /** The handlers that have cases in which there is nothing to do. */
  predicate CanSucceedAtOnce(h: Handler, e: Event) {
    match h
    case StateRfIdle => e in {ConfigDiscovery, StopDiscovery}
    case StateRfDiscovery => e == ConfigDiscovery
    case RfDiscovery2RfDiscovered => true
    case RfDiscovered2RfDataXchg => !IsUser(e)
    case RfActive2RfDiscovery => true
    case _ => false
  }

  predicate CanTake(h: Handler, e: Event, a: Action) {
    match a
    case Begin(x, _, _, _) => x in ExitsOf(h, e)
    case Finish(status) => status.Success? ==> CanSucceedAtOnce(h, e)
  }

  // ---------- the machine ----------

  datatype Transition = AtRest | UserRunning | InternalRunning

  /** `posted` counts the messages that ask to process the next queued event; `chained` are
      those that carry a chained event.  `exit` is the completion step of the sequence started
      last.  The last five fields are histories: the events queued and taken, the one taken
      last, the user events reported complete, and the events chained for nothing. */
  datatype Machine = Machine(
    engine: Engine, state: State, transition: Transition, inHandler: bool,
    pending: seq<Event>, posted: nat, chained: seq<Event>, exit: Exit,
    queued: seq<Event>, taken: seq<Event>, completed: seq<Event>, refused: seq<Event>)

  const START: Machine :=
    Machine(INITIAL, Idle, AtRest, false, [], 0, [], OrFail, [], [], [], [])

  /** What the environment decides for the one handler that a message can lead to. */
  datatype Env = Env(discovery: bool, tag: bool, recovery: bool, action: Action)

  function TargetOf(s: State, e: Event, env: Env): (t: Option<State>) {
    Resolve(s, if e == Invalid then Nowhere else if IsUser(e) then UserTarget(s, e) else InternalTarget(s, e),
            env.discovery, env.tag)
  }

  /** The handler that an event leads to: an internal event leaves a state alone that is
      already right, a user event does not. */
  function Called(s: State, e: Event, env: Env): (h: Option<Handler>) {
    match TargetOf(s, e, env)
    case None => None
    case Some(t) => if IsUser(e) || t != s then HandlerOf(s, t) else None
  }

  /** STATUS_INVALID_PARAMETER and STATUS_INVALID_DEVICE_STATE. */
  function RefusalOf(e: Event): (status: Status) {
    if e == Invalid then Failure(0xC000000D) else Failure(0xC0000184)
  }

  /** What a handler, should there be one, does; no status stands for PENDING. */
  ghost function HandlerRun(m: Machine, h: Option<Handler>, env: Env): (r: (Machine, Option<Status>)) {
    if h.None? then (m, Some(Success))
    else
      match env.action
      case Begin(x, a, size, rs) => (m.(engine := OnStart(m.engine, a, size, rs), exit := x), None)
      case Finish(status) => (m, Some(status))
  }

  /** NfcCxStateInterfaceStateHandler. */
  ghost function StateHandler(m: Machine, e: Event, env: Env): (r: (Machine, Option<Status>)) {
    match TargetOf(m.state, e, env)
    case None => (m, Some(RefusalOf(e)))
    case Some(t) =>
      var (m1, status) := HandlerRun(m, Called(m.state, e, env), env);
      (m1.(state := t), status)
  }

  /** The end of a transition: a user event is reported, and the next event asked for. */
  function Rested(m: Machine): (r: Machine) {
    m.(completed := if m.transition == UserRunning && m.taken != [] then m.completed + [m.taken[|m.taken| - 1]]
                    else m.completed,
       transition := AtRest,
       posted := if m.pending != [] then m.posted + 1 else m.posted)
  }

  /** NfcCxStateInterfaceEventProcess. */
  ghost function EventProcess(m: Machine, e: Event, env: Env): (r: Machine) {
    var (m1, status) := StateHandler(m.(inHandler := true), e, env);
    var m2 := m1.(inHandler := false);
    if status.None? then m2 else Rested(m2)
  }

  /** NfcCxStateInterfaceProcessNextQueuedEvent. */
  ghost function ProcessNext(m: Machine, env: Env): (r: Machine) {
    if m.transition != AtRest || m.pending == [] then m
    else
      var e := m.pending[0];
      EventProcess(m.(pending := m.pending[1..], taken := m.taken + [e],
                      transition := if IsUser(e) then UserRunning else InternalRunning), e, env)
  }

  /** NfcCxStateInterfaceChainEvent. */
  ghost function ChainEvent(m: Machine, e: Event, env: Env): (r: Machine) {
    if m.transition == AtRest then m.(refused := m.refused + [e])
    else if m.inHandler then m.(chained := m.chained + [e])
    else EventProcess(m, e, env)
  }

  datatype Move =
    | Queue(event: Event)                           // on any thread
    | Process(env: Env)
    | Chain(env: Env)
    | Resume(returned: seq<Return>, env: Env)
    | Call(operation: nat, outcome: Outcome)        // an operation ends
    | CallRedo(operation: nat, jump: Jump)

  /** What is queued: user operations, what the controller notifies, and recovery. */
  predicate IsQueueable(e: Event) {
    IsUser(e) || e in {Discovered, Activated, Deactivated, Recover, Invalid}
  }

  /** The oldest resume completes the current sequence, and with which status. */
  ghost function CompletionOf(e: Engine, rs: seq<Return>): (status: Option<Status>)
    requires Valid(e) && Enabled(e, Deliver(rs))
  {
    var e' := OnDeliver(e, rs);
    if e.current.Some? && e'.current.None? && e'.completed != [] then Some(e'.completed[|e'.completed| - 1].status)
    else None
  }

  /** The event that a message leads to, if it does, and the machine that it then finds. */
  ghost function Handled(m: Machine, v: Move): (r: Option<(Machine, Event)>)
    requires Valid(m.engine)
  {
    match v
    case Process(_) =>
      if m.transition != AtRest || m.pending == [] || m.posted == 0 then None
      else
        var e := m.pending[0];
        Some((m.(posted := m.posted - 1, pending := m.pending[1..], taken := m.taken + [e],
                 transition := if IsUser(e) then UserRunning else InternalRunning), e))
    case Chain(_) =>
      if m.transition == AtRest || m.inHandler || m.chained == [] then None
      else Some((m.(chained := m.chained[1..]), m.chained[0]))
    case Resume(rs, env) =>
      if m.transition == AtRest || m.inHandler || !Enabled(m.engine, Deliver(rs)) then None
      else
        (match CompletionOf(m.engine, rs)
         case None => None
         case Some(status) =>
           Some((m.(engine := OnDeliver(m.engine, rs)), Chained(m.exit, status, env.recovery))))
    case _ => None
  }

  /** The action of the environment is one of the handler's that the event leads to. */
  ghost predicate FitsEvent(m: Machine, e: Event, env: Env) {
    Called(m.state, e, env).Some? ==>
      && CanTake(Called(m.state, e, env).value, e, env.action)
      && (env.action.Begin? ==>
            RunEntries(New(env.action.address, env.action.size), env.action.returned).1 != Starved)
  }

  ghost predicate Fits(m: Machine, v: Move, env: Env)
    requires Valid(m.engine)
  {
    var h := Handled(m, v);
    h.Some? ==> FitsEvent(h.value.0, h.value.1, env)
  }

  ghost predicate CanMove(m: Machine, v: Move)
    requires Valid(m.engine)
  {
    match v
    case Queue(e) => IsQueueable(e)
    case Process(env) => m.posted > 0 && Fits(m, v, env)
    case Chain(env) => m.chained != [] && Fits(m, v, env)
    case Resume(rs, env) => Enabled(m.engine, Deliver(rs)) && Fits(m, v, env)
    case Call(k, o) => Enabled(m.engine, Callback(k, o))
    case CallRedo(k, jump) => Enabled(m.engine, Redo(k, jump))
  }

  ghost function AfterMove(m: Machine, v: Move): (r: Machine)
    requires Valid(m.engine) && CanMove(m, v)
  {
    match v
    case Queue(e) => m.(pending := m.pending + [e], queued := m.queued + [e], posted := m.posted + 1)
    case Process(env) => ProcessNext(m.(posted := m.posted - 1), env)
    case Chain(env) => ChainEvent(m.(chained := m.chained[1..]), m.chained[0], env)
    case Resume(rs, env) =>
      var m1 := m.(engine := OnDeliver(m.engine, rs));
      (match CompletionOf(m.engine, rs)
       case None => m1
       case Some(status) => ChainEvent(m1, Chained(m.exit, status, env.recovery), env))
    case Call(k, o) => m.(engine := OnCallback(m.engine, k, o))
    case CallRedo(k, jump) => m.(engine := OnRedo(m.engine, k, jump))
  }

  ghost predicate IsRun(m: Machine, vs: seq<Move>)
    decreases |vs|
  {
    Valid(m.engine) && (vs == [] || (CanMove(m, vs[0]) && IsRun(AfterMove(m, vs[0]), vs[1..])))
  }

  ghost function After(m: Machine, vs: seq<Move>): (r: Machine)
    requires IsRun(m, vs)
    ensures Valid(r.engine)
    decreases |vs|
  {
    if vs == [] then m else After(AfterMove(m, vs[0]), vs[1..])
  }

  // ---------- one sequence at a time ----------

  /** No sequence, nothing in flight, no resume queued. */
  ghost predicate IsQuiet(e: Engine) {
    Valid(e) && e.current.None? && e.operations == map[] && e.queue == []
  }

  /** Either quiet, or all there is is the one thing that will resume the current sequence. */
  ghost predicate IsExclusive(e: Engine) {
    && Valid(e)
    && if e.current.None? then IsQuiet(e)
       else
         || (e.queue == [] && exists k: nat :: IsOwn(e, k) && e.operations.Keys == {k})
         || (e.operations == map[] && |e.queue| == 1 && e.queue[0].to == CurrentAddress(e))
  }

  lemma QuietIsFresh(e: Engine, a: Address, size: nat, rs: seq<Return>)
    requires IsQuiet(e)
    ensures Fresh(e, a) && !Spoilable(e, a, size, rs)
  {
    hide RunEntries;
  }

  lemma StartIsExclusive(e: Engine, a: Address, size: nat, rs: seq<Return>)
    requires IsQuiet(e) && Enabled(e, Start(a, size, rs))
    ensures IsExclusive(OnStart(e, a, size, rs)) && OnStart(e, a, size, rs).current.Some?
  {
    StepKeepsValid(e, Start(a, size, rs));
    hide RunEntries;
    var e' := OnStart(e, a, size, rs);
    if RunEntries(New(a, size), rs).1.Suspended? {
      assert IsOwn(e', e.issued) && e'.operations.Keys == {e.issued};
    }
  }

  lemma CallbackIsExclusive(e: Engine, k: nat, o: Outcome)
    requires IsExclusive(e) && Enabled(e, Callback(k, o))
    ensures IsExclusive(OnCallback(e, k, o)) && OnCallback(e, k, o).current == e.current
  {
    StepKeepsValid(e, Callback(k, o));
    assert e.operations.Keys == {k} && IsOwn(e, k);
    assert (e.operations - {k}).Keys == {};
  }

  lemma RedoIsExclusive(e: Engine, k: nat, jump: Jump)
    requires IsExclusive(e) && Enabled(e, Redo(k, jump))
    ensures IsExclusive(OnRedo(e, k, jump)) && OnRedo(e, k, jump).current == e.current
  {
    StepKeepsValid(e, Redo(k, jump));
    assert e.operations.Keys == {k} && IsOwn(e, k);
    var e' := OnRedo(e, k, jump);
    assert e'.operations.Keys == {k} && IsOwn(e', k);
  }

  lemma DeliverIsExclusive(e: Engine, rs: seq<Return>)
    requires IsExclusive(e) && Enabled(e, Deliver(rs))
    ensures IsExclusive(OnDeliver(e, rs)) && e.current.Some?
    ensures CompletionOf(e, rs).None? <==> OnDeliver(e, rs).current.Some?
  {
    StepKeepsValid(e, Deliver(rs));
    var e' := OnDeliver(e, rs);
    assert e.operations == map[] && e.queue[1..] == [];
    if e'.current.Some? {
      ResumedIssues(e.(queue := e.queue[1..]), e.queue[0].status, rs);
      hide RunEntries;
      assert IsOwn(e', e.issued) && e'.operations.Keys == {e.issued};
    }
  }

  // ---------- what is chained is accepted ----------

  /** The completion steps of the sequences that run in a state. */
  function ExitsIn(s: State): (xs: set<Exit>) {
    match s
    case Idle => {}
    case Init => {OrFail}
    case RfIdle => {OrFail, OrRecover}
    case RfDiscovery => {OrFail, OrRecover}
    case RfDiscovered => {OrFail, OrDeactivate, Activates, Deactivates}
    case RfDataXchg => {OrFail, OrDeactivate, OrLinkLost, UnlessLinkLost}
    case Recovery => {OrFail}
    case Shutdown => {OrFail}
  }

  lemma HandlerExits(s: State, t: State, e: Event)
    requires HandlerOf(s, t).Some?
    ensures ExitsOf(HandlerOf(s, t).value, e) <= ExitsIn(t)
  {
  }

  /** Every event that a completion step chains has a target in the state it finds. */
  lemma ChainedIsAccepted(s: State, x: Exit, status: Status, env: Env)
    requires x in ExitsIn(s)
    ensures TargetOf(s, Chained(x, status, env.recovery), env).Some?
    ensures !IsUser(Chained(x, status, env.recovery))
  {
  }

  // ---------- what every run keeps ----------

  ghost function UserEvents(es: seq<Event>): (us: seq<Event>) {
    if es == [] then []
    else UserEvents(es[..|es| - 1]) + (if IsUser(es[|es| - 1]) then [es[|es| - 1]] else [])
  }

  lemma UserEventsSnoc(es: seq<Event>, e: Event)
    ensures UserEvents(es + [e]) == UserEvents(es) + (if IsUser(e) then [e] else [])
  {
    assert (es + [e])[..|es|] == es;
  }

  /** Where the engine and the transition stand. */
  ghost predicate RunsOne(m: Machine) {
    && IsExclusive(m.engine) && !m.inHandler && m.chained == [] && m.refused == []
    && (m.transition == AtRest <==> m.engine.current.None?)
    && (m.transition != AtRest ==> m.exit in ExitsIn(m.state))
  }

  /** Where the events stand. */
  ghost predicate KeepsEvents(m: Machine) {
    && m.queued == m.taken + m.pending
    && (m.transition != AtRest ==>
          m.taken != [] && (m.transition == UserRunning <==> IsUser(m.taken[|m.taken| - 1])))
    && UserEvents(m.taken)
       == m.completed + (if m.transition == UserRunning then [m.taken[|m.taken| - 1]] else [])
    && (m.pending != [] && m.transition == AtRest ==> m.posted > 0)
  }

  ghost predicate MachineInv(m: Machine) {
    RunsOne(m) && KeepsEvents(m)
  }

  /** About to process an event: a transition runs, and no sequence. */
  ghost predicate IsReady(m: Machine) {
    && IsQuiet(m.engine) && !m.inHandler && m.chained == [] && m.refused == []
    && m.transition != AtRest && KeepsEvents(m)
  }

  ghost predicate Starts(m: Machine, e: Event, env: Env) {
    Called(m.state, e, env).Some? && env.action.Begin?
  }

  lemma EventProcessKeeps(m: Machine, e: Event, env: Env)
    requires IsReady(m) && FitsEvent(m, e, env)
    ensures MachineInv(EventProcess(m, e, env))
    ensures EventProcess(m, e, env).engine ==
            if Starts(m, e, env) then OnStart(m.engine, env.action.address, env.action.size, env.action.returned)
            else m.engine
  {
    hide TargetOf, HandlerOf, ExitsIn, ExitsOf, UserEvents, IsOwn, RunEntries;
    if Starts(m, e, env) {
      HandlerExits(m.state, TargetOf(m.state, e, env).value, e);
      StartIsExclusive(m.engine, env.action.address, env.action.size, env.action.returned);
      hide OnStart;
    }
  }

  /** Each message either leads to an event, which it processes with nothing running, or
      keeps everything as it must be. */
  lemma HandledIsReady(m: Machine, v: Move)
    requires MachineInv(m) && CanMove(m, v) && (v.Process? || v.Resume?)
    ensures var h := Handled(m, v);
            if h.Some? then
              && IsReady(h.value.0) && FitsEvent(h.value.0, h.value.1, v.env)
              && AfterMove(m, v) == EventProcess(h.value.0, h.value.1, v.env)
            else MachineInv(AfterMove(m, v))
  {
    hide HandlerOf, TargetOf, ExitsIn, EventProcess;
    if v.Process? { ProcessIsReady(m, v.env); } else { DeliverIsExclusive(m.engine, v.returned); }
  }

  lemma ProcessIsReady(m: Machine, env: Env)
    requires MachineInv(m) && CanMove(m, Process(env))
    ensures var h := Handled(m, Process(env));
            if h.Some? then
              && IsReady(h.value.0) && FitsEvent(h.value.0, h.value.1, env)
              && AfterMove(m, Process(env)) == EventProcess(h.value.0, h.value.1, env)
            else MachineInv(AfterMove(m, Process(env)))
  {
    hide HandlerOf, TargetOf, ExitsIn, EventProcess, FitsEvent, UserEvents, IsOwn;
    if m.pending != [] {
      UserEventsSnoc(m.taken, m.pending[0]);
      assert m.taken + [m.pending[0]] + m.pending[1..] == m.taken + m.pending;
    }
  }

  lemma MoveKeepsInv(m: Machine, v: Move)
    requires MachineInv(m) && CanMove(m, v)
    ensures MachineInv(AfterMove(m, v))
  {
    hide HandlerOf, TargetOf, ExitsIn, EventProcess;
    match v
    case Queue(e) => assert m.taken + m.pending + [e] == m.taken + (m.pending + [e]);
    case Process(env) => MessageKeepsInv(m, v);
    case Resume(rs, env) => MessageKeepsInv(m, v);
    case Call(k, o) => CallbackIsExclusive(m.engine, k, o);
    case CallRedo(k, jump) => RedoIsExclusive(m.engine, k, jump);
    case Chain(_) =>
  }

  lemma MessageKeepsInv(m: Machine, v: Move)
    requires MachineInv(m) && CanMove(m, v) && (v.Process? || v.Resume?)
    ensures MachineInv(AfterMove(m, v))
  {
    HandledIsReady(m, v);
    var h := Handled(m, v);
    if h.Some? { EventProcessKeeps(h.value.0, h.value.1, v.env); }
  }

  lemma {:induction false} RunKeepsInv(m: Machine, vs: seq<Move>)
    requires MachineInv(m) && IsRun(m, vs)
    ensures MachineInv(After(m, vs))
    decreases |vs|
  {
    if vs != [] {
      MoveKeepsInv(m, vs[0]);
      RunKeepsInv(AfterMove(m, vs[0]), vs[1..]);
    }
  }

  // ---------- what the engine is used for ----------

  /** The engine that a move starts a sequence on, if it does. */
  ghost function StartedOn(m: Machine, v: Move): (e: Option<Engine>)
    requires Valid(m.engine)
  {
    var h := Handled(m, v);
    if h.Some? && (v.Process? || v.Chain? || v.Resume?) && Starts(h.value.0, h.value.1, v.env)
    then Some(h.value.0.engine) else None
  }

  /** Over every run of the state interface, each sequence is started when there is no
      current one, no operation is in flight and no resume is queued. */
  lemma EveryStartIsQuiet(vs: seq<Move>, v: Move)
    requires IsRun(START, vs) && CanMove(After(START, vs), v)
    ensures var e := StartedOn(After(START, vs), v); e.Some? ==> IsQuiet(e.value)
  {
    RunKeepsInv(START, vs);
    if v.Process? || v.Resume? { HandledIsReady(After(START, vs), v); }
  }

  /** The engine is in a state that fresh and unspoilable starts alone lead to. */
  ghost predicate IsWellUsed(e: Engine) {
    exists ss :: UsesWell(ss, e)
  }

  ghost predicate UsesWell(ss: seq<Sequences.Step>, e: Engine) {
    Possible(INITIAL, ss) && FreshStarts(INITIAL, ss) && GuardedRun(INITIAL, ss) && Run(INITIAL, ss) == e
  }

  lemma WellUsedStep(e: Engine, s: Sequences.Step)
    requires IsWellUsed(e) && Valid(e) && Enabled(e, s) && (s.Start? ==> IsQuiet(e))
    ensures IsWellUsed(Sequences.Next(e, s))
  {
    var ss :| UsesWell(ss, e);
    if s.Start? { QuietIsFresh(e, s.address, s.size, s.returned); }
    RunSnoc(INITIAL, ss, s);
    assert UsesWell(ss + [s], Sequences.Next(e, s));
  }

  lemma MoveUsesWell(m: Machine, v: Move)
    requires MachineInv(m) && CanMove(m, v) && IsWellUsed(m.engine)
    ensures IsWellUsed(AfterMove(m, v).engine)
  {
    hide IsWellUsed, HandlerOf, TargetOf, ExitsIn;
    match v
    case Queue(e) =>
    case Process(_) => MessageUsesWell(m, v);
    case Resume(_, _) => MessageUsesWell(m, v);
    case Call(k, o) => WellUsedStep(m.engine, Callback(k, o));
    case CallRedo(k, jump) => WellUsedStep(m.engine, Redo(k, jump));
    case Chain(_) =>
  }

  lemma MessageUsesWell(m: Machine, v: Move)
    requires MachineInv(m) && CanMove(m, v) && IsWellUsed(m.engine) && (v.Process? || v.Resume?)
    ensures IsWellUsed(AfterMove(m, v).engine)
  {
    hide IsWellUsed, HandlerOf, TargetOf, ExitsIn, EventProcess;
    HandledIsReady(m, v);
    if v.Resume? { WellUsedStep(m.engine, Deliver(v.returned)); }
    var h := Handled(m, v);
    if h.Some? {
      var (m1, e) := h.value;
      EventProcessKeeps(m1, e, v.env);
      if Starts(m1, e, v.env) {
        var a := v.env.action;
        WellUsedStep(m1.engine, Start(a.address, a.size, a.returned));
      }
    }
  }

  lemma {:induction false} RunUsesWell(m: Machine, vs: seq<Move>)
    requires MachineInv(m) && IsRun(m, vs) && IsWellUsed(m.engine)
    ensures IsWellUsed(After(m, vs).engine)
    decreases |vs|
  {
    if vs != [] {
      MoveKeepsInv(m, vs[0]);
      MoveUsesWell(m, vs[0]);
      RunUsesWell(AfterMove(m, vs[0]), vs[1..]);
    }
  }

  /** So for the program asynchrony is transparent without condition: over every run each
      sequence completes at most once and as it means, and the current one is always resumed
      by exactly one thing, and nothing else can resume it. */
  lemma SequencesRunAsTheyMean(vs: seq<Move>)
    requires IsRun(START, vs)
    ensures var e := After(START, vs).engine;
            && CompletedWell(e)
            && (e.current.Some? ==> IsResumedOnce(e, CurrentAddress(e).value))
  {
    assert UsesWell([], INITIAL);
    RunUsesWell(START, vs);
    var ss :| UsesWell(ss, After(START, vs).engine);
    CompletesAsItMeans(ss);
    CurrentIsNeverStuck(ss);
  }

  // ---------- transitions and events ----------

  /** Over every run: a transition is in progress exactly while a sequence is current; no
      completion step finds none in progress, or is called within a state handler, so the
      message for a chained event is never posted; and the event that the current sequence
      will chain has a target, whatever its status will be. */
  lemma TransitionsAreSequences(vs: seq<Move>, status: Status, env: Env)
    requires IsRun(START, vs)
    ensures var m := After(START, vs);
            && (m.transition == AtRest <==> m.engine.current.None?)
            && m.refused == [] && m.chained == [] && !m.inHandler
            && (m.transition != AtRest ==> TargetOf(m.state, Chained(m.exit, status, env.recovery), env).Some?)
  {
    RunKeepsInv(START, vs);
    var m := After(START, vs);
    if m.transition != AtRest { ChainedIsAccepted(m.state, m.exit, status, env); }
  }

  /** Events are taken in the order in which they were queued, and each user event is
      reported complete once, in order, the one that is running not yet.  While an event
      waits, a transition is in progress or a message to process it is posted. */
  lemma EventsAreTakenInOrder(vs: seq<Move>)
    requires IsRun(START, vs)
    ensures var m := After(START, vs);
            && m.queued == m.taken + m.pending
            && (m.transition == UserRunning ==> m.taken != [])
            && UserEvents(m.taken)
               == m.completed + (if m.transition == UserRunning then [m.taken[|m.taken| - 1]] else [])
            && (m.pending != [] ==> m.transition != AtRest || m.posted > 0)
  {
    RunKeepsInv(START, vs);
  }

  // ---------- where each event leads ----------

  /** A connection with something in the field, discovered or active. */
  predicate IsActive(s: State) {
    s == RfDiscovered || s == RfDataXchg
  }

  predicate IsRf(s: State) {
    s in {RfIdle, RfDiscovery, RfDiscovered, RfDataXchg}
  }

  /** Polling, when the power policy wants it. */
  function Polling(discovery: bool): (s: State) {
    if discovery then RfDiscovery else RfIdle
  }

  /** What each event is for, event by event: in which states it is accepted, and where it
      leads from there. */
  function Purpose(e: Event, s: State, discovery: bool, tag: bool): (t: Option<State>) {
    match e
    case Initialize => if s == Idle then Some(Init) else None
    case Deinitialize => if IsRf(s) || s == Recovery then Some(Shutdown) else None
    case ConfigDiscovery => if IsRf(s) then Some(Polling(discovery)) else None
    case StopDiscovery => if IsRf(s) then Some(RfIdle) else None
    case Activate => if s == RfDiscovered && tag then Some(RfDataXchg) else None
    case DeactivateSleep => if s == RfDataXchg && tag then Some(RfDiscovered) else None
    case Configure => if s == RfIdle then Some(s) else None
    case Exchange => if s == RfDataXchg then Some(s) else None
    case SecureElement => if IsRf(s) then Some(s) else None
    case Discovered => if s == RfDiscovery then Some(RfDiscovered) else None
    case Activated => if s == RfDiscovered then Some(RfDataXchg) else None
    case Deactivated => if IsActive(s) then Some(Polling(discovery)) else None
    case Recover => if IsRf(s) then Some(Recovery) else None
    case ReqCompleted =>
      if s == Init then Some(RfIdle)
      else if s == Shutdown then Some(Idle)
      else if s == Recovery then Some(Polling(discovery))
      else Some(s)
    case ReqFailed =>
      if s == Idle then None
      else if s == Init then Some(Shutdown)
      else if s == Shutdown || s == Recovery then Some(Idle)
      else if s == RfDiscovered then Some(Polling(discovery))
      else Some(s)
    case TimedOut =>
      if s == Idle then None
      else if s == Init || s == Shutdown then Some(Shutdown)
      else if s == Recovery then Some(Idle)
      else Some(Recovery)
    case Invalid => None
  }

  /** The handler for a transition, by its two states. */
  predicate Handles(h: Handler, s: State, t: State) {
    match h
    case StateInitialize => s == Idle && t == Init
    case StateShutdown => s !in {Idle, Shutdown} && t == Shutdown
    case StateRecovery => IsRf(s) && t == Recovery
    case StateRfIdle => s == RfIdle && t == RfIdle
    case StateRfDiscovery => s == RfDiscovery && t == RfDiscovery
    case StateRfDiscovered => s == RfDiscovered && t == RfDiscovered
    case StateRfDataXchg => s == RfDataXchg && t == RfDataXchg
    case RfIdle2RfDiscovery => (s == RfIdle || s == Recovery) && t == RfDiscovery
    case RfDiscovery2RfIdle => s == RfDiscovery && t == RfIdle
    case RfDiscovery2RfDiscovered => s == RfDiscovery && t == RfDiscovered
    case RfDiscovered2RfDataXchg => s == RfDiscovered && t == RfDataXchg
    case RfDataXchg2RfDiscovered => s == RfDataXchg && t == RfDiscovered
    case RfActive2RfIdle => IsActive(s) && t == RfIdle
    case RfActive2RfDiscovery => IsActive(s) && t == RfDiscovery
  }

  /** Which handlers give a sequence which completion step, by the step. */
  predicate Uses(x: Exit, h: Handler, e: Event) {
    match x
    case OrFail =>
      || h in {StateInitialize, StateShutdown, StateRecovery, StateRfDiscovered, StateRfDataXchg,
               RfDataXchg2RfDiscovered}
      || (h == StateRfIdle && (e == Configure || e == SecureElement))
      || (h == StateRfDiscovery && e != ConfigDiscovery)
      || (h == RfDiscovered2RfDataXchg && IsUser(e))
    case OrRecover =>
      || h in {RfIdle2RfDiscovery, RfDiscovery2RfIdle, RfActive2RfIdle, RfActive2RfDiscovery}
      || (h == StateRfDiscovery && e == ConfigDiscovery)
    case OrDeactivate =>
      || h == RfDiscovery2RfDiscovered
      || (h == StateRfDataXchg && e != SecureElement)
      || (h == RfDiscovered2RfDataXchg && !IsUser(e))
    case OrLinkLost => h == StateRfDataXchg && e != SecureElement
    case UnlessLinkLost => h == RfDiscovered2RfDataXchg && !IsUser(e)
    case Activates => h == RfDiscovery2RfDiscovered
    case Deactivates => h == RfDiscovery2RfDiscovered
  }

  lemma ExitsServePurpose(h: Handler, e: Event, x: Exit)
    ensures x in ExitsOf(h, e) <==> Uses(x, h, e)
  {
  }

  lemma TablesServePurpose(s: State, e: Event, env: Env)
    ensures TargetOf(s, e, env) == Purpose(e, s, env.discovery, env.tag)
  {
  }

  /** The handler table has each handler where its states are, and nowhere else. */
  lemma HandlersServeStates(s: State, t: State, h: Handler)
    ensures HandlerOf(s, t) == Some(h) <==> Handles(h, s, t)
  {
  }

  lemma EventLeads(m: Machine, e: Event, env: Env)
    ensures EventProcess(m, e, env).state ==
            match Purpose(e, m.state, env.discovery, env.tag)
            case None => m.state
            case Some(t) => t
  {
    TablesServePurpose(m.state, e, env);
    hide TargetOf, Called, Purpose;
  }

  /** Over every run, a message that leads to an event takes the interface to the state that
      the event is for, and leaves it where it is when the event is for none; nothing else
      moves it. */
  lemma EventsServePurpose(vs: seq<Move>, v: Move)
    requires IsRun(START, vs) && CanMove(After(START, vs), v)
    ensures var m := After(START, vs);
            var h := Handled(m, v);
            AfterMove(m, v).state ==
              if h.None? then m.state
              else match Purpose(h.value.1, m.state, EnvOf(v).discovery, EnvOf(v).tag)
                   case None => m.state
                   case Some(t) => t
  {
    RunKeepsInv(START, vs);
    var m := After(START, vs);
    if v.Process? || v.Resume? {
      HandledIsReady(m, v);
      var h := Handled(m, v);
      if h.Some? { EventLeads(h.value.0, h.value.1, v.env); }
    }
    hide Purpose, EventProcess, Enabled;
  }

  function EnvOf(v: Move): (env: Env) {
    if v.Process? || v.Chain? || v.Resume? then v.env else Env(false, false, false, Finish(Success))
  }

  /** An event that is taken calls the handler of its two states, which an internal event
      does not when it finds the state already right. */
  lemma HandlersServePurpose(s: State, e: Event, env: Env, h: Handler)
    ensures Called(s, e, env) == Some(h) <==>
            var t := Purpose(e, s, env.discovery, env.tag);
            t.Some? && (IsUser(e) || t.value != s) && Handles(h, s, t.value)
  {
    TablesServePurpose(s, e, env);
    if TargetOf(s, e, env).Some? { HandlersServeStates(s, TargetOf(s, e, env).value, h); }
    hide TargetOf, Purpose, HandlerOf, Handles;
  }

  /** What a sequence that ends comes to, by what it was for.  A tag that could be connected
      goes on to data exchange; whatever fails in the field ends the connection, unless it was
      a request that the tag merely refused; and a failure of the controller leads to
      recovery, unless that is disabled. */
  lemma CompletionsServePurpose(x: Exit, status: Status, recovery: bool)
    ensures var e := Chained(x, status, recovery);
            && (e == Activated <==> x == Activates && status.Success?)
            && (e == Recover <==> x == OrRecover && status.Failure? && recovery)
            && (e == Deactivated <==>
                  || x == Deactivates
                  || (x in {OrDeactivate, Activates} && status.Failure?)
                  || (x in {OrLinkLost, UnlessLinkLost} && status == LINK_FAILED))
            && (e == ReqFailed <==>
                  && status.Failure?
                  && (x == OrFail || (x == OrRecover && !recovery) || (x == OrLinkLost && status != LINK_FAILED)))
            && e in {Activated, Recover, Deactivated, ReqFailed, ReqCompleted}
  {
  }

  // ---------- states that only a running sequence leaves ----------

  predicate IsTransient(s: State) {
    s in {Init, Recovery, Shutdown}
  }

  /** At rest in a state from which clients can go on. */
  ghost predicate IsSettled(m: Machine) {
    m.transition == AtRest ==> !IsTransient(m.state)
  }

  /** The handler that the message leads to, if it enters a transient state, can start its
      sequence: there is memory for it. */
  ghost predicate IsGranted(m: Machine, v: Move)
    requires Valid(m.engine)
  {
    var h := Handled(m, v);
    h.Some? && (v.Process? || v.Chain? || v.Resume?) ==>
      var c := Called(h.value.0.state, h.value.1, v.env);
      c in {Some(StateInitialize), Some(StateShutdown), Some(StateRecovery)} ==> v.env.action.Begin?
  }

  ghost predicate GrantedRun(m: Machine, vs: seq<Move>)
    requires IsRun(m, vs)
    decreases |vs|
  {
    vs == [] || (IsGranted(m, vs[0]) && GrantedRun(AfterMove(m, vs[0]), vs[1..]))
  }

  /** Transient states are entered through their handlers alone, and no queued or chained
      event leaves one where it is. */
  lemma TransientHandlers(s: State, e: Event, env: Env)
    requires TargetOf(s, e, env).Some? && e != TimedOut
    ensures var t := TargetOf(s, e, env).value;
            && (IsTransient(t) <==>
                  Called(s, e, env) in {Some(StateInitialize), Some(StateShutdown), Some(StateRecovery)})
            && (Called(s, e, env).None? ==> !IsTransient(t))
  {
  }

  /** From an event on, the machine comes to rest in a transient state exactly when the
      handler of one cannot start its sequence. */
  lemma EventSettlesExactly(m: Machine, e: Event, env: Env)
    requires IsReady(m) && FitsEvent(m, e, env) && e != TimedOut
    requires TargetOf(m.state, e, env).None? ==> !IsTransient(m.state)
    ensures IsSettled(EventProcess(m, e, env)) <==>
            (Called(m.state, e, env) in {Some(StateInitialize), Some(StateShutdown), Some(StateRecovery)} ==>
               env.action.Begin?)
  {
    if TargetOf(m.state, e, env).Some? { TransientHandlers(m.state, e, env); }
    hide TargetOf, HandlerOf;
  }

  /** A move from a settled machine keeps it settled exactly when it is granted. */
  lemma MoveSettlesExactly(m: Machine, v: Move)
    requires MachineInv(m) && CanMove(m, v) && IsSettled(m) && OnlyQueueable(m)
    ensures IsSettled(AfterMove(m, v)) <==> IsGranted(m, v)
  {
    hide TargetOf, HandlerOf, ExitsIn, EventProcess, Called;
    if v.Process? || v.Resume? {
      HandledIsReady(m, v);
      var h := Handled(m, v);
      if h.Some? {
        if v.Resume? { ChainedIsAccepted(m.state, m.exit, CompletionOf(m.engine, v.returned).value, v.env); }
        EventSettlesExactly(h.value.0, h.value.1, v.env);
      }
    }
  }

  ghost predicate OnlyQueueable(m: Machine) {
    forall i :: 0 <= i < |m.pending| ==> IsQueueable(m.pending[i])
  }

  lemma EventKeepsPending(m: Machine, e: Event, env: Env)
    ensures EventProcess(m, e, env).pending == m.pending
  {
    hide TargetOf, HandlerOf, OnStart;
  }

  lemma MoveKeepsQueueable(m: Machine, v: Move)
    requires Valid(m.engine) && CanMove(m, v) && OnlyQueueable(m)
    ensures OnlyQueueable(AfterMove(m, v))
  {
    hide EventProcess, CompletionOf, OnDeliver, OnCallback, OnRedo, Enabled;
    forall m1, e, env ensures EventProcess(m1, e, env).pending == m1.pending { EventKeepsPending(m1, e, env); }
  }

  lemma {:induction false} GrantedRunIsSettled(m: Machine, vs: seq<Move>)
    requires MachineInv(m) && IsRun(m, vs) && OnlyQueueable(m) && IsSettled(m) && GrantedRun(m, vs)
    ensures MachineInv(After(m, vs)) && OnlyQueueable(After(m, vs)) && IsSettled(After(m, vs))
    decreases |vs|
  {
    if vs != [] {
      MoveKeepsInv(m, vs[0]);
      MoveKeepsQueueable(m, vs[0]);
      MoveSettlesExactly(m, vs[0]);
      GrantedRunIsSettled(AfterMove(m, vs[0]), vs[1..]);
    }
  }

  /** As long as the sequences that leave them can be started, the interface never rests in a
      transient state; and it does after the first one that cannot. */
  lemma RestsSettledExactly(vs: seq<Move>, v: Move)
    requires IsRun(START, vs) && GrantedRun(START, vs) && CanMove(After(START, vs), v)
    ensures IsSettled(After(START, vs))
    ensures IsSettled(AfterMove(After(START, vs), v)) <==> IsGranted(After(START, vs), v)
  {
    GrantedRunIsSettled(START, vs);
    MoveSettlesExactly(After(START, vs), v);
  }

  /** At rest in one of these states, whatever is queued. */
  ghost predicate IsStuck(m: Machine) {
    MachineInv(m) && OnlyQueueable(m) && m.transition == AtRest && m.state in {Init, Shutdown}
  }

  /** An initialisation or shutdown that could not be started is never recovered from: no
      event that can be queued leads out of its state. */
  lemma {:induction false} StuckForEver(m: Machine, vs: seq<Move>)
    requires IsStuck(m) && IsRun(m, vs)
    ensures IsStuck(After(m, vs)) && After(m, vs).state == m.state
    decreases |vs|
  {
    if vs != [] {
      MoveKeepsInv(m, vs[0]);
      MoveKeepsQueueable(m, vs[0]);
      StuckMove(m, vs[0]);
      StuckForEver(AfterMove(m, vs[0]), vs[1..]);
    }
  }

  lemma StuckMove(m: Machine, v: Move)
    requires IsStuck(m) && CanMove(m, v)
    ensures AfterMove(m, v).state == m.state && AfterMove(m, v).transition == AtRest
  {
    hide HandlerOf, ExitsIn;
    if v.Resume? { DeliverIsExclusive(m.engine, v.returned); }
  }

  const NO_MEMORY: Env := Env(false, false, false, Finish(Failure(0xC000009A)))

  const QUEUED: Machine := START.(pending := [Initialize], queued := [Initialize], posted := 1)

  lemma InitializationIsQueued()
    ensures MachineInv(START) && CanMove(START, Queue(Initialize)) && AfterMove(START, Queue(Initialize)) == QUEUED
    ensures Valid(START.engine) && Valid(QUEUED.engine)
  {
    assert [] + [Initialize] == [Initialize];
  }

  lemma InitializationFails(m: Machine)
    requires m == QUEUED
    ensures Valid(m.engine) && CanMove(m, Process(NO_MEMORY))
    ensures AfterMove(m, Process(NO_MEMORY)) ==
            m.(state := Init, posted := 0, pending := [], taken := [Initialize], completed := [Initialize])
  {
    hide OnStart, RunEntries;
    assert m.pending[1..] == [] && m.taken + [Initialize] == [Initialize] && [] + [Initialize] == [Initialize];
  }

  lemma RunOfTwo(m: Machine, v: Move, w: Move)
    requires Valid(m.engine) && CanMove(m, v)
    requires Valid(AfterMove(m, v).engine) && CanMove(AfterMove(m, v), w) && Valid(AfterMove(AfterMove(m, v), w).engine)
    ensures IsRun(m, [v, w]) && After(m, [v, w]) == AfterMove(AfterMove(m, v), w)
  {
    hide CanMove, AfterMove, Valid;
    var m1 := AfterMove(m, v);
    var m2 := AfterMove(m1, w);
    assert [v, w][1..] == [w] && [w][1..] == [];
    assert IsRun(m2, []) && IsRun(m1, [w]) && After(m1, [w]) == m2;
  }

  /** Such a machine is reached by a first initialisation for which there is no memory. */
  lemma NoMemoryIsStuck()
    ensures exists vs :: IsRun(START, vs) && IsStuck(After(START, vs)) && After(START, vs).state == Init
  {
    hide IsRun, After, AfterMove, CanMove, MachineInv, Valid;
    InitializationIsQueued();
    InitializationFails(QUEUED);
    var vs := [Queue(Initialize), Process(NO_MEMORY)];
    RunOfTwo(START, Queue(Initialize), Process(NO_MEMORY));
    RunKeepsInv(START, vs);
    assert IsStuck(After(START, vs));
  }

  // ---------- the interface in place ----------

  /** g_NfcCxState2StateMap: where a connector leads. */
  function Connected(s: State, connector: Target, yes: bool): (t: Target)
    requires connector in {CheckDiscMode, CheckDeviceType}
  {
    match connector
    case CheckDiscMode =>
      if s in {Idle, Init, Shutdown} then Nowhere else if yes then To(RfDiscovery) else To(RfIdle)
    case _ =>
      if s == RfDiscovered && yes then To(RfDataXchg)
      else if s == RfDataXchg && yes then To(RfDiscovered) else Nowhere
  }

  lemma NoHandlerRun(m: Machine, env: Env)
    ensures HandlerRun(m, None, env) == (m, Some(Success))
  {
  }

  class Interface {
    var currentState: State
    var transitionState: Transition
    var inStateHandler: bool
    var pendingStateEvents: seq<Event>
    var posted: nat
    var chainMessages: seq<Event>

    ghost var engine: Engine
    ghost var exit: Exit
    ghost var queued: seq<Event>
    ghost var taken: seq<Event>
    ghost var completed: seq<Event>
    ghost var refused: seq<Event>

    ghost function Value(): (m: Machine)
      reads this
    {
      Machine(engine, currentState, transitionState, inStateHandler, pendingStateEvents, posted, chainMessages, exit,
              queued, taken, completed, refused)
    }

    constructor ()
      ensures Value() == START
    {
      currentState, transitionState, inStateHandler := Idle, AtRest, false;
      pendingStateEvents, posted, chainMessages := [], 0, [];
      engine, exit := INITIAL, OrFail;
      queued, taken, completed, refused := [], [], [], [];
    }

    method QueueEvent(e: Event)
      requires Valid(engine) && IsQueueable(e)
      modifies this
      ensures Value() == AfterMove(old(Value()), Queue(e))
    {
      pendingStateEvents := pendingStateEvents + [e];
      queued := queued + [e];
      posted := posted + 1;
    }

    /** NfcCxStateInterfaceFindTargetState: connectors are followed until there is none. */
    method FindTargetState(target: Target, discovery: bool, tag: bool) returns (t: Option<State>)
      ensures t == Resolve(currentState, target, discovery, tag)
    {
      var next := target;
      while next in {CheckDiscMode, CheckDeviceType}
        invariant Resolve(currentState, next, discovery, tag) == Resolve(currentState, target, discovery, tag)
        decreases if next in {CheckDiscMode, CheckDeviceType} then 1 else 0
      {
        next := Connected(currentState, next, if next == CheckDiscMode then discovery else tag);
      }
      t := if next.To? then Some(next.state) else None;
    }

    /** The handler that is called, should one be, does what the environment decides. */
    method RunHandler(handler: Option<Handler>, env: Env) returns (status: Option<Status>)
      modifies this`engine, this`exit
      ensures (Value(), status) == HandlerRun(old(Value()), handler, env)
    {
      status := Some(Success);
      if handler.Some? {
        match env.action {
          case Begin(x, a, size, rs) =>
            engine, exit := OnStart(engine, a, size, rs), x;
            status := None;
          case Finish(result) =>
            status := Some(result);
        }
      }
    }

    /** What the tables and the connectors say. */
    method LookUp(e: Event, env: Env) returns (t: Option<State>)
      ensures t == TargetOf(currentState, e, env)
    {
      hide UserTarget, InternalTarget;
      if e == Invalid {
        return None;
      }
      t := FindTargetState(if IsUser(e) then UserTarget(currentState, e) else InternalTarget(currentState, e),
                           env.discovery, env.tag);
    }

    method CallStateHandler(e: Event, env: Env) returns (status: Option<Status>)
      modifies this`currentState, this`engine, this`exit
      ensures (Value(), status) == StateHandler(old(Value()), e, env)
    {
      hide TargetOf, HandlerOf, HandlerRun;
      var target := LookUp(e, env);
      if target.None? {
        return Some(RefusalOf(e));
      }
      status := Some(Success);
      if IsUser(e) || target.value != currentState {
        status := RunHandler(HandlerOf(currentState, target.value), env);
        currentState := target.value;
      } else {
        NoHandlerRun(Value(), env);
      }
    }

    method ProcessEvent(e: Event, env: Env)
      modifies this
      ensures Value() == EventProcess(old(Value()), e, env)
    {
      hide StateHandler, OnStart;
      inStateHandler := true;
      var status := CallStateHandler(e, env);
      inStateHandler := false;
      if status.Some? {
        Rest();
      }
    }

    method Rest()
      modifies this`completed, this`transitionState, this`posted
      ensures Value() == Rested(old(Value()))
    {
      if transitionState == UserRunning && taken != [] {
        completed := completed + [taken[|taken| - 1]];
      }
      transitionState := AtRest;
      if pendingStateEvents != [] {
        posted := posted + 1;
      }
    }

    method ProcessNextQueuedEvent(env: Env)
      modifies this
      ensures Value() == ProcessNext(old(Value()), env)
    {
      if transitionState != AtRest || pendingStateEvents == [] {
        return;
      }
      var e := pendingStateEvents[0];
      pendingStateEvents := pendingStateEvents[1..];
      taken := taken + [e];
      transitionState := if IsUser(e) then UserRunning else InternalRunning;
      ProcessEvent(e, env);
    }

    method ChainStateEvent(e: Event, env: Env)
      modifies this
      ensures Value() == ChainEvent(old(Value()), e, env)
    {
      if transitionState == AtRest {
        refused := refused + [e];
        return;
      }
      if inStateHandler {
        chainMessages := chainMessages + [e];
        return;
      }
      ProcessEvent(e, env);
    }
  }
}
