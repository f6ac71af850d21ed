/** The secure-element list and the sequences that maintain it: enumeration, turning every
    secure element off, and recovery, which wipes the list and must bring host card
    emulation back to the mode it had. */
module SecureElements {
  import opened Options
  import opened Sequences

  /** phLibNfc_SE_ActModeOn is 0 and phLibNfc_SE_Type_Invalid is 0: zeroed memory is `ZERO`. */
  datatype Mode = On | Off

  datatype Kind = Invalid | Embedded | Uicc | DeviceHost | HciNetwork

  datatype Element = Element(handle: nat, kind: Kind, mode: Mode)

  const ZERO: Element := Element(0, Invalid, On)

  const MAX_NUMBER_OF_SE: nat := 3
  const PHLIBNFC_MAXNO_OF_SE: nat := 2

  /** `chip` is the list libnfc holds for the controller. */
  datatype Rf = Rf(hce: bool, discovery: bool, list: seq<Element>, hostInit: Mode, chip: seq<Element>)

  /** The host entry that SENtfRegister writes. */
  function Host(mode: Mode): (e: Element) {
    Element(0, DeviceHost, mode)
  }

  /** The activation mode of the device host, off when it has no entry. */
  function HostMode(rf: Rf): (m: Mode) {
    if rf.list != [] && rf.list[0].kind == DeviceHost then rf.list[0].mode else Off
  }

  function Active(e: Element): (b: bool) {
    e.mode == On && e.kind != DeviceHost
  }

  /** NfcCxRFInterfaceUpdateSEList: the entries behind the host's are replaced.  When the
      list was empty, the slot before them keeps what it held, which is zero. */
  function Updated(rf: Rf): (r: Rf) {
    rf.(list := if rf.hce then [if rf.list == [] then ZERO else rf.list[0]] + rf.chip else rf.chip)
  }

  /** phLibNfc_SE_SetMode(Off), as its contract: the element with that handle is turned off. */
  function TurnOff(l: seq<Element>, handle: nat): (r: seq<Element>)
    ensures |r| == |l|
    ensures forall i :: 0 <= i < |l| ==> r[i] == if l[i].handle == handle then l[i].(mode := Off) else l[i]
  {
    if l == [] then []
    else [if l[0].handle == handle then l[0].(mode := Off) else l[0]] + TurnOff(l[1..], handle)
  }

  function FirstActive(l: seq<Element>, i: nat): (k: nat)
    requires i <= |l|
    ensures i <= k <= |l|
    ensures k < |l| ==> Active(l[k])
    ensures forall j :: i <= j < k ==> !Active(l[j])
    decreases |l| - i
  {
    if i == |l| || Active(l[i]) then i else FirstActive(l, i + 1)
  }

  // ---------- entries and sequence tables ----------

  datatype Entry =
    | PreRecovery | PreDeinitialize | Deinitialize | PostDeinitialize
    | PreInitialize | Initialize | PostInitialize
    | RemoteDevNtfRegister | LlcpConfigure | SENtfRegister
    | PreSEEnumerate | SEEnumerate | PostSEEnumerate | SetDefaultRoutingTable
    | DisableSecureElements | PostRecovery

  const INITIALIZE_SEQUENCE: seq<Entry> := [PreInitialize, Initialize, PostInitialize]
  const DEINITIALIZE_SEQUENCE: seq<Entry> := [PreDeinitialize, Deinitialize, PostDeinitialize]
  const REGISTER_SEQUENCE: seq<Entry> := [RemoteDevNtfRegister, LlcpConfigure, SENtfRegister]
  const SE_ENUMERATE_SEQUENCE: seq<Entry> := [PreSEEnumerate, SEEnumerate, PostSEEnumerate, SetDefaultRoutingTable]

  function RecoverySequence(discovery: bool): (t: seq<Entry>) {
    [PreRecovery] + DEINITIALIZE_SEQUENCE + INITIALIZE_SEQUENCE + REGISTER_SEQUENCE
    + (if discovery then SE_ENUMERATE_SEQUENCE else []) + [PostRecovery]
  }

  function InitialSequence(discovery: bool): (t: seq<Entry>) {
    INITIALIZE_SEQUENCE + REGISTER_SEQUENCE
    + (if discovery then SE_ENUMERATE_SEQUENCE + [DisableSecureElements] else [])
  }

  /** What the environment decides when an entry runs: the status it ends with, the flags
      the client driver answers, and what the controller enumerates. */
  datatype Choice = Choice(status: Status, redo: bool, skip: bool, chip: seq<Element>)

  ghost predicate Allowed(c: Choice) {
    && |c.chip| <= PHLIBNFC_MAXNO_OF_SE
    && forall i, j :: 0 <= i < j < |c.chip| ==> c.chip[i].handle != c.chip[j].handle
  }

  /** NfcCxRFInterfaceDeinitializeCB. */
  function Wiped(rf: Rf): (r: Rf) {
    rf.(list := [])
  }

  /** NfcCxRFInterfaceDisableSecureElements and its callback. */
  function HandleDisable(rf: Rf, c: Choice): (r: (Rf, Outcome)) {
    var k := FirstActive(rf.list, 0);
    if k == |rf.list| then (rf, Outcome(Stay, Success))
    else if c.status == Success then
      (Updated(rf.(chip := TurnOff(rf.chip, rf.list[k].handle))), Outcome(Repeat(1), Success))
    else (Updated(rf), Outcome(Stay, c.status))
  }

  /** One entry, from its call to the message that resumes the sequence. */
  function Handle(entry: Entry, rf: Rf, c: Choice): (r: (Rf, Outcome)) {
    match entry
    case Deinitialize => (Wiped(rf), Outcome(Stay, Success))
    case PostInitialize =>
      if c.redo then (Wiped(rf), Outcome(Repeat(3), Success)) else (rf, Outcome(Stay, c.status))
    case SENtfRegister =>
      if !rf.hce then (rf, Outcome(Stay, Success))
      else (rf.(list := [Host(rf.hostInit)], hostInit := Off),
            Outcome(Stay, if rf.hostInit == On then c.status else Success))
    case PreSEEnumerate => (rf, Outcome(if c.status == Success && c.skip then Skip(1) else Stay, c.status))
    case SEEnumerate => (Updated(rf.(chip := c.chip)), Outcome(Stay, c.status))
    case DisableSecureElements => HandleDisable(rf, c)
    case _ => (rf, Outcome(Stay, c.status))
  }

  /** A sequence over its table: the context, where it stands, and the outcomes so far. */
  function Exec(t: seq<Entry>, rf: Rf, cs: seq<Choice>): (r: (Rf, Verdict, seq<Outcome>)) {
    if cs == [] then (rf, At(0), [])
    else
      var (rf1, v, os) := Exec(t, rf, cs[..|cs| - 1]);
      if v.At? && v.next < |t| then
        var (rf2, o) := Handle(t[v.next], rf1, cs[|cs| - 1]);
        (rf2, Advance(|t|, v, o), os + [o])
      else (rf1, v, os)
  }

  predicate Succeeds(t: seq<Entry>, r: (Rf, Verdict, seq<Outcome>)) {
    r.1 == At(|t|)
  }

  /** What the engine makes of the outcomes is where the execution stands. */
  lemma {:induction false} ExecIsMeaning(t: seq<Entry>, rf: Rf, cs: seq<Choice>)
    ensures Exec(t, rf, cs).1 == Meaning(|t|, Exec(t, rf, cs).2)
    decreases |cs|
  {
    if cs != [] {
      var (rf1, v, os) := Exec(t, rf, cs[..|cs| - 1]);
      ExecIsMeaning(t, rf, cs[..|cs| - 1]);
      if v.At? && v.next < |t| {
        MeaningSnoc(|t|, os, Handle(t[v.next], rf1, cs[|cs| - 1]).1);
      }
    }
  }

  // ---------- recovery ----------

  /** NfcCxRFInterfaceStateRecovery, before it starts its sequence. */
  function BeginRecovery(rf: Rf): (r: Rf) {
    rf.(hostInit := if rf.discovery && HostMode(rf) == On then On else Off)
  }

  const REGISTERED: nat := 10

  /** Up to SENtfRegister the mode is in hostInit; behind it, in the host entry. */
  ghost predicate Carries(rf: Rf, v: Verdict, mode: Mode) {
    rf.hce &&
    match v
    case At(next) => if next < REGISTERED then rf.hostInit == mode else rf.list != [] && rf.list[0] == Host(mode)
    case Failed(_) => true
  }

  /** The entries that wipe the list, register the host, or move the index. */
  predicate Plain(e: Entry) {
    e !in {Deinitialize, PostInitialize, SENtfRegister, PreSEEnumerate, DisableSecureElements}
  }

  lemma PlainEntry(e: Entry, rf: Rf, c: Choice)
    requires Plain(e)
    ensures var (rf', o) := Handle(e, rf, c);
            && rf'.hce == rf.hce && rf'.hostInit == rf.hostInit && o.jump == Stay
            && (rf.hce && rf.list != [] ==> rf'.list != [] && rf'.list[0] == rf.list[0])
  {
  }

  predicate IsRecoveryTable(t: seq<Entry>) {
    && |t| > REGISTERED && t[2] == Deinitialize && t[6] == PostInitialize && t[9] == SENtfRegister
    && forall i :: 0 <= i < |t| ==> Plain(t[i]) || i in {2, 6, 9} || (i == 10 && t[i] == PreSEEnumerate)
  }

  lemma RecoveryTable(discovery: bool)
    ensures IsRecoveryTable(RecoverySequence(discovery))
  {
    var t := [PreRecovery, PreDeinitialize, Deinitialize, PostDeinitialize, PreInitialize, Initialize, PostInitialize,
              RemoteDevNtfRegister, LlcpConfigure, SENtfRegister];
    var u := [PreSEEnumerate, SEEnumerate, PostSEEnumerate, SetDefaultRoutingTable];
    assert RecoverySequence(discovery) == t + (if discovery then u else []) + [PostRecovery];
  }

  lemma EntryCarries(t: seq<Entry>, rf: Rf, next: nat, c: Choice, mode: Mode)
    requires IsRecoveryTable(t) && next < |t| && Carries(rf, At(next), mode)
    ensures var (rf', o) := Handle(t[next], rf, c);
            Carries(rf', Advance(|t|, At(next), o), mode)
  {
    hide HandleDisable, Updated;
    if Plain(t[next]) {
      PlainEntry(t[next], rf, c);
      hide Handle;
      assert next != 9;
    }
  }

  lemma {:induction false} ExecCarries(t: seq<Entry>, rf: Rf, cs: seq<Choice>, mode: Mode)
    requires IsRecoveryTable(t) && rf.hce && rf.hostInit == mode
    ensures var (rf', v, _) := Exec(t, rf, cs);
            Carries(rf', v, mode)
    decreases |cs|
  {
    hide Handle;
    if cs != [] {
      var (rf1, v, _) := Exec(t, rf, cs[..|cs| - 1]);
      ExecCarries(t, rf, cs[..|cs| - 1], mode);
      if v.At? && v.next < |t| { EntryCarries(t, rf1, v.next, cs[|cs| - 1], mode); }
    }
  }

  /** Every recovery that succeeds, with any number of redone initialisations, any skip
      choice and anything enumerated, leaves the device host in the mode it had when
      discovery of secure elements is enabled, and off otherwise: the mode survives exactly
      when discovery is enabled or the host was off. */
  lemma RecoveryKeepsHostModeExactly(rf: Rf, cs: seq<Choice>)
    requires rf.hce
    ensures var t := RecoverySequence(rf.discovery);
            var r := Exec(t, BeginRecovery(rf), cs);
            Succeeds(t, r) ==>
              && HostMode(r.0) == (if rf.discovery then HostMode(rf) else Off)
              && (HostMode(r.0) == HostMode(rf) <==> rf.discovery || HostMode(rf) == Off)
  {
    RecoveryTable(rf.discovery);
    hide RecoverySequence;
    ExecCarries(RecoverySequence(rf.discovery), BeginRecovery(rf), cs, BeginRecovery(rf).hostInit);
  }

  const OK: Choice := Choice(Success, false, false, [])

  function Times(c: Choice, k: nat): (cs: seq<Choice>)
    ensures |cs| == k && forall i :: 0 <= i < k ==> cs[i] == c
  {
    if k == 0 then [] else Times(c, k - 1) + [c]
  }

  lemma NoObjection(e: Entry, rf: Rf)
    requires e != DisableSecureElements
    ensures Handle(e, rf, OK).1 == Outcome(Stay, Success)
  {
  }

  lemma NothingRun(t: seq<Entry>, rf: Rf)
    ensures Exec(t, rf, Times(OK, 0)).1 == At(0)
  {
  }

  lemma OneMore(t: seq<Entry>, rf: Rf, k: nat)
    requires k < |t| && t[k] != DisableSecureElements && Exec(t, rf, Times(OK, k)).1 == At(k)
    ensures Exec(t, rf, Times(OK, k + 1)).1 == At(k + 1)
  {
    var cs := Times(OK, k);
    assert Times(OK, k + 1) == cs + [OK];
    assert Advance(|t|, At(k), Outcome(Stay, Success)) == At(k + 1);
    ExecSnoc(t, rf, cs, OK);
    NoObjection(t[k], Exec(t, rf, cs).0);
    hide Exec, Handle, Times, Advance;
  }

  /** Without objection every entry but the self-repeating one is over at its first call. */
  lemma {:induction false} RunsThrough(t: seq<Entry>, rf: Rf, k: nat)
    requires k <= |t| && forall i :: 0 <= i < k ==> t[i] != DisableSecureElements
    ensures Exec(t, rf, Times(OK, k)).1 == At(k)
  {
    hide Exec, Times;
    if k > 0 {
      RunsThrough(t, rf, k - 1);
      OneMore(t, rf, k - 1);
    } else {
      NothingRun(t, rf);
    }
  }

  lemma RecoveryRunsThrough(rf: Rf)
    ensures var t := RecoverySequence(rf.discovery);
            Succeeds(t, Exec(t, BeginRecovery(rf), Times(OK, |t|)))
  {
    hide Exec;
    var t := RecoverySequence(rf.discovery);
    RunsThrough(t, BeginRecovery(rf), |t|);
  }

  /** Recovery is sure to keep the mode of the device host exactly when discovery is enabled
      or the host was off: otherwise a recovery without any failure turns it off. */
  lemma RecoveryIsSafeExactly(rf: Rf)
    requires rf.hce
    ensures var t := RecoverySequence(rf.discovery);
            (forall cs :: Succeeds(t, Exec(t, BeginRecovery(rf), cs)) ==>
               HostMode(Exec(t, BeginRecovery(rf), cs).0) == HostMode(rf))
            <==> rf.discovery || HostMode(rf) == Off
  {
    hide Exec, RecoverySequence, BeginRecovery, HostMode;
    var t := RecoverySequence(rf.discovery);
    RecoveryRunsThrough(rf);
    RecoveryKeepsHostModeExactly(rf, Times(OK, |t|));
    forall cs | Succeeds(t, Exec(t, BeginRecovery(rf), cs)) && (rf.discovery || HostMode(rf) == Off)
      ensures HostMode(Exec(t, BeginRecovery(rf), cs).0) == HostMode(rf)
    {
      RecoveryKeepsHostModeExactly(rf, cs);
    }
  }

  // ---------- the entries that a run visits ----------

  /** The entries executed, in order; the entry with index i of it took the choice cs[i]. */
  ghost function Visits(t: seq<Entry>, rf: Rf, cs: seq<Choice>): (es: seq<Entry>)
    ensures |es| <= |cs|
  {
    if cs == [] then []
    else
      var before := cs[..|cs| - 1];
      var v := Exec(t, rf, before).1;
      Visits(t, rf, before) + (if v.At? && v.next < |t| then [t[v.next]] else [])
  }

  lemma VisitsSnoc(t: seq<Entry>, rf: Rf, cs: seq<Choice>)
    requires cs != []
    ensures var before := cs[..|cs| - 1];
            var v := Exec(t, rf, before).1;
            && (v.At? && v.next < |t| ==> Visits(t, rf, cs) == Visits(t, rf, before) + [t[v.next]])
            && (!(v.At? && v.next < |t|) ==>
                  Visits(t, rf, cs) == Visits(t, rf, before) && Exec(t, rf, cs).1 == v)
  {
    assert Visits(t, rf, cs[..|cs| - 1]) + [] == Visits(t, rf, cs[..|cs| - 1]);
  }

  /** As long as a run is not over, each choice was one visit. */
  lemma {:induction false} EachChoiceVisits(t: seq<Entry>, rf: Rf, cs: seq<Choice>)
    ensures var v := Exec(t, rf, cs).1; v.At? && v.next < |t| ==> |Visits(t, rf, cs)| == |cs|
    decreases |cs|
  {
    hide Handle;
    if cs != [] { EachChoiceVisits(t, rf, cs[..|cs| - 1]); }
  }

  predicate IsTable(t: seq<Entry>) {
    t in {RecoverySequence(true), RecoverySequence(false), InitialSequence(true), InitialSequence(false)}
  }

  /** What may come after an entry, by the phases of the two programs: each phase is prepared,
      done and concluded; what is redone starts with its preparation; what is skipped is the
      enumeration alone; and elements are turned off until there is none. */
  predicate MayFollow(e: Entry, next: Entry, c: Choice) {
    match e
    case PreRecovery => next == PreDeinitialize
    case PreDeinitialize => next == Deinitialize
    case Deinitialize => next == PostDeinitialize
    case PostDeinitialize => next == PreInitialize
    case PreInitialize => next == Initialize
    case Initialize => next == PostInitialize
    case PostInitialize => next == if c.redo then PreInitialize else RemoteDevNtfRegister
    case RemoteDevNtfRegister => next == LlcpConfigure
    case LlcpConfigure => next == SENtfRegister
    case SENtfRegister => next == PreSEEnumerate || next == PostRecovery
    case PreSEEnumerate => next == if c.skip then PostSEEnumerate else SEEnumerate
    case SEEnumerate => next == PostSEEnumerate
    case PostSEEnumerate => next == SetDefaultRoutingTable
    case SetDefaultRoutingTable => next == DisableSecureElements || next == PostRecovery
    case DisableSecureElements => next == DisableSecureElements
    case PostRecovery => false
  }

  /** The next entry may follow, and behind a skipped enumeration stands its conclusion. */
  ghost predicate FollowsAt(t: seq<Entry>, i: nat)
    requires i < |t|
  {
    && (i + 1 < |t| ==> MayFollow(t[i], t[i + 1], OK))
    && (t[i] == PreSEEnumerate ==> i + 2 < |t| && t[i + 2] == PostSEEnumerate)
  }

  predicate IsLast(e: Entry) {
    e == PostRecovery || e == DisableSecureElements || e == SENtfRegister
  }

  ghost predicate IsOrdered(t: seq<Entry>) {
    && t != [] && IsLast(t[|t| - 1])
    && (forall i :: 0 <= i < |t| ==> FollowsAt(t, i))
    && (forall i :: 0 <= i < |t| - 1 ==> t[i] != PostRecovery && t[i] != DisableSecureElements)
  }

  /** Initialisation stands at `p`. */
  ghost predicate Initializes(t: seq<Entry>, p: nat) {
    && p + 2 < |t| && t[p] == PreInitialize && t[p + 1] == Initialize && t[p + 2] == PostInitialize
    && (forall i :: 0 <= i < |t| && i != p + 2 ==> t[i] != PostInitialize)
    && (forall i :: 0 <= i < p ==> t[i] != PreSEEnumerate)
    && (forall i :: p < i < |t| ==> t[i] != Deinitialize)
  }

  ghost predicate IsLaidOut(t: seq<Entry>, p: nat) {
    IsOrdered(t) && Initializes(t, p)
  }

  /** The preparation of the initialisation: behind the deinitialisation in the recovery. */
  function Preparation(t: seq<Entry>): (p: nat) {
    if t != [] && t[0] == PreRecovery then 4 else 0
  }

  lemma FullRecoveryTable() returns (t: seq<Entry>)
    ensures t == RecoverySequence(true)
    ensures t == [PreRecovery, PreDeinitialize, Deinitialize, PostDeinitialize, PreInitialize, Initialize,
                  PostInitialize, RemoteDevNtfRegister, LlcpConfigure, SENtfRegister,
                  PreSEEnumerate, SEEnumerate, PostSEEnumerate, SetDefaultRoutingTable, PostRecovery]
  {
    t := [PreRecovery, PreDeinitialize, Deinitialize, PostDeinitialize, PreInitialize, Initialize,
                  PostInitialize, RemoteDevNtfRegister, LlcpConfigure, SENtfRegister,
                  PreSEEnumerate, SEEnumerate, PostSEEnumerate, SetDefaultRoutingTable, PostRecovery];
  }

  lemma FullRecoveryIsOrdered()
    ensures IsOrdered(RecoverySequence(true))
  {
    var t := FullRecoveryTable();
    hide RecoverySequence, InitialSequence;
  }

  lemma FullRecoveryInitializes()
    ensures Initializes(RecoverySequence(true), 4) && RecoverySequence(true)[0] == PreRecovery
  {
    var t := FullRecoveryTable();
    hide RecoverySequence, InitialSequence;
  }

  lemma ShortRecoveryTable() returns (t: seq<Entry>)
    ensures t == RecoverySequence(false)
    ensures t == [PreRecovery, PreDeinitialize, Deinitialize, PostDeinitialize, PreInitialize, Initialize,
                  PostInitialize, RemoteDevNtfRegister, LlcpConfigure, SENtfRegister, PostRecovery]
  {
    t := [PreRecovery, PreDeinitialize, Deinitialize, PostDeinitialize, PreInitialize, Initialize,
                  PostInitialize, RemoteDevNtfRegister, LlcpConfigure, SENtfRegister, PostRecovery];
  }

  lemma ShortRecoveryIsOrdered()
    ensures IsOrdered(RecoverySequence(false))
  {
    var t := ShortRecoveryTable();
    hide RecoverySequence, InitialSequence;
  }

  lemma ShortRecoveryInitializes()
    ensures Initializes(RecoverySequence(false), 4) && RecoverySequence(false)[0] == PreRecovery
  {
    var t := ShortRecoveryTable();
    hide RecoverySequence, InitialSequence;
  }

  lemma FullInitialTable() returns (t: seq<Entry>)
    ensures t == InitialSequence(true)
    ensures t == [PreInitialize, Initialize, PostInitialize, RemoteDevNtfRegister, LlcpConfigure, SENtfRegister,
                  PreSEEnumerate, SEEnumerate, PostSEEnumerate, SetDefaultRoutingTable, DisableSecureElements]
  {
    t := [PreInitialize, Initialize, PostInitialize, RemoteDevNtfRegister, LlcpConfigure, SENtfRegister,
                  PreSEEnumerate, SEEnumerate, PostSEEnumerate, SetDefaultRoutingTable, DisableSecureElements];
  }

  lemma FullInitialIsOrdered()
    ensures IsOrdered(InitialSequence(true))
  {
    var t := FullInitialTable();
    hide RecoverySequence, InitialSequence;
  }

  lemma FullInitialInitializes()
    ensures Initializes(InitialSequence(true), 0) && InitialSequence(true)[0] == PreInitialize
  {
    var t := FullInitialTable();
    hide RecoverySequence, InitialSequence;
  }

  lemma ShortInitialTable() returns (t: seq<Entry>)
    ensures t == InitialSequence(false)
    ensures t == [PreInitialize, Initialize, PostInitialize, RemoteDevNtfRegister, LlcpConfigure, SENtfRegister]
  {
    t := [PreInitialize, Initialize, PostInitialize, RemoteDevNtfRegister, LlcpConfigure, SENtfRegister];
  }

  lemma ShortInitialIsOrdered()
    ensures IsOrdered(InitialSequence(false))
  {
    var t := ShortInitialTable();
    hide RecoverySequence, InitialSequence;
  }

  lemma ShortInitialInitializes()
    ensures Initializes(InitialSequence(false), 0) && InitialSequence(false)[0] == PreInitialize
  {
    var t := ShortInitialTable();
    hide RecoverySequence, InitialSequence;
  }

  lemma TableIsLaidOut(t: seq<Entry>)
    requires IsTable(t)
    ensures IsLaidOut(t, Preparation(t))
  {
    FullRecoveryIsOrdered();
    FullRecoveryInitializes();
    ShortRecoveryIsOrdered();
    ShortRecoveryInitializes();
    FullInitialIsOrdered();
    FullInitialInitializes();
    ShortInitialIsOrdered();
    ShortInitialInitializes();
    hide RecoverySequence, InitialSequence, Initializes, FollowsAt;
  }

  /** An entry with its outcome leaves the sequence before one that may follow. */
  lemma StepFollows(t: seq<Entry>, p: nat, rf: Rf, next: nat, c: Choice)
    requires IsLaidOut(t, p) && next < |t|
    ensures var v := Advance(|t|, At(next), Handle(t[next], rf, c).1);
            && (v.At? && v.next < |t| ==> MayFollow(t[next], t[v.next], c))
            && (v == At(|t|) ==> IsLast(t[next]))
  {
    Jumps(t[next], rf, c);
    assert FollowsAt(t, next);
    if next + 1 < |t| { SameFollower(t[next], t[next + 1], c); }
    hide Handle;
  }

  lemma SameFollower(e: Entry, next: Entry, c: Choice)
    requires MayFollow(e, next, OK)
    ensures (e == PostInitialize ==> !c.redo) && (e == PreSEEnumerate ==> !c.skip) ==> MayFollow(e, next, c)
  {
  }

  lemma Jumps(e: Entry, rf: Rf, c: Choice)
    ensures var o := Handle(e, rf, c).1;
            match e
            case PostInitialize => if c.redo then o == Outcome(Repeat(3), Success) else o.jump == Stay
            case PreSEEnumerate => o.status == Success ==> o.jump == if c.skip then Skip(1) else Stay
            case DisableSecureElements => o.jump in {Stay, Repeat(1)}
            case _ => o.jump == Stay
  {
    hide FirstActive, Updated, TurnOff;
  }

  /** Each visit is followed by one that may follow. */
  ghost predicate Chains(es: seq<Entry>, cs: seq<Choice>)
    requires |es| <= |cs|
  {
    forall i :: 0 <= i < |es| - 1 ==> MayFollow(es[i], es[i + 1], cs[i])
  }

  lemma ChainsSnoc(es: seq<Entry>, cs: seq<Choice>, e: Entry, c: Choice)
    requires |es| == |cs| && Chains(es, cs) && (es != [] ==> MayFollow(es[|es| - 1], e, cs[|cs| - 1]))
    ensures Chains(es + [e], cs + [c])
  {
    hide MayFollow;
  }

  lemma ChainsOver(es: seq<Entry>, cs: seq<Choice>, c: Choice)
    requires |es| <= |cs| && Chains(es, cs)
    ensures Chains(es, cs + [c])
  {
    hide MayFollow;
  }

  /** Over every run of the initialisation and of the recovery, whatever is redone, skipped or
      repeated, each entry is followed by one that may follow, the first is the first of
      the table, and a run that succeeds has come to the last one. */
  lemma VisitsFollow(t: seq<Entry>, rf: Rf, cs: seq<Choice>)
    requires IsTable(t)
    ensures var es := Visits(t, rf, cs);
            && Chains(es, cs) && (es != [] ==> es[0] == t[0]) && (cs != [] ==> es != [])
            && (Succeeds(t, Exec(t, rf, cs)) ==>
                  es != [] && IsLast(es[|es| - 1]))
  {
    TableIsLaidOut(t);
    RunFollows(t, Preparation(t), rf, cs);
    TableIsNotEmpty(t);
    hide IsTable, Visits, Exec;
  }

  lemma {:induction false} RunFollows(t: seq<Entry>, p: nat, rf: Rf, cs: seq<Choice>)
    requires IsLaidOut(t, p)
    ensures var es := Visits(t, rf, cs);
            var v := Exec(t, rf, cs).1;
            && Chains(es, cs) && (es != [] ==> es[0] == t[0]) && (cs != [] ==> es != [])
            && (cs == [] ==> v == At(0))
            && (v.At? && v.next < |t| && es != [] ==> MayFollow(es[|es| - 1], t[v.next], cs[|es| - 1]))
            && (v == At(|t|) ==> es != [] && IsLast(es[|es| - 1]))
    decreases |cs|
  {
    hide Handle, MayFollow, Chains;
    if cs != [] {
      var before, c := cs[..|cs| - 1], cs[|cs| - 1];
      RunFollows(t, p, rf, before);
      VisitsSnoc(t, rf, cs);
      EachChoiceVisits(t, rf, before);
      assert cs == before + [c];
      var (rf1, v, _) := Exec(t, rf, before);
      if v.At? && v.next < |t| {
        StepFollows(t, p, rf1, v.next, c);
        ChainsSnoc(Visits(t, rf, before), before, t[v.next], c);
      } else {
        ChainsOver(Visits(t, rf, before), before, c);
      }
    } else {
      NoVisits(t, rf);
    }
    hide IsLaidOut;
  }

  lemma NoVisits(t: seq<Entry>, rf: Rf)
    ensures Visits(t, rf, []) == [] && Chains([], [])
  {
  }

  lemma TableIsNotEmpty(t: seq<Entry>)
    requires IsLaidOut(t, Preparation(t))
    ensures |t| > 2
  {
  }

  /** A visit that deinitialises libnfc. */
  predicate Deinitializes(e: Entry, c: Choice) {
    e == Deinitialize || (e == PostInitialize && c.redo)
  }

  /** Since the last deinitialisation, initialisation was prepared and then done. */
  ghost predicate IsInitialized(es: seq<Entry>, cs: seq<Choice>)
    requires |es| <= |cs|
  {
    exists i: nat, j: nat :: i < j < |es| && es[i] == PreInitialize && es[j] == Initialize
                             && forall k :: i < k < |es| ==> !Deinitializes(es[k], cs[k])
  }

  predicate IsBehind(t: seq<Entry>, v: Verdict, e: Entry) {
    v.At? && exists i: nat :: i < v.next && i < |t| && t[i] == e
  }

  /** In every run of either program, whenever the sequence stands behind PostInitialize,
      PreInitialize and Initialize have been executed in that order since libnfc was last
      deinitialised, be it by the recovery or by a redo. */
  lemma BehindInitialization(t: seq<Entry>, rf: Rf, cs: seq<Choice>)
    requires IsTable(t)
    ensures var v := Exec(t, rf, cs).1;
            IsBehind(t, v, PostInitialize) ==> IsInitialized(Visits(t, rf, cs), cs)
  {
    TableIsLaidOut(t);
    StandsInitialized(t, Preparation(t), rf, cs);
    hide IsTable, Exec, Visits, IsInitialized;
  }

  /** The same by position. */
  lemma {:induction false} StandsInitialized(t: seq<Entry>, p: nat, rf: Rf, cs: seq<Choice>)
    requires IsLaidOut(t, p)
    ensures var v := Exec(t, rf, cs).1;
            var es := Visits(t, rf, cs);
            && (v == At(p + 1) ==> es != [] && es[|es| - 1] == PreInitialize)
            && (v.At? && v.next > p + 1 ==> IsInitialized(es, cs))
    decreases |cs|
  {
    hide Handle, IsInitialized;
    if cs != [] {
      var before, c := cs[..|cs| - 1], cs[|cs| - 1];
      StandsInitialized(t, p, rf, before);
      VisitsSnoc(t, rf, cs);
      EachChoiceVisits(t, rf, before);
      assert cs == before + [c];
      var (rf1, v, _) := Exec(t, rf, before);
      if v.At? && v.next < |t| {
        InitializingMove(t, p, rf1, v.next, c);
        InitializedSnoc(Visits(t, rf, before), before, t[v.next], c);
      } else {
        InitializedOver(Visits(t, rf, before), before, c);
      }
    }
  }

  lemma InitializingMove(t: seq<Entry>, p: nat, rf: Rf, next: nat, c: Choice)
    requires IsLaidOut(t, p) && next < |t|
    ensures var v := Advance(|t|, At(next), Handle(t[next], rf, c).1);
            && t[p] == PreInitialize && t[p + 1] == Initialize
            && (v == At(p + 1) ==> next == p)
            && (v.At? && v.next > p + 1 ==> next >= p + 1 && !Deinitializes(t[next], c))
  {
    Jumps(t[next], rf, c);
    hide Handle, MayFollow;
  }

  lemma InitializedSnoc(es: seq<Entry>, cs: seq<Choice>, e: Entry, c: Choice)
    requires |es| == |cs|
    ensures IsInitialized(es, cs) && !Deinitializes(e, c) ==> IsInitialized(es + [e], cs + [c])
    ensures es != [] && es[|es| - 1] == PreInitialize && e == Initialize ==> IsInitialized(es + [e], cs + [c])
  {
    var n := |es|;
    if IsInitialized(es, cs) && !Deinitializes(e, c) {
      var i: nat, j: nat :| i < j < n && es[i] == PreInitialize && es[j] == Initialize
                            && forall k :: i < k < n ==> !Deinitializes(es[k], cs[k]);
      assert i < j < n + 1 && (es + [e])[i] == PreInitialize && (es + [e])[j] == Initialize;
    }
    if n > 0 && es[n - 1] == PreInitialize && e == Initialize {
      assert (es + [e])[n - 1] == PreInitialize && (es + [e])[n] == Initialize;
    }
  }

  lemma InitializedOver(es: seq<Entry>, cs: seq<Choice>, c: Choice)
    requires |es| <= |cs|
    ensures IsInitialized(es, cs) ==> IsInitialized(es, cs + [c])
  {
    if IsInitialized(es, cs) {
      var i: nat, j: nat :| i < j < |es| && es[i] == PreInitialize && es[j] == Initialize
                            && forall k :: i < k < |es| ==> !Deinitializes(es[k], cs[k]);
      assert i < j < |es| && es[i] == PreInitialize && es[j] == Initialize;
    }
  }

  /** Whether the client driver had the enumeration skipped in a run. */
  ghost predicate Skips(t: seq<Entry>, rf: Rf, cs: seq<Choice>) {
    cs != [] &&
    var before, c := cs[..|cs| - 1], cs[|cs| - 1];
    var v := Exec(t, rf, before).1;
    || Skips(t, rf, before)
    || (v.At? && v.next < |t| && t[v.next] == PreSEEnumerate && c.status == Success && c.skip)
  }

  /** An entry ends with the status of its operation, except where there is none to have one:
      deinitialisation is taken to succeed, also in a redo; there is nothing to register when
      the host is to be off or card emulation is not supported; and nothing to turn off when
      no element is on. */
  lemma StatusDecides(e: Entry, rf: Rf, c: Choice)
    ensures var nothing := || e == Deinitialize || (e == PostInitialize && c.redo)
                           || (e == SENtfRegister && (!rf.hce || rf.hostInit == Off))
                           || (e == DisableSecureElements
                               && forall i :: 0 <= i < |rf.list| && rf.list[i].mode == On ==>
                                    rf.list[i].kind == DeviceHost);
            Handle(e, rf, c).1.status == if nothing then Success else c.status
  {
    if e == DisableSecureElements {
      var k := FirstActive(rf.list, 0);
      if k < |rf.list| { assert Active(rf.list[k]); }
      hide Updated;
    }
  }

  // ---------- the list after a recovery ----------

  /** The host's entry, in a mode, when card emulation is supported. */
  function HostEntry(hce: bool, mode: Mode): (l: seq<Element>) {
    if hce then [Element(0, DeviceHost, mode)] else []
  }

  /** In a recovery table elements are enumerated at 11, behind the entry that may skip it. */
  predicate EnumeratesLast(t: seq<Entry>) {
    && (forall i :: 0 <= i < |t| && i != 11 ==> t[i] != SEEnumerate)
    && (forall i :: 0 <= i < |t| && i != 10 ==> t[i] != PreSEEnumerate)
    && (|t| > 11 ==> |t| > 12 && t[10] == PreSEEnumerate && t[11] == SEEnumerate)
    && (|t| == 11 ==> t[10] != PreSEEnumerate)
  }

  ghost predicate ListInv(rf: Rf, v: Verdict, hce: bool, mode: Mode, skipped: bool) {
    v.At? ==>
      && rf.hce == hce
      && (v.next < REGISTERED ==> rf.hostInit == mode)
      && (3 <= v.next < REGISTERED ==> rf.list == [])
      && (REGISTERED <= v.next <= 11 ==> rf.list == HostEntry(hce, mode))
      && (REGISTERED <= v.next && hce ==> rf.hostInit == Off)
      && (v.next <= 11 ==> !skipped)
      && (v.next >= 12 ==> rf.list == HostEntry(hce, mode) + (if skipped then [] else rf.chip))
  }

  lemma EntryKeepsListInv(t: seq<Entry>, rf: Rf, next: nat, c: Choice, hce: bool, mode: Mode, skipped: bool)
    requires IsRecoveryTable(t) && EnumeratesLast(t) && next < |t| && ListInv(rf, At(next), hce, mode, skipped)
    ensures var (rf', o) := Handle(t[next], rf, c);
            var skips := t[next] == PreSEEnumerate && c.status == Success && c.skip;
            ListInv(rf', Advance(|t|, At(next), o), hce, mode, skipped || skips)
  {
    hide HandleDisable;
    if Plain(t[next]) && t[next] != SEEnumerate {
      OtherEntry(t[next], rf, c);
      hide Handle;
    } else if t[next] == SEEnumerate {
      assert HostEntry(hce, mode) + [] == HostEntry(hce, mode);
    } else if t[next] == PreSEEnumerate {
      assert HostEntry(hce, mode) + [] == HostEntry(hce, mode);
    }
  }

  lemma {:induction false} ExecKeepsListInv(t: seq<Entry>, rf: Rf, cs: seq<Choice>)
    requires IsRecoveryTable(t) && EnumeratesLast(t)
    ensures var (rf', v, _) := Exec(t, rf, cs);
            ListInv(rf', v, rf.hce, rf.hostInit, Skips(t, rf, cs))
    decreases |cs|
  {
    hide Handle, ListInv;
    if cs != [] {
      var before := cs[..|cs| - 1];
      var (rf1, v, _) := Exec(t, rf, before);
      ExecKeepsListInv(t, rf, before);
      if v.At? && v.next < |t| {
        EntryKeepsListInv(t, rf1, v.next, cs[|cs| - 1], rf.hce, rf.hostInit, Skips(t, rf, before));
      }
    } else {
      NothingListed(t, rf);
    }
  }

  lemma NothingListed(t: seq<Entry>, rf: Rf)
    ensures ListInv(rf, At(0), rf.hce, rf.hostInit, false)
  {
  }

  /** Every recovery that succeeds leaves exactly this list: the device host, on when it was
      on before and discovery is enabled and off otherwise, where card emulation is supported;
      and behind it what libnfc holds after this recovery's enumeration, unless discovery is
      disabled or the enumeration was skipped.  Nothing of the old list is left, and the mode
      that was to be restored is forgotten. */
  lemma RecoveredList(rf: Rf, cs: seq<Choice>)
    ensures var t := RecoverySequence(rf.discovery);
            var end := Exec(t, BeginRecovery(rf), cs).0;
            var wasOn := rf.list != [] && rf.list[0].kind == DeviceHost && rf.list[0].mode == On;
            Succeeds(t, Exec(t, BeginRecovery(rf), cs)) ==>
              && end.list ==
                   (if rf.hce then [Element(0, DeviceHost, if rf.discovery && wasOn then On else Off)] else [])
                   + (if rf.discovery && !Skips(t, BeginRecovery(rf), cs) then end.chip else [])
              && (rf.hce ==> end.hostInit == Off)
  {
    var t := RecoverySequence(rf.discovery);
    RecoveryTable(rf.discovery);
    RecoveryEnumerates(rf.discovery);
    ExecKeepsListInv(t, BeginRecovery(rf), cs);
    hide RecoverySequence, Exec, Skips;
    var mode := BeginRecovery(rf).hostInit;
    assert HostEntry(rf.hce, mode) + [] == HostEntry(rf.hce, mode);
  }

  lemma RecoveryEnumerates(discovery: bool)
    ensures EnumeratesLast(RecoverySequence(discovery))
    ensures |RecoverySequence(discovery)| == if discovery then 15 else 11
  {
    if discovery { var t := FullRecoveryTable(); } else { var t := ShortRecoveryTable(); }
    hide RecoverySequence;
  }

  /** An enumeration into an empty list leaves the host's slot zeroed, which reads as an
      element that is on: it is the first that would be turned off. */
  lemma EmptySlotReadsOn(rf: Rf)
    requires rf.hce && rf.list == []
    ensures Updated(rf).list[0].mode == On && Updated(rf).list[0].kind != DeviceHost
    ensures FirstActive(Updated(rf).list, 0) == 0 && Updated(rf).list[1..] == rf.chip
  {
    var l := Updated(rf).list;
    assert Active(l[0]);
  }

  // ---------- turning every secure element off ----------

  function ActiveCount(l: seq<Element>): (n: nat) {
    if l == [] then 0 else (if Active(l[0]) then 1 else 0) + ActiveCount(l[1..])
  }

  ghost predicate DistinctHandles(l: seq<Element>) {
    forall i, j :: 0 <= i < j < |l| ==> l[i].handle != l[j].handle
  }

  lemma {:induction false} ActiveCountZero(l: seq<Element>)
    ensures ActiveCount(l) == 0 <==> forall i :: 0 <= i < |l| ==> !Active(l[i])
  {
    if l != [] {
      ActiveCountZero(l[1..]);
      assert forall i :: 1 <= i < |l| ==> l[i] == l[1..][i - 1];
    }
  }

  /** Turning off one active element, found by its handle, leaves one fewer active. */
  lemma {:induction false} TurnOffCounts(l: seq<Element>, i: nat)
    requires DistinctHandles(l) && i < |l| && Active(l[i])
    ensures ActiveCount(TurnOff(l, l[i].handle)) == ActiveCount(l) - 1
    ensures DistinctHandles(TurnOff(l, l[i].handle))
    decreases |l|
  {
    var r := TurnOff(l, l[i].handle);
    assert r[1..] == TurnOff(l[1..], l[i].handle);
    if i > 0 {
      assert l[1..][i - 1] == l[i];
      TurnOffCounts(l[1..], i - 1);
    } else {
      assert r[1..] == l[1..];
    }
  }

  function HostPrefix(rf: Rf): (p: seq<Element>) {
    if rf.hce then [Host(Off)] else []
  }

  /** The list is the host's entry and, once enumerated, what libnfc holds. */
  ghost predicate InStep(rf: Rf) {
    && DistinctHandles(rf.chip)
    && (rf.list == HostPrefix(rf) || rf.list == HostPrefix(rf) + rf.chip)
  }

  lemma PrefixCounts(rf: Rf, l: seq<Element>)
    ensures ActiveCount(HostPrefix(rf) + l) == ActiveCount(l)
  {
    assert [Host(Off)] + l == ([Host(Off)] + l)[..1] + l && ([Host(Off)] + l)[1..] == l;
    assert [] + l == l;
  }

  lemma TurnOffIsUpdate(l: seq<Element>, i: nat)
    requires DistinctHandles(l) && i < |l|
    ensures TurnOff(l, l[i].handle) == l[i := l[i].(mode := Off)]
  {
  }

  lemma PrefixUpdate(p: seq<Element>, l: seq<Element>, i: nat, e: Element)
    requires i < |l|
    ensures p + l[i := e] == (p + l)[|p| + i := e]
  {
  }

  /** What libnfc turns off is the list's first active element, and no other. */
  lemma TurnOffInList(rf: Rf)
    requires InStep(rf) && FirstActive(rf.list, 0) < |rf.list|
    ensures var k := FirstActive(rf.list, 0);
            var off := TurnOff(rf.chip, rf.list[k].handle);
            && DistinctHandles(off)
            && HostPrefix(rf) + off == rf.list[k := rf.list[k].(mode := Off)]
            && ActiveCount(HostPrefix(rf) + off) == ActiveCount(rf.list) - 1
  {
    var k := FirstActive(rf.list, 0);
    var p := HostPrefix(rf);
    var i := k - |p|;
    assert rf.list == p + rf.chip && |p| <= k && rf.chip[i] == rf.list[k];
    hide FirstActive, ActiveCount, TurnOff;
    TurnOffCounts(rf.chip, i);
    TurnOffIsUpdate(rf.chip, i);
    PrefixUpdate(p, rf.chip, i, rf.list[k].(mode := Off));
    PrefixCounts(rf, rf.chip);
    PrefixCounts(rf, TurnOff(rf.chip, rf.list[k].handle));
  }

  /** One execution of the self-repeating entry: with nothing active it is over; otherwise
      exactly one element, the first active one, changes its mode and nothing else does. */
  lemma DisableEntry(rf: Rf, c: Choice)
    requires InStep(rf)
    ensures HandleDisable(rf, c).0.hce == rf.hce
    ensures var (rf', o) := HandleDisable(rf, c);
            var k := FirstActive(rf.list, 0);
            && InStep(rf') && DistinctHandles(rf'.chip)
            && (k == |rf.list| ==> ActiveCount(rf.list) == 0 && o == Outcome(Stay, Success) && rf' == rf)
            && (k < |rf.list| && c.status != Success ==> rf' == rf && o == Outcome(Stay, c.status))
            && (k < |rf.list| && c.status == Success ==>
                  && o == Outcome(Repeat(1), Success)
                  && ActiveCount(rf'.list) == ActiveCount(rf.list) - 1
                  && rf'.list == rf.list[k := rf.list[k].(mode := Off)])
  {
    if FirstActive(rf.list, 0) < |rf.list| {
      TurnOffInList(rf);
    } else {
      ActiveCountZero(rf.list);
    }
  }

  const DISABLE: nat := 10

  ghost predicate InitializeInv(rf: Rf, v: Verdict) {
    && DistinctHandles(rf.chip)
    && (v.At? ==>
          && v.next <= 11
          && (v.next < 6 ==> rf.hostInit == Off && (rf.hce || rf.list == []))
          && (6 <= v.next ==> InStep(rf))
          && (v.next > DISABLE ==> ActiveCount(rf.list) == 0))
  }

  /** What is used of the initial sequence: where its special entries are. */
  predicate IsInitialTable(t: seq<Entry>) {
    && |t| == 11 && t[2] == PostInitialize && t[5] == SENtfRegister && t[6] == PreSEEnumerate
    && t[7] == SEEnumerate && t[DISABLE] == DisableSecureElements
    && forall i :: 0 <= i < 11 ==> (Plain(t[i]) && t[i] != SEEnumerate) || i in {2, 5, 6, 7, DISABLE}
  }

  lemma InitialTable()
    ensures IsInitialTable(InitialSequence(true))
  {
    assert InitialSequence(true) ==
           [PreInitialize, Initialize, PostInitialize, RemoteDevNtfRegister, LlcpConfigure, SENtfRegister,
            PreSEEnumerate, SEEnumerate, PostSEEnumerate, SetDefaultRoutingTable, DisableSecureElements];
  }

  lemma OtherEntry(e: Entry, rf: Rf, c: Choice)
    requires Plain(e) && e != SEEnumerate
    ensures Handle(e, rf, c) == (rf, Outcome(Stay, c.status))
  {
  }

  lemma EnumerateKeepsStep(rf: Rf, c: Choice)
    requires InStep(rf) && Allowed(c)
    ensures var (rf', o) := Handle(SEEnumerate, rf, c);
            InStep(rf') && rf'.hce == rf.hce && o == Outcome(Stay, c.status)
  {
    assert rf.hce ==> rf.list[0] == Host(Off);
  }

  lemma RegisterBeginsStep(rf: Rf, c: Choice)
    requires rf.hostInit == Off && (rf.hce || rf.list == []) && DistinctHandles(rf.chip)
    ensures var (rf', o) := Handle(SENtfRegister, rf, c);
            InStep(rf') && rf'.hce == rf.hce && o.jump == Stay
  {
  }

  lemma EntryKeepsInitializeInv(t: seq<Entry>, rf: Rf, next: nat, c: Choice)
    requires IsInitialTable(t) && next <= DISABLE && InitializeInv(rf, At(next)) && Allowed(c)
    ensures var (rf', o) := Handle(t[next], rf, c);
            InitializeInv(rf', Advance(11, At(next), o)) && rf'.hce == rf.hce
  {
    hide HandleDisable, Updated, ActiveCount, FirstActive;
    if next == DISABLE {
      DisableEntry(rf, c);
    } else if next == 7 {
      EnumerateKeepsStep(rf, c);
    } else if next == 5 {
      RegisterBeginsStep(rf, c);
    } else if Plain(t[next]) {
      OtherEntry(t[next], rf, c);
    }
  }

  lemma ExecSnoc(t: seq<Entry>, rf: Rf, cs: seq<Choice>, c: Choice)
    ensures var (rf1, v, os) := Exec(t, rf, cs);
            Exec(t, rf, cs + [c]) ==
              if v.At? && v.next < |t| then
                var (rf2, o) := Handle(t[v.next], rf1, c);
                (rf2, Advance(|t|, v, o), os + [o])
              else (rf1, v, os)
  {
    assert (cs + [c])[..|cs|] == cs;
  }

  ghost predicate AllAllowed(cs: seq<Choice>) {
    forall i :: 0 <= i < |cs| ==> Allowed(cs[i])
  }

  /** Nothing is enumerated and the host is to start out off. */
  ghost predicate Idle(rf: Rf) {
    rf.hostInit == Off && rf.list == [] && DistinctHandles(rf.chip)
  }

  lemma {:induction false} ExecKeepsInitializeInv(t: seq<Entry>, rf: Rf, cs: seq<Choice>)
    requires IsInitialTable(t) && Idle(rf) && AllAllowed(cs)
    ensures InitializeInv(Exec(t, rf, cs).0, Exec(t, rf, cs).1) && Exec(t, rf, cs).0.hce == rf.hce
    decreases |cs|
  {
    hide InStep, ActiveCount, Handle;
    if cs != [] {
      var (rf1, v, _) := Exec(t, rf, cs[..|cs| - 1]);
      ExecKeepsInitializeInv(t, rf, cs[..|cs| - 1]);
      if v.At? && v.next < 11 { EntryKeepsInitializeInv(t, rf1, v.next, cs[|cs| - 1]); }
    }
  }

  const ENUMERATE: nat := 6

  /** What libnfc holds reaches the list with the enumeration, or not at all. */
  ghost predicate EnumerationInv(chip: seq<Element>, skipped: bool, rf: Rf, v: Verdict) {
    v.At? ==>
      && (v.next <= ENUMERATE + 1 ==> !skipped)
      && (v.next <= ENUMERATE ==> rf.chip == chip)
      && (ENUMERATE <= v.next <= ENUMERATE + 1 ==> rf.list == HostPrefix(rf))
      && (ENUMERATE + 2 <= v.next && skipped ==> rf.chip == chip && rf.list == HostPrefix(rf))
      && (ENUMERATE + 2 <= v.next && !skipped ==> rf.list == HostPrefix(rf) + rf.chip)
  }

  /** With nothing behind the host's entry there is nothing to turn off; otherwise the list
      is refreshed from what libnfc then holds. */
  lemma DisableKeepsList(rf: Rf, c: Choice)
    requires InStep(rf)
    ensures var (rf', o) := HandleDisable(rf, c);
            && rf'.hce == rf.hce && (o.status == Success ==> o.jump in {Stay, Repeat(1)})
            && (rf.list == HostPrefix(rf) ==> rf' == rf)
            && (rf.list == HostPrefix(rf) + rf.chip ==> rf'.list == HostPrefix(rf') + rf'.chip)
  {
    if FirstActive(rf.list, 0) < |rf.list| {
      TurnOffInList(rf);
    }
  }

  lemma EntryKeepsEnumerationInv(t: seq<Entry>, chip: seq<Element>, skipped: bool, rf: Rf, next: nat, c: Choice)
    requires IsInitialTable(t) && next <= DISABLE && InitializeInv(rf, At(next)) && Allowed(c)
    requires EnumerationInv(chip, skipped, rf, At(next))
    ensures var (rf', o) := Handle(t[next], rf, c);
            var skips := next == ENUMERATE && c.status == Success && c.skip;
            EnumerationInv(chip, skipped || skips, rf', Advance(11, At(next), o))
  {
    hide HandleDisable, ActiveCount, FirstActive;
    if next == DISABLE {
      DisableKeepsList(rf, c);
      if rf.list == HostPrefix(rf) && skipped { assert HandleDisable(rf, c).0 == rf; }
    } else if Plain(t[next]) && next != ENUMERATE + 1 {
      OtherEntry(t[next], rf, c);
    }
  }

  lemma {:induction false} ExecKeepsEnumerationInv(t: seq<Entry>, rf: Rf, cs: seq<Choice>)
    requires IsInitialTable(t) && Idle(rf) && AllAllowed(cs)
    ensures EnumerationInv(rf.chip, Skips(t, rf, cs), Exec(t, rf, cs).0, Exec(t, rf, cs).1)
    decreases |cs|
  {
    hide InStep, ActiveCount, Handle;
    if cs != [] {
      var (rf1, v, _) := Exec(t, rf, cs[..|cs| - 1]);
      ExecKeepsEnumerationInv(t, rf, cs[..|cs| - 1]);
      ExecKeepsInitializeInv(t, rf, cs[..|cs| - 1]);
      if v.At? && v.next < 11 {
        EntryKeepsEnumerationInv(t, rf.chip, Skips(t, rf, cs[..|cs| - 1]), rf1, v.next, cs[|cs| - 1]);
      }
    }
  }

  /** Only the device host may be on. */
  ghost predicate NoneActive(l: seq<Element>) {
    forall i :: 0 <= i < |l| && l[i].mode == On ==> l[i].kind == DeviceHost
  }

  /** Every initialisation that succeeds ends with no secure element on in the list and the
      device host's entry off, whatever was enumerated, redone or skipped.  None that libnfc
      holds is on then exactly when the enumeration was not skipped, or none was before:
      skipping leaves them as they were. */
  lemma InitializeTurnsAllOff(rf: Rf, cs: seq<Choice>)
    requires Idle(rf) && AllAllowed(cs)
    ensures var t := InitialSequence(true);
            var r := Exec(t, rf, cs);
            Succeeds(t, r) ==>
              && NoneActive(r.0.list)
              && (rf.hce ==> r.0.list != [] && r.0.list[0] == Host(Off))
              && (NoneActive(r.0.chip) <==> !Skips(t, rf, cs) || NoneActive(rf.chip))
              && (Skips(t, rf, cs) ==> r.0.chip == rf.chip)
  {
    InitialTable();
    hide InitialSequence;
    var t := InitialSequence(true);
    ExecKeepsInitializeInv(t, rf, cs);
    ExecKeepsEnumerationInv(t, rf, cs);
    var end := Exec(t, rf, cs).0;
    ActiveCountZero(end.list);
    PrefixCounts(end, end.chip);
    ActiveCountZero(end.chip);
  }

  /** A run that skips the enumeration and meets no failure. */
  function SkippingRun(): (cs: seq<Choice>) {
    Times(OK, ENUMERATE) + [OK.(skip := true), OK, OK, OK]
  }

  lemma SkippingRunSkips(rf: Rf)
    requires Idle(rf)
    ensures AllAllowed(SkippingRun())
    ensures Skips(InitialSequence(true), rf, SkippingRun())
    ensures Succeeds(InitialSequence(true), Exec(InitialSequence(true), rf, SkippingRun()))
  {
    InitialTable();
    var t := InitialSequence(true);
    hide InitialSequence, Exec, Handle, Times;
    var skip := OK.(skip := true);
    var cs := Times(OK, ENUMERATE);
    var cs1 := cs + [skip];
    var cs2 := cs1 + [OK];
    var cs3 := cs2 + [OK];
    assert SkippingRun() == cs3 + [OK];
    assert cs1[..|cs|] == cs && cs2[..|cs1|] == cs1 && cs3[..|cs2|] == cs2 && (cs3 + [OK])[..|cs3|] == cs3;
    RunsThrough(t, rf, ENUMERATE);
    assert Skips(t, rf, cs1) && Skips(t, rf, cs2) && Skips(t, rf, cs3);
    ExecSnoc(t, rf, cs, skip);
    NothingToEnumerate(Exec(t, rf, cs).0, skip);
    ExecSnoc(t, rf, cs1, OK);
    NoObjection(t[8], Exec(t, rf, cs1).0);
    ExecSnoc(t, rf, cs2, OK);
    NoObjection(t[9], Exec(t, rf, cs2).0);
    ExecSnoc(t, rf, cs3, OK);
    ExecKeepsInitializeInv(t, rf, cs3);
    ExecKeepsEnumerationInv(t, rf, cs3);
    NothingToDisable(Exec(t, rf, cs3).0);
  }

  lemma NothingToEnumerate(rf: Rf, c: Choice)
    requires c.status == Success && c.skip
    ensures Handle(PreSEEnumerate, rf, c) == (rf, Outcome(Skip(1), Success))
  {
  }

  lemma NothingToDisable(rf: Rf)
    requires rf.list == HostPrefix(rf)
    ensures Handle(DisableSecureElements, rf, OK) == (rf, Outcome(Stay, Success))
  {
  }

  /** Initialisation is sure to turn off all that libnfc holds exactly when nothing was on
      before: otherwise one that skips the enumeration, without any failure, leaves it on. */
  lemma InitializeIsSafeExactly(rf: Rf)
    requires Idle(rf)
    ensures var t := InitialSequence(true);
            (forall cs :: AllAllowed(cs) && Succeeds(t, Exec(t, rf, cs)) ==> NoneActive(Exec(t, rf, cs).0.chip))
            <==> NoneActive(rf.chip)
  {
    hide Exec, InitialSequence, NoneActive, Allowed;
    var t := InitialSequence(true);
    SkippingRunSkips(rf);
    InitializeTurnsAllOff(rf, SkippingRun());
    forall cs | AllAllowed(cs) && Succeeds(t, Exec(t, rf, cs)) && NoneActive(rf.chip)
      ensures NoneActive(Exec(t, rf, cs).0.chip)
    {
      InitializeTurnsAllOff(rf, cs);
    }
  }

  /** The self-repeating entry terminates: once it is reached, it runs at most once more
      than there are active elements, however the operations on them end. */
  lemma DisableTerminates(rf: Rf, cs: seq<Choice>, ds: seq<Choice>)
    requires Idle(rf) && AllAllowed(cs + ds)
    ensures var (rf1, v, _) := Exec(InitialSequence(true), rf, cs);
            v == At(DISABLE) && |ds| > ActiveCount(rf1.list) ==>
              var end := Exec(InitialSequence(true), rf, cs + ds).1;
              end == At(11) || end.Failed?
  {
    InitialTable();
    hide InitialSequence;
    if Exec(InitialSequence(true), rf, cs).1 == At(DISABLE) {
      DisableCountsDown(InitialSequence(true), rf, cs, ds);
    }
  }

  lemma SplitLast(cs: seq<Choice>, ds: seq<Choice>)
    requires ds != [] && AllAllowed(cs + ds)
    ensures var init := cs + ds[..|ds| - 1];
            cs + ds == init + [ds[|ds| - 1]] && AllAllowed(init)
  {
    var init := cs + ds[..|ds| - 1];
    assert (cs + ds)[..|init|] == init;
  }

  lemma DisableStep(t: seq<Entry>, rf: Rf, c: Choice)
    requires IsInitialTable(t) && InitializeInv(rf, At(DISABLE))
    ensures var (rf', o) := Handle(t[DISABLE], rf, c);
            var v := Advance(|t|, At(DISABLE), o);
            v.Failed? || v == At(11) || (v == At(DISABLE) && ActiveCount(rf'.list) == ActiveCount(rf.list) - 1)
  {
    hide HandleDisable, ActiveCount, FirstActive, InStep;
    DisableEntry(rf, c);
  }

  lemma {:induction false} DisableCountsDown(t: seq<Entry>, rf: Rf, cs: seq<Choice>, ds: seq<Choice>)
    requires IsInitialTable(t) && Idle(rf) && AllAllowed(cs + ds)
    requires Exec(t, rf, cs).1 == At(DISABLE)
    ensures var (rf', v, _) := Exec(t, rf, cs + ds);
            v.Failed? || v == At(11)
            || (v == At(DISABLE) && ActiveCount(rf'.list) + |ds| == ActiveCount(Exec(t, rf, cs).0.list))
    decreases |ds|
  {
    hide ActiveCount, FirstActive, InStep;
    if ds == [] {
      assert cs + ds == cs;
    } else {
      var init, last := ds[..|ds| - 1], ds[|ds| - 1];
      SplitLast(cs, ds);
      DisableCountsDown(t, rf, cs, init);
      ExecKeepsInitializeInv(t, rf, cs + init);
      ExecSnoc(t, rf, cs + init, last);
      var (rf1, v, _) := Exec(t, rf, cs + init);
      hide *;
      if v == At(DISABLE) { DisableStep(t, rf1, last); }
    }
  }

  // ---------- the handlers in place ----------

  /** The fields of the RF and libnfc contexts that these handlers update.  `chip` is what
      libnfc's list holds. */
  class RfInterface {
    const hce: bool
    const seList: array<Element>
    var seCount: nat
    var enableDiscovery: bool
    var deviceHostInitializationState: Mode
    var chip: seq<Element>

    /** Slots behind the count are not read, but for the host's when the list is empty. */
    ghost predicate Valid()
      reads this, seList
    {
      && seList.Length == MAX_NUMBER_OF_SE && seCount <= MAX_NUMBER_OF_SE
      && |chip| <= PHLIBNFC_MAXNO_OF_SE
      && (hce && seCount == 0 ==> seList[0] == ZERO)
    }

    ghost function State(): (rf: Rf)
      reads this, seList
      requires Valid()
    {
      Rf(hce, enableDiscovery, seList[..seCount], deviceHostInitializationState, chip)
    }

    constructor (hce: bool, discovery: bool)
      ensures Valid() && State() == Rf(hce, discovery, [], Off, []) && fresh(seList)
    {
      this.hce := hce;
      seList := new Element[MAX_NUMBER_OF_SE](_ => ZERO);
      seCount, enableDiscovery, deviceHostInitializationState := 0, discovery, Off;
      chip := [];
    }

    /** NfcCxRFInterfaceGetSEList into the list itself; `found` is what libnfc returns. */
    method UpdateSEList(found: seq<Element>)
      requires Valid() && found == chip
      modifies this`seCount, seList
      ensures Valid() && State() == Updated(old(State()))
    {
      var hceIndex := if hce then 1 else 0;
      for i := 0 to |found|
        invariant forall j :: 0 <= j < i ==> seList[hceIndex + j] == found[j]
        invariant hce ==> seList[0] == old(seList[0])
      {
        seList[hceIndex + i] := found[i];
      }
      seCount := hceIndex + |found|;
      assert seList[..seCount] == seList[..hceIndex] + found;
    }

    method DeinitializeCB()
      requires Valid()
      modifies this`seCount, seList
      ensures Valid() && State() == Wiped(old(State()))
    {
      seCount := 0;
      forall i | 0 <= i < seList.Length { seList[i] := ZERO; }
    }

    /** `registered` is the status of the card-emulation registration. */
    method SENtfRegister(registered: Status) returns (status: Status)
      requires Valid()
      modifies this`seCount, this`deviceHostInitializationState, seList
      ensures Valid()
      ensures (State(), Outcome(Stay, status)) ==
              Handle(Entry.SENtfRegister, old(State()), Choice(registered, false, false, []))
    {
      status := Success;
      if hce {
        seCount := 1;
        if deviceHostInitializationState == On {
          seList[0] := Element(0, DeviceHost, deviceHostInitializationState);
          status := registered;
        } else {
          seList[0] := Element(0, DeviceHost, Off);
        }
        deviceHostInitializationState := Off;
        assert seList[..1] == [seList[0]];
      }
    }

    /** The element to turn off, if there is one: the loop stops at the first that is on
        and is not the device host. */
    method DisableSecureElements() returns (target: Option<nat>)
      requires Valid()
      ensures var l := State().list;
              var k := FirstActive(l, 0);
              target == if k == |l| then None else Some(l[k].handle)
    {
      ghost var l := State().list;
      target := None;
      var i := 0;
      while i < seCount
        invariant 0 <= i <= seCount && target == None && FirstActive(l, 0) == FirstActive(l, i)
      {
        if seList[i].mode == Off || seList[i].kind == DeviceHost {
          i := i + 1;
          continue;
        }
        target := Some(seList[i].handle);
        break;
      }
    }

    /** The callback of SetMode, with libnfc's list after the operation.  `again` tells
        the sequence to run the entry again. */
    method DisableSecureElementsCB(status: Status, after: seq<Element>) returns (again: bool)
      requires Valid() && |after| <= PHLIBNFC_MAXNO_OF_SE
      modifies this`seCount, this`chip, seList
      ensures Valid() && State() == Updated(old(State()).(chip := after))
      ensures again <==> status == Success
    {
      chip := after;
      UpdateSEList(after);
      again := status == Success;
    }

    /** One execution of the entry as its sequence sees it, with libnfc's part in the
        middle: the operation ends with `status`, and on success turns its element off. */
    method RunDisableEntry(status: Status) returns (outcome: Outcome)
      requires Valid()
      modifies this`seCount, this`chip, seList
      ensures Valid()
      ensures (State(), outcome) == HandleDisable(old(State()), Choice(status, false, false, []))
    {
      var target := DisableSecureElements();
      if target == None {
        return Outcome(Stay, Success);
      }
      var after := if status == Success then TurnOff(chip, target.value) else chip;
      var again := DisableSecureElementsCB(status, after);
      outcome := Outcome(if again then Repeat(1) else Stay, status);
    }

    method StateRecovery() returns (sequence: seq<Entry>)
      requires Valid()
      modifies this`deviceHostInitializationState
      ensures Valid() && State() == BeginRecovery(old(State()))
      ensures sequence == RecoverySequence(enableDiscovery)
    {
      deviceHostInitializationState := Off;
      if enableDiscovery {
        if seCount > 0 && seList[0].kind == DeviceHost && seList[0].mode == On {
          deviceHostInitializationState := seList[0].mode;
        }
      }
      sequence := RecoverySequence(enableDiscovery);
    }
  }
}
