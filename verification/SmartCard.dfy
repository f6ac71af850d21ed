/** The smart card reader: its one client, the connected card, the storage-card object with
    its cached ATR, the session flag and the client's power reference.  Each step is one
    section under SmartCardLock; steps of different threads interleave freely. */
module SmartCard {
  import opened Atr
  import opened Options

  type Id = nat

  predicate IsStorage(d: Device) {
    !d.Iso14443_4A? && !d.Iso14443_4B?
  }

  datatype Protocol = SelectMifare | SelectIso4A | InvalidProtocol

  /** What the framework answers: power reference taken, storage object, key object and key
      table allocated. */
  datatype Resources = Resources(power: bool, card: bool, key: bool, keyTable: bool)

  /** `storageCard` is the cached ATR of the storage-card object, empty until it is cached;
      `power` is PowerReferences[Proximity] of each file, `others` the part of it that is
      not taken here. */
  datatype Reader = Reader(
    connected: bool, client: Option<Id>, powerHeld: bool, session: bool,
    device: Device, storageCard: Option<seq<Byte>>, hasKey: bool,
    devices: seq<Device>, selected: nat,
    power: map<Id, int>, others: map<Id, nat>)

  const INITIAL: Reader :=
    Reader(false, None, false, false, OtherDevice(0), None, false, [], 0, map[], map[])

  function Power(s: Reader, c: Id): int {
    if c in s.power then s.power[c] else 0
  }

  function Others(s: Reader, c: Id): nat {
    if c in s.others then s.others[c] else 0
  }

  function AddPower(s: Reader, c: Id, n: int): (r: Reader) {
    s.(power := s.power[c := Power(s, c) + n])
  }

  // ---------- power reference pair ----------

  /** NfcCxSCEnsureCardConnectedPowerReferenceIsHeld. */
  function EnsureHeld(s: Reader, granted: bool): (r: Reader) {
    if s.client.Some? && !s.powerHeld && granted then AddPower(s, s.client.value, 1).(powerHeld := true) else s
  }

  /** NfcCxSCEnsureCardConnectedPowerReferenceIsReleased. */
  function EnsureReleased(s: Reader): (r: Reader) {
    if s.powerHeld && s.client.Some? then AddPower(s, s.client.value, -1).(powerHeld := false)
    else s.(powerHeld := false)
  }

  // ---------- steps ----------

  /** Steps of the reader's clients. */
  datatype ClientStep =
    | AddClient(c: Id)
    | RemoveClient(c: Id)
    | ResetCard                             // the tail of RemoveClient, outside the lock
    | CloseFile(c: Id)                      // power cleanup at the end of EvtFileClose
    | OtherReference(c: Id, add: bool)      // a reference taken or dropped elsewhere

  /** Steps of the radio. */
  datatype CardStep =
    | NewDevices(devices: seq<Device>)      // SetRemoteDevList
    | ClearDevices                          // ClearRemoteDevList
    | Established(r: Resources)
    | Lost

  /** Requests for the card. */
  datatype Request =
    | BeginTransmit
    | SwitchProtocol(p: Protocol, r: Resources)
    | ReadAtr(length: nat)

  datatype Step = ByClient(client: ClientStep) | ByCard(card: CardStep) | ByRequest(request: Request)

  /** What a request answers; `Fault` is the use of a storage-card object that is absent. */
  datatype Reply = Silent | NotConnected | Fault | Answer(status: Status, atr: seq<Byte>)

  ghost predicate Enabled(s: Reader, e: Step) {
    match e
    case ByClient(CloseFile(c)) => s.client != Some(c)
    case ByClient(OtherReference(c, add)) => add || Others(s, c) > 0
    case ByCard(NewDevices(ds)) => !s.connected && 0 < |ds| <= 255 && AllSized(ds)
    case ByCard(ClearDevices) => !s.connected
    case ByCard(Established(_)) => s.selected < |s.devices|
    case _ => true
  }

  /** NfcCxSCInterfaceLoadStorageClassFromAtrLocked, with whether it succeeded. */
  ghost function LoadStorageClass(s: Reader, r: Resources): (l: (Reader, bool))
    requires WellSized(s.device)
    ensures l.0 == s.(storageCard := l.0.storageCard, hasKey := l.0.hasKey)
  {
    if !s.connected || AtrFor(s.device, MAX_ATR_LENGTH).0 != Success then (s, false)
    else if !IsStorage(s.device) || s.storageCard.Some? then (s, true)
    else if !r.card then (s, false)
    else if !r.key then (s.(storageCard := Some([])), false)
    else (s.(storageCard := Some([]), hasKey := true), r.keyTable)
  }

  predicate OfType(d: Device, p: Protocol) {
    (p == SelectMifare && d.Mifare?) || (p == SelectIso4A && d.Iso14443_4A?)
  }

  /** NfcCxSCInterfaceGetIndexOfProtocolType, over the tail of the list from `i`. */
  ghost function FirstOf(ds: seq<Device>, p: Protocol, i: nat): (k: Option<nat>)
    requires i <= |ds|
    ensures k.Some? ==> i <= k.value < |ds| && OfType(ds[k.value], p)
    ensures k.Some? ==> forall j :: i <= j < k.value ==> !OfType(ds[j], p)
    ensures k.None? ==> forall j :: i <= j < |ds| ==> !OfType(ds[j], p)
    decreases |ds| - i
  {
    if i == |ds| then None else if OfType(ds[i], p) then Some(i) else FirstOf(ds, p, i + 1)
  }

  /** The least entry of the type. */
  predicate IsFirst(ds: seq<Device>, p: Protocol, k: nat) {
    k < |ds| && OfType(ds[k], p) && forall j :: 0 <= j < k ==> !OfType(ds[j], p)
  }

  predicate AllSized(ds: seq<Device>) {
    forall i :: 0 <= i < |ds| ==> WellSized(ds[i])
  }

  predicate Sized(s: Reader) {
    WellSized(s.device) && AllSized(s.devices)
  }

  ghost function NextByClient(s: Reader, e: ClientStep): (n: Reader) {
    match e
    case AddClient(c) => if s.client.Some? then s else s.(client := Some(c))
    case RemoveClient(c) => if s.client != Some(c) then s else EnsureReleased(s).(client := None)
    case ResetCard => s.(session := false)
    case CloseFile(c) => s.(power := s.power[c := 0], others := s.others[c := 0])
    case OtherReference(c, add) =>
      if add then AddPower(s, c, 1).(others := s.others[c := Others(s, c) + 1])
      else if Others(s, c) == 0 then s
      else AddPower(s, c, -1).(others := s.others[c := Others(s, c) - 1])
  }

  ghost function NextByCard(s: Reader, e: CardStep): (n: Reader)
    requires Sized(s) && Enabled(s, ByCard(e))
  {
    match e
    case NewDevices(ds) => s.(devices := ds, selected := 0)
    case ClearDevices => s.(devices := [])
    case Established(r) =>
      var s1 := s.(connected := true, device := s.devices[s.selected]);
      if s1.device.OtherDevice? then s1
      else
        var (s2, ok) := LoadStorageClass(s1, r);
        if ok then EnsureHeld(s2, r.power) else s2
    case Lost =>
      if !s.connected then s
      else
        EnsureReleased(s.(connected := false, session := false, device := OtherDevice(0),
                          storageCard := None, hasKey := false))
  }

  ghost function NextByRequest(s: Reader, e: Request): (n: (Reader, Reply))
    requires Sized(s)
  {
    match e
    case BeginTransmit => if s.connected then (s.(session := true), Silent) else (s, NotConnected)
    case SwitchProtocol(p, r) =>
      (match FirstOf(s.devices, p, 0)
       case None => (s, Silent)
       case Some(i) => (LoadStorageClass(s.(selected := i, device := s.devices[i]), r).0, Silent))
    case ReadAtr(n) =>
      if !s.connected then (s, NotConnected)
      else if IsStorage(s.device) && s.storageCard.None? then (s, Fault)
      else if IsStorage(s.device) && s.storageCard.value != [] then
        var atr := s.storageCard.value;
        (s, if n < |atr| then Answer(BufferTooSmall, []) else Answer(Success, atr))
      else
        var (status, atr) := AtrFor(s.device, n);
        (if status == Success && IsStorage(s.device) then s.(storageCard := Some(atr)) else s, Answer(status, atr))
  }

  ghost function Next(s: Reader, e: Step): (n: Reader)
    requires Sized(s) && Enabled(s, e)
  {
    match e
    case ByClient(f) => NextByClient(s, f)
    case ByCard(f) => NextByCard(s, f)
    case ByRequest(f) => NextByRequest(s, f).0
  }

  // ---------- what every run keeps ----------

  ghost predicate Inv(s: Reader) {
    && Sized(s)
    && Fields(s)
    && CacheInv(s)
  }

  /** The cross-field invariant. */
  predicate Fields(s: Reader) {
    && (s.powerHeld ==> s.client.Some? && s.connected)
    && (s.session ==> s.connected)
    && (s.storageCard.Some? ==> s.connected)
    && (s.hasKey ==> s.storageCard.Some?)
  }

  /** The power references of client `c` are those taken elsewhere, plus the reader's own
      one exactly while `c` is the current client and the reference is held. */
  predicate PowerFor(s: Reader, c: Id) {
    Power(s, c) == Others(s, c) + (if s.powerHeld && s.client == Some(c) then 1 else 0)
  }

  /** The entries that can ever be selected: the first one, which the notification selects,
      and the first of each type that a switch can name. */
  ghost predicate Selectable(ds: seq<Device>, i: nat) {
    i < |ds| && (i == 0 || FirstOf(ds, SelectMifare, 0) == Some(i) || FirstOf(ds, SelectIso4A, 0) == Some(i))
  }

  ghost predicate EncodedAt(ds: seq<Device>, atr: seq<Byte>, j: nat)
    requires AllSized(ds)
  {
    Selectable(ds, j) && IsStorage(ds[j]) && Encoding(ds[j]) == (Success, atr)
  }

  /** The connected device is the selected entry, and a cached ATR is the encoding of some
      storage card that can be selected. */
  ghost predicate CacheInv(s: Reader)
    requires Sized(s)
  {
    && (s.devices != [] ==> Selectable(s.devices, s.selected))
    && (s.connected ==> s.devices != [] && s.device == s.devices[s.selected])
    && (s.storageCard.Some? ==> !s.device.OtherDevice?)
    && (s.storageCard.Some? && s.storageCard.value != [] ==>
          exists j: nat :: EncodedAt(s.devices, s.storageCard.value, j))
  }

  lemma LoadKeeps(s: Reader, r: Resources)
    requires Inv(s)
    ensures var s' := LoadStorageClass(s, r).0;
            && Inv(s')
            && s'.power == s.power && s'.others == s.others && s'.powerHeld == s.powerHeld && s'.client == s.client
            && s'.connected == s.connected
  {
    hide AtrFor, Encoding;
  }

  lemma ClientStepKeepsInv(s: Reader, e: ClientStep)
    requires Inv(s)
    ensures Inv(NextByClient(s, e))
  {
    hide AtrFor, Encoding, FirstOf, Selectable, EncodedAt;
  }

  lemma RemoveClientKeepsPower(s: Reader, d: Id, c: Id)
    requires Fields(s) && PowerFor(s, c)
    ensures PowerFor(NextByClient(s, RemoveClient(d)), c)
  {
  }

  lemma OtherReferenceKeepsPower(s: Reader, d: Id, add: bool, c: Id)
    requires PowerFor(s, c)
    ensures PowerFor(NextByClient(s, OtherReference(d, add)), c)
  {
  }

  lemma ClientStepKeepsPower(s: Reader, e: ClientStep, c: Id)
    requires Fields(s) && Enabled(s, ByClient(e)) && PowerFor(s, c)
    ensures PowerFor(NextByClient(s, e), c)
  {
    match e
    case RemoveClient(d) => RemoveClientKeepsPower(s, d, c);
    case OtherReference(d, add) => OtherReferenceKeepsPower(s, d, add, c);
    case AddClient(_) =>
    case ResetCard =>
    case CloseFile(_) =>
  }

  lemma EnsureHeldKeepsInv(s: Reader, granted: bool)
    requires Inv(s) && s.connected
    ensures Inv(EnsureHeld(s, granted))
    ensures forall c :: PowerFor(s, c) ==> PowerFor(EnsureHeld(s, granted), c)
  {
    hide FirstOf, Selectable, EncodedAt, AtrFor, Encoding;
  }

  lemma ConnectKeepsInv(s: Reader)
    requires Inv(s) && s.selected < |s.devices|
    requires s.storageCard.Some? ==> !s.devices[s.selected].OtherDevice?
    ensures Inv(s.(connected := true, device := s.devices[s.selected]))
  {
    hide FirstOf, Selectable, EncodedAt, AtrFor, Encoding;
  }

  lemma EstablishedKeepsInv(s: Reader, r: Resources)
    requires Inv(s) && s.selected < |s.devices|
    ensures Inv(NextByCard(s, Established(r)))
    ensures forall c :: PowerFor(s, c) ==> PowerFor(NextByCard(s, Established(r)), c)
  {
    var s1 := s.(connected := true, device := s.devices[s.selected]);
    assert s.storageCard.Some? ==> s.connected && s.device == s.devices[s.selected];
    ConnectKeepsInv(s);
    assert Sized(s) && Sized(s1);
    if !s1.device.OtherDevice? {
      LoadKeeps(s1, r);
      var s2 := LoadStorageClass(s1, r).0;
      EnsureHeldKeepsInv(s2, r.power);
      forall c | PowerFor(s, c) ensures PowerFor(s2, c) { }
    }
    hide LoadStorageClass, Inv, EnsureHeld;
  }

  lemma CardStepKeepsInv(s: Reader, e: CardStep)
    requires Inv(s) && Enabled(s, ByCard(e))
    ensures Inv(NextByCard(s, e))
    ensures forall c :: PowerFor(s, c) ==> PowerFor(NextByCard(s, e), c)
  {
    hide AtrFor, Encoding;
    match e
    case Established(r) => EstablishedKeepsInv(s, r); hide NextByCard, Inv, PowerFor;
    case NewDevices(_) =>
    case ClearDevices =>
    case Lost =>
  }

  lemma RequestKeepsInv(s: Reader, e: Request)
    requires Inv(s)
    ensures Inv(NextByRequest(s, e).0)
    ensures forall c :: PowerFor(s, c) ==> PowerFor(NextByRequest(s, e).0, c)
  {
    hide AtrFor, Encoding;
    match e
    case BeginTransmit =>
    case SwitchProtocol(p, r) =>
      var k := FirstOf(s.devices, p, 0);
      if k.Some? {
        assert Selectable(s.devices, k.value);
        LoadKeeps(s.(selected := k.value, device := s.devices[k.value]), r);
      }
    case ReadAtr(n) =>
      var s' := NextByRequest(s, e).0;
      if s'.storageCard != s.storageCard {
        assert EncodedAt(s.devices, s'.storageCard.value, s.selected);
      }
  }

  lemma StepKeepsInv(s: Reader, e: Step)
    requires Inv(s) && Enabled(s, e)
    ensures Inv(Next(s, e))
    ensures forall c :: PowerFor(s, c) ==> PowerFor(Next(s, e), c)
  {
    match e
    case ByClient(f) =>
      ClientStepKeepsInv(s, f);
      forall c | PowerFor(s, c) ensures PowerFor(NextByClient(s, f), c) { ClientStepKeepsPower(s, f, c); }
    case ByCard(f) => CardStepKeepsInv(s, f);
    case ByRequest(f) => RequestKeepsInv(s, f);
  }

  // ---------- whole runs ----------

  ghost predicate Possible(s: Reader, es: seq<Step>)
    decreases |es|
  {
    es == [] || (Sized(s) && Enabled(s, es[0]) && Possible(Next(s, es[0]), es[1..]))
  }

  ghost function Run(s: Reader, es: seq<Step>): (r: Reader)
    requires Possible(s, es)
    decreases |es|
  {
    if es == [] then s else Run(Next(s, es[0]), es[1..])
  }

  /** Over every run: the cross-field invariant, and exact accounting of the power
      references of every client.  So the reference that is dropped is there to drop. */
  lemma {:induction false} RunKeepsInv(s: Reader, es: seq<Step>)
    requires Inv(s) && Possible(s, es) && forall c :: PowerFor(s, c)
    ensures Inv(Run(s, es)) && forall c :: PowerFor(Run(s, es), c)
    ensures Run(s, es).powerHeld ==> Power(Run(s, es), Run(s, es).client.value) >= 1
    decreases |es|
  {
    if es == [] {
      if s.powerHeld { assert PowerFor(s, s.client.value); }
    } else {
      StepKeepsInv(s, es[0]);
      RunKeepsInv(Next(s, es[0]), es[1..]);
    }
  }

  /** The state that binding the reader creates satisfies what the runs keep. */
  lemma InitialInv()
    ensures Inv(INITIAL) && forall c :: PowerFor(INITIAL, c)
  {
  }

  // ---------- what each step is for ----------

  /** A switch to MIFARE selects the first MIFARE entry of the list, whatever is selected, and
      one to ISO 14443-4A the first of that kind; the entry's information is the device then.
      With no such entry, or for another protocol, nothing changes. */
  lemma SwitchTakesEffect(s: Reader, p: Protocol, r: Resources, k: nat)
    requires Sized(s)
    ensures var s' := Next(s, ByRequest(SwitchProtocol(p, r)));
            && (p == SelectMifare && k < |s.devices| && s.devices[k].Mifare?
                  && (forall j :: 0 <= j < k ==> !s.devices[j].Mifare?) ==>
                  s'.selected == k && s'.device == s.devices[k])
            && (p == SelectIso4A && k < |s.devices| && s.devices[k].Iso14443_4A?
                  && (forall j :: 0 <= j < k ==> !s.devices[j].Iso14443_4A?) ==>
                  s'.selected == k && s'.device == s.devices[k])
            && (p == SelectMifare && (forall d :: d in s.devices ==> !d.Mifare?) ==> s' == s)
            && (p == SelectIso4A && (forall d :: d in s.devices ==> !d.Iso14443_4A?) ==> s' == s)
            && (p == InvalidProtocol ==> s' == s)
            && s'.devices == s.devices && s'.connected == s.connected
  {
    hide LoadStorageClass, AtrFor, Encoding;
    var f := FirstOf(s.devices, p, 0);
    if f.Some? { assert s.devices[f.value] in s.devices; }
  }

  /** A connected card has its storage class loaded: after a switch to MIFARE with everything
      granted it has its object and its key store, unless it had an object before. */
  lemma SwitchLoadsStorage(s: Reader, r: Resources)
    requires Inv(s) && s.connected && r.card && r.key && (exists k :: 0 <= k < |s.devices| && s.devices[k].Mifare?)
    ensures var s' := Next(s, ByRequest(SwitchProtocol(SelectMifare, r)));
            s'.storageCard.Some? && (s.storageCard.None? ==> s'.storageCard == Some([]) && s'.hasKey)
            && (s.storageCard.Some? ==> s'.storageCard == s.storageCard && s'.hasKey == s.hasKey)
  {
    hide Encoding;
  }

  predicate IsSupported(d: Device) {
    !d.OtherDevice? && !(d.Iso14443_4A? && |d.appData| > 43)
  }

  predicate NeedsObject(d: Device) {
    d.Jewel? || d.Felica? || d.Mifare? || d.Iso15693?
  }

  /** The storage class of a connected card is loaded exactly when the card is supported and
      what it needs is there. */
  lemma LoadsExactly(s: Reader, r: Resources)
    requires Sized(s) && s.connected && !s.device.OtherDevice?
    ensures LoadStorageClass(s, r).1 <==>
              && IsSupported(s.device)
              && (NeedsObject(s.device) && s.storageCard.None? ==> r.card && r.key && r.keyTable)
    ensures IsSupported(s.device) && NeedsObject(s.device) && r.card ==> LoadStorageClass(s, r).0.storageCard.Some?
    ensures IsSupported(s.device) && NeedsObject(s.device) && r.card && r.key && s.storageCard.None? ==>
              LoadStorageClass(s, r).0.hasKey
  {
    EncodedFits(s.device);
    hide AtrFor;
  }

  /** A card that is found is connected at the selected entry; the client's power reference is
      then held exactly when it was, or there is a client, the card is supported, what its
      storage class needs is there, and the framework grants it. */
  lemma ConnectionTakesPowerExactly(s: Reader, r: Resources)
    requires Inv(s) && s.selected < |s.devices|
    ensures var d := s.devices[s.selected];
            var s' := Next(s, ByCard(Established(r)));
            && s'.connected && s'.device == d && s'.session == s.session && s'.client == s.client
            && (s'.powerHeld <==>
                  s.powerHeld
                  || (s.client.Some? && r.power && IsSupported(d)
                      && (NeedsObject(d) && s.storageCard.None? ==> r.card && r.key && r.keyTable)))
            && (s'.powerHeld && !s.powerHeld ==> Power(s', s.client.value) == Power(s, s.client.value) + 1)
            && (IsSupported(d) && NeedsObject(d) && r.card ==> s'.storageCard.Some?)
            && (IsSupported(d) && NeedsObject(d) && r.card && r.key && s.storageCard.None? ==> s'.hasKey)
  {
    var s1 := s.(connected := true, device := s.devices[s.selected]);
    if !s1.device.OtherDevice? { LoadsExactly(s1, r); }
    hide LoadStorageClass, Inv;
  }

  lemma EncodedFits(d: Device)
    requires WellSized(d)
    ensures AtrFor(d, MAX_ATR_LENGTH).0 == Success <==> IsSupported(d)
  {
    AtrDecodesExactly(d);
  }

  /** Some `on` before `n`, and no `off` since. */
  ghost predicate Since(n: nat, on: nat -> bool, off: nat -> bool) {
    exists i: nat :: i < n && on(i) && forall j: nat :: i < j < n ==> !off(j)
  }

  lemma SinceNext(n: nat, on: nat -> bool, off: nat -> bool)
    ensures Since(n + 1, on, off) <==> on(n) || (Since(n, on, off) && !off(n))
  {
    if Since(n, on, off) && !off(n) {
      var i: nat :| i < n && on(i) && forall j: nat :: i < j < n ==> !off(j);
      assert i < n + 1 && on(i);
    }
  }

  /** The states that a run goes through. */
  ghost function StateAt(es: seq<Step>, i: nat): (s: Reader)
    requires Possible(INITIAL, es) && i <= |es|
  {
    PossiblePrefix(INITIAL, es, i);
    Run(INITIAL, es[..i])
  }

  lemma {:induction false} PossiblePrefix(s: Reader, es: seq<Step>, i: nat)
    requires Possible(s, es) && i <= |es|
    ensures Possible(s, es[..i])
    ensures i < |es| ==>
              && Sized(Run(s, es[..i])) && Enabled(Run(s, es[..i]), es[i]) && Possible(s, es[..i + 1])
              && Run(s, es[..i + 1]) == Next(Run(s, es[..i]), es[i])
    decreases i
  {
    hide Next, Enabled, Sized;
    if i == 0 {
      assert es[..0] == [];
      if |es| > 0 { assert es[..1][1..] == [] && es[..1][0] == es[0]; }
    } else {
      PossiblePrefix(Next(s, es[0]), es[1..], i - 1);
      assert es[..i][0] == es[0] && es[..i][1..] == es[1..][..i - 1];
      if i < |es| { assert es[..i + 1][0] == es[0] && es[..i + 1][1..] == es[1..][..i]; }
    }
  }

  /** What a step does to the client, the connection, the session and the list, field by field. */
  ghost predicate MovesFields(s: Reader, e: Step, s': Reader) {
    && s'.client == (if e.ByClient? && e.client.AddClient? && s.client.None? then Some(e.client.c)
                     else if e.ByClient? && e.client.RemoveClient? && s.client == Some(e.client.c) then None
                     else s.client)
    && (s'.connected <==> (e.ByCard? && e.card.Established?) || (s.connected && e != ByCard(Lost)))
    && (s'.session <==>
          (e == ByRequest(BeginTransmit) && s.connected)
          || (s.session && e != ByClient(ResetCard) && !(e == ByCard(Lost) && s.connected)))
    && (s'.devices == if e.ByCard? && e.card.NewDevices? then e.card.devices
                      else if e == ByCard(ClearDevices) then [] else s.devices)
  }

  lemma StepFields(s: Reader, e: Step)
    requires Sized(s) && Enabled(s, e)
    ensures MovesFields(s, e, Next(s, e))
  {
    match e
    case ByClient(f) => ClientFields(s, f); hide NextByCard, NextByRequest;
    case ByCard(f) => CardFields(s, f); hide NextByClient, NextByRequest;
    case ByRequest(f) => RequestFields(s, f); hide NextByClient, NextByCard;
  }

  lemma ClientFields(s: Reader, f: ClientStep)
    ensures MovesFields(s, ByClient(f), NextByClient(s, f))
  {
  }

  lemma CardFields(s: Reader, f: CardStep)
    requires Sized(s) && Enabled(s, ByCard(f))
    ensures MovesFields(s, ByCard(f), NextByCard(s, f))
  {
    hide LoadStorageClass;
  }

  lemma RequestFields(s: Reader, f: Request)
    requires Sized(s)
    ensures MovesFields(s, ByRequest(f), NextByRequest(s, f).0)
  {
    hide LoadStorageClass, AtrFor, FirstOf;
  }

  ghost predicate Connects(es: seq<Step>, i: nat) {
    i < |es| && es[i].ByCard? && es[i].card.Established?
  }

  ghost predicate Loses(es: seq<Step>, i: nat) {
    i < |es| && es[i] == ByCard(Lost)
  }

  /** Over every run the reader is connected exactly when a connection was reported and none
      lost since. */
  lemma {:induction false} ConnectedExactly(es: seq<Step>, n: nat)
    requires Possible(INITIAL, es) && n <= |es|
    ensures StateAt(es, n).connected <==> Since(n, (i: nat) => Connects(es, i), (i: nat) => Loses(es, i))
    decreases n
  {
    if n > 0 {
      ConnectedExactly(es, n - 1);
      PossiblePrefix(INITIAL, es, n - 1);
      StepFields(StateAt(es, n - 1), es[n - 1]);
      SinceNext(n - 1, (i: nat) => Connects(es, i), (i: nat) => Loses(es, i));
      hide Next, Since;
    } else {
      assert es[..0] == [];
    }
  }

  ghost predicate Adds(es: seq<Step>, c: Id, i: nat)
    requires Possible(INITIAL, es)
  {
    i < |es| && es[i] == ByClient(AddClient(c)) && StateAt(es, i).client.None?
  }

  ghost predicate Removes(es: seq<Step>, c: Id, i: nat) {
    i < |es| && es[i] == ByClient(RemoveClient(c))
  }

  /** Over every run a client is the current one exactly when it came when there was none and
      has not gone since. */
  lemma {:induction false} ClientExactly(es: seq<Step>, c: Id, n: nat)
    requires Possible(INITIAL, es) && n <= |es|
    ensures StateAt(es, n).client == Some(c) <==> Since(n, (i: nat) => Adds(es, c, i), (i: nat) => Removes(es, c, i))
    decreases n
  {
    if n > 0 {
      ClientExactly(es, c, n - 1);
      PossiblePrefix(INITIAL, es, n - 1);
      StepFields(StateAt(es, n - 1), es[n - 1]);
      SinceNext(n - 1, (i: nat) => Adds(es, c, i), (i: nat) => Removes(es, c, i));
      hide Next, Since;
    } else {
      assert es[..0] == [];
    }
  }

  ghost predicate Begins(es: seq<Step>, i: nat)
    requires Possible(INITIAL, es)
  {
    i < |es| && es[i] == ByRequest(BeginTransmit) && StateAt(es, i).connected
  }

  ghost predicate Ends(es: seq<Step>, i: nat)
    requires Possible(INITIAL, es)
  {
    i < |es| && (es[i] == ByClient(ResetCard) || (es[i] == ByCard(Lost) && StateAt(es, i).connected))
  }

  /** Over every run a session is open exactly when a transmission began with a card connected
      and the card has been neither reset nor lost since. */
  lemma {:induction false} SessionExactly(es: seq<Step>, n: nat)
    requires Possible(INITIAL, es) && n <= |es|
    ensures StateAt(es, n).session <==> Since(n, (i: nat) => Begins(es, i), (i: nat) => Ends(es, i))
    decreases n
  {
    if n > 0 {
      SessionExactly(es, n - 1);
      PossiblePrefix(INITIAL, es, n - 1);
      StepFields(StateAt(es, n - 1), es[n - 1]);
      SinceNext(n - 1, (i: nat) => Begins(es, i), (i: nat) => Ends(es, i));
      hide Next, Since;
    } else {
      assert es[..0] == [];
    }
  }

  /** References taken and dropped elsewhere count one each, and a file that is closed has none. */
  lemma OtherReferencesCount(s: Reader, c: Id, d: Id)
    ensures Power(NextByClient(s, OtherReference(c, true)), d) == Power(s, d) + (if d == c then 1 else 0)
    ensures Others(s, c) > 0 ==>
              Power(NextByClient(s, OtherReference(c, false)), d) == Power(s, d) - (if d == c then 1 else 0)
    ensures Power(NextByClient(s, CloseFile(c)), d) == if d == c then 0 else Power(s, d)
  {
  }

  /** A request without a card is refused; power is given back with the card or the client. */
  lemma WithoutCard(s: Reader, n: nat)
    requires Inv(s)
    ensures !s.connected ==> NextByRequest(s, ReadAtr(n)).1 == NotConnected
                             && NextByRequest(s, BeginTransmit).1 == NotConnected
    ensures s.connected ==> !Next(s, ByCard(Lost)).powerHeld
    ensures s.client.Some? ==> !Next(s, ByClient(RemoveClient(s.client.value))).powerHeld
    ensures s.powerHeld && s.connected ==>
              Power(Next(s, ByCard(Lost)), s.client.value) == Power(s, s.client.value) - 1
  {
    hide AtrFor, Encoding;
  }

  // ---------- the ATR cache ----------

  ghost predicate Faults(s: Reader)
    requires Sized(s)
  {
    NextByRequest(s, ReadAtr(0)).1 == Fault
  }

  /** An ATR read of any length answers what recomputing the ATR would, or faults. */
  ghost predicate Agrees(s: Reader)
    requires Sized(s)
  {
    s.connected && !Faults(s) ==>
      forall n :: NextByRequest(s, ReadAtr(n)).1 == Answer(AtrFor(s.device, n).0, AtrFor(s.device, n).1)
  }

  /** A list is ambiguous when its first entry is a storage card other than MIFARE, some
      entry is a MIFARE card, and the ATRs of the first entry and of the first MIFARE
      entry differ. */
  ghost predicate Ambiguous(ds: seq<Device>)
    requires AllSized(ds) && ds != []
  {
    var k := FirstOf(ds, SelectMifare, 0);
    IsStorage(ds[0]) && !ds[0].OtherDevice? && k.Some? && Encoding(ds[k.value]) != Encoding(ds[0])
  }

  /** Which lists are ambiguous can be read off them: those with a MIFARE entry behind a
      first entry of another kind of storage card.  Their ATRs do differ, in SS. */
  lemma AmbiguousExactly(ds: seq<Device>)
    requires AllSized(ds) && ds != []
    ensures Ambiguous(ds) <==>
              (ds[0].Jewel? || ds[0].Felica? || ds[0].Iso15693?) && exists k :: 0 <= k < |ds| && ds[k].Mifare?
  {
    hide Encoding;
    var k := FirstOf(ds, SelectMifare, 0);
    if (ds[0].Jewel? || ds[0].Felica? || ds[0].Iso15693?) && k.Some? {
      CardNameDecodes(ds[0]);
      CardNameDecodes(ds[k.value]);
      hide CardName, StorageHistorical, Parse, ParseCardName;
      assert [StandardByte(ds[0]), 0x00, CardName(ds[0])][0] == StandardByte(ds[0]);
      assert [StandardByte(ds[k.value]), 0x00, CardName(ds[k.value])][0] == 0x03;
      assert Encoding(ds[k.value]) != Encoding(ds[0]);
    }
  }

  /** No step of the run replaces or clears the list. */
  predicate KeepsDevices(es: seq<Step>) {
    forall i :: 0 <= i < |es| ==> !ChangesDevices(es[i])
  }

  predicate ChangesDevices(e: Step) {
    e.ByCard? && (e.card.NewDevices? || e.card.ClearDevices?)
  }

  lemma AgreementFromInv(s: Reader)
    requires Inv(s) && s.devices != [] && !Ambiguous(s.devices)
    ensures Agrees(s)
  {
    if s.connected && !Faults(s) && IsStorage(s.device) && s.storageCard.value != [] {
      var j: nat :| EncodedAt(s.devices, s.storageCard.value, j);
      assert Selectable(s.devices, s.selected);
    }
  }

  /** The state that a notification leaves behind: nothing connected, first entry selected. */
  ghost predicate Discovered(s: Reader) {
    Inv(s) && !s.connected && s.devices != [] && s.selected == 0
  }

  /** Every list can be discovered. */
  lemma EveryListIsDiscovered(ds: seq<Device>)
    requires 0 < |ds| <= 255 && AllSized(ds)
    ensures Enabled(INITIAL, ByCard(NewDevices(ds)))
    ensures Discovered(Next(INITIAL, ByCard(NewDevices(ds)))) && Next(INITIAL, ByCard(NewDevices(ds))).devices == ds
  {
    InitialInv();
    StepKeepsInv(INITIAL, ByCard(NewDevices(ds)));
  }

  lemma CardStepKeepsDevices(s: Reader, e: CardStep)
    requires Sized(s) && Enabled(s, ByCard(e)) && !ChangesDevices(ByCard(e))
    ensures NextByCard(s, e).devices == s.devices
  {
    hide AtrFor, Encoding, FirstOf, IsStorage, LoadStorageClass;
  }

  lemma RequestKeepsDevices(s: Reader, e: Request)
    requires Sized(s)
    ensures NextByRequest(s, e).0.devices == s.devices
  {
    hide AtrFor, Encoding, LoadStorageClass;
  }

  lemma StepKeepsDevices(s: Reader, e: Step)
    requires Sized(s) && Enabled(s, e) && !ChangesDevices(e)
    ensures Next(s, e).devices == s.devices
  {
    match e
    case ByClient(_) => hide NextByCard, NextByRequest, AllSized;
    case ByCard(f) => CardStepKeepsDevices(s, f); hide NextByCard;
    case ByRequest(f) => RequestKeepsDevices(s, f); hide NextByRequest;
  }

  lemma {:induction false} RunKeepsDevices(s: Reader, es: seq<Step>)
    requires Inv(s) && Possible(s, es) && KeepsDevices(es)
    ensures Inv(Run(s, es)) && Run(s, es).devices == s.devices
    decreases |es|
  {
    if es != [] {
      StepKeepsInv(s, es[0]);
      StepKeepsDevices(s, es[0]);
      RunKeepsDevices(Next(s, es[0]), es[1..]);
    }
  }

  lemma RunCons(s: Reader, e: Step, es: seq<Step>)
    requires Sized(s) && Enabled(s, e) && Possible(Next(s, e), es)
    ensures Possible(s, [e] + es) && Run(s, [e] + es) == Run(Next(s, e), es)
  {
    assert ([e] + es)[1..] == es;
  }

  const GRANTED := Resources(true, true, true, true)

  /** Connect, read the ATR, switch to MIFARE. */
  ghost function ReadThenSwitch(): (es: seq<Step>)
    ensures KeepsDevices(es)
  {
    [ByCard(Established(GRANTED)), ByRequest(ReadAtr(MAX_ATR_LENGTH)), ByRequest(BeginTransmit),
     ByRequest(SwitchProtocol(SelectMifare, GRANTED))]
  }

  /** What that run does: the first entry's ATR is cached, and still cached after the switch. */
  lemma SwitchKeepsCache(s: Reader)
    requires Discovered(s) && Ambiguous(s.devices)
    ensures var k := FirstOf(s.devices, SelectMifare, 0).value;
            var s1 := NextByCard(s, Established(GRANTED));
            var s2 := NextByRequest(s1, ReadAtr(MAX_ATR_LENGTH)).0;
            var s3 := NextByRequest(s2, BeginTransmit).0;
            var s4 := NextByRequest(s3, SwitchProtocol(SelectMifare, GRANTED)).0;
            && Sized(s1) && Sized(s2) && Sized(s3) && Sized(s4)
            && s4.device == s.devices[k] && s4.storageCard == Some(Encoding(s.devices[0]).1)
            && !Agrees(s4)
  {
    hide AtrFor, Encoding;
    var s1 := NextByCard(s, Established(GRANTED));
    assert s1.connected && s1.devices == s.devices && s1.device == s.devices[0] && s1.storageCard == Some([]);
    var s2 := NextByRequest(s1, ReadAtr(MAX_ATR_LENGTH)).0;
    assert s2 == s1.(storageCard := Some(Encoding(s.devices[0]).1));
    var s3 := NextByRequest(s2, BeginTransmit).0;
    var s4 := NextByRequest(s3, SwitchProtocol(SelectMifare, GRANTED)).0;
    assert NextByRequest(s4, ReadAtr(MAX_ATR_LENGTH)).1 == Answer(Success, Encoding(s.devices[0]).1);
  }

  lemma AmbiguousRunDisagrees(s: Reader)
    requires Discovered(s) && Ambiguous(s.devices)
    ensures Possible(s, ReadThenSwitch()) && Inv(Run(s, ReadThenSwitch())) && !Agrees(Run(s, ReadThenSwitch()))
  {
    hide NextByCard, NextByRequest, Agrees;
    var es := ReadThenSwitch();
    SwitchKeepsCache(s);
    var s1 := Next(s, es[0]);
    var s2 := Next(s1, es[1]);
    var s3 := Next(s2, es[2]);
    var s4 := Next(s3, es[3]);
    RunCons(s3, es[3], []);
    RunCons(s2, es[2], [es[3]]);
    RunCons(s1, es[1], [es[2], es[3]]);
    RunCons(s, es[0], [es[1], es[2], es[3]]);
    assert es == [es[0]] + ([es[1]] + ([es[2]] + ([es[3]] + [])));
    RunKeepsDevices(s, es);
  }

  /** While the discovered list stands, the cache agrees with recomputation in every state
      of every run exactly when the list is not ambiguous. */
  lemma CacheAgreesExactly(s: Reader)
    requires Discovered(s)
    ensures !Ambiguous(s.devices) <==>
            forall es :: KeepsDevices(es) && Possible(s, es) ==> Inv(Run(s, es)) && Agrees(Run(s, es))
  {
    if Ambiguous(s.devices) {
      AmbiguousRunDisagrees(s);
    } else {
      forall es | KeepsDevices(es) && Possible(s, es)
        ensures Inv(Run(s, es)) && Agrees(Run(s, es))
      {
        RunKeepsDevices(s, es);
        AgreementFromInv(Run(s, es));
      }
    }
  }

  // ---------- the absent storage-card object ----------

  /** Every storage-card object that is asked for is allocated. */
  predicate CardsGranted(es: seq<Step>) {
    forall i :: 0 <= i < |es| ==>
      && (es[i].ByCard? && es[i].card.Established? ==> es[i].card.r.card)
      && (es[i].ByRequest? && es[i].request.SwitchProtocol? ==> es[i].request.r.card)
  }

  ghost predicate CardPresent(s: Reader) {
    && Inv(s) && s.devices != [] && !s.devices[0].OtherDevice?
    && (s.connected && IsStorage(s.device) ==> s.storageCard.Some?)
  }

  lemma CardStepKeepsCardPresent(s: Reader, e: CardStep)
    requires CardPresent(s) && Enabled(s, ByCard(e)) && (e.Established? ==> e.r.card)
    ensures var s' := NextByCard(s, e); s'.connected && IsStorage(s'.device) ==> s'.storageCard.Some?
  {
    hide AtrFor, Encoding;
    if e.Established? {
      assert s.selected == 0 || !s.devices[s.selected].OtherDevice?;
    }
  }

  lemma RequestKeepsCardPresent(s: Reader, e: Request)
    requires CardPresent(s) && (e.SwitchProtocol? ==> e.r.card)
    ensures var s' := NextByRequest(s, e).0; s'.connected && IsStorage(s'.device) ==> s'.storageCard.Some?
  {
    hide AtrFor, Encoding, Selectable, EncodedAt;
  }

  lemma StepKeepsCardPresent(s: Reader, e: Step)
    requires CardPresent(s) && Enabled(s, e) && KeepsDevices([e]) && CardsGranted([e])
    ensures CardPresent(Next(s, e))
  {
    assert [e][0] == e;
    StepKeepsInv(s, e);
    StepKeepsDevices(s, e);
    hide Inv;
    match e
    case ByClient(_) =>
    case ByCard(f) => CardStepKeepsCardPresent(s, f); hide NextByCard;
    case ByRequest(f) => RequestKeepsCardPresent(s, f); hide NextByRequest;
  }

  lemma {:induction false} RunKeepsCardPresent(s: Reader, es: seq<Step>)
    requires CardPresent(s) && Possible(s, es) && KeepsDevices(es) && CardsGranted(es)
    ensures CardPresent(Run(s, es))
    decreases |es|
  {
    if es != [] {
      assert KeepsDevices([es[0]]) && CardsGranted([es[0]]);
      StepKeepsCardPresent(s, es[0]);
      RunKeepsCardPresent(Next(s, es[0]), es[1..]);
    }
  }

  /** The assertion that a connected storage card has its object: it holds in every run in
      which allocation succeeds exactly when the first discovered entry is of a supported
      type.  An unsupported first entry is connected all the same, counts as a storage
      card, and has no object. */
  lemma NoFaultExactly(s: Reader)
    requires Discovered(s)
    ensures !s.devices[0].OtherDevice? <==>
            forall es :: KeepsDevices(es) && CardsGranted(es) && Possible(s, es) ==>
              Inv(Run(s, es)) && !Faults(Run(s, es))
  {
    if s.devices[0].OtherDevice? {
      var e := ByCard(Established(GRANTED));
      StepKeepsInv(s, e);
      assert Possible(Next(s, e), []);
      assert KeepsDevices([e]) && CardsGranted([e]) && Possible(s, [e]);
      assert Run(s, [e]) == Next(s, e);
      assert Faults(Next(s, e));
    } else {
      forall es | KeepsDevices(es) && CardsGranted(es) && Possible(s, es)
        ensures Inv(Run(s, es)) && !Faults(Run(s, es))
      {
        RunKeepsCardPresent(s, es);
      }
    }
  }
}
