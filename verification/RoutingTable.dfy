/** The DTA listen-mode routing table: the light validation that precedes its conversion to
    libnfc's format, and what the conversion preserves. */
module RoutingTable {
  import opened Bytes

  const MAX_ROUTING_TABLE_SIZE: nat := 32
  const ISO_7816_MINIMUM_AID_LENGTH: nat := 5
  const ISO_7816_MAXIMUM_AID_LENGTH: nat := 16
  const NFC_DEP_PROTOCOL: byte := 0x05

  /** `aid` is the fixed buffer, of which the first `cbAid` bytes are meant. */
  datatype Entry =
    | Tech(element: nat, power: byte, tech: byte)
    | Protocol(element: nat, power: byte, protocol: byte)
    | Aid(element: nat, power: byte, cbAid: nat, aid: seq<byte>)
    | UnknownType(routingType: nat)

  datatype Value = TechBased(tech: byte) | ProtocolBased(protocol: byte) | AidBased(aidSize: byte, aid: seq<byte>)

  /** libnfc's entry: the three power bits are separate fields. */
  datatype Config = Config(element: nat, value: Value, switchedOn: byte, switchedOff: byte, batteryOff: byte)

  // ---------- what an entry means ----------

  datatype PowerState = SwitchedOn | SwitchedOff | BatteryOff

  datatype Target = ForTech(tech: byte) | ForProtocol(protocol: byte) | ForAid(aid: seq<byte>)

  /** Traffic for `target` goes to `element` in the power states of the set. */
  datatype Route = Route(element: nat, target: Target, states: set<PowerState>)

  /** bPowerState: bit 1 is switched on, bit 2 switched off, bit 3 battery off. */
  function StatesOfByte(p: byte): (s: set<PowerState>) {
    (if p % 2 == 1 then {SwitchedOn} else {})
    + (if p / 2 % 2 == 1 then {SwitchedOff} else {})
    + (if p / 4 % 2 == 1 then {BatteryOff} else {})
  }

  function EntryRoute(e: Entry): (r: Route)
    requires !e.UnknownType? && (e.Aid? ==> e.cbAid <= |e.aid|)
  {
    match e
    case Tech(se, p, t) => Route(se, ForTech(t), StatesOfByte(p))
    case Protocol(se, p, t) => Route(se, ForProtocol(t), StatesOfByte(p))
    case Aid(se, p, n, a) => Route(se, ForAid(a[..n]), StatesOfByte(p))
  }

  function ConfigRoute(c: Config): (r: Route) {
    Route(c.element,
          match c.value
          case TechBased(t) => ForTech(t)
          case ProtocolBased(t) => ForProtocol(t)
          case AidBased(n, a) => ForAid(if n as nat <= |a| then a[..n as nat] else a),
          (if c.switchedOn == 1 then {SwitchedOn} else {})
          + (if c.switchedOff == 1 then {SwitchedOff} else {})
          + (if c.batteryOff == 1 then {BatteryOff} else {}))
  }

  // ---------- validation ----------

  predicate ValidEntry(e: Entry) {
    match e
    case Tech(_, _, _) => true
    case Protocol(_, _, p) => p != NFC_DEP_PROTOCOL
    case Aid(_, _, n, _) => ISO_7816_MINIMUM_AID_LENGTH <= n <= ISO_7816_MAXIMUM_AID_LENGTH
    case UnknownType(_) => false
  }

  predicate ValidTable(t: seq<Entry>) {
    0 < |t| <= MAX_ROUTING_TABLE_SIZE && forall i :: 0 <= i < |t| ==> ValidEntry(t[i])
  }

  /** What validation is for: one to 32 routes, none of them for NFC-DEP, and application
      identifiers of the length that ISO/IEC 7816-4 gives them. */
  lemma ValidRoutes(t: seq<Entry>)
    requires forall i :: 0 <= i < |t| && t[i].Aid? ==> t[i].cbAid <= |t[i].aid|
    ensures ValidTable(t) <==>
              && 1 <= |t| <= 32
              && forall i :: 0 <= i < |t| ==>
                   && !t[i].UnknownType?
                   && EntryRoute(t[i]).target != ForProtocol(0x05)
                   && (EntryRoute(t[i]).target.ForAid? ==> 5 <= |EntryRoute(t[i]).target.aid| <= 16)
  {
    if ValidTable(t) {
      forall i | 0 <= i < |t| ensures !t[i].UnknownType? { assert ValidEntry(t[i]); }
    } else if 1 <= |t| <= 32 {
      var i :| 0 <= i < |t| && !ValidEntry(t[i]);
    }
  }

  /** The AID buffer of the structure. */
  predicate WellSized(t: seq<Entry>) {
    forall i :: 0 <= i < |t| && t[i].Aid? ==> |t[i].aid| == ISO_7816_MAXIMUM_AID_LENGTH
  }

  method Validate(t: array<Entry>) returns (ok: bool)
    ensures ok <==> ValidTable(t[..])
  {
    ok := 0 < t.Length <= MAX_ROUTING_TABLE_SIZE;
    var i := 0;
    while i < t.Length && ok
      invariant 0 <= i <= t.Length
      invariant ok <==> 0 < t.Length <= MAX_ROUTING_TABLE_SIZE && forall k :: 0 <= k < i ==> ValidEntry(t[k])
    {
      match t[i] {
        case Tech(_, _, _) =>
        case Protocol(_, _, p) =>
          if p == NFC_DEP_PROTOCOL {
            ok := false;
          }
        case Aid(_, _, n, _) =>
          if n < ISO_7816_MINIMUM_AID_LENGTH || n > ISO_7816_MAXIMUM_AID_LENGTH {
            ok := false;
          }
        case UnknownType(_) =>
          ok := false;
      }
      i := i + 1;
    }
  }

  // ---------- conversion ----------

  function Shifted(x: nat, places: nat): (y: nat) {
    if places == 0 then x else Shifted(x, places - 1) / 2
  }

  /** BIT_AT_POSITION. */
  function BitAt(x: byte, p: nat): (b: byte)
    requires 1 <= p
    ensures b <= 1
  {
    (Shifted(x as nat, p - 1) % 2) as byte
  }

  /** The three flags carry the low three bits of the power byte, and nothing else of it. */
  lemma PowerBits(p: byte)
    ensures BitAt(p, 1) as nat + 2 * BitAt(p, 2) as nat + 4 * BitAt(p, 3) as nat == p as nat % 8
    ensures BitAt(p, 1) == p % 2 && BitAt(p, 2) == p / 2 % 2 && BitAt(p, 3) == p / 4 % 2
  {
    var n := p as nat;
    assert Shifted(n, 0) == n;
    assert Shifted(n, 1) == n / 2;
    assert Shifted(n, 2) == Shifted(n, 1) / 2;
    LowBits(n);
  }

  lemma LowBits(n: nat)
    ensures n / 2 / 2 == n / 4
    ensures n % 2 + 2 * (n / 2 % 2) + 4 * (n / 4 % 2) == n % 8
  {
    var q, r := n / 8, n % 8;
    assert n == 8 * q + r;
    assert n / 2 == 4 * q + r / 2 && n / 4 == 2 * q + r / 4;
  }

  /** What the conversion preserves of one entry. */
  ghost predicate SameRoute(e: Entry, c: Config) {
    && !e.UnknownType? && (e.Aid? ==> e.cbAid <= |e.aid|)
    && ConfigRoute(c) == EntryRoute(e)
    && c.switchedOn as nat + 2 * c.switchedOff as nat + 4 * c.batteryOff as nat == e.power as nat % 8
    && (c.value.AidBased? ==> c.value.aidSize as nat == |c.value.aid|)
  }

  /** Where the conversion loop stands: its counter, which is a byte, and its status. */
  datatype Loop = Loop(i: byte, ok: bool)

  predicate IsRunning(t: seq<Entry>, l: Loop) {
    l.i as nat < |t| && l.ok
  }

  /** One execution of the loop body and of the increment behind it. */
  function Turn(t: seq<Entry>, l: Loop): (l': Loop)
    requires IsRunning(t, l)
  {
    if t[l.i].UnknownType? then Loop(l.i, false) else Loop(if l.i == 255 then 0 else l.i + 1, true)
  }

  /** The loop over a table, after at most `k` turns. */
  function After(t: seq<Entry>, k: nat): (l: Loop) {
    if k == 0 then Loop(0, true)
    else
      var l := After(t, k - 1);
      if IsRunning(t, l) then Turn(t, l) else l
  }

  /** The loop is over after at most `k` turns. */
  predicate HasEnded(t: seq<Entry>, k: nat) {
    !IsRunning(t, After(t, k))
  }

  /** Of a type known to the conversion, as far as a byte can count. */
  predicate KnownTypes(t: seq<Entry>) {
    forall j :: 0 <= j < |t| && j < 256 ==> !t[j].UnknownType?
  }

  lemma {:induction false} RunsRound(t: seq<Entry>, k: nat)
    requires |t| > 255 && KnownTypes(t)
    ensures After(t, k) == Loop((k % 256) as byte, true)
  {
    if k > 0 { RunsRound(t, k - 1); }
  }

  lemma {:induction false} RunsUpTo(t: seq<Entry>, k: nat)
    requires k <= |t| && k <= 255 && forall j :: 0 <= j < k ==> !t[j].UnknownType?
    ensures After(t, k) == Loop(k as byte, true)
  {
    if k > 0 { RunsUpTo(t, k - 1); }
  }

  /** The loop comes to its end exactly when the table has at most 255 entries, or one of the
      256 that it can count is of an unknown type; the validated bound of 32 is enough. */
  lemma ConvertEndsExactly(t: seq<Entry>)
    ensures (exists k :: HasEnded(t, k)) <==> |t| <= 255 || !KnownTypes(t)
  {
    if !KnownTypes(t) {
      var j := FirstUnknown(t, 0);
      RunsUpTo(t, j);
      var k := j + 1;
      assert HasEnded(t, k);
    } else if |t| <= 255 {
      var k := |t|;
      RunsUpTo(t, k);
      assert HasEnded(t, k);
    } else {
      forall k ensures !HasEnded(t, k) { RunsRound(t, k); }
    }
  }

  lemma FirstUnknown(t: seq<Entry>, from: nat) returns (j: nat)
    requires from <= |t| && !KnownTypes(t) && forall i :: 0 <= i < from ==> !t[i].UnknownType?
    ensures j < |t| && j < 256 && t[j].UnknownType? && forall i :: 0 <= i < j ==> !t[i].UnknownType?
    decreases |t| - from
  {
    if t[from].UnknownType? { j := from; } else { j := FirstUnknown(t, from + 1); }
  }

  /** A configuration with the flags of a power byte, for the same target, routes alike. */
  lemma SameTarget(e: Entry, p: byte, c: Config)
    requires ValidEntry(e) && p == e.power && (e.Aid? ==> e.cbAid <= |e.aid|)
    requires c.element == e.element
    requires match e
             case Tech(_, _, t) => c.value == TechBased(t)
             case Protocol(_, _, q) => c.value == ProtocolBased(q)
             case Aid(_, _, n, a) => c.value == AidBased(n as byte, a[..n])
    requires c.switchedOn == BitAt(p, 1) && c.switchedOff == BitAt(p, 2) && c.batteryOff == BitAt(p, 3)
    ensures SameRoute(e, c)
  {
    PowerBits(p);
    hide BitAt;
    if e.Aid? { assert e.aid[..e.cbAid][..e.cbAid] == e.aid[..e.cbAid]; }
  }

  lemma NoTurn(t: seq<Entry>)
    ensures After(t, 0) == Loop(0, true)
  {}

  lemma OneTurn(t: seq<Entry>, turns: nat, i: byte)
    requires ValidTable(t) && i as nat < |t| && After(t, turns) == Loop(i, true)
    ensures ValidEntry(t[i]) && !t[i].UnknownType? && (t[i].Aid? ==> t[i].cbAid <= ISO_7816_MAXIMUM_AID_LENGTH)
    ensures After(t, turns + 1) == Loop(i + 1, true)
  {}

  /** NfcCxDTAInterfaceConvertRoutingTable into `out`, after a successful validation; `turns`
      is how often its body was executed. */
  method Convert(t: array<Entry>, out: array<Config>) returns (ok: bool, ghost turns: nat)
    requires ValidTable(t[..]) && WellSized(t[..]) && t.Length <= out.Length
    modifies out
    ensures ok
    ensures forall k :: 0 <= k < t.Length ==> SameRoute(t[k], out[k])
    ensures out[t.Length..] == old(out[t.Length..])
    ensures After(t[..], turns) == Loop(t.Length as byte, ok)
  {
    hide ValidEntry, SameRoute, BitAt, After;
    ok, turns := true, 0;
    NoTurn(t[..]);
    var i: byte := 0;
    while i as nat < t.Length && ok
      invariant i as nat <= t.Length && ok && After(t[..], turns) == Loop(i, ok)
      invariant forall k :: 0 <= k < i as nat ==> SameRoute(t[k], out[k])
      invariant out[t.Length..] == old(out[t.Length..])
    {
      OneTurn(t[..], turns, i);
      match t[i] {
        case Tech(se, p, tech) =>
          out[i] := Config(se, TechBased(tech), BitAt(p, 1), BitAt(p, 2), BitAt(p, 3));
          SameTarget(t[i], p, out[i]);
        case Protocol(se, p, protocol) =>
          out[i] := Config(se, ProtocolBased(protocol), BitAt(p, 1), BitAt(p, 2), BitAt(p, 3));
          SameTarget(t[i], p, out[i]);
        case Aid(se, p, n, aid) =>
          assert t[..][i].Aid?;
          out[i] := Config(se, AidBased(n as byte, aid[..n]), BitAt(p, 1), BitAt(p, 2), BitAt(p, 3));
          SameTarget(t[i], p, out[i]);
        case UnknownType(_) =>
          ok := false;
          return;
      }
      i := i + 1;
      turns := turns + 1;
    }
  }
}
