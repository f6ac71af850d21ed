/** Two byte formats of the DTA interface: the EVT_TRANSACTION event data, and the packed
    service names of an LLCP service discovery. */
module Codecs {
  import opened Bytes
  import opened Options

  const EVT_TRANSACTION_AID: byte := 0x81
  const EVT_TRANSACTION_PARAM: byte := 0x82
  const UCHAR_MAX: nat := 255

  // ---------- EVT_TRANSACTION ----------

  type Item = (byte, seq<byte>)

  /** One field with a one-byte length; an empty field is left out. */
  ghost function Tlv(tag: byte, value: seq<byte>): (s: seq<byte>)
    requires |value| <= UCHAR_MAX
  {
    if value == [] then [] else [tag, |value| as byte] + value
  }

  ghost function EventData(aid: seq<byte>, param: seq<byte>): (s: seq<byte>)
    requires |aid| <= UCHAR_MAX && |param| <= UCHAR_MAX
  {
    Tlv(EVT_TRANSACTION_AID, aid) + Tlv(EVT_TRANSACTION_PARAM, param)
  }

  datatype Header = Header(size: nat, length: nat)

  /** A length of one byte, as the event data is written. */
  function ByteHeader(s: seq<byte>): (h: Option<Header>) {
    if |s| < 2 then None else Some(Header(2, s[1] as nat))
  }

  /** A definite length in the basic encoding rules (section 8.1.3 of ITU-T X.690): up to
      127 in one byte, otherwise a byte that counts the length bytes behind it. */
  function BerHeader(s: seq<byte>): (h: Option<Header>) {
    if |s| < 2 || s[1] == 0x80 then None
    else if s[1] < 0x80 then Some(Header(2, s[1] as nat))
    else
      var n := (s[1] - 0x80) as nat;
      if |s| < 2 + n then None else Some(Header(2 + n, Number(s[2..2 + n])))
  }

  function Number(s: seq<byte>): (n: nat) {
    if s == [] then 0 else 256 * Number(s[..|s| - 1]) + s[|s| - 1] as nat
  }

  /** The fields of a byte string, under either reading of the length. */
  function Items(s: seq<byte>, ber: bool): (items: Option<seq<Item>>)
    decreases |s|
  {
    if s == [] then Some([])
    else
      match (if ber then BerHeader(s) else ByteHeader(s))
      case None => None
      case Some(Header(size, length)) =>
        if |s| < size + length || size == 0 then None
        else match Items(s[size + length..], ber)
             case None => None
             case Some(rest) => Some([(s[0], s[size..size + length])] + rest)
  }

  /** The first field with a tag, empty when there is none. */
  function Field(items: seq<Item>, tag: byte): (value: seq<byte>) {
    if items == [] then [] else if items[0].0 == tag then items[0].1 else Field(items[1..], tag)
  }

  /** What a reader recovers: the AID and the parameters. */
  function Decode(s: seq<byte>, ber: bool): (r: Option<(seq<byte>, seq<byte>)>) {
    match Items(s, ber)
    case None => None
    case Some(items) => Some((Field(items, EVT_TRANSACTION_AID), Field(items, EVT_TRANSACTION_PARAM)))
  }

  ghost predicate Readable(value: seq<byte>, ber: bool) {
    |value| <= (if ber then 127 else 255)
  }

  lemma OneField(tag: byte, value: seq<byte>, rest: seq<byte>, ber: bool)
    requires value != [] && Readable(value, ber)
    requires Items(rest, ber).Some?
    ensures Items(Tlv(tag, value) + rest, ber) == Some([(tag, value)] + Items(rest, ber).value)
  {
    var s := Tlv(tag, value) + rest;
    assert s[1] as nat == |value|;
    assert s[2..2 + |value|] == value && s[2 + |value|..] == rest;
  }

  lemma ReadableDecodes(aid: seq<byte>, param: seq<byte>, ber: bool)
    requires Readable(aid, ber) && Readable(param, ber)
    ensures Decode(EventData(aid, param), ber) == Some((aid, param))
  {
    var p := Tlv(EVT_TRANSACTION_PARAM, param);
    var last: Item := (EVT_TRANSACTION_PARAM, param);
    var items: seq<Item> := if param == [] then [] else [last];
    assert Items(p, ber) == Some(items) by {
      if param != [] {
        OneField(EVT_TRANSACTION_PARAM, param, [], ber);
        assert p + [] == p;
        assert [last] + [] == [last];
      }
    }
    assert items != [] ==> items[1..] == [];
    assert Field(items, EVT_TRANSACTION_PARAM) == param && Field(items, EVT_TRANSACTION_AID) == [];
    if aid != [] {
      OneField(EVT_TRANSACTION_AID, aid, p, ber);
      var first: Item := (EVT_TRANSACTION_AID, aid);
      assert ([first] + items)[1..] == items && ([first] + items)[0] == first;
      assert Items(EventData(aid, param), ber) == Some([first] + items);
    } else {
      assert EventData(aid, param) == p;
    }
  }

  /** The bytes that a field takes at least, under either reading. */
  function FieldSize(value: seq<byte>, ber: bool): (n: nat) {
    if value == [] then 0 else |value| + (if ber && |value| > 127 then 3 else 2)
  }

  /** Behind the first field stand the others. */
  lemma FirstItem(s: seq<byte>, items: seq<Item>, ber: bool) returns (rest: seq<byte>)
    requires s != [] && Items(s, ber) == Some(items)
    ensures items != [] && Items(rest, ber) == Some(items[1..])
    ensures |rest| < |s| && |s| >= FieldSize(items[0].1, ber) + |rest|
  {
    var h := (if ber then BerHeader(s) else ByteHeader(s)).value;
    rest := s[h.size + h.length..];
    assert items[1..] == Items(rest, ber).value;
  }

  lemma OneFieldSize(s: seq<byte>, items: seq<Item>, tag: byte, ber: bool)
    requires Items(s, ber) == Some(items)
    ensures |s| >= FieldSize(Field(items, tag), ber)
    decreases |s|
  {
    if s != [] {
      hide Items, FieldSize;
      var rest := FirstItem(s, items, ber);
      OneFieldSize(rest, items[1..], tag, ber);
    }
  }

  lemma TwoFieldsSize(s: seq<byte>, items: seq<Item>, tag: byte, tag': byte, ber: bool)
    requires Items(s, ber) == Some(items) && tag != tag'
    ensures |s| >= FieldSize(Field(items, tag), ber) + FieldSize(Field(items, tag'), ber)
    decreases |s|
  {
    if s != [] {
      hide Items, FieldSize;
      var rest := FirstItem(s, items, ber);
      OneFieldSize(rest, items[1..], tag, ber);
      OneFieldSize(rest, items[1..], tag', ber);
      TwoFieldsSize(rest, items[1..], tag, tag', ber);
    }
  }

  /** No reading of fewer bytes than the fields take gives both fields. */
  lemma DecodedFits(s: seq<byte>, aid: seq<byte>, param: seq<byte>, ber: bool)
    requires Decode(s, ber) == Some((aid, param))
    ensures |s| >= FieldSize(aid, ber) + FieldSize(param, ber)
  {
    TwoFieldsSize(s, Items(s, ber).value, EVT_TRANSACTION_AID, EVT_TRANSACTION_PARAM, ber);
  }

  /** A reader of the basic encoding recovers both fields exactly when both are at most 127
      bytes long, though the event data is called BER-TLV. */
  lemma BerReaderAgreesExactly(aid: seq<byte>, param: seq<byte>)
    requires |aid| <= UCHAR_MAX && |param| <= UCHAR_MAX
    ensures Decode(EventData(aid, param), true) == Some((aid, param)) <==> |aid| <= 127 && |param| <= 127
  {
    if |aid| <= 127 && |param| <= 127 {
      ReadableDecodes(aid, param, true);
    } else if Decode(EventData(aid, param), true) == Some((aid, param)) {
      DecodedFits(EventData(aid, param), aid, param, true);
    }
  }

  // ---------- the record around the event data, and the block it is written into ----------

  /** The size of a handle: 8 bytes on a 64-bit build, 4 on a 32-bit one. */
  type PointerSize = p: nat | p == 4 || p == 8 witness 8

  /** SECURE_ELEMENT_EVENT_INFO_HEADER: a GUID and two DWORDs.  It is the size of the block,
      though the record written into it is an NFC_SE_EVENT_INFO. */
  const BLOCK_SIZE: nat := 24

  const EXTERNAL_READER_ARRIVAL: nat := 0
  const EXTERNAL_READER_DEPARTURE: nat := 1
  const TRANSACTION: nat := 3

  /** Where the event data starts in an NFC_SE_EVENT_INFO: behind an identifier and two DWORDs. */
  function DataOffset(p: nat): (n: nat) { p + 8 }

  /** What the block leaves for event data. */
  function Capacity(p: PointerSize): (n: nat) { BLOCK_SIZE - DataOffset(p) }

  function EventSize(aid: seq<byte>, param: seq<byte>): (n: nat) {
    FieldSize(aid, false) + FieldSize(param, false)
  }

  /** The whole record as it is laid out in memory. */
  ghost function Record(handle: seq<byte>, eventType: nat, data: seq<byte>): (s: seq<byte>)
    requires eventType < ULONG_LIMIT && |data| < ULONG_LIMIT
  {
    handle + Le32(eventType) + Le32(|data|) + data
  }

  function Zeros(n: nat): (s: seq<byte>)
    ensures |s| == n
  {
    seq(n, _ => 0)
  }

  /** The record over the zeroed block: a short record leaves zeros behind it. */
  ghost function Filled(record: seq<byte>): (s: seq<byte>) {
    if |record| >= BLOCK_SIZE then record else record + Zeros(BLOCK_SIZE - |record|)
  }

  /** What a client is given: the block and no more. */
  ghost function Delivered(record: seq<byte>): (s: seq<byte>)
    ensures |s| == BLOCK_SIZE
  {
    Filled(record)[..BLOCK_SIZE]
  }

  /** A client that reads a record behind an identifier of `p` bytes, and insists on the
      announced length (`strict`) or takes what is there. */
  function ReadEvent(p: nat, s: seq<byte>, ber: bool, strict: bool): (r: Option<(seq<byte>, seq<byte>)>) {
    if |s| < DataOffset(p) then None
    else
      var end := DataOffset(p) + FromLe32(s[p + 4..p + 8]);
      if end <= |s| then Decode(s[DataOffset(p)..end], ber)
      else if strict then None
      else Decode(s[DataOffset(p)..], ber)
  }

  lemma EventDataSize(aid: seq<byte>, param: seq<byte>)
    requires |aid| <= UCHAR_MAX && |param| <= UCHAR_MAX
    ensures |EventData(aid, param)| == EventSize(aid, param)
  {}

  /** Where the block is allocated with the size of the fields added, as the secure-element
      interface does behind its 16-byte identifier, the client recovers both fields always. */
  lemma EventDataRoundTrip(guid: seq<byte>, aid: seq<byte>, param: seq<byte>, strict: bool)
    requires |guid| == 16 && |aid| <= UCHAR_MAX && |param| <= UCHAR_MAX
    ensures var record := Record(guid, TRANSACTION, EventData(aid, param));
            && |record| == BLOCK_SIZE + EventSize(aid, param)
            && ReadEvent(16, record, false, strict) == Some((aid, param))
  {
    var data := EventData(aid, param);
    var r := Record(guid, TRANSACTION, data);
    EventDataSize(aid, param);
    Le32RoundTrip(|data|);
    ReadableDecodes(aid, param, false);
    assert r[20..24] == Le32(|data|) && r[24..] == data;
    assert r[24..24 + |data|] == data;
  }

  lemma DeliveredParts(p: PointerSize, handle: seq<byte>, eventType: nat, data: seq<byte>)
    requires |handle| == p && eventType < ULONG_LIMIT && |data| < ULONG_LIMIT
    ensures var s := Delivered(Record(handle, eventType, data));
            && FromLe32(s[p + 4..p + 8]) == |data|
            && (|data| <= Capacity(p) ==> s[DataOffset(p)..DataOffset(p) + |data|] == data)
  {
    hide FromLe32;
    var r := Record(handle, eventType, data);
    var s := Delivered(r);
    Le32RoundTrip(|data|);
    assert forall i :: 0 <= i < BLOCK_SIZE && i < |r| ==> s[i] == r[i];
    hide Delivered, Le32;
    assert r == (handle + Le32(eventType)) + Le32(|data|) + data;
    assert s[p + 4..p + 8] == r[p + 4..p + 8] == Le32(|data|);
    if |data| <= Capacity(p) {
      assert s[DataOffset(p)..DataOffset(p) + |data|] == r[DataOffset(p)..] == data;
    }
  }

  /** Through the block of 24 bytes a client recovers both fields, by either reading and
      whether or not it insists on the announced length, exactly when they fit behind the
      header: 8 bytes are left on a 64-bit build and 12 on a 32-bit one. */
  lemma DeliveredExactly(p: PointerSize, handle: seq<byte>, aid: seq<byte>, param: seq<byte>, ber: bool, strict: bool)
    requires |handle| == p && |aid| <= UCHAR_MAX && |param| <= UCHAR_MAX
    ensures var record := Record(handle, TRANSACTION, EventData(aid, param));
            && (ReadEvent(p, Delivered(record), ber, strict) == Some((aid, param))
                <==> EventSize(aid, param) <= Capacity(p))
            && (|record| <= BLOCK_SIZE <==> EventSize(aid, param) <= Capacity(p))
  {
    var data := EventData(aid, param);
    var s := Delivered(Record(handle, TRANSACTION, data));
    EventDataSize(aid, param);
    DeliveredParts(p, handle, TRANSACTION, data);
    if EventSize(aid, param) <= Capacity(p) {
      ReadableDecodes(aid, param, ber);
    } else if ReadEvent(p, s, ber, strict) == Some((aid, param)) {
      DecodedFits(s[DataOffset(p)..], aid, param, ber);
    }
  }

  /** Application identifiers are 5 to 16 bytes long.  On a 64-bit build every one of 7 bytes
      or more, whatever the parameters, leaves the block by its length less 6 and is lost. */
  lemma LongAidIsLost(handle: seq<byte>, aid: seq<byte>, param: seq<byte>, ber: bool, strict: bool)
    requires |handle| == 8 && 7 <= |aid| <= 16 && |param| <= UCHAR_MAX
    ensures var record := Record(handle, TRANSACTION, EventData(aid, param));
            && |record| >= BLOCK_SIZE + |aid| - 6
            && ReadEvent(8, Delivered(record), ber, strict) != Some((aid, param))
  {
    EventDataSize(aid, param);
    DeliveredExactly(8, handle, aid, param, ber, strict);
  }

  /** The record, byte by byte: the handle, the event type, the AID behind its tag 0x81 and
      its length, then the parameters behind theirs, 0x82. */
  lemma RecordLayout(p: PointerSize, handle: seq<byte>, aid: seq<byte>, param: seq<byte>)
    requires |handle| == p && |aid| <= UCHAR_MAX && |param| <= UCHAR_MAX
    ensures var r := Record(handle, TRANSACTION, EventData(aid, param));
            var data := r[DataOffset(p)..];
            var rest := if aid == [] then data else data[2 + |aid|..];
            && r[..p] == handle && FromLe32(r[p..p + 4]) == 3 && r[p] == 3
            && (aid != [] ==> data[0] == 0x81 && data[1] as nat == |aid| && data[2..2 + |aid|] == aid)
            && (param != [] ==>
                  |rest| == 2 + |param| && rest[0] == 0x82 && rest[1] as nat == |param| && rest[2..] == param)
            && (param == [] ==> rest == [])
  {
    var data := EventData(aid, param);
    var r := Record(handle, TRANSACTION, data);
    EventDataSize(aid, param);
    Le32RoundTrip(TRANSACTION);
    LeastFirst(TRANSACTION);
    hide Le32, FromLe32;
    assert r[p..p + 4] == Le32(TRANSACTION) && r[DataOffset(p)..] == data;
    if aid != [] { assert data[2..2 + |aid|] == aid && data[2 + |aid|..] == Tlv(EVT_TRANSACTION_PARAM, param); }
  }

  /** The address space: what lies at every address, inside a block or not. */
  class Memory {
    var cells: int -> byte

    constructor ()
    {
      cells := _ => 0;
    }

    /** The `n` bytes from an address on. */
    ghost function Bytes(a: int, n: nat): (s: seq<byte>)
      reads this
      ensures |s| == n && forall i :: 0 <= i < n ==> s[i] == cells(a + i)
    {
      var c := cells;
      seq(n, i => c(a + i))
    }

    method Store(a: int, s: seq<byte>)
      modifies this
      ensures forall x :: cells(x) == if a <= x < a + |s| then s[x - a] else old(cells)(x)
    {
      var c := cells;
      cells := x => if a <= x < a + |s| then s[x - a] else c(x);
    }
  }

  /** What memory holds when `s` was written at `a` over `before`. */
  ghost predicate Holds(cells: int -> byte, a: int, s: seq<byte>, before: int -> byte) {
    forall x :: cells(x) == if a <= x < a + |s| then s[x - a] else before(x)
  }

  /** The same, byte by byte: handle, type, length, event data, and zeros up to the end of the block. */
  ghost predicate Laid(cells: int -> byte, block: int, handle: seq<byte>, eventType: nat, data: seq<byte>,
                       before: int -> byte)
    requires eventType < ULONG_LIMIT && |data| < ULONG_LIMIT
  {
    var h := |handle|;
    forall x {:trigger cells(x)} :: cells(x) ==
      var i := x - block;
      if i < 0 then before(x)
      else if i < h then handle[i]
      else if i < h + 4 then Le32(eventType)[i - h]
      else if i < h + 8 then Le32(|data|)[i - h - 4]
      else if i < h + 8 + |data| then data[i - h - 8]
      else if i < BLOCK_SIZE then 0
      else before(x)
  }

  lemma LaidHolds(cells: int -> byte, block: int, handle: seq<byte>, eventType: nat, data: seq<byte>,
                  before: int -> byte)
    requires eventType < ULONG_LIMIT && |data| < ULONG_LIMIT && |handle| + 8 <= BLOCK_SIZE
    requires Laid(cells, block, handle, eventType, data, before)
    ensures Holds(cells, block, Filled(Record(handle, eventType, data)), before)
    ensures var delivered := Delivered(Record(handle, eventType, data));
            forall i :: 0 <= i < BLOCK_SIZE ==> delivered[i] == cells(block + i)
  {
    hide Le32;
    var s := Filled(Record(handle, eventType, data));
    forall x ensures cells(x) == if block <= x < block + |s| then s[x - block] else before(x) {}
  }

  /** NfcCxDTAInterfaceGetEventPayload, after its block was allocated at `block`.  The record
      is written whole; memory outside the block stays as it was when the fields fit. */
  method GetEventPayload(p: PointerSize, handle: seq<byte>, eventType: nat, aid: seq<byte>, param: seq<byte>,
                         memory: Memory, block: int) returns (ok: bool)
    requires |handle| == p && eventType < ULONG_LIMIT
    modifies memory
    ensures ok <==> || eventType in {EXTERNAL_READER_ARRIVAL, EXTERNAL_READER_DEPARTURE}
                    || (eventType == TRANSACTION && |aid| <= UCHAR_MAX && |param| <= UCHAR_MAX)
    ensures var data := if ok && eventType == TRANSACTION then EventData(aid, param) else [];
            var record := Record(handle, eventType, data);
            && Holds(memory.cells, block, Filled(record), old(memory.cells))
            && (ok ==> memory.Bytes(block, BLOCK_SIZE) == Delivered(record))
    ensures EventSize(aid, param) <= Capacity(p) ==>
              forall x :: x < block || block + BLOCK_SIZE <= x ==> memory.cells(x) == old(memory.cells)(x)
  {
    hide Le32, Holds, Filled, Record, Delivered;
    ghost var before := memory.cells;
    ghost var data: seq<byte> := [];
    memory.Store(block, Zeros(BLOCK_SIZE));
    memory.Store(block, handle);
    memory.Store(block + p, Le32(eventType));
    memory.Store(block + p + 4, Le32(0));
    ok := true;
    if eventType == TRANSACTION {
      if |aid| > UCHAR_MAX || |param| > UCHAR_MAX {
        ok := false;
      } else {
        EventDataSize(aid, param);
        var cb := 0;
        if |aid| != 0 {
          cb := WriteField(p, handle, eventType, data, before, cb, EVT_TRANSACTION_AID, aid, memory, block);
          data := data + Tlv(EVT_TRANSACTION_AID, aid);
        }
        if |param| != 0 {
          cb := WriteField(p, handle, eventType, data, before, cb, EVT_TRANSACTION_PARAM, param, memory, block);
          data := data + Tlv(EVT_TRANSACTION_PARAM, param);
        }
        assert data == EventData(aid, param);
      }
    } else if eventType !in {EXTERNAL_READER_ARRIVAL, EXTERNAL_READER_DEPARTURE} {
      ok := false;
    }
    LaidHolds(memory.cells, block, handle, eventType, data, before);
    assert memory.Bytes(block, BLOCK_SIZE) == Delivered(Record(handle, eventType, data));
  }

  /** One field behind those written, and the length of the event data in step. */
  method WriteField(p: PointerSize, ghost handle: seq<byte>, ghost eventType: nat, ghost data: seq<byte>,
                    ghost before: int -> byte, cb: nat, tag: byte, value: seq<byte>, memory: Memory, block: int)
    returns (cb': nat)
    requires |handle| == p && eventType < ULONG_LIMIT && cb == |data| <= 2 + UCHAR_MAX
    requires 0 < |value| <= UCHAR_MAX
    requires Laid(memory.cells, block, handle, eventType, data, before)
    modifies memory
    ensures cb' == |data + Tlv(tag, value)|
    ensures Laid(memory.cells, block, handle, eventType, data + Tlv(tag, value), before)
  {
    hide Le32;
    memory.Store(block + DataOffset(p) + cb, [tag, |value| as byte]);
    memory.Store(block + DataOffset(p) + cb + 2, value);
    cb' := cb + 2 + |value|;
    memory.Store(block + p + 4, Le32(cb'));
  }

  // ---------- packed service names ----------

  /** Each name behind its length, a little-endian DWORD. */
  ghost function Pack(names: seq<seq<byte>>): (s: seq<byte>)
    requires forall i :: 0 <= i < |names| ==> |names[i]| < ULONG_LIMIT
  {
    if names == [] then [] else Le32(|names[0]|) + names[0] + Pack(names[1..])
  }

  /** The first `n` entries of a request, if they all lie inside it. */
  function Names(request: seq<byte>, n: nat): (names: Option<seq<seq<byte>>>)
    decreases n
  {
    if n == 0 then Some([])
    else if |request| < 4 then None
    else
      var end := 4 + FromLe32(request[..4]);
      if |request| < end then None
      else match Names(request[end..], n - 1)
           case None => None
           case Some(rest) => Some([request[4..end]] + rest)
  }

  /** Whether a request starts with an entry for `name`. */
  ghost predicate StartsWith(request: seq<byte>, name: seq<byte>) {
    && 4 + |name| <= |request|
    && FromLe32(request[..4]) == |name|
    && request[4..4 + |name|] == name
  }

  /** A packed entry is a length and that many bytes, and the next one follows it. */
  lemma FirstPacked(request: seq<byte>, names: seq<seq<byte>>)
    requires names != [] && forall i :: 0 <= i < |names| ==> |names[i]| < ULONG_LIMIT
    ensures Pack(names) <= request <==>
              StartsWith(request, names[0]) && Pack(names[1..]) <= request[4 + |names[0]|..]
  {
    var n := |names[0]|;
    Le32RoundTrip(n);
    if |request| >= 4 { Le32OfFrom(request[..4]); }
    hide Le32, FromLe32;
    assert Pack(names) == Le32(n) + names[0] + Pack(names[1..]);
    PrefixOfThree(request, Le32(n), names[0], Pack(names[1..]));
  }

  lemma PrefixOfThree(s: seq<byte>, a: seq<byte>, b: seq<byte>, c: seq<byte>)
    ensures a + b + c <= s <==>
              && |a| + |b| <= |s| && s[..|a|] == a && s[|a|..|a| + |b|] == b
              && c <= s[|a| + |b|..]
  {
    var n := |a| + |b|;
    if |s| >= n {
      assert s == s[..|a|] + s[|a|..n] + s[n..];
      if a + b + c <= s {
        assert s[n..] == c + s[n + |c|..];
      }
    }
  }

  lemma FirstNamed(request: seq<byte>, n: nat, names: seq<seq<byte>>)
    requires n != 0 && names != []
    ensures Names(request, n) == Some(names) <==>
              StartsWith(request, names[0]) && Names(request[4 + |names[0]|..], n - 1) == Some(names[1..])
  {
    hide FromLe32;
    assert names == [names[0]] + names[1..];
  }

  /** The entries found are those that were packed, and they are found whenever packed. */
  lemma {:induction false} NamesExactly(request: seq<byte>, n: nat, names: seq<seq<byte>>)
    requires forall i :: 0 <= i < |names| ==> |names[i]| < ULONG_LIMIT
    ensures Names(request, n) == Some(names) <==> |names| == n && Pack(names) <= request
    decreases n
  {
    if n != 0 && names != [] {
      FirstPacked(request, names);
      FirstNamed(request, n, names);
      if StartsWith(request, names[0]) {
        NamesExactly(request[4 + |names[0]|..], n - 1, names[1..]);
      }
    }
  }

  /** What the walk writes for a name: where it is in the request, and its length. */
  datatype Name = Name(offset: nat, length: nat)

  datatype Outcome = Walked | LeavesRequest

  /** What the walk has found, in front of what is still to be found. */
  ghost function Prepend(found: seq<seq<byte>>, rest: Option<seq<seq<byte>>>): (names: Option<seq<seq<byte>>>) {
    match rest
    case None => None
    case Some(names) => Some(found + names)
  }

  lemma NoNames(request: seq<byte>)
    ensures Names(request, 0) == Some([])
  {}

  /** One step of the walk, for the entries from `entry` on. */
  lemma WalkStep(request: seq<byte>, entry: nat, n: nat, found: seq<seq<byte>>)
    requires n > 0 && entry <= |request|
    ensures |request| - entry < 4 ==> Prepend(found, Names(request[entry..], n)) == None
    ensures |request| - entry >= 4 ==>
              var end := entry + 4 + FromLe32(request[entry..entry + 4]);
              Prepend(found, Names(request[entry..], n))
              == if end > |request| then None
                 else Prepend(found + [request[entry + 4..end]], Names(request[end..], n - 1))
  {
    hide FromLe32;
    if |request| - entry >= 4 {
      assert request[entry..][..4] == request[entry..entry + 4];
      var end := entry + 4 + FromLe32(request[entry..entry + 4]);
      if end <= |request| {
        assert request[entry..][4..end - entry] == request[entry + 4..end];
        assert request[entry..][end - entry..] == request[end..];
        match Names(request[end..], n - 1)
        case None =>
        case Some(rest) =>
          assert found + ([request[entry + 4..end]] + rest) == found + [request[entry + 4..end]] + rest;
      }
    }
  }

  ghost predicate IsListed(request: seq<byte>, listed: seq<Name>, names: seq<seq<byte>>) {
    && |names| <= |listed|
    && forall i :: 0 <= i < |names| ==>
         && listed[i].offset + listed[i].length <= |request|
         && request[listed[i].offset..listed[i].offset + listed[i].length] == names[i]
  }

  /** The walk of NfcCxDTAInterfaceLlcpDiscoverServices over the entries behind the header of
      the request, of which nothing was checked: as many as the list has places, counted by a
      byte, each step going on from where the length of the entry says.  It stands for a walk
      that reads on behind the request that it leaves it; a counter that wraps ends so, too. */
  method WalkNames(request: seq<byte>, list: array<Name>) returns (outcome: Outcome)
    modifies list
    ensures outcome.Walked? <==> list.Length <= UCHAR_MAX && Names(request, list.Length).Some?
    ensures outcome.Walked? ==> IsListed(request, list[..], Names(request, list.Length).value)
  {
    hide FromLe32, Names;
    var i: byte := 0;
    var entry := 0;
    ghost var found: seq<seq<byte>> := [];
    var n := list.Length;
    assert Names(request, n).Some? ==> [] + Names(request, n).value == Names(request, n).value;
    assert request[0..] == request;
    while i as nat < n
      invariant 0 <= entry <= |request|
      invariant n <= UCHAR_MAX ==>
                  && |found| == i as nat <= n
                  && Names(request, n) == Prepend(found, Names(request[entry..], n - i as nat))
                  && IsListed(request, list[..], found)
      decreases |request| - entry
    {
      if n <= UCHAR_MAX { WalkStep(request, entry, n - i as nat, found); }
      if |request| - entry < 4 {
        return LeavesRequest;
      }
      var length := FromLe32(request[entry..entry + 4]);
      var end := entry + 4 + length;
      if end > |request| {
        return LeavesRequest;
      }
      list[i] := Name(entry + 4, length);
      found := found + [request[entry + 4..end]];
      entry := end;
      i := if i == 255 then 0 else i + 1;
    }
    NoNames(request[entry..]);
    assert found + [] == found;
    return Walked;
  }
}
