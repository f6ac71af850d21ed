/** The answer to reset that the reader synthesises for a contactless card: the encoder,
    and a decoder written from the standards alone (ISO/IEC 7816-3:2006 sections 8.2.3 to
    8.2.5 for the frame; PC/SC Part 3 section 3.1.3.2.3 for a storage card's historical
    bytes). */
module Atr {
  import opened Options

  type Byte = bv8

  const MAX_ATR_LENGTH: nat := 48

  datatype UltralightType = Ultralight | UltralightC | UltralightEv1

  /** What phNfc_sRemoteDevInformation_t holds that the ATR depends on. */
  datatype Device =
    | Iso14443_4A(appData: seq<Byte>)
    | Iso14443_4B(appDataB: seq<Byte>, protInfo: seq<Byte>)
    | Jewel(headerRom0: Byte)
    | Felica
    | Mifare(sak: Byte, ulType: UltralightType)
    | Iso15693(uid: seq<Byte>)
    | OtherDevice(devType: nat)

  /** Sizes fixed by the structure; AppDataLength may be anything up to its buffer. */
  predicate WellSized(d: Device) {
    match d
    case Iso14443_4A(a) => |a| <= MAX_ATR_LENGTH
    case Iso14443_4B(a, p) => |a| == 4 && |p| == 3
    case Iso15693(u) => |u| == 8
    case _ => true
  }

  datatype Status = Success | BufferTooSmall | NotSupported

  // ---------- check byte ----------

  ghost function XorAll(s: seq<Byte>): (x: Byte) {
    if s == [] then 0 else XorAll(s[..|s| - 1]) ^ s[|s| - 1]
  }

  lemma XorAppend(s: seq<Byte>, b: Byte)
    ensures XorAll(s + [b]) == XorAll(s) ^ b
  {
    assert (s + [b])[..|s|] == s;
  }

  /** NfcCxSCInterfaceComputeChecksum: the exclusive or of the bytes from T0 on. */
  method ComputeChecksum(atr: array<Byte>, n: nat) returns (tck: Byte)
    requires 1 <= n <= atr.Length
    ensures tck == XorAll(atr[1..n])
  {
    tck := 0;
    var i := 1;
    while i < n
      invariant 1 <= i <= n && tck == XorAll(atr[1..i])
    {
      assert atr[1..i + 1] == atr[1..i] + [atr[i]];
      XorAppend(atr[1..i], atr[i]);
      tck := tck ^ atr[i];
      i := i + 1;
    }
  }

  // ---------- decoder ----------

  function Bit(b: Byte, mask: Byte): (n: nat) {
    if b & mask == 0 then 0 else 1
  }

  /** Skips the interface bytes announced by the high nibble of `y` (T0 or a TD byte): TA,
      TB and TC as present, then TD, which announces the next group.  Gives the index
      behind them and whether some TD names a protocol other than T = 0. */
  function InterfaceBytes(atr: seq<Byte>, i: nat, y: Byte, nonzero: bool): (r: Option<(nat, bool)>)
    decreases if i <= |atr| then |atr| - i else 0
  {
    var j := i + Bit(y, 0x10) + Bit(y, 0x20) + Bit(y, 0x40);
    if y & 0x80 == 0 then Some((j, nonzero))
    else if j >= |atr| then None
    else InterfaceBytes(atr, j + 1, atr[j], nonzero || atr[j] & 0x0F != 0)
  }

  /** The historical bytes of a well-formed ATR: their number is the low nibble of T0, and
      a check byte over everything from T0 on ends the ATR when a protocol other than
      T = 0 is named. */
  ghost function Parse(atr: seq<Byte>): (r: Option<seq<Byte>>) {
    if |atr| < 2 || atr[0] != 0x3B then None
    else
      match InterfaceBytes(atr, 2, atr[1], false)
      case None => None
      case Some((end, checked)) =>
        var k := (atr[1] & 0x0F) as nat;
        if |atr| != end + k + (if checked then 1 else 0) then None
        else if checked && XorAll(atr[1..]) != 0 then None
        else Some(atr[end..end + k])
  }

  /** SS and the two bytes of NN in the historical bytes of a storage card: category
      indicator, application identifier tag, a length that counts what follows, the PC/SC
      RID, then SS, NN and four reserved bytes. */
  function ParseCardName(hist: seq<Byte>): (r: Option<seq<Byte>>) {
    if |hist| < 3 || hist[..2] != [0x80, 0x4F] || |hist| != 3 + hist[2] as nat then None
    else if |hist| != 15 || hist[3..8] != [0xA0, 0x00, 0x00, 0x03, 0x06] || hist[11..] != [0, 0, 0, 0] then None
    else Some(hist[8..11])
  }

  // ---------- what is encoded ----------

  /** SS of a storage card: the part of which standard. */
  function StandardByte(d: Device): (ss: Byte) {
    match d
    case Felica => 0x11
    case Mifare(_, _) => 0x03
    case Iso15693(_) => 0x0C
    case _ => 0x00
  }

  /** The low byte of NN of a storage card. */
  function CardName(d: Device): (nn: Byte) {
    match d
    case Jewel(h) =>
      if h in {0x01, 0x04, 0x05, 0x06, 0x07, 0x08} then 0x2F
      else if h in {0x11, 0x12} then 0x30 else 0x00
    case Felica => 0x3B
    case Mifare(sak, ul) =>
      if sak == 0x00 then (match ul case UltralightC => 0x3A case UltralightEv1 => 0x3D case Ultralight => 0x03)
      else if sak == 0x08 || sak == 0x28 then 0x01
      else if sak == 0x09 then 0x26
      else if sak == 0x10 then 0x38
      else if sak == 0x11 then 0x39
      else if sak == 0x18 || sak == 0x38 then 0x02
      else 0x00
    case Iso15693(uid) =>
      if |uid| == 8 && uid[6] == 0x04 && uid[5] in {0x01, 0x02, 0x03} then 0x14 else 0x00
    case _ => 0x00
  }

  /** SAKs of the same product: the second is the multi-protocol card. */
  predicate SameMifare(a: Byte, b: Byte) {
    a == b || (a, b) in {(0x08, 0x28), (0x28, 0x08), (0x18, 0x38), (0x38, 0x18)}
  }

  /** SS and NN identify the card: two storage cards with the same known name are of the
      same technology, and two such MIFARE cards are the same product. */
  lemma CardNameIdentifies(d: Device, e: Device)
    requires d.Jewel? || d.Felica? || d.Mifare? || d.Iso15693?
    requires e.Jewel? || e.Felica? || e.Mifare? || e.Iso15693?
    requires StandardByte(d) == StandardByte(e) && CardName(d) == CardName(e) != 0x00
    ensures (d.Jewel? <==> e.Jewel?) && (d.Felica? <==> e.Felica?)
    ensures (d.Mifare? <==> e.Mifare?) && (d.Iso15693? <==> e.Iso15693?)
    ensures d.Mifare? ==> SameMifare(d.sak, e.sak) && (d.sak == 0x00 ==> d.ulType == e.ulType)
  {
  }

  /** Category indicator, application identifier tag and length, PC/SC RID, SS, NN, reserved. */
  function StorageHistorical(ss: Byte, nn: Byte): (h: seq<Byte>) {
    [0x80, 0x4F, 0x0C, 0xA0, 0x00, 0x00, 0x03, 0x06, ss, 0x00, nn, 0, 0, 0, 0]
  }

  ghost function Historical(d: Device): (h: seq<Byte>) {
    match d
    case Iso14443_4A(a) => a
    case Iso14443_4B(a, p) => a + p + [0]
    case _ => StorageHistorical(StandardByte(d), CardName(d))
  }

  /** T0 as the encoder computes it from a one-byte length. */
  function T0(length: Byte): (b: Byte) {
    0x80 | (length & 0x0F)
  }

  ghost function Body(h: seq<Byte>): (s: seq<Byte>)
    requires |h| < 256
  {
    [0x3B, T0(|h| as Byte), 0x80, 0x01] + h
  }

  ghost function Encoding(d: Device): (r: (Status, seq<Byte>))
    requires WellSized(d)
  {
    if d.OtherDevice? then (NotSupported, [])
    else if |Historical(d)| + 5 > MAX_ATR_LENGTH then (BufferTooSmall, [])
    else (Success, Body(Historical(d)) + [XorAll(Body(Historical(d))[1..])])
  }

  // ---------- the decoder undoes the encoder ----------

  lemma LengthNibble(n: nat)
    requires n < 256
    ensures (T0(n as Byte) & 0x0F) as nat == n <==> n <= 15
    ensures T0(n as Byte) & 0xF0 == 0x80
  {
    var b := n as Byte;
    assert T0(b) & 0x0F == b & 0x0F;
    assert b <= 15 ==> b & 0x0F == b;
    assert b & 0x0F <= 15;
  }

  /** The frame decodes to its historical bytes exactly when there are at most fifteen of
      them, which is all that the low nibble of T0 can count. */
  lemma FrameDecodesExactly(h: seq<Byte>)
    requires |h| < 256
    ensures var atr := Body(h) + [XorAll(Body(h)[1..])];
            && XorAll(atr[1..]) == 0
            && Parse(atr) == if |h| <= 15 then Some(h) else None
  {
    var body := Body(h);
    var tck := XorAll(body[1..]);
    var atr := body + [tck];
    XorAppend(body[1..], tck);
    assert atr[1..] == body[1..] + [tck];
    LengthNibble(|h|);
    var t0 := atr[1];
    assert t0 & 0x10 == 0 && t0 & 0x20 == 0 && t0 & 0x40 == 0 && t0 & 0x80 != 0;
    assert atr[2] == 0x80 && atr[3] == 0x01;
    assert InterfaceBytes(atr, 4, 0x01, true) == Some((4, true));
    assert InterfaceBytes(atr, 3, 0x80, false) == Some((4, true));
    assert InterfaceBytes(atr, 2, t0, false) == Some((4, true));
    if |h| <= 15 { assert atr[4..4 + |h|] == h; }
  }

  /** Every supported card whose ATR fits: the check byte closes the exclusive or, and the
      decoder gives back the historical bytes, unless a type A card supplied more than
      fifteen; then the ATR is not well formed. */
  lemma AtrDecodesExactly(d: Device)
    requires WellSized(d)
    ensures var (status, atr) := Encoding(d);
            && (status == Success ==> 0 < |atr| <= MAX_ATR_LENGTH && XorAll(atr[1..]) == 0)
            && (status == Success ==>
                  Parse(atr) == if d.Iso14443_4A? && |d.appData| > 15 then None else Some(Historical(d)))
            && (status == Success <==> !d.OtherDevice? && !(d.Iso14443_4A? && |d.appData| > 43))
  {
    if Encoding(d).0 == Success { FrameDecodesExactly(Historical(d)); }
  }

  lemma StorageHistoricalParses(ss: Byte, nn: Byte)
    ensures |StorageHistorical(ss, nn)| == 3 + StorageHistorical(ss, nn)[2] as nat
    ensures ParseCardName(StorageHistorical(ss, nn)) == Some([ss, 0x00, nn])
  {
    var h := StorageHistorical(ss, nn);
    assert h[2] as nat == 12;
    assert h[..2] == [0x80, 0x4F] && h[3..8] == [0xA0, 0x00, 0x00, 0x03, 0x06] && h[11..] == [0, 0, 0, 0];
    assert h[8..11] == [ss, 0x00, nn];
  }

  /** A storage card's inner length counts the bytes behind it, and the card name comes back. */
  lemma CardNameDecodes(d: Device)
    requires WellSized(d) && !d.Iso14443_4A? && !d.Iso14443_4B? && !d.OtherDevice?
    ensures var atr := Encoding(d).1;
            && Parse(atr) == Some(StorageHistorical(StandardByte(d), CardName(d)))
            && ParseCardName(Parse(atr).value) == Some([StandardByte(d), 0x00, CardName(d)])
  {
    AtrDecodesExactly(d);
    StorageHistoricalParses(StandardByte(d), CardName(d));
    hide CardName, StorageHistorical, Parse, XorAll, ParseCardName;
  }

  // ---------- what a reader learns of the card ----------

  /** The check byte is the exclusive or, no other combination: of one byte it is that byte. */
  lemma XorOne(b: Byte)
    ensures XorAll([b]) == b
  {
    assert [b][..0] == [];
    assert 0 ^ b == b;
  }

  /** The historical bytes of a type A card are its application data; those of a type B card
      its four bytes of application data, its three of protocol information, and a zero. */
  lemma ContactlessBytes(d: Device)
    requires WellSized(d)
    ensures d.Iso14443_4A? && |d.appData| <= 15 ==> Parse(Encoding(d).1) == Some(d.appData)
    ensures d.Iso14443_4B? ==>
              && Parse(Encoding(d).1).Some?
              && var h := Parse(Encoding(d).1).value;
              |h| == 8 && h[..4] == d.appDataB && h[4..7] == d.protInfo && h[7] == 0
  {
    AtrDecodesExactly(d);
    hide Parse, XorAll, Encoding;
    if d.Iso14443_4B? {
      var h := d.appDataB + d.protInfo + [0];
      assert Historical(d) == h && h[..4] == d.appDataB && h[4..7] == d.protInfo && h[7] == 0;
    }
  }

  /** Products that the supplement to PC/SC Part 3 gives names to. */
  datatype Product =
    | Classic1K | Classic4K | Mini | PlusLevel2With2K | PlusLevel2With4K | UltralightCard | UltralightCCard
    | UltralightEv1Card | JewelCard | TopazCard | FelicaCard | IcodeSliCard | NoInformation

  /** The product that the low byte of a card name means. */
  function Named(nn: Byte): (p: Product) {
    match nn
    case 0x01 => Classic1K
    case 0x02 => Classic4K
    case 0x03 => UltralightCard
    case 0x14 => IcodeSliCard
    case 0x26 => Mini
    case 0x2F => JewelCard
    case 0x30 => TopazCard
    case 0x38 => PlusLevel2With2K
    case 0x39 => PlusLevel2With4K
    case 0x3A => UltralightCCard
    case 0x3B => FelicaCard
    case 0x3D => UltralightEv1Card
    case _ => NoInformation
  }

  /** Which cards are which product: by SAK, where the multi-protocol cards JCOP and SmartMX are
      given out as Classic ones, by header byte, or by manufacturer and type in the UID. */
  predicate IsProduct(d: Device, p: Product) {
    match p
    case Classic1K => d.Mifare? && (d.sak == 0x08 || d.sak == 0x28)
    case Classic4K => d.Mifare? && (d.sak == 0x18 || d.sak == 0x38)
    case Mini => d.Mifare? && d.sak == 0x09
    case PlusLevel2With2K => d.Mifare? && d.sak == 0x10
    case PlusLevel2With4K => d.Mifare? && d.sak == 0x11
    case UltralightCard => d.Mifare? && d.sak == 0x00 && d.ulType == Ultralight
    case UltralightCCard => d.Mifare? && d.sak == 0x00 && d.ulType == UltralightC
    case UltralightEv1Card => d.Mifare? && d.sak == 0x00 && d.ulType == UltralightEv1
    case JewelCard => d.Jewel? && (d.headerRom0 == 0x01 || 0x04 <= d.headerRom0 <= 0x08)
    case TopazCard => d.Jewel? && (d.headerRom0 == 0x11 || d.headerRom0 == 0x12)
    case FelicaCard => d.Felica?
    case IcodeSliCard => d.Iso15693? && |d.uid| == 8 && d.uid[6] == 0x04 && 0x01 <= d.uid[5] <= 0x03
    case NoInformation => false
  }

  lemma MifareNames(d: Device, p: Product)
    requires d.Mifare? && p != NoInformation
    ensures Named(CardName(d)) == p <==> IsProduct(d, p)
  {
  }

  lemma OtherNames(d: Device, p: Product)
    requires (d.Jewel? || d.Felica? || (d.Iso15693? && |d.uid| == 8)) && p != NoInformation
    ensures Named(CardName(d)) == p <==> IsProduct(d, p)
  {
  }

  /** The name in a storage card's ATR means exactly the product that the card is, and the
      standard byte the technology: FeliCa, ISO 14443-3 type A, ISO 15693, or none given. */
  lemma AtrNamesProduct(d: Device, p: Product)
    requires WellSized(d) && (d.Jewel? || d.Felica? || d.Mifare? || d.Iso15693?) && p != NoInformation
    ensures var hist := Parse(Encoding(d).1);
            && hist.Some? && ParseCardName(hist.value).Some?
            && var name := ParseCardName(hist.value).value;
            && |name| == 3 && (Named(name[2]) == p <==> IsProduct(d, p))
            && name[0] == (if d.Felica? then 0x11 else if d.Mifare? then 0x03 else if d.Iso15693? then 0x0C else 0x00)
  {
    CardNameDecodes(d);
    if d.Mifare? { MifareNames(d, p); } else { OtherNames(d, p); }
    hide Parse, ParseCardName, StorageHistorical, Encoding, Named, IsProduct, CardName;
    assert [StandardByte(d), 0x00, CardName(d)][2] == CardName(d);
  }

  // ---------- the encoder in place ----------

  /** Output[index++] = b for each byte of `bytes`. */
  method Emit(output: array<Byte>, index: nat, bytes: seq<Byte>) returns (next: nat)
    requires index + |bytes| <= output.Length
    modifies output
    ensures next == index + |bytes|
    ensures output[..next] == old(output[..index]) + bytes
  {
    next := index;
    for i := 0 to |bytes|
      invariant next == index + i
      invariant output[..next] == old(output[..index]) + bytes[..i]
    {
      output[next] := bytes[i];
      next := next + 1;
      assert output[..next] == output[..next - 1] + [bytes[i]];
      assert bytes[..i + 1] == bytes[..i] + [bytes[i]];
    }
    assert bytes[..|bytes|] == bytes;
  }

  /** What the four storage-card branches have in common: everything but SS and NN. */
  method EmitStorageCard(output: array<Byte>, ss: Byte, nn: Byte) returns (next: nat)
    requires output.Length == MAX_ATR_LENGTH
    modifies output
    ensures next == 19
    ensures output[..19] == Body(StorageHistorical(ss, nn))
  {
    next := Emit(output, 0, [0x3B, 0x80 | 0x0F, 0x80, 0x01]);
    next := Emit(output, next, [0x80, 0x4F, 0x0C, 0xA0, 0x00, 0x00, 0x03, 0x06, ss, 0x00, nn, 0, 0, 0, 0]);
    assert T0(15) == 0x8F;
  }

  /** The second byte of NN for a MIFARE card, by SAK. */
  method MifareName(sak: Byte, ulType: UltralightType) returns (nn: Byte)
    ensures nn == CardName(Mifare(sak, ulType))
  {
    if sak == 0x00 {
      if ulType == UltralightC {
        nn := 0x3A;
      } else if ulType == UltralightEv1 {
        nn := 0x3D;
      } else {
        nn := 0x03;
      }
    } else if sak == 0x08 {
      nn := 0x01;
    } else if sak == 0x09 {
      nn := 0x26;
    } else if sak == 0x10 {
      nn := 0x38;
    } else if sak == 0x11 {
      nn := 0x39;
    } else if sak == 0x18 {
      nn := 0x02;
    } else if sak == 0x28 {
      nn := 0x01;
    } else if sak == 0x38 {
      nn := 0x02;
    } else {
      nn := 0x00;
    }
  }

  method JewelName(headerRom0: Byte) returns (nn: Byte)
    ensures nn == CardName(Jewel(headerRom0))
  {
    var h := headerRom0;
    nn := 0x00;
    if h == 0x01 || h == 0x04 || h == 0x05 || h == 0x06 || h == 0x07 || h == 0x08 {
      nn := 0x2F;
    } else if h == 0x11 || h == 0x12 {
      nn := 0x30;
    }
  }

  method Iso15693Name(uid: seq<Byte>) returns (nn: Byte)
    requires |uid| == 8
    ensures nn == CardName(Iso15693(uid))
  {
    nn := 0x00;
    if uid[6] == 0x04 && (uid[5] == 0x01 || uid[5] == 0x02 || uid[5] == 0x03) {
      nn := 0x14;
    }
  }

  method EmitTypeA(output: array<Byte>, appData: seq<Byte>) returns (status: Status, index: nat)
    requires |appData| <= MAX_ATR_LENGTH && output.Length == MAX_ATR_LENGTH
    modifies output
    ensures status == if 4 + |appData| > MAX_ATR_LENGTH then BufferTooSmall else Success
    ensures status == Success ==> index <= MAX_ATR_LENGTH && output[..index] == Body(appData)
  {
    status := Success;
    index := Emit(output, 0, [0x3B, T0(|appData| as Byte), 0x80, 0x01]);
    if MAX_ATR_LENGTH < index + |appData| {
      status := BufferTooSmall;
      return;
    }
    index := Emit(output, index, appData);
  }

  method EmitTypeB(output: array<Byte>, appData: seq<Byte>, protInfo: seq<Byte>) returns (index: nat)
    requires |appData| == 4 && |protInfo| == 3 && output.Length == MAX_ATR_LENGTH
    modifies output
    ensures index == 12 && output[..index] == Body(appData + protInfo + [0])
  {
    index := Emit(output, 0, [0x3B, T0(4 + 3 + 1), 0x80, 0x01]);
    index := Emit(output, index, appData);
    index := Emit(output, index, protInfo);
    index := Emit(output, index, [0]);
  }

  /** The card-dependent part of NfcCxSCInterfaceGetAtrLocked: everything before TCK. */
  method EmitBody(d: Device, output: array<Byte>) returns (status: Status, index: nat)
    requires WellSized(d) && output.Length == MAX_ATR_LENGTH
    modifies output
    ensures status == if d.OtherDevice? then NotSupported
                      else if d.Iso14443_4A? && 4 + |d.appData| > MAX_ATR_LENGTH then BufferTooSmall else Success
    ensures status == Success ==> index <= MAX_ATR_LENGTH && output[..index] == Body(Historical(d))
  {
    hide StorageHistorical, T0;
    status, index := Success, 0;
    match d
    case Iso14443_4A(appData) =>
      status, index := EmitTypeA(output, appData);
    case Iso14443_4B(appDataB, protInfo) =>
      index := EmitTypeB(output, appDataB, protInfo);
    case Jewel(h) =>
      var nn := JewelName(h);
      index := EmitStorageCard(output, 0x00, nn);
    case Felica =>
      index := EmitStorageCard(output, 0x11, 0x3B);
    case Mifare(sak, ulType) =>
      var nn := MifareName(sak, ulType);
      index := EmitStorageCard(output, 0x03, nn);
    case Iso15693(uid) =>
      var nn := Iso15693Name(uid);
      index := EmitStorageCard(output, 0x0C, nn);
    case OtherDevice(_) =>
      status := NotSupported;
  }

  /** What NfcCxSCInterfaceGetAtrLocked answers for a buffer of `length` bytes. */
  ghost function AtrFor(d: Device, length: nat): (r: (Status, seq<Byte>))
    requires WellSized(d)
    ensures r.0 == Success ==> r == Encoding(d) && 0 < |r.1| <= length && |r.1| <= MAX_ATR_LENGTH && !d.OtherDevice?
    ensures !d.Iso14443_4A? && !d.Iso14443_4B? && !d.OtherDevice? && length == MAX_ATR_LENGTH ==> r.0 == Success
  {
    var (status, atr) := Encoding(d);
    if status == Success && length < |atr| then (BufferTooSmall, []) else (status, atr)
  }

  /** NfcCxSCInterfaceGetAtrLocked up to TCK, into its own buffer. */
  method EmitAtr(d: Device, output: array<Byte>) returns (status: Status, index: nat)
    requires WellSized(d) && output.Length == MAX_ATR_LENGTH
    modifies output
    ensures index <= MAX_ATR_LENGTH && (status, if status == Success then output[..index] else []) == Encoding(d)
  {
    status, index := EmitBody(d, output);
    if status != Success {
      index := 0;
      return;
    }
    hide Historical;
    var tck := ComputeChecksum(output, index);
    assert output[1..index] == output[..index][1..];
    if MAX_ATR_LENGTH < index + 1 {
      return BufferTooSmall, 0;
    }
    index := Emit(output, index, [tck]);
  }

  /** NfcCxSCInterfaceGetAtrLocked. */
  method GetAtr(d: Device, outputBuffer: array<Byte>) returns (status: Status, copied: nat)
    requires WellSized(d)
    modifies outputBuffer
    ensures copied <= outputBuffer.Length
    ensures status == AtrFor(d, outputBuffer.Length).0
    ensures outputBuffer[..copied] == AtrFor(d, outputBuffer.Length).1
    ensures outputBuffer[copied..] == old(outputBuffer[copied..])
  {
    hide Encoding;
    copied := 0;
    var output := new Byte[MAX_ATR_LENGTH](_ => 0);
    var index;
    status, index := EmitAtr(d, output);
    if status != Success {
      FailureIsEmpty(d);
      return;
    }
    if outputBuffer.Length < index {
      status := BufferTooSmall;
      return;
    }
    forall i | 0 <= i < index { outputBuffer[i] := output[i]; }
    copied := index;
    assert outputBuffer[..copied] == output[..index];
  }

  lemma FailureIsEmpty(d: Device)
    requires WellSized(d) && Encoding(d).0 != Success
    ensures Encoding(d).1 == []
  {
  }
}
