/** The smart card interface as its handlers update it in place.  Every handler is the step
    of the reader's state machine (module SmartCard) that its name says. */
module ScInterface {
  import opened Atr
  import opened Options
  import opened SmartCard

  const INDEX_NOT_FOUND: nat := 0xFF

  lemma AtrLength(d: Device)
    requires WellSized(d) && Encoding(d).0 == Success
    ensures 0 < |Encoding(d).1| <= MAX_ATR_LENGTH
  {
  }

  /** The part of the storage-card object that caches the ATR. */
  class StorageCardManager {
    const rgbAtr: array<Byte>
    var cbAtr: nat

    ghost predicate Valid()
      reads this
    {
      rgbAtr.Length == MAX_ATR_LENGTH && cbAtr <= MAX_ATR_LENGTH
    }

    ghost function Cached(): (atr: seq<Byte>)
      reads this, rgbAtr
      requires Valid()
    {
      rgbAtr[..cbAtr]
    }

    constructor ()
      ensures Valid() && Cached() == [] && fresh(rgbAtr)
    {
      rgbAtr := new Byte[MAX_ATR_LENGTH](_ => 0);
      cbAtr := 0;
    }

    method GetCachedAtr(buffer: array<Byte>) returns (status: Status, copied: nat)
      requires Valid() && buffer != rgbAtr
      modifies buffer
      ensures copied <= buffer.Length && buffer[copied..] == old(buffer[copied..])
      ensures if buffer.Length < |Cached()| then status == BufferTooSmall && copied == 0
              else status == Success && buffer[..copied] == Cached()
    {
      if buffer.Length < cbAtr {
        return BufferTooSmall, 0;
      }
      forall i | 0 <= i < cbAtr { buffer[i] := rgbAtr[i]; }
      status, copied := Success, cbAtr;
      assert buffer[..copied] == Cached();
    }

    method CacheAtr(buffer: array<Byte>, cb: nat)
      requires Valid() && buffer != rgbAtr && cb <= buffer.Length && cb <= MAX_ATR_LENGTH
      modifies this, rgbAtr
      ensures Valid() && Cached() == buffer[..cb]
    {
      forall i | 0 <= i < cb { rgbAtr[i] := buffer[i]; }
      cbAtr := cb;
      assert Cached() == buffer[..cb];
    }
  }

  class Interface {
    var connected: bool
    var currentClient: Option<Id>
    var powerHeld: bool
    var session: bool
    var device: Device
    var storageCard: StorageCardManager?
    var hasKey: bool
    var devices: seq<Device>
    var selectedProtocolIndex: nat
    var powerReferences: map<Id, int>
    ghost var otherReferences: map<Id, nat>

    ghost predicate Valid()
      reads this, storageCard
    {
      && (storageCard != null ==> storageCard.Valid())
      && |devices| <= 255 && WellSized(device) && AllSized(devices)
    }

    ghost function State(): (s: Reader)
      reads this, storageCard, if storageCard == null then {} else {storageCard.rgbAtr}
      requires Valid()
    {
      Reader(connected, currentClient, powerHeld, session, device,
             if storageCard == null then None else Some(storageCard.Cached()), hasKey,
             devices, selectedProtocolIndex, powerReferences, otherReferences)
    }

    constructor ()
      ensures Valid() && State() == INITIAL
    {
      connected, currentClient, powerHeld, session := false, None, false, false;
      device, storageCard, hasKey := OtherDevice(0), null, false;
      devices, selectedProtocolIndex, powerReferences, otherReferences := [], 0, map[], map[];
    }

    method AddClient(c: Id) returns (ok: bool)
      requires Valid()
      modifies this
      ensures Valid() && State() == NextByClient(old(State()), SmartCard.AddClient(c))
      ensures ok <==> old(currentClient) == None
    {
      ok := currentClient.None?;
      if ok {
        currentClient := Some(c);
      }
    }

    /** `reset` tells the caller to reset the card once the lock is released. */
    method RemoveClient(c: Id, ndefFormatted: bool) returns (reset: bool)
      requires Valid()
      modifies this
      ensures Valid() && State() == NextByClient(old(State()), SmartCard.RemoveClient(c))
      ensures reset <==> old(currentClient) == Some(c) && old(session) && !ndefFormatted
    {
      if currentClient != Some(c) {
        return false;
      }
      reset := session && !ndefFormatted;
      EnsurePowerReferenceIsReleased();
      currentClient := None;
    }

    method EnsurePowerReferenceIsHeld(granted: bool)
      requires Valid()
      modifies this
      ensures Valid() && State() == EnsureHeld(old(State()), granted)
    {
      if currentClient.Some? && !powerHeld && granted {
        var c := currentClient.value;
        powerReferences := powerReferences[c := (if c in powerReferences then powerReferences[c] else 0) + 1];
        powerHeld := true;
      }
    }

    method EnsurePowerReferenceIsReleased()
      requires Valid()
      modifies this
      ensures Valid() && State() == EnsureReleased(old(State()))
    {
      if powerHeld {
        if currentClient.Some? {
          var c := currentClient.value;
          powerReferences := powerReferences[c := (if c in powerReferences then powerReferences[c] else 0) - 1];
        }
        powerHeld := false;
      }
    }

    /** NfcCxSCInterfaceLoadStorageClassFromAtrLocked. */
    method LoadStorageClassFromAtr(r: Resources) returns (ok: bool)
      requires Valid()
      modifies this
      ensures Valid() && (State(), ok) == LoadStorageClass(old(State()), r)
    {
      if !connected {
        return false;
      }
      var atr := new Byte[MAX_ATR_LENGTH](_ => 0);
      var status, _ := GetAtr(device, atr);
      if status != Success {
        return false;
      }
      if !IsStorage(device) {
        return true;
      }
      if storageCard != null {
        return true;
      }
      if !r.card {
        return false;
      }
      storageCard := new StorageCardManager();
      if !r.key {
        return false;
      }
      hasKey := true;
      ok := r.keyTable;
    }

    method HandleConnectionEstablished(r: Resources)
      requires Valid() && Enabled(State(), ByCard(Established(r)))
      modifies this
      ensures Valid() && State() == NextByCard(old(State()), Established(r))
    {
      connected := true;
      device := devices[selectedProtocolIndex];
      if device.OtherDevice? {
        return;
      }
      var ok := LoadStorageClassFromAtr(r);
      if ok {
        EnsurePowerReferenceIsHeld(r.power);
      }
    }

    method HandleConnectionLost()
      requires Valid()
      modifies this
      ensures Valid() && State() == NextByCard(old(State()), Lost)
    {
      hide AtrFor, LoadStorageClass, Encoding;
      if !connected {
        return;
      }
      connected, session := false, false;
      device := OtherDevice(0);
      storageCard := null;
      hasKey := false;
      assert State() == old(State()).(connected := false, session := false, device := OtherDevice(0),
                                      storageCard := None, hasKey := false);
      EnsurePowerReferenceIsReleased();
    }

    /** The list is at most 255 long, so the sentinel is never the index of an entry. */
    method GetIndexOfProtocolType(p: Protocol) returns (index: nat)
      requires Valid()
      ensures index == match FirstOf(devices, p, 0) case Some(i) => i case None => INDEX_NOT_FOUND
      ensures index == INDEX_NOT_FOUND <==> FirstOf(devices, p, 0).None?
    {
      index := INDEX_NOT_FOUND;
      var bIndex := 0;
      while bIndex < |devices|
        invariant 0 <= bIndex <= |devices|
        invariant FirstOf(devices, p, 0) == FirstOf(devices, p, bIndex)
      {
        if OfType(devices[bIndex], p) {
          index := bIndex;
          break;
        }
        bIndex := bIndex + 1;
      }
    }

    /** The end of NfcCxSCInterfaceLoadNewSelectedProtocol. */
    method SelectEntry(index: nat, r: Resources) returns (ok: bool)
      requires Valid() && index < |devices|
      modifies this
      ensures Valid() && selectedProtocolIndex == index && devices == old(devices) && device == devices[index]
      ensures (State(), ok) == LoadStorageClass(old(State()).(selected := index, device := devices[index]), r)
    {
      hide AtrFor, Encoding;
      selectedProtocolIndex := index;
      device := devices[index];
      ok := LoadStorageClassFromAtr(r);
    }

    /** The switch-protocol branch of a transmit, once the command bytes are understood. */
    method LoadNewSelectedProtocol(p: Protocol, r: Resources) returns (ok: bool)
      requires Valid()
      modifies this
      ensures Valid() && State() == NextByRequest(old(State()), SwitchProtocol(p, r)).0
      ensures ok ==> selectedProtocolIndex < |devices| && OfType(devices[selectedProtocolIndex], p)
      ensures ok ==> device == devices[selectedProtocolIndex]
      ensures ok <==> exists k: nat :: IsFirst(devices, p, k)
                                  && LoadStorageClass(old(State()).(selected := k, device := devices[k]), r).1
    {
      hide AtrFor, Encoding, LoadStorageClass;
      if p == InvalidProtocol {
        assert FirstOf(devices, p, 0).None?;
        return false;
      }
      var index := GetIndexOfProtocolType(p);
      if index == INDEX_NOT_FOUND {
        return false;
      }
      assert IsFirst(devices, p, index);
      ok := SelectEntry(index, r);
    }

    /** `Fault` stands for the use of the storage-card object when there is none. */
    method DispatchAttributeAtr(buffer: array<Byte>) returns (reply: Reply)
      requires Valid() && (storageCard != null ==> storageCard.rgbAtr != buffer)
      modifies storageCard, if storageCard == null then {} else {storageCard.rgbAtr}, buffer
      ensures Valid() && (State(), reply) == NextByRequest(old(State()), ReadAtr(buffer.Length))
      ensures reply.Answer? ==> reply.atr <= buffer[..] && buffer[|reply.atr|..] == old(buffer[|reply.atr|..])
    {
      hide Encoding;
      if !connected {
        return NotConnected;
      }
      var isStorageCard := IsStorage(device);
      if isStorageCard {
        if storageCard == null {
          return Fault;
        }
        if storageCard.cbAtr != 0 {
          var status, copied := storageCard.GetCachedAtr(buffer);
          return Answer(status, buffer[..copied]);
        }
      }
      var status, copied := GetAtr(device, buffer);
      if status == Success && isStorageCard {
        AtrLength(device);
        storageCard.CacheAtr(buffer, copied);
      }
      reply := Answer(status, buffer[..copied]);
    }
  }
}
