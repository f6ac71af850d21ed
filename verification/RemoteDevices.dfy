/** The remote-device list of the RF interface: how a discovery notification is stored, with
    peer-to-peer targets preferred, and what the stored list always satisfies. */
module RemoteDevices {

  datatype DeviceType = NfcIp1Target | Iso14443APcd | Iso14443BPcd | Tag(tagType: nat)

  datatype RemoteDevice = RemoteDevice(target: nat, devType: DeviceType)

  predicate IsPcd(t: DeviceType) {
    t == Iso14443APcd || t == Iso14443BPcd
  }

  /** A reader that the host's card emulation talks to: of type A or of type B. */
  predicate IsReader(d: RemoteDevice) {
    d.devType.Iso14443APcd? || d.devType.Iso14443BPcd?
  }

  predicate HasPcd(ds: seq<RemoteDevice>) {
    exists i :: 0 <= i < |ds| && IsPcd(ds[i].devType)
  }

  predicate HasP2p(ds: seq<RemoteDevice>) {
    exists i :: 0 <= i < |ds| && ds[i].devType == NfcIp1Target
  }

  /** Where the stored list starts: the first peer-to-peer target behind entry 0, or 0. */
  ghost function StartOf(ds: seq<RemoteDevice>, i: nat): (k: nat)
    requires 1 <= i
    decreases |ds| - i
  {
    if i >= |ds| then 0 else if ds[i].devType == NfcIp1Target then i else StartOf(ds, i + 1)
  }

  lemma {:induction false} StartIsFirst(ds: seq<RemoteDevice>, i: nat)
    requires 1 <= i
    ensures var k := StartOf(ds, i);
            && (k == 0 || i <= k < |ds|)
            && (k > 0 ==> ds[k].devType == NfcIp1Target)
            && forall j :: i <= j < (if k == 0 then |ds| else k) ==> ds[j].devType != NfcIp1Target
    decreases |ds| - i
  {
    if i < |ds| && ds[i].devType != NfcIp1Target { StartIsFirst(ds, i + 1); }
  }

  ghost function Stored(ds: seq<RemoteDevice>): (s: seq<RemoteDevice>) {
    if StartOf(ds, 1) <= |ds| then ds[StartOf(ds, 1)..] else []
  }

  /** Peer-to-peer is preferred over everything else: the stored list is a suffix of what
      was notified, its head is a peer-to-peer target exactly when one was notified, and
      what is dropped is dropped only for one: at most entry 0 of it can be another. */
  lemma P2pComesFirstExactly(ds: seq<RemoteDevice>)
    requires ds != []
    ensures exists k :: 0 <= k < |ds| && Stored(ds) == ds[k..]
                    && (forall j :: 1 <= j < k ==> ds[j].devType != NfcIp1Target)
                    && (k > 0 ==> ds[k].devType == NfcIp1Target)
    ensures Stored(ds)[0].devType == NfcIp1Target <==> HasP2p(ds)
    ensures !HasP2p(ds) ==> Stored(ds) == ds
  {
    StartIsFirst(ds, 1);
    var k := StartOf(ds, 1);
    assert ds[0..] == ds && Stored(ds) == ds[k..];
  }

  /** An entry of the list: its information was copied, its allocation failed, or the loop
      that fills the list never came to it and it holds what malloc left there. */
  datatype Info = Copied(d: RemoteDevice) | Absent | Unset

  predicate AllCopied(infos: seq<Info>) {
    forall i :: 0 <= i < |infos| ==> infos[i].Copied?
  }

  predicate CopiedPcd(infos: seq<Info>) {
    exists i :: 0 <= i < |infos| && infos[i].Copied? && IsPcd(infos[i].d.devType)
  }

  ghost function Devices(infos: seq<Info>): (ds: seq<RemoteDevice>)
    requires AllCopied(infos)
    ensures |ds| == |infos| && forall i :: 0 <= i < |ds| ==> ds[i] == infos[i].d
  {
    seq(|infos|, i requires 0 <= i < |infos| => infos[i].d)
  }

  /** The first allocation of an entry that fails, at the end when none does.  The entries
      behind it are never filled: only when it is the last is that harmless. */
  ghost predicate IsHarmless(granted: bool, failsAt: nat, n: nat) {
    !granted || failsAt + 1 >= n
  }

  predicate Unfilled(infos: seq<Info>) {
    forall i :: 0 <= i < |infos| ==> infos[i] == Unset
  }

  /** The list when its entry `index` could not be allocated, or all could. */
  predicate IsFilled(infos: seq<Info>, devices: seq<RemoteDevice>, index: nat) {
    && |infos| == |devices| && index <= |infos|
    && (forall i :: 0 <= i < index ==> infos[i] == Copied(devices[i]))
    && (index < |infos| ==> infos[index] == Absent)
    && (forall i :: index < i < |infos| ==> infos[i] == Unset)
  }

  lemma FilledPart(infos: seq<Info>, devices: seq<RemoteDevice>, index: nat)
    requires IsFilled(infos, devices, index) && index < |infos|
    ensures Unset in infos <==> index + 1 < |infos|
    ensures CopiedPcd(infos) <==> HasPcd(devices[..index])
  {
    if index + 1 < |infos| { assert infos[index + 1] == Unset; }
    if HasPcd(devices[..index]) {
      var i :| 0 <= i < index && IsPcd(devices[..index][i].devType);
      assert infos[i] == Copied(devices[i]);
    }
    if CopiedPcd(infos) {
      var i :| 0 <= i < |infos| && infos[i].Copied? && IsPcd(infos[i].d.devType);
      assert devices[..index][i] == infos[i].d;
    }
  }

  /** phLibNfc_Context, as far as these functions update it; the count is a byte. */
  class LibNfcContext {
    var remDevList: array?<Info>
    var noRemoteDevices: nat
    var selectedProtocolIndex: nat
    var isHceConnected: bool

    ghost function List(): (ds: seq<RemoteDevice>)
      reads this, remDevList
      requires remDevList != null ==> AllCopied(remDevList[..])
    {
      if remDevList == null then [] else Devices(remDevList[..])
    }

    /** What every call keeps that reads no unset entry: the count is the list's; the flag
        says whether the list holds a card-emulation reader; and a list that was allocated
        by a notification of at least one device keeps its selected index in range. */
    ghost predicate Valid()
      reads this, remDevList
    {
      && noRemoteDevices <= 255
      && (remDevList != null ==> remDevList.Length == noRemoteDevices && AllCopied(remDevList[..]))
      && (isHceConnected <==> HasPcd(List()))
      && (remDevList != null ==> selectedProtocolIndex < noRemoteDevices || noRemoteDevices == 0)
    }

    constructor ()
      ensures Valid() && List() == []
    {
      remDevList := null;
      noRemoteDevices, selectedProtocolIndex, isHceConnected := 0, 0, false;
    }

    /** NfcCxRFInterfaceClearRemoteDevList; `sound` unless it comes to an unset entry, from
        where on its effects are those of whatever is there. */
    method ClearRemoteDevList() returns (sound: bool)
      requires remDevList != null ==> remDevList.Length == noRemoteDevices
      modifies this`remDevList, this`isHceConnected
      ensures sound <==> old(remDevList) == null || Unset !in old(remDevList[..])
      ensures sound ==> remDevList == null
      ensures sound ==> (isHceConnected <==> old(isHceConnected)
                                             && !(old(remDevList) != null && CopiedPcd(old(remDevList[..]))))
    {
      sound := true;
      var list := remDevList;
      if list == null {
        return;
      }
      var index := 0;
      while index < noRemoteDevices
        modifies this`isHceConnected
        invariant 0 <= index <= noRemoteDevices && Unset !in list[..index]
        invariant isHceConnected <==> old(isHceConnected) && !CopiedPcd(list[..index])
      {
        assert list[..index + 1] == list[..index] + [list[index]];
        match list[index] {
          case Unset =>
            assert list[..][index] == Unset;
            return false;
          case Absent =>
          case Copied(d) =>
            if IsPcd(d.devType) {
              isHceConnected := false;
              assert CopiedPcd(list[..index + 1]) by { assert list[..index + 1][index] == list[index]; }
            }
        }
        index := index + 1;
      }
      assert list[..index] == list[..];
      remDevList := null;
    }

    /** NfcCxRFInterfaceSetRemoteDevList.  The allocation of the list is `granted` or not,
        and that of the entry with index `failsAt` is the first of an entry to fail. */
    method SetRemoteDevList(devices: seq<RemoteDevice>, granted: bool, failsAt: nat) returns (ok: bool, sound: bool)
      requires Valid() && |devices| <= 255
      modifies this
      ensures ok <==> granted && failsAt >= |devices|
      ensures sound <==> IsHarmless(granted, failsAt, |devices|)
      ensures sound ==> Valid() && List() == if ok then devices else []
      ensures sound ==> selectedProtocolIndex == 0 && noRemoteDevices == |devices|
      ensures ok ==> (isHceConnected <==> exists i :: 0 <= i < |devices| && IsReader(devices[i]))
      ensures sound && !ok ==> !isHceConnected
    {
      selectedProtocolIndex := 0;
      sound := ClearRemoteDevList();
      noRemoteDevices := |devices|;
      if !granted {
        return false, true;
      }
      var list := new Info[|devices|](_ => Unset);
      var index := Fill(list, devices, failsAt);
      remDevList := list;
      if index == |devices| {
        assert devices[..index] == devices && Devices(list[..]) == devices;
        return true, true;
      }
      FilledPart(list[..], devices, index);
      ok := false;
      sound := ClearRemoteDevList();
    }

    /** The loop of SetRemoteDevList, up to the entry whose allocation fails. */
    method Fill(list: array<Info>, devices: seq<RemoteDevice>, failsAt: nat) returns (index: nat)
      requires list.Length == |devices| && !isHceConnected && Unfilled(list[..])
      modifies this`isHceConnected, list
      ensures index == if failsAt < |devices| then failsAt else |devices|
      ensures IsFilled(list[..], devices, index) && (isHceConnected <==> HasPcd(devices[..index]))
    {
      index := 0;
      while index < |devices|
        invariant 0 <= index <= |devices| && index <= failsAt
        invariant forall i :: 0 <= i < index ==> list[i] == Copied(devices[i])
        invariant forall i :: index <= i < |devices| ==> list[i] == Unset
        invariant isHceConnected <==> HasPcd(devices[..index])
      {
        if index == failsAt {
          list[index] := Absent;
          return;
        }
        list[index] := Copied(devices[index]);
        assert devices[..index + 1] == devices[..index] + [devices[index]];
        if IsPcd(devices[index].devType) {
          isHceConnected := true;
          assert IsPcd(devices[..index + 1][index].devType);
        }
        index := index + 1;
      }
    }

    /** The discovery notification. */
    method RemoteDevNtfCB(devices: seq<RemoteDevice>, granted: bool, failsAt: nat) returns (ok: bool, sound: bool)
      requires Valid() && |devices| <= 255
      modifies this
      ensures ok <==> granted && failsAt >= |Stored(devices)|
      ensures sound <==> IsHarmless(granted, failsAt, |Stored(devices)|)
      ensures sound ==> Valid() && List() == if ok then Stored(devices) else []
      ensures ok && devices != [] ==>
                && selectedProtocolIndex < noRemoteDevices == |List()|
                && (List()[selectedProtocolIndex].devType == NfcIp1Target <==> HasP2p(devices))
                && (isHceConnected <==> HasPcd(Stored(devices)))
    {
      StartIsFirst(devices, 1);
      var start := 0;
      var i := 1;
      while i < |devices|
        invariant 1 <= i && start == 0 && StartOf(devices, 1) == StartOf(devices, i)
      {
        if devices[i].devType == NfcIp1Target {
          start := i;
          break;
        }
        i := i + 1;
      }
      assert start == StartOf(devices, 1);
      assert Stored(devices) == devices[start..];
      if devices != [] { P2pComesFirstExactly(devices); }
      ok, sound := SetRemoteDevList(devices[start..], granted, failsAt);
    }
  }
}
