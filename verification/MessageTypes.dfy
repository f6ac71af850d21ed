/** The message types under which clients publish and subscribe: how a name is analysed, and
    what its analysis means for sending. */
module MessageTypes {
  import opened Options
  import opened Publications

  const TNF_NFCWELLKNOWN: nat := 0x01
  const TNF_MEDIATYPE: nat := 0x02
  const TNF_ABSURI: nat := 0x03
  const TNF_NFCEXT: nat := 0x04
  const TNF_UNKNOWN: nat := 0x05
  const TNF_NONE: nat := 0xFF

  const UPNP_PAIRING_MIME_TYPE: string := "application/vnd.upnp."

  /** What a name is taken for, with its type name format and the rest of it. */
  datatype Analysis = Recognized(translation: TranslationType, tnf: nat, subType: Option<string>) | NotFound | Rejected

  /** What stands behind a prefix. */
  function After(s: string, p: string): (x: Option<string>) {
    if p <= s then Some(s[|p|..]) else None
  }

  /** "WriteTag", a dot and a type. */
  function AnalyzeWriteTag(s: string, tnf: nat): (a: Analysis) {
    match After(s, "WriteTag")
    case None => NotFound
    case Some(y) =>
      match After(y, ".")
      case None => NotFound
      case Some(x) => Recognized(PayloadOnlyWriteTag, tnf, Some(x))
  }

  function AnalyzeUri(s: string, publication: bool): (a: Analysis) {
    if s == [] then Recognized(WindowsUri, TNF_NFCWELLKNOWN, None)
    else if publication && After(s, ":") == Some("WriteTag") then
      Recognized(WindowsUriWriteTag, TNF_NFCWELLKNOWN, None)
    else NotFound
  }

  function AnalyzeMime(s: string, publication: bool): (a: Analysis) {
    if !publication && s == [] then Recognized(WindowsMimeMatchAll, TNF_MEDIATYPE, None)
    else if publication && After(s, ":").Some? then AnalyzeWriteTag(After(s, ":").value, TNF_MEDIATYPE)
    else if After(s, ".").Some? then Recognized(PayloadOnly, TNF_MEDIATYPE, After(s, "."))
    else NotFound
  }

  function AnalyzeWindows(s: string, publication: bool): (a: Analysis) {
    if After(s, ".").Some? then Recognized(PayloadOnly, TNF_ABSURI, After(s, "."))
    else if After(s, ":").Some? then
      if publication then AnalyzeWriteTag(After(s, ":").value, TNF_ABSURI) else NotFound
    else if After(s, "Uri").Some? then AnalyzeUri(After(s, "Uri").value, publication)
    else if After(s, "Mime").Some? then AnalyzeMime(After(s, "Mime").value, publication)
    else NotFound
  }

  function AnalyzeNdef(s: string, publication: bool): (a: Analysis) {
    if s == [] then Recognized(Ndef, TNF_NONE, None)
    else
      match After(s, ":")
      case None => NotFound
      case Some(y) =>
        if y == "Empty" then Rejected
        else if publication then
          if y == "WriteTag" then Recognized(RawNdefWriteTag, TNF_NONE, None) else NotFound
        else if After(y, "ext.").Some? then Recognized(RawNdef, TNF_NFCEXT, After(y, "ext."))
        else if After(y, "MIME.").Some? then Recognized(RawNdef, TNF_MEDIATYPE, After(y, "MIME."))
        else if After(y, "URI.").Some? then Recognized(RawNdef, TNF_ABSURI, After(y, "URI."))
        else if After(y, "wkt.").Some? then Recognized(RawNdef, TNF_NFCWELLKNOWN, After(y, "wkt."))
        else if y == "Unknown" then Recognized(RawNdef, TNF_UNKNOWN, None)
        else NotFound
  }

  /** AnalyzeMessageType. */
  function Analyze(name: string, publication: bool): (a: Analysis) {
    if After(name, "NfcBarcode").Some? then Recognized(NfcBarcode, TNF_NONE, None)
    else if After(name, "Windows").Some? then AnalyzeWindows(After(name, "Windows").value, publication)
    else if After(name, "NDEF").Some? then AnalyzeNdef(After(name, "NDEF").value, publication)
    else if publication then
      if name == "LaunchApp:WriteTag" then Recognized(LaunchAppWriteTag, TNF_NONE, None)
      else if name == "SetTagReadOnly" then Recognized(SetTagReadOnly, TNF_NONE, None)
      else NotFound
    else if name == "DeviceArrived" then Recognized(Arrival, TNF_NONE, None)
    else if name == "DeviceDeparted" then Recognized(Removal, TNF_NONE, None)
    else if name == "Pairing:Bluetooth" then Recognized(PairingBluetooth, TNF_NONE, None)
    else if name == "Pairing:UPnP" then Recognized(PayloadOnly, TNF_MEDIATYPE, Some(UPNP_PAIRING_MIME_TYPE))
    else if name == "WriteableTag" then Recognized(WritableTagSize, TNF_NONE, None)
    else NotFound
  }

  lemma AfterExactly(s: string, p: string, x: string)
    ensures After(s, p) == Some(x) <==> s == p + x
  {
    if After(s, p) == Some(x) { assert s == p + s[|p|..]; }
  }

  lemma AfterIs(s: string, p: string)
    ensures After(s, p).Some? ==> s == p + After(s, p).value
  {
    if p <= s { assert s == p + s[|p|..]; }
  }

  /** Two prefixes that differ in a character exclude each other. */
  lemma AfterFirst(s: string, p: string, i: nat)
    requires i < |p| && (i < |s| ==> s[i] != p[i])
    ensures After(s, p).None?
  {
  }

  // ---------- the name of a publication ----------

  /** What stands behind "Windows" in the name of a publication. */
  function WindowsTail(a: Analysis): (s: Option<string>) {
    match a
    case Recognized(PayloadOnly, tnf, Some(x)) =>
      if tnf == TNF_ABSURI then Some("." + x)
      else if tnf == TNF_MEDIATYPE then Some("Mime" + ("." + x)) else None
    case Recognized(PayloadOnlyWriteTag, tnf, Some(x)) =>
      if tnf == TNF_ABSURI then Some(":" + ("WriteTag" + ("." + x)))
      else if tnf == TNF_MEDIATYPE then Some("Mime" + (":" + ("WriteTag" + ("." + x)))) else None
    case Recognized(WindowsUri, tnf, None) => if tnf == TNF_NFCWELLKNOWN then Some("Uri" + []) else None
    case Recognized(WindowsUriWriteTag, tnf, None) =>
      if tnf == TNF_NFCWELLKNOWN then Some("Uri" + (":" + "WriteTag")) else None
    case _ => None
  }

  /** The name under which a publication is made, barcodes apart. */
  function NameOf(a: Analysis): (name: Option<string>) {
    if WindowsTail(a).Some? then Some("Windows" + WindowsTail(a).value)
    else if a == Recognized(Ndef, TNF_NONE, None) then Some("NDEF" + [])
    else if a == Recognized(RawNdefWriteTag, TNF_NONE, None) then Some("NDEF" + (":" + "WriteTag"))
    else if a == Recognized(LaunchAppWriteTag, TNF_NONE, None) then Some("LaunchApp:WriteTag")
    else if a == Recognized(SetTagReadOnly, TNF_NONE, None) then Some("SetTagReadOnly")
    else None
  }

  lemma WriteTagExactly(s: string, tnf: nat, x: string)
    ensures AnalyzeWriteTag(s, tnf) == Recognized(PayloadOnlyWriteTag, tnf, Some(x)) <==> s == "WriteTag" + ("." + x)
  {
    AfterIs(s, "WriteTag");
    AfterExactly(s, "WriteTag", "." + x);
    if After(s, "WriteTag").Some? { AfterExactly(After(s, "WriteTag").value, ".", x); }
    hide After;
  }

  lemma WindowsAnalyzed(s: string)
    requires AnalyzeWindows(s, true).Recognized?
    ensures WindowsTail(AnalyzeWindows(s, true)) == Some(s)
  {
    AfterIs(s, ".");
    AfterIs(s, ":");
    AfterIs(s, "Uri");
    AfterIs(s, "Mime");
    hide After;
    var a := AnalyzeWindows(s, true);
    if After(s, ".").Some? {
    } else if After(s, ":").Some? {
      WriteTagExactly(After(s, ":").value, TNF_ABSURI, a.subType.value);
    } else if After(s, "Uri").Some? {
      AfterIs(After(s, "Uri").value, ":");
    } else {
      var y := After(s, "Mime").value;
      AfterIs(y, ":");
      AfterIs(y, ".");
      if After(y, ":").Some? { WriteTagExactly(After(y, ":").value, TNF_MEDIATYPE, a.subType.value); }
    }
  }

  lemma WindowsNamed(a: Analysis)
    requires WindowsTail(a).Some?
    ensures AnalyzeWindows(WindowsTail(a).value, true) == a
  {
    var s := WindowsTail(a).value;
    match a
    case Recognized(PayloadOnly, tnf, Some(x)) =>
      if tnf == TNF_ABSURI { AfterExactly(s, ".", x); } else { MimeNamed("." + x); AfterExactly("." + x, ".", x); }
    case Recognized(PayloadOnlyWriteTag, tnf, Some(x)) =>
      var y := "WriteTag" + ("." + x);
      WriteTagExactly(y, tnf, x);
      AfterFirst(":" + y, ".", 0);
      AfterExactly(":" + y, ":", y);
      if tnf == TNF_MEDIATYPE { MimeNamed(":" + y); }
    case Recognized(WindowsUri, _, None) => UriNamed([]);
    case Recognized(WindowsUriWriteTag, _, None) =>
      UriNamed(":" + "WriteTag");
      AfterExactly(":" + "WriteTag", ":", "WriteTag");
    case _ =>
    hide After, AnalyzeWriteTag;
  }

  lemma MimeNamed(y: string)
    ensures AnalyzeWindows("Mime" + y, true) == AnalyzeMime(y, true)
  {
    var s := "Mime" + y;
    AfterFirst(s, ".", 0);
    AfterFirst(s, ":", 0);
    AfterFirst(s, "Uri", 0);
    AfterExactly(s, "Mime", y);
  }

  lemma UriNamed(y: string)
    ensures AnalyzeWindows("Uri" + y, true) == AnalyzeUri(y, true)
  {
    var s := "Uri" + y;
    AfterFirst(s, ".", 0);
    AfterFirst(s, ":", 0);
    AfterExactly(s, "Uri", y);
  }

  lemma NamedAgain(name: string)
    requires Analyze(name, true).Recognized? && Analyze(name, true).translation != NfcBarcode
    ensures NameOf(Analyze(name, true)) == Some(name)
  {
    AfterIs(name, "Windows");
    AfterIs(name, "NDEF");
    hide After;
    if After(name, "Windows").Some? {
      WindowsAnalyzed(After(name, "Windows").value);
      hide AnalyzeWindows, WindowsTail;
    } else if After(name, "NDEF").Some? {
      AfterIs(After(name, "NDEF").value, ":");
    }
  }

  lemma NoBarcode(p: string, y: string)
    requires p in {"Windows", "NDEF"}
    ensures After(p + y, "NfcBarcode").None? && After(p + y, p) == Some(y)
    ensures p == "NDEF" ==> After(p + y, "Windows").None?
  {
    AfterExactly(p + y, p, y);
    if p == "Windows" {
      AfterFirst(p + y, "NfcBarcode", 0);
    } else {
      assert (p + y)[1] == 'D';
      AfterFirst(p + y, "NfcBarcode", 1);
      AfterFirst(p + y, "Windows", 0);
    }
  }

  lemma AnalyzedAgain(a: Analysis)
    requires NameOf(a).Some?
    ensures Analyze(NameOf(a).value, true) == a && a.translation != NfcBarcode
  {
    if WindowsTail(a).Some? {
      NoBarcode("Windows", WindowsTail(a).value);
      WindowsNamed(a);
    } else if a == Recognized(Ndef, TNF_NONE, None) {
      NoBarcode("NDEF", []);
    } else if a == Recognized(RawNdefWriteTag, TNF_NONE, None) {
      NoBarcode("NDEF", ":" + "WriteTag");
      AfterExactly(":" + "WriteTag", ":", "WriteTag");
    } else {
      AfterFirst(NameOf(a).value, "NfcBarcode", 0);
      AfterFirst(NameOf(a).value, "Windows", 0);
      AfterFirst(NameOf(a).value, "NDEF", 0);
    }
    hide After, AnalyzeWindows;
  }

  /** The analysis of a publication's name and the name it has are inverse: no two kinds of
      publication share a name, none is taken for another, and every name of one is accepted. */
  lemma AnalyzeIsInverse(name: string, a: Analysis)
    requires a.Recognized? && a.translation != NfcBarcode
    ensures Analyze(name, true) == a <==> NameOf(a) == Some(name)
  {
    if NameOf(a) == Some(name) {
      AnalyzedAgain(a);
    } else if Analyze(name, true) == a {
      NamedAgain(name);
    }
  }

  // ---------- what a name says of its publication ----------

  /** The part of a name in front of the first dot: protocol and sub-protocol. */
  function Head(name: string): (h: string) {
    if name == [] || name[0] == '.' then [] else [name[0]] + Head(name[1..])
  }

  predicate EndsWith(s: string, e: string) {
    |s| >= |e| && s[|s| - |e|..] == e
  }

  /** Asks for a tag: the sub-protocol WriteTag, or the request to make one read-only. */
  predicate IsTagName(name: string) {
    name == "SetTagReadOnly" || (!("NfcBarcode" <= name) && EndsWith(Head(name), ":WriteTag"))
  }

  lemma {:induction false} HeadIs(p: string, x: string)
    requires '.' !in p && (x == [] || x[0] == '.')
    ensures Head(p + x) == p
  {
    if p != [] {
      assert (p + x)[1..] == p[1..] + x;
      HeadIs(p[1..], x);
    } else {
      assert p + x == x;
    }
  }

  lemma TagName(p: string, x: string)
    requires '.' !in p && (x == [] || x[0] == '.') && !("NfcBarcode" <= p + (":" + ("WriteTag" + x)))
    ensures IsTagName(p + (":" + ("WriteTag" + x)))
  {
    var h := p + ":WriteTag";
    assert ":" + "WriteTag" == ":WriteTag" && '.' !in ":WriteTag";
    assert h[|h| - 9..] == ":WriteTag";
    assert p + (":" + ("WriteTag" + x)) == p + (":" + "WriteTag") + x;
    HeadIs(h, x);
  }

  lemma NoTagName(p: string, x: string)
    requires '.' !in p && (x == [] || x[0] == '.') && (|p| >= 9 ==> p[|p| - 9] != ':')
    requires |p| >= 1 && p[0] != 'S'
    ensures !IsTagName(p + x)
  {
    assert ":WriteTag"[0] == ':' && (p + x)[0] == p[0];
    HeadIs(p, x);
  }

  /** Each name, and whether it is a tag's. */
  lemma NameKind(a: Analysis)
    requires NameOf(a).Some?
    ensures IsTagName(NameOf(a).value) <==>
            a.translation in
              {PayloadOnlyWriteTag, WindowsUriWriteTag, RawNdefWriteTag, LaunchAppWriteTag, SetTagReadOnly}
    ensures NameOf(a).value == "SetTagReadOnly" <==> a.translation == SetTagReadOnly
  {
    AnalyzedAgain(a);
    AnalyzedAgain(Recognized(SetTagReadOnly, TNF_NONE, None));
    var n := NameOf(a).value;
    IsNoBarcode(n);
    hide After, Analyze;
    if WindowsTail(a).Some? {
      WindowsKind(a);
    } else if a.translation == Ndef {
      NoTagName("NDEF", []);
    } else if a.translation == RawNdefWriteTag {
      assert "WriteTag" + [] == "WriteTag";
      TagName("NDEF", []);
    } else if a.translation == LaunchAppWriteTag {
      LaunchAppName();
      TagName("LaunchApp", []);
    }
    hide IsTagName, WindowsTail;
  }

  lemma LaunchAppName()
    ensures "LaunchApp:WriteTag" == "LaunchApp" + (":" + ("WriteTag" + []))
  {
  }

  lemma WindowsKind(a: Analysis)
    requires WindowsTail(a).Some? && !("NfcBarcode" <= "Windows" + WindowsTail(a).value)
    ensures IsTagName("Windows" + WindowsTail(a).value) <==> a.translation in {PayloadOnlyWriteTag, WindowsUriWriteTag}
  {
    var n := "Windows" + WindowsTail(a).value;
    hide IsTagName;
    match a
    case Recognized(PayloadOnly, tnf, Some(x)) =>
      if tnf == TNF_ABSURI {
        NoTagName("Windows", "." + x);
      } else {
        assert n == ("Windows" + "Mime") + ("." + x);
        NoTagName("Windows" + "Mime", "." + x);
      }
    case Recognized(PayloadOnlyWriteTag, tnf, Some(x)) =>
      if tnf == TNF_ABSURI {
        TagName("Windows", "." + x);
      } else {
        assert n == ("Windows" + "Mime") + (":" + ("WriteTag" + ("." + x)));
        TagName("Windows" + "Mime", "." + x);
      }
    case Recognized(WindowsUri, _, _) =>
      assert n == ("Windows" + "Uri") + [];
      NoTagName("Windows" + "Uri", []);
    case Recognized(WindowsUriWriteTag, _, _) =>
      assert "WriteTag" + [] == "WriteTag";
      assert n == ("Windows" + "Uri") + (":" + ("WriteTag" + []));
      TagName("Windows" + "Uri", []);
    case _ =>
  }

  lemma IsNoBarcode(n: string)
    requires Analyze(n, true).Recognized? && Analyze(n, true).translation != NfcBarcode
    ensures !("NfcBarcode" <= n)
  {
  }

  /** A publication may go to a tag exactly when its name asks for one, and is one that makes
      a tag read-only exactly when it is named so: for every name that is accepted. */
  lemma PublicationKindExactly(name: string)
    requires Analyze(name, true).Recognized?
    ensures var t := Analyze(name, true).translation;
            && (IsTagWrite(t) <==> IsTagName(name))
            && (IsReadOnly(t) <==> name == "SetTagReadOnly")
  {
    if Analyze(name, true).translation != NfcBarcode {
      NamedAgain(name);
      NameKind(Analyze(name, true));
    } else {
      BarcodeIsNoTag(name);
    }
    hide Analyze, IsTagName, NameOf;
  }

  lemma BarcodeIsNoTag(name: string)
    requires Analyze(name, true).Recognized? && Analyze(name, true).translation == NfcBarcode
    ensures !IsTagName(name) && name != "SetTagReadOnly"
  {
    if After(name, "NfcBarcode").None? {
      OnlyBarcodes(name);
    } else {
      assert "NfcBarcode" <= name && name[0] == 'N';
    }
  }

  lemma OnlyBarcodes(name: string)
    requires After(name, "NfcBarcode").None? && Analyze(name, true).Recognized?
    ensures Analyze(name, true).translation != NfcBarcode
  {
    hide After;
  }

  /** When a publication is sent, by its name: it is enabled, the peer is of the kind that the
      name asks for, and there is something to send or nothing is needed. */
  lemma MustSendByName(conn: Connection, name: string, enabled: bool, size: nat)
    requires Analyze(name, true).Recognized?
    ensures MustSend(conn, Attributes(enabled, Analyze(name, true).translation, size)) <==>
            && enabled && conn.device && conn.tag == IsTagName(name)
            && (size != 0 || name == "SetTagReadOnly")
  {
    PublicationKindExactly(name);
    MustSendExactly(conn, Attributes(enabled, Analyze(name, true).translation, size));
  }

  /** What a subscription is for, by its name: arrivals, departures and writable tags have one
      name each, and no subscription is for writing. */
  lemma SubscriptionKindExactly(name: string)
    requires Analyze(name, false).Recognized?
    ensures var t := Analyze(name, false).translation;
            && (t == Arrival <==> name == "DeviceArrived")
            && (t == Removal <==> name == "DeviceDeparted")
            && (t == WritableTagSize <==> name == "WriteableTag")
            && !IsTagWrite(t)
  {
    if name in {"DeviceArrived", "DeviceDeparted", "WriteableTag"} { DeviceNames(name); }
    hide After;
    if After(name, "Windows").Some? { WindowsSubscription(After(name, "Windows").value); }
    if After(name, "NDEF").Some? { NdefSubscription(After(name, "NDEF").value); }
    hide AnalyzeWindows, AnalyzeNdef;
  }

  lemma DeviceNames(name: string)
    requires name in {"DeviceArrived", "DeviceDeparted", "WriteableTag"}
    ensures After(name, "NfcBarcode").None? && After(name, "Windows").None? && After(name, "NDEF").None?
  {
    assert name[0] == 'D' || (name[0] == 'W' && name[1] == 'r');
    AfterFirst(name, "NfcBarcode", 0);
    AfterFirst(name, "Windows", 1);
    AfterFirst(name, "NDEF", 0);
  }

  lemma WindowsSubscription(s: string)
    ensures var a := AnalyzeWindows(s, false);
            a.Recognized? ==> a.translation in {PayloadOnly, WindowsUri, WindowsMimeMatchAll}
  {
    hide After;
  }

  lemma NdefSubscription(s: string)
    ensures var a := AnalyzeNdef(s, false); a.Recognized? ==> a.translation in {Ndef, RawNdef}
  {
    hide After;
  }

  /** What stands behind "NDEF:" in a subscription to records of one type. */
  function RecordTail(a: Analysis): (s: Option<string>) {
    match a
    case Recognized(RawNdef, tnf, Some(x)) =>
      if tnf == TNF_NFCEXT then Some("ext." + x)
      else if tnf == TNF_MEDIATYPE then Some("MIME." + x)
      else if tnf == TNF_ABSURI then Some("URI." + x)
      else if tnf == TNF_NFCWELLKNOWN then Some("wkt." + x)
      else None
    case Recognized(RawNdef, tnf, None) => if tnf == TNF_UNKNOWN then Some("Unknown") else None
    case _ => None
  }

  /** A subscription to records of one type is taken for that type, and for no other. */
  lemma RecordSubscriptions(a: Analysis)
    requires RecordTail(a).Some?
    ensures Analyze("NDEF" + (":" + RecordTail(a).value), false) == a
  {
    var y := RecordTail(a).value;
    NoBarcode("NDEF", ":" + y);
    AfterExactly(":" + y, ":", y);
    assert "Empty"[0] == 'E';
    if a.subType.None? {
      assert y[0] == 'U' && y[1] == 'n';
      AfterFirst(y, "ext.", 0);
      AfterFirst(y, "MIME.", 0);
      AfterFirst(y, "URI.", 1);
      AfterFirst(y, "wkt.", 0);
    } else {
      var x := a.subType.value;
      if a.tnf == TNF_NFCEXT {
        assert y[0] == 'e';
        AfterExactly(y, "ext.", x);
      } else {
        assert y[0] == 'M' || y[0] == 'U' || y[0] == 'w';
        AfterFirst(y, "ext.", 0);
        if a.tnf == TNF_MEDIATYPE {
          AfterExactly(y, "MIME.", x);
        } else {
          AfterFirst(y, "MIME.", 0);
          if a.tnf == TNF_ABSURI {
            AfterExactly(y, "URI.", x);
          } else {
            AfterFirst(y, "URI.", 0);
            AfterExactly(y, "wkt.", x);
          }
        }
      }
    }
    hide After;
  }
}
