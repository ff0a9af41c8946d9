/**
  * The text the `list` command prints for a list of ports. Asking the
  * operating system for the ports is not modelled: the query's result
  * (`None` when it failed) is the input.
  */
module Listing {
  import opened Options
  import opened Numerals

  /** Rust's `u16`, the type of USB vendor and product ids. */
  type u16 = x: nat | x < 0x1_0000

  datatype UsbInfo = UsbInfo(vid: u16, pid: u16, serialNumber: Option<string>, manufacturer: Option<string>, product: Option<string>)

  /** The transport a port is attached by. */
  datatype PortType = UsbPort(info: UsbInfo) | BluetoothPort | PciPort | Unknown

  datatype PortInfo = PortInfo(name: string, kind: PortType)

  /** Lines written to standard output and to standard error. */
  datatype Output = Output(stdout: seq<string>, stderr: seq<string>)

  /** The count line printed before the ports. */
  function CountHeader(n: nat): string {
    if n == 0 then "No ports found."
    else if n == 1 then "Found 1 port:"
    else "Found " + Digits(n, 10) + " ports:"
  }

  /** Reads the port count back from a count line. */
  function HeaderCount(s: string): Option<nat> {
    if s == "No ports found." then Some(0)
    else if s == "Found 1 port:" then Some(1)
    else if |s| > 13 && s[..6] == "Found " && s[|s| - 7..] == " ports:" && AllDigits(s[6..|s| - 7], 10) then
      Some(ValueOf(s[6..|s| - 7], 10))
    else None
  }

  /** The count line always states the number of ports found: distinct counts give distinct lines. */
  lemma HeaderRoundTrip(n: nat)
    ensures HeaderCount(CountHeader(n)) == Some(n)
  {
    if n >= 2 {
      var d := Digits(n, 10);
      var s := "Found " + d + " ports:";
      assert s[..6] == "Found " && s[|s| - 7..] == " ports:" && s[6..|s| - 7] == d;
      assert s[0] != "No ports found."[0];
      assert |s| != |"Found 1 port:"|;
      ValueOfDigits(n, 10);
    }
  }

  /** The headers for zero, one and three ports. */
  lemma HeaderExamples()
    ensures CountHeader(0) == "No ports found."
    ensures CountHeader(1) == "Found 1 port:"
    ensures CountHeader(3) == "Found 3 ports:"
  {
    assert Digits(3, 10) == "3";
  }

  /** `{:04x}`: four lowercase hex digits, since every `u16` fits in four. */
  function Hex4(v: u16): (r: string)
    ensures |r| == 4
    ensures AllDigits(r, 16)
    ensures ValueOf(r, 16) == v
  {
    assert Pow(16, 4) == 0x1_0000;
    FixedWidth(v, 4, 16);
    ZeroPadValue(v, 4, 16);
    ZeroPad(v, 4, 16)
  }

  /** `"    VID:{:04x} PID:{:04x}"`. */
  function UsbIds(vid: u16, pid: u16): string {
    "    VID:" + Hex4(vid) + " PID:" + Hex4(pid)
  }

  /** Reads the ids back from a VID/PID line. */
  function ParseUsbIds(s: string): Option<(u16, u16)> {
    if |s| != 21 || s[..8] != "    VID:" || s[12..17] != " PID:" || !AllDigits(s[8..12], 16) || !AllDigits(s[17..], 16) then None
    else
      var vid, pid := ValueOf(s[8..12], 16), ValueOf(s[17..], 16);
      if vid < 0x1_0000 && pid < 0x1_0000 then Some((vid, pid)) else None
  }

  /** The VID/PID line has a fixed width and gives back both ids. */
  lemma UsbIdsRoundTrip(vid: u16, pid: u16)
    ensures |UsbIds(vid, pid)| == 21
    ensures ParseUsbIds(UsbIds(vid, pid)) == Some((vid, pid))
  {
    var s := UsbIds(vid, pid);
    assert s[..8] == "    VID:" && s[8..12] == Hex4(vid) && s[12..17] == " PID:" && s[17..] == Hex4(pid);
  }

  /** The example device 0403:6001. */
  lemma UsbIdsExample()
    ensures UsbIds(0x0403, 0x6001) == "    VID:0403 PID:6001"
  {
    assert Digits(0x0403, 16) == "403";
    assert Digits(0x6001, 16) == "6001";
    assert Zeros(1) == "0";
    assert Zeros(0) == "";
  }

  /** `{:<width}`: the text, padded on the right with spaces to `width` characters. */
  function LeftAlign(s: string, width: nat): (r: string)
    ensures |r| == if |s| < width then width else |s|
    ensures r[..|s|] == s
    ensures forall i :: |s| <= i < |r| ==> r[i] == ' '
  {
    s + seq(if |s| < width then width - |s| else 0, i => ' ')
  }

  /** `print_optional_info`: the title aligned in 15 columns, then the value, or nothing when it is absent. */
  function OptionalInfo(title: string, opt: Option<string>): string {
    "    " + LeftAlign(title, 15) + ": " + MapOr(opt, "")
  }

  /**
    * For the labels used (at most 15 characters) the value starts in column 21;
    * an absent value leaves the line ending in `": "`, exactly like an empty one.
    */
  lemma OptionalInfoLayout(title: string, opt: Option<string>)
    requires |title| <= 15
    ensures var r := OptionalInfo(title, opt);
            && |r| == 21 + |MapOr(opt, "")|
            && r[..4] == "    " && r[4..4 + |title|] == title && r[19..21] == ": "
            && (opt.Some? ==> r[21..] == opt.value)
            && (opt.None? ==> r[21..] == "" && r == OptionalInfo(title, Some("")))
  {
    var r := OptionalInfo(title, opt);
    var a := LeftAlign(title, 15);
    assert r == "    " + a + ": " + MapOr(opt, "");
    assert r[4..19] == a;
    assert a[..|title|] == title;
    assert r[4..4 + |title|] == a[..|title|];
  }

  /** `print_usb_info`: the ids, then the three optional strings. */
  function UsbLines(info: UsbInfo): seq<string> {
    [ UsbIds(info.vid, info.pid),
      OptionalInfo("Serial Number", info.serialNumber),
      OptionalInfo("Manufacturer", info.manufacturer),
      OptionalInfo("Product", info.product) ]
  }

  /** The lines printed for one port: its name, its type, and for USB the device details. */
  function PortBlock(p: PortInfo): (r: seq<string>)
    ensures |r| == if p.kind.UsbPort? then 6 else 2
    ensures r[0] == "  " + p.name
    ensures p.kind.UsbPort? ==> r[1] == "    Type: USB" && r[2..] == UsbLines(p.kind.info)
    ensures p.kind.BluetoothPort? ==> r[1] == "    Type: Bluetooth"
    ensures p.kind.PciPort? ==> r[1] == "    Type: PCI"
    ensures p.kind.Unknown? ==> r[1] == "    Type: Unknown"
  {
    ["  " + p.name] +
    match p.kind
    case UsbPort(info) => ["    Type: USB"] + UsbLines(info)
    case BluetoothPort => ["    Type: Bluetooth"]
    case PciPort => ["    Type: PCI"]
    case Unknown => ["    Type: Unknown"]
  }

  function UsbCount(ports: seq<PortInfo>): nat
    decreases |ports|
  {
    if |ports| == 0 then 0 else (if ports[0].kind.UsbPort? then 1 else 0) + UsbCount(ports[1..])
  }

  /** The blocks of all ports, in the order the query returned them. */
  function Blocks(ports: seq<PortInfo>): (r: seq<string>)
    ensures |r| == 2 * |ports| + 4 * UsbCount(ports)
    ensures |ports| > 0 ==> r[..|PortBlock(ports[0])|] == PortBlock(ports[0])
    decreases |ports|
  {
    if |ports| == 0 then [] else PortBlock(ports[0]) + Blocks(ports[1..])
  }

  /** The ports' blocks follow one another in query order: listing `a` then `b` prints `a`'s blocks, then `b`'s. */
  lemma {:induction false} BlocksAppend(a: seq<PortInfo>, b: seq<PortInfo>)
    ensures Blocks(a + b) == Blocks(a) + Blocks(b)
    decreases |a|
  {
    if |a| == 0 {
      assert a + b == b;
    } else {
      assert (a + b)[0] == a[0] && (a + b)[1..] == a[1..] + b;
      BlocksAppend(a[1..], b);
    }
  }

  /** A single port prints exactly its own block. */
  lemma BlocksSingle(p: PortInfo)
    ensures Blocks([p]) == PortBlock(p)
  {
    assert [p][1..] == [];
  }

  /**
    * `list_ports`: the count line and the port blocks when the query
    * succeeded, one error line when it failed.
    */
  function ListPorts(query: Option<seq<PortInfo>>): (out: Output)
    ensures query.None? ==> out.stdout == [] && out.stderr == ["Error listing serial ports"]
    ensures query.Some? ==> out.stderr == [] && |out.stdout| == 1 + 2 * |query.value| + 4 * UsbCount(query.value)
    ensures query.Some? ==> HeaderCount(out.stdout[0]) == Some(|query.value|)
    ensures query.Some? ==> out.stdout[1..] == Blocks(query.value)
  {
    match query
    case None => Output([], ["Error listing serial ports"])
    case Some(ports) =>
      HeaderRoundTrip(|ports|);
      Output([CountHeader(|ports|)] + Blocks(ports), [])
  }
}
