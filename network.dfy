/** The network checks: listening TCP ports read from the kernel's TCP table,
    interface existence, state and addresses, the default gateway and the kernel
    IP routing table. Every data source is a parameter: the local-address
    column of /proc/net/tcp, the interface list with its flags and addresses,
    and the tokenized rows of `route -n`. */
module Network {
  import opened Text
  import opened Helpers

  // ===========================================================================
  // Open ports (/proc/net/tcp)
  // ===========================================================================

  predicate IsUpperHex(c: char)
  {
    '0' <= c <= '9' || 'A' <= c <= 'F'
  }

  /** The pattern `:([0-9A-F]{4})` matches `address` starting at index `i`. */
  predicate PortMatchAt(address: string, i: int)
  {
    0 <= i && i + 5 <= |address| && address[i] == ':' &&
    forall k :: i + 1 <= k < i + 5 ==> IsUpperHex(address[k])
  }

  /** Exactly four upper-case hexadecimal digits. */
  predicate IsHexPort(p: string)
  {
    |p| == 4 && forall k :: 0 <= k < 4 ==> IsUpperHex(p[k])
  }

  /** Start of the leftmost match at or after `from`. */
  function MatchFrom(address: string, from: nat): (r: Option<nat>)
    ensures r.Some? ==> from <= r.value && PortMatchAt(address, r.value)
    ensures r.Some? ==> forall j :: from <= j < r.value ==> !PortMatchAt(address, j)
    ensures r.None? ==> forall j :: from <= j ==> !PortMatchAt(address, j)
    decreases |address| - from
  {
    if from + 5 > |address| then None
    else if PortMatchAt(address, from) then Some(from)
    else MatchFrom(address, from + 1)
  }

  /** portRe.FindString(address) with its leading colon dropped: the four digits
      of the leftmost match, or None when there is no match. */
  function FindPort(address: string): (r: Option<string>)
    ensures r.Some? <==> exists i :: PortMatchAt(address, i)
    ensures r.Some? ==> IsHexPort(r.value)
    ensures r.Some? ==> exists i :: PortMatchAt(address, i) && r.value == address[i + 1..i + 5] &&
                                    forall j :: 0 <= j < i ==> !PortMatchAt(address, j)
  {
    match MatchFrom(address, 0)
    case None => None
    case Some(i) =>
      var p := address[i + 1..i + 5];
      assert forall k :: 0 <= k < 4 ==> p[k] == address[i + 1 + k];
      Some(p)
  }

  /** What one local address contributes to getHexPorts. */
  function PortsOf(address: string): seq<string>
  {
    match FindPort(address)
    case None => []
    case Some(p) => [p]
  }

  /** getHexPorts: the hexadecimal port of every local address that has one,
      in address order. */
  function HexPorts(addresses: seq<string>): seq<string>
  {
    if |addresses| == 0 then []
    else HexPorts(addresses[..|addresses| - 1]) + PortsOf(addresses[|addresses| - 1])
  }

  /** There are at most as many ports as addresses, and each is four
      upper-case hexadecimal digits. */
  lemma {:induction false} HexPortsWellFormed(addresses: seq<string>)
    ensures |HexPorts(addresses)| <= |addresses|
    ensures forall k :: 0 <= k < |HexPorts(addresses)| ==> IsHexPort(HexPorts(addresses)[k])
  {
    if |addresses| > 0 {
      HexPortsWellFormed(addresses[..|addresses| - 1]);
    }
  }

  /** getHexPorts keeps the order of the addresses: the ports of a concatenation
      are the ports of each part, one after the other. */
  lemma {:induction false} HexPortsAppend(a: seq<string>, b: seq<string>)
    ensures HexPorts(a + b) == HexPorts(a) + HexPorts(b)
    decreases |b|
  {
    if |b| == 0 {
      assert a + b == a;
    } else {
      var b' := b[..|b| - 1];
      HexPortsAppend(a, b');
      assert (a + b)[..|a + b| - 1] == a + b';
      assert (a + b)[|a + b| - 1] == b[|b| - 1];
    }
  }

  /** An address without a match contributes nothing, wherever it stands. */
  lemma HexPortsSkipsNoMatch(a: seq<string>, address: string, b: seq<string>)
    requires forall i :: !PortMatchAt(address, i)
    ensures HexPorts(a + [address] + b) == HexPorts(a + b)
  {
    assert FindPort(address).None?;
    assert HexPorts([address]) == HexPorts([]) + PortsOf(address) == [];
    HexPortsAppend(a, [address]);
    assert HexPorts(a + [address]) == HexPorts(a);
    HexPortsAppend(a + [address], b);
    HexPortsAppend(a, b);
  }

  /** An address with a match contributes the digits of its leftmost match. */
  lemma HexPortsSingle(address: string, i: nat)
    requires PortMatchAt(address, i)
    requires forall j :: 0 <= j < i ==> !PortMatchAt(address, j)
    ensures HexPorts([address]) == [address[i + 1..i + 5]]
  {
    assert HexPorts([address]) == HexPorts([]) + PortsOf(address);
    var r := MatchFrom(address, 0);
    assert r == Some(i);
  }

  /** getHexPorts (network.go), with the local-address column as input. */
  method GetHexPorts(localAddresses: seq<string>) returns (ports: seq<string>)
    ensures ports == HexPorts(localAddresses)
  {
    ports := [];
    for i := 0 to |localAddresses|
      invariant ports == HexPorts(localAddresses[..i])
    {
      var port := FindPort(localAddresses[i]);
      if port.Some? {
        ports := ports + [port.value];
      }
      assert localAddresses[..i + 1][..i] == localAddresses[..i];
    }
    assert localAddresses[..|localAddresses|] == localAddresses;
  }

  /** strHexToDecimal: strconv.ParseInt(hex, 16, 64), stopping the run when the
      text is not a hexadecimal number. The reason ends where Go appends the
      library's error text. */
  function StrHexToDecimal(hex: string): (r: Result<int>)
    ensures r.Ok? ==> MinInt64 <= r.value <= MaxInt64
  {
    match ParseInt(hex, 16)
    case Some(n) => Ok(n)
    case None => Err("Couldn't parse hex number " + hex + ":\n\t")
  }

  /** strHexToDecimal succeeds exactly on a signed hexadecimal digit string
      whose value fits in 64 bits, with that value; otherwise the reason names
      the text. */
  lemma StrHexToDecimalStrict(hex: string)
    ensures StrHexToDecimal(hex).Ok? <==> Int64Text(hex, 16)
    ensures forall sign, ds :: SignedDigits(hex, sign, ds, 16) && MinInt64 <= SignedValue(sign, ds, 16) <= MaxInt64 ==>
              StrHexToDecimal(hex) == Ok(SignedValue(sign, ds, 16))
    ensures StrHexToDecimal(hex).Err? ==> Contains(StrHexToDecimal(hex).reason, hex)
  {
    ParseIntStrict(hex, 16);
    ContainsPiece("Couldn't parse hex number ", hex, ":\n\t");
  }

  /** The value of four hexadecimal digits. */
  function PortNumber(p: string): nat
    requires IsHexPort(p)
  {
    assert AllDigits(p, 16);
    DigitsValue(p, 16)
  }

  /** Every port getHexPorts yields converts without a fatal stop, to its base-16
      value, which lies in 0..65535. */
  lemma HexPortValue(p: string)
    requires IsHexPort(p)
    ensures StrHexToDecimal(p) == Ok(PortNumber(p))
    ensures 0 <= PortNumber(p) <= 65535
  {
    assert AllDigits(p, 16);
    DigitsValueBound(p, 16);
    assert Power(16, 4) == 65536;
    ParseIntUnsigned(p, 16);
  }

  /** The port of the loopback listener in the kernel's TCP table example:
      "1F90" is 8080. */
  lemma StrHexToDecimalExample()
    ensures StrHexToDecimal("1F90") == Ok(8080)
  {
    assert IsHexPort("1F90");
    HexPortValue("1F90");
    var p := "1F90";
    assert p[..3] == "1F9" && p[..2] == "1F" && p[..1] == "1";
    assert "1F9"[..2] == "1F" && "1F"[..1] == "1" && "1"[..0] == "";
    assert DigitsValue("1", 16) == 1;
    assert DigitsValue("1F", 16) == 31;
    assert DigitsValue("1F9", 16) == 505;
    assert DigitsValue(p, 16) == 8080;
  }

  /** getOpenPorts: the numeric value of every port getHexPorts finds. */
  function OpenPorts(addresses: seq<string>): seq<int>
  {
    var hex := HexPorts(addresses);
    HexPortsWellFormed(addresses);
    seq(|hex|, k requires 0 <= k < |hex| => PortNumber(hex[k]))
  }

  /** There is one open port per hexadecimal port, in order: what
      strHexToDecimal makes of it, always without a fatal stop and within
      0..65535. */
  lemma OpenPortsValues(addresses: seq<string>)
    ensures |OpenPorts(addresses)| == |HexPorts(addresses)|
    ensures forall k :: 0 <= k < |OpenPorts(addresses)| ==>
              StrHexToDecimal(HexPorts(addresses)[k]) == Ok(OpenPorts(addresses)[k]) && 0 <= OpenPorts(addresses)[k] <= 65535
  {
    var hex := HexPorts(addresses);
    HexPortsWellFormed(addresses);
    forall k | 0 <= k < |hex|
      ensures StrHexToDecimal(hex[k]) == Ok(OpenPorts(addresses)[k]) && 0 <= OpenPorts(addresses)[k] <= 65535
    {
      HexPortValue(hex[k]);
    }
  }

  /** getOpenPorts (network.go): converts every hexadecimal port in order; the
      fatal branch of strHexToDecimal is never taken. */
  method GetOpenPorts(localAddresses: seq<string>) returns (ports: seq<int>)
    ensures ports == OpenPorts(localAddresses)
  {
    var hex := GetHexPorts(localAddresses);
    OpenPortsValues(localAddresses);
    ports := [];
    for i := 0 to |hex|
      invariant ports == OpenPorts(localAddresses)[..i]
    {
      var port := StrHexToDecimal(hex[i]);
      ports := ports + [port.value];
    }
  }

  /** The decimal rendering (fmt.Sprint) of every integer, in order. */
  function DecimalStrings(ns: seq<int>): seq<string>
  {
    if |ns| == 0 then [] else DecimalStrings(ns[..|ns| - 1]) + [IntToString(ns[|ns| - 1])]
  }

  /** One rendering per integer, at its position. */
  lemma {:induction false} DecimalStringsAt(ns: seq<int>)
    ensures |DecimalStrings(ns)| == |ns|
    ensures forall k :: 0 <= k < |ns| ==> DecimalStrings(ns)[k] == IntToString(ns[k])
  {
    if |ns| > 0 {
      DecimalStringsAt(ns[..|ns| - 1]);
    }
  }

  /** The rendered open ports parse back to the open ports. */
  lemma DecimalStringsRoundTrip(addresses: seq<string>)
    ensures |DecimalStrings(OpenPorts(addresses))| == |OpenPorts(addresses)|
    ensures forall k :: 0 <= k < |OpenPorts(addresses)| ==>
              ParseMyInt(DecimalStrings(OpenPorts(addresses))[k]) == Ok(OpenPorts(addresses)[k])
  {
    var open := OpenPorts(addresses);
    OpenPortsValues(addresses);
    DecimalStringsAt(open);
    forall k | 0 <= k < |open|
      ensures ParseMyInt(DecimalStrings(open)[k]) == Ok(open[k])
    {
      ParseIntToString(open[k]);
    }
  }

  /** The loopback listener of the kernel's TCP table example is port 8080. */
  lemma OpenPortsExample()
    ensures OpenPorts(["0100007F:1F90"]) == [8080]
  {
    var address := "0100007F:1F90";
    assert PortMatchAt(address, 8);
    forall j | 0 <= j < 8 ensures !PortMatchAt(address, j) {
      assert address[j] != ':';
    }
    HexPortsSingle(address, 8);
    assert address[9..13] == "1F90";
    StrHexToDecimalExample();
  }

  /** Port (network.go): passes exactly when the parsed port is open; otherwise
      the diagnostic lists every open port in decimal. */
  method Port(parameters: seq<string>, localAddresses: seq<string>) returns (r: Outcome)
    requires |parameters| >= 1
    ensures ParseMyInt(parameters[0]).Err? ==> r == Fatal(ParseMyInt(parameters[0]).reason)
    ensures ParseMyInt(parameters[0]).Ok? ==>
              var port := ParseMyInt(parameters[0]).value;
              var open := OpenPorts(localAddresses);
              (r == Pass <==> port in open) &&
              (port !in open ==> r == GenericError("Port not open", IntToString(port), DecimalStrings(open)))
  {
    var parsed := ParseMyInt(parameters[0]);
    if parsed.Err? {
      return Fatal(parsed.reason);
    }
    var port := parsed.value;
    var open := GetOpenPorts(localAddresses);
    for i := 0 to |open|
      invariant port !in open[..i]
    {
      if open[i] == port {
        return Pass;
      }
    }
    assert open[..|open|] == open;
    var strPorts: seq<string> := [];
    for i := 0 to |open|
      invariant strPorts == DecimalStrings(open[..i])
    {
      assert open[..i + 1][..i] == open[..i];
      strPorts := strPorts + [IntToString(open[i])];
    }
    assert open[..|open|] == open;
    return GenericError("Port not open", IntToString(port), strPorts);
  }

  // ===========================================================================
  // Interfaces
  // ===========================================================================

  /** An address of an interface as ip.To4().String() and ip.To16().String()
      render it. */
  datatype IpAddress = IpAddress(v4: string, v6: string)

  /** One entry of the interface list: its name, its flag bits, and what
      Addrs() gives for it (None for the error it can report). */
  datatype NetInterface = NetInterface(name: string, flags: bv32, addrs: Option<seq<IpAddress>>)

  /** net.FlagUp, the lowest flag bit. */
  const FlagUp: bv32 := 1

  predicate IsUp(iface: NetInterface)
  {
    iface.flags & FlagUp != 0
  }

  function InterfaceNames(ifaces: seq<NetInterface>): seq<string>
  {
    seq(|ifaces|, k requires 0 <= k < |ifaces| => ifaces[k].name)
  }

  /** getInterfaceNames, the closure in Interface. */
  method GetInterfaceNames(ifaces: seq<NetInterface>) returns (names: seq<string>)
    ensures |names| == |ifaces|
    ensures forall k :: 0 <= k < |ifaces| ==> names[k] == ifaces[k].name
  {
    names := [];
    for i := 0 to |ifaces|
      invariant |names| == i
      invariant forall k :: 0 <= k < i ==> names[k] == ifaces[k].name
    {
      names := names + [ifaces[i].name];
    }
  }

  /** Interface (network.go): passes exactly when some interface has the name;
      otherwise the diagnostic lists every interface name. */
  method Interface(parameters: seq<string>, ifaces: seq<NetInterface>) returns (r: Outcome)
    requires |parameters| >= 1
    ensures r == Pass <==> exists k :: 0 <= k < |ifaces| && ifaces[k].name == parameters[0]
    ensures r != Pass ==> r == GenericError("Interface does not exist", parameters[0], InterfaceNames(ifaces))
  {
    var name := parameters[0];
    var interfaces := GetInterfaceNames(ifaces);
    for i := 0 to |interfaces|
      invariant forall k :: 0 <= k < i ==> ifaces[k].name != name
    {
      if interfaces[i] == name {
        return Pass;
      }
    }
    assert interfaces == InterfaceNames(ifaces);
    return GenericError("Interface does not exist", name, interfaces);
  }

  /** The names of the interfaces whose up flag is set, in list order. */
  function UpNames(ifaces: seq<NetInterface>): (names: seq<string>)
    ensures |names| <= |ifaces|
    ensures forall x :: x in names <==> exists k :: 0 <= k < |ifaces| && ifaces[k].name == x && IsUp(ifaces[k])
  {
    if |ifaces| == 0 then []
    else
      var init := ifaces[..|ifaces| - 1];
      var last := ifaces[|ifaces| - 1];
      assert forall k :: 0 <= k < |init| ==> init[k] == ifaces[k];
      UpNames(init) + (if IsUp(last) then [last.name] else [])
  }

  /** getUpInterfaces, the closure in Up. */
  method GetUpInterfaces(ifaces: seq<NetInterface>) returns (names: seq<string>)
    ensures names == UpNames(ifaces)
  {
    names := [];
    for i := 0 to |ifaces|
      invariant names == UpNames(ifaces[..i])
    {
      if IsUp(ifaces[i]) {
        names := names + [ifaces[i].name];
      }
      assert ifaces[..i + 1][..i] == ifaces[..i];
    }
    assert ifaces[..|ifaces|] == ifaces;
  }

  /** Up (network.go): passes exactly when an interface with the name has its up
      flag set; otherwise the diagnostic lists the interfaces that are up. */
  method Up(parameters: seq<string>, ifaces: seq<NetInterface>) returns (r: Outcome)
    requires |parameters| >= 1
    ensures r == Pass <==> exists k :: 0 <= k < |ifaces| && ifaces[k].name == parameters[0] && IsUp(ifaces[k])
    ensures r != Pass ==> r == GenericError("Interface is not up", parameters[0], UpNames(ifaces))
  {
    var name := parameters[0];
    var upInterfaces := GetUpInterfaces(ifaces);
    if StrIn(name, upInterfaces) {
      return Pass;
    }
    return GenericError("Interface is not up", name, upInterfaces);
  }

  /** Index of the first interface at or after `from` with the given name. */
  function FirstNamed(ifaces: seq<NetInterface>, name: string, from: nat): (r: Option<nat>)
    ensures r.Some? ==> from <= r.value < |ifaces| && ifaces[r.value].name == name
    ensures r.Some? ==> forall j :: from <= j < r.value ==> ifaces[j].name != name
    ensures r.None? ==> forall j :: from <= j < |ifaces| ==> ifaces[j].name != name
    decreases |ifaces| - from
  {
    if from >= |ifaces| then None
    else if ifaces[from].name == name then Some(from)
    else FirstNamed(ifaces, name, from + 1)
  }

  /** The rendering of every address for IP version 4 or 6. */
  function Renderings(addrs: seq<IpAddress>, version: int): seq<string>
  {
    seq(|addrs|, k requires 0 <= k < |addrs| => if version == 4 then addrs[k].v4 else addrs[k].v6)
  }

  /** What getInterfaceIPs yields: a fatal stop for a version other than 4 or 6;
      otherwise the first interface with the name decides — the renderings of its
      addresses, or a fatal stop when they cannot be read — and without such an
      interface the list is empty. */
  function InterfaceIPs(ifaces: seq<NetInterface>, name: string, version: int): Result<seq<string>>
  {
    if version != 4 && version != 6 then
      Err("Misconfigured JSON: Unsupported IP version: " + IntToString(version))
    else
      match FirstNamed(ifaces, name, 0)
      case None => Ok([])
      case Some(k) =>
        if ifaces[k].addrs.None? then
          Err("Could not get network addressed from interface: \n\tInterface name: " + name + "\n\tError: ")
        else Ok(Renderings(ifaces[k].addrs.value, version))
  }

  /** The first interface with the name decides what getInterfaceIPs yields. */
  lemma InterfaceIPsFirstMatch(ifaces: seq<NetInterface>, name: string, version: int)
    ensures version != 4 && version != 6 ==> InterfaceIPs(ifaces, name, version).Err?
    ensures (version == 4 || version == 6) && (forall k :: 0 <= k < |ifaces| ==> ifaces[k].name != name) ==>
              InterfaceIPs(ifaces, name, version) == Ok([])
    ensures (version == 4 || version == 6) ==>
              forall k :: 0 <= k < |ifaces| && ifaces[k].name == name && (forall j :: 0 <= j < k ==> ifaces[j].name != name) ==>
                (ifaces[k].addrs.None? ==> InterfaceIPs(ifaces, name, version).Err?) &&
                (ifaces[k].addrs.Some? ==>
                   (var ips := InterfaceIPs(ifaces, name, version);
                    ips.Ok? && |ips.value| == |ifaces[k].addrs.value| &&
                    forall a :: 0 <= a < |ips.value| ==>
                      ips.value[a] == (if version == 4 then ifaces[k].addrs.value[a].v4 else ifaces[k].addrs.value[a].v6)))
  {
    if version == 4 || version == 6 {
      var first := FirstNamed(ifaces, name, 0);
      if first.Some? {
        forall k | 0 <= k < |ifaces| && ifaces[k].name == name && (forall j :: 0 <= j < k ==> ifaces[j].name != name)
          ensures k == first.value
        {
        }
      }
    }
  }

  /** getInterfaceIPs (network.go). */
  method GetInterfaceIPs(name: string, version: int, ifaces: seq<NetInterface>) returns (r: Result<seq<string>>)
    ensures r == InterfaceIPs(ifaces, name, version)
  {
    if version != 4 && version != 6 {
      return Err("Misconfigured JSON: Unsupported IP version: " + IntToString(version));
    }
    for i := 0 to |ifaces|
      invariant forall j :: 0 <= j < i ==> ifaces[j].name != name
    {
      if ifaces[i].name == name {
        var addresses := ifaces[i].addrs;
        assert FirstNamed(ifaces, name, 0) == Some(i);
        if addresses.None? {
          return Err("Could not get network addressed from interface: \n\tInterface name: " + name + "\n\tError: ");
        }
        var ifaceAddresses: seq<string> := [];
        for a := 0 to |addresses.value|
          invariant ifaceAddresses == Renderings(addresses.value, version)[..a]
        {
          if version == 4 {
            ifaceAddresses := ifaceAddresses + [addresses.value[a].v4];
          } else {
            ifaceAddresses := ifaceAddresses + [addresses.value[a].v6];
          }
        }
        assert ifaceAddresses == Renderings(addresses.value, version);
        assert FirstNamed(ifaces, name, 0) == Some(i);
        return Ok(ifaceAddresses);
      }
    }
    return Ok([]);
  }

  /** getIPWorker (network.go): passes exactly when the address is among the
      interface's addresses of that version. */
  method GetIpWorker(name: string, address: string, version: int, ifaces: seq<NetInterface>) returns (r: Outcome)
    ensures InterfaceIPs(ifaces, name, version).Err? ==> r == Fatal(InterfaceIPs(ifaces, name, version).reason)
    ensures InterfaceIPs(ifaces, name, version).Ok? ==>
              var ips := InterfaceIPs(ifaces, name, version).value;
              (r == Pass <==> address in ips) &&
              (address !in ips ==> r == GenericError("Interface does not have IP", address, ips))
  {
    var ips := GetInterfaceIPs(name, version, ifaces);
    if ips.Err? {
      return Fatal(ips.reason);
    }
    if StrIn(address, ips.value) {
      return Pass;
    }
    return GenericError("Interface does not have IP", address, ips.value);
  }

  /** Ip4 (network.go): the interface in parameter 0 has the IPv4 address in
      parameter 1; an interface that does not exist has no address. */
  method Ip4(parameters: seq<string>, ifaces: seq<NetInterface>) returns (r: Outcome)
    requires |parameters| >= 2
    ensures r == Pass <==> exists k :: 0 <= k < |ifaces| && ifaces[k].name == parameters[0] &&
                                       (forall j :: 0 <= j < k ==> ifaces[j].name != parameters[0]) &&
                                       ifaces[k].addrs.Some? &&
                                       exists a :: 0 <= a < |ifaces[k].addrs.value| && ifaces[k].addrs.value[a].v4 == parameters[1]
    ensures r.Fatal? <==> InterfaceIPs(ifaces, parameters[0], 4).Err?
  {
    r := GetIpWorker(parameters[0], parameters[1], 4, ifaces);
    var ips := InterfaceIPs(ifaces, parameters[0], 4);
    var first := FirstNamed(ifaces, parameters[0], 0);
    if first.Some? && ifaces[first.value].addrs.Some? {
      var addrs := ifaces[first.value].addrs.value;
      assert ips.value == Renderings(addrs, 4);
      assert forall a :: 0 <= a < |addrs| ==> ips.value[a] == addrs[a].v4;
    }
  }

  /** Ip6 (network.go): as Ip4, with the IPv6 rendering. */
  method Ip6(parameters: seq<string>, ifaces: seq<NetInterface>) returns (r: Outcome)
    requires |parameters| >= 2
    ensures r == Pass <==> exists k :: 0 <= k < |ifaces| && ifaces[k].name == parameters[0] &&
                                       (forall j :: 0 <= j < k ==> ifaces[j].name != parameters[0]) &&
                                       ifaces[k].addrs.Some? &&
                                       exists a :: 0 <= a < |ifaces[k].addrs.value| && ifaces[k].addrs.value[a].v6 == parameters[1]
    ensures r.Fatal? <==> InterfaceIPs(ifaces, parameters[0], 6).Err?
  {
    r := GetIpWorker(parameters[0], parameters[1], 6, ifaces);
    var ips := InterfaceIPs(ifaces, parameters[0], 6);
    var first := FirstNamed(ifaces, parameters[0], 0);
    if first.Some? && ifaces[first.value].addrs.Some? {
      var addrs := ifaces[first.value].addrs.value;
      assert ips.value == Renderings(addrs, 6);
      assert forall a :: 0 <= a < |addrs| ==> ips.value[a] == addrs[a].v6;
    }
  }

  // ===========================================================================
  // Kernel IP routing table (`route -n`)
  // ===========================================================================

  /** Columns of `route -n`: Destination, Gateway, ..., Iface. */
  const DestinationColumn: nat := 0
  const GatewayColumn: nat := 1
  const InterfaceColumn: nat := 7

  /** The gateway entry of a route without a gateway. */
  const NoGateway: string := "0.0.0.0"

  /** routingTableColumn: the column with its first entry (the column header)
      dropped; an empty column makes the slice expression panic. */
  function RoutingTableColumn(route: Table, col: nat): (r: Result<seq<string>>)
    ensures r.Err? <==> ColumnNoHeader(route, col) == []
    ensures r.Ok? ==> [ColumnNoHeader(route, col)[0]] + r.value == ColumnNoHeader(route, col)
  {
    var column := ColumnNoHeader(route, col);
    if |column| == 0 then Err("runtime error: slice bounds out of range [1:0]") else Ok(column[1..])
  }

  /** When every row below the title has the column, routingTableColumn lists
      that column of the route lines (rows 2 onwards), in row order. */
  lemma RoutingTableColumnRows(route: Table, col: nat)
    requires |route| >= 2
    requires forall k :: 1 <= k < |route| ==> col < |route[k]|
    ensures RoutingTableColumn(route, col).Ok?
    ensures |RoutingTableColumn(route, col).value| == |route| - 2
    ensures forall k :: 2 <= k < |route| ==> RoutingTableColumn(route, col).value[k - 2] == route[k][col]
  {
    ColumnOfFullRows(route[1..], col);
    assert ColumnNoHeader(route, col) == Column(route[1..], col);
  }

  /** routingTableMatch (network.go): passes exactly when the string is in the
      column below its header; otherwise the diagnostic lists the column. */
  function RoutingTableMatch(route: Table, col: nat, s: string): (r: Outcome)
    ensures r == Pass <==> RoutingTableColumn(route, col).Ok? && s in RoutingTableColumn(route, col).value
    ensures RoutingTableColumn(route, col).Err? ==> r.Fatal?
    ensures RoutingTableColumn(route, col).Ok? && s !in RoutingTableColumn(route, col).value ==>
              r == GenericError("Not found in routing table", s, RoutingTableColumn(route, col).value)
  {
    match RoutingTableColumn(route, col)
    case Err(e) => Fatal(e)
    case Ok(column) =>
      if StrIn(s, column) then Pass
      else GenericError("Not found in routing table", s, column)
  }

  /** On a table whose route lines all have the column, routingTableMatch passes
      exactly when some route line has the string in that column. */
  lemma RoutingTableMatchRows(route: Table, col: nat, s: string)
    requires |route| >= 2
    requires forall k :: 1 <= k < |route| ==> col < |route[k]|
    ensures RoutingTableMatch(route, col, s) == Pass <==> exists k :: 2 <= k < |route| && route[k][col] == s
  {
    RoutingTableColumnRows(route, col);
    var column := RoutingTableColumn(route, col).value;
    if s in column {
      var i :| 0 <= i < |column| && column[i] == s;
      assert route[i + 2][col] == s;
    }
  }

  /** RoutingTableDestination (network.go): the Destination column. */
  function RoutingTableDestination(parameters: seq<string>, route: Table): (r: Outcome)
    requires |parameters| >= 1
    ensures r == Pass <==> RoutingTableColumn(route, 0).Ok? && parameters[0] in RoutingTableColumn(route, 0).value
  {
    RoutingTableMatch(route, DestinationColumn, parameters[0])
  }

  /** RoutingTableInterface (network.go): the Iface column. */
  function RoutingTableInterface(parameters: seq<string>, route: Table): (r: Outcome)
    requires |parameters| >= 1
    ensures r == Pass <==> RoutingTableColumn(route, 7).Ok? && parameters[0] in RoutingTableColumn(route, 7).value
  {
    RoutingTableMatch(route, InterfaceColumn, parameters[0])
  }

  /** RoutingTableGateway (network.go): the Gateway column. */
  function RoutingTableGateway(parameters: seq<string>, route: Table): (r: Outcome)
    requires |parameters| >= 1
    ensures r == Pass <==> RoutingTableColumn(route, 1).Ok? && parameters[0] in RoutingTableColumn(route, 1).value
  {
    RoutingTableMatch(route, GatewayColumn, parameters[0])
  }

  /** Index of the first gateway entry at or after `from` that is not 0.0.0.0. */
  function FirstGateway(ips: seq<string>, from: nat): (r: Option<nat>)
    ensures r.Some? ==> from <= r.value < |ips| && ips[r.value] != NoGateway
    ensures r.Some? ==> forall j :: from <= j < r.value ==> ips[j] == NoGateway
    ensures r.None? ==> forall j :: from <= j < |ips| ==> ips[j] == NoGateway
    decreases |ips| - from
  {
    if from >= |ips| then None
    else if ips[from] != NoGateway then Some(from)
    else FirstGateway(ips, from + 1)
  }

  /** The default gateway: the first gateway entry that is not 0.0.0.0, or
      0.0.0.0 when there is none. */
  function DefaultGateway(ips: seq<string>): (g: string)
    ensures g == NoGateway <==> forall j :: 0 <= j < |ips| ==> ips[j] == NoGateway
    ensures g != NoGateway ==> exists i :: 0 <= i < |ips| && ips[i] == g && forall j :: 0 <= j < i ==> ips[j] == NoGateway
  {
    match FirstGateway(ips, 0)
    case None => NoGateway
    case Some(i) => ips[i]
  }

  /** getGatewayAddress, the closure in Gateway. */
  method GetGatewayAddress(ips: seq<string>) returns (addr: string)
    ensures addr == DefaultGateway(ips)
  {
    for i := 0 to |ips|
      invariant forall j :: 0 <= j < i ==> ips[j] == NoGateway
    {
      if ips[i] != NoGateway {
        return ips[i];
      }
    }
    return NoGateway;
  }

  /** Gateway (network.go): passes exactly when the default gateway is the given
      address. */
  method Gateway(parameters: seq<string>, route: Table) returns (r: Outcome)
    requires |parameters| >= 1
    ensures RoutingTableColumn(route, 1).Err? ==> r == Fatal(RoutingTableColumn(route, 1).reason)
    ensures RoutingTableColumn(route, 1).Ok? ==>
              var gateway := DefaultGateway(RoutingTableColumn(route, 1).value);
              (r == Pass <==> parameters[0] == gateway) &&
              (parameters[0] != gateway ==> r == GenericError("Gateway does not have address", parameters[0], [gateway]))
  {
    var address := parameters[0];
    var ips := RoutingTableColumn(route, GatewayColumn);
    if ips.Err? {
      return Fatal(ips.reason);
    }
    var gatewayIP := GetGatewayAddress(ips.value);
    if address == gatewayIP {
      return Pass;
    }
    return GenericError("Gateway does not have address", address, [gatewayIP]);
  }

  /** getGatewayInterface on a gateway column and a name column: the name at the
      position of the first gateway that is not 0.0.0.0, or "" without one. Its
      guard `len(names) < i` stops the run with an empty message; at
      i == len(names) the guard lets the index through and the lookup panics. */
  function GatewayInterfaceName(ips: seq<string>, names: seq<string>): (r: Result<string>)
    ensures FirstGateway(ips, 0).None? ==> r == Ok("")
    ensures FirstGateway(ips, 0).Some? ==>
              (r.Ok? <==> FirstGateway(ips, 0).value < |names|) &&
              (r.Ok? ==> r.value == names[FirstGateway(ips, 0).value])
  {
    match FirstGateway(ips, 0)
    case None => Ok("")
    case Some(i) =>
      if |names| < i then Err("")
      else if i == |names| then Err("runtime error: index out of range")
      else Ok(names[i])
  }

  /** getGatewayInterface's loop. */
  method GetGatewayInterface(ips: seq<string>, names: seq<string>) returns (r: Result<string>)
    ensures r == GatewayInterfaceName(ips, names)
  {
    for i := 0 to |ips|
      invariant forall j :: 0 <= j < i ==> ips[j] == NoGateway
    {
      if ips[i] != NoGateway {
        if |names| < i {
          return Err("");
        }
        if i == |names| {
          return Err("runtime error: index out of range");
        }
        return Ok(names[i]);
      }
    }
    return Ok("");
  }

  /** The result of GatewayInterface when the interface names are read from
      column `namesCol` of the routing table. */
  function GatewayInterfaceOutcome(route: Table, name: string, namesCol: nat): Outcome
  {
    match RoutingTableColumn(route, GatewayColumn)
    case Err(e) => Fatal(e)
    case Ok(ips) =>
      match RoutingTableColumn(route, namesCol)
      case Err(e) => Fatal(e)
      case Ok(names) =>
        match GatewayInterfaceName(ips, names)
        case Err(e) => Fatal(e)
        case Ok(iface) =>
          if name == iface then Pass
          else GenericError("Default gateway does not operate on interface", name, [iface])
  }

  /** GatewayInterface as network.go writes it: the "names" are read from the
      Gateway column too. */
  method GatewayInterface(parameters: seq<string>, route: Table) returns (r: Outcome)
    requires |parameters| >= 1
    ensures r == GatewayInterfaceOutcome(route, parameters[0], GatewayColumn)
  {
    var name := parameters[0];
    var ips := RoutingTableColumn(route, GatewayColumn);
    if ips.Err? {
      return Fatal(ips.reason);
    }
    var names := RoutingTableColumn(route, GatewayColumn);
    var iface := GetGatewayInterface(ips.value, names.value);
    if iface.Err? {
      return Fatal(iface.reason);
    }
    if name == iface.value {
      return Pass;
    }
    return GenericError("Default gateway does not operate on interface", name, [iface.value]);
  }

  /** GatewayInterface with the names read from the Iface column, as its
      comment and the name of the closure intend. */
  method GatewayInterfaceCorrected(parameters: seq<string>, route: Table) returns (r: Outcome)
    requires |parameters| >= 1
    ensures r == GatewayInterfaceOutcome(route, parameters[0], InterfaceColumn)
  {
    var name := parameters[0];
    var ips := RoutingTableColumn(route, GatewayColumn);
    if ips.Err? {
      return Fatal(ips.reason);
    }
    var names := RoutingTableColumn(route, InterfaceColumn);
    if names.Err? {
      return Fatal(names.reason);
    }
    var iface := GetGatewayInterface(ips.value, names.value);
    if iface.Err? {
      return Fatal(iface.reason);
    }
    if name == iface.value {
      return Pass;
    }
    return GenericError("Default gateway does not operate on interface", name, [iface.value]);
  }

  /** The first route line (row 2 onwards) whose gateway is not 0.0.0.0. */
  predicate IsGatewayRow(route: Table, k: int)
    requires forall j :: 1 <= j < |route| ==> 7 < |route[j]|
  {
    2 <= k < |route| && route[k][GatewayColumn] != NoGateway &&
    forall j :: 2 <= j < k ==> route[j][GatewayColumn] == NoGateway
  }

  /** As written, GatewayInterface compares the name with the default gateway's
      IP address, not with its interface: on a well-formed table it passes
      exactly for the gateway address (or "" without a gateway). */
  lemma GatewayInterfaceAsWrittenComparesAddress(route: Table, name: string)
    requires |route| >= 2
    requires forall j :: 1 <= j < |route| ==> 7 < |route[j]|
    ensures GatewayInterfaceOutcome(route, name, GatewayColumn) == Pass <==>
              (exists k :: IsGatewayRow(route, k) && name == route[k][GatewayColumn]) ||
              ((forall j :: 2 <= j < |route| ==> route[j][GatewayColumn] == NoGateway) && name == "")
  {
    RoutingTableColumnRows(route, GatewayColumn);
    GatewayRowsAgree(route);
    var ips := RoutingTableColumn(route, GatewayColumn).value;
    var first := FirstGateway(ips, 0);
    if first.Some? {
      var i := first.value;
      assert GatewayInterfaceName(ips, ips) == Ok(ips[i]);
      assert ips[i] == route[i + 2][GatewayColumn];
      assert IsGatewayRow(route, i + 2);
    } else {
      assert GatewayInterfaceName(ips, ips) == Ok("");
    }
  }

  /** Corrected, GatewayInterface passes exactly for the interface of the first
      route line with a gateway (or "" without a gateway). */
  lemma GatewayInterfaceCorrectedNamesInterface(route: Table, name: string)
    requires |route| >= 2
    requires forall j :: 1 <= j < |route| ==> 7 < |route[j]|
    ensures GatewayInterfaceOutcome(route, name, InterfaceColumn) == Pass <==>
              (exists k :: IsGatewayRow(route, k) && name == route[k][InterfaceColumn]) ||
              ((forall j :: 2 <= j < |route| ==> route[j][GatewayColumn] == NoGateway) && name == "")
  {
    RoutingTableColumnRows(route, GatewayColumn);
    RoutingTableColumnRows(route, InterfaceColumn);
    GatewayRowsAgree(route);
    var ips := RoutingTableColumn(route, GatewayColumn).value;
    var names := RoutingTableColumn(route, InterfaceColumn).value;
    var first := FirstGateway(ips, 0);
    if first.Some? {
      var i := first.value;
      assert GatewayInterfaceName(ips, names) == Ok(names[i]);
      assert names[i] == route[i + 2][InterfaceColumn];
      assert IsGatewayRow(route, i + 2);
    } else {
      assert GatewayInterfaceName(ips, names) == Ok("");
    }
  }

  /** The first gateway entry of the column is the gateway of the first route
      line that has one. */
  lemma GatewayRowsAgree(route: Table)
    requires |route| >= 2
    requires forall j :: 1 <= j < |route| ==> 7 < |route[j]|
    ensures RoutingTableColumn(route, GatewayColumn).Ok?
    ensures var ips := RoutingTableColumn(route, GatewayColumn).value;
            (FirstGateway(ips, 0).None? <==> forall j :: 2 <= j < |route| ==> route[j][GatewayColumn] == NoGateway) &&
            (FirstGateway(ips, 0).Some? ==> IsGatewayRow(route, FirstGateway(ips, 0).value + 2)) &&
            (forall k :: IsGatewayRow(route, k) ==> FirstGateway(ips, 0).Some? && FirstGateway(ips, 0).value == k - 2)
  {
    RoutingTableColumnRows(route, GatewayColumn);
    var ips := RoutingTableColumn(route, GatewayColumn).value;
    assert forall j :: 2 <= j < |route| ==> ips[j - 2] == route[j][GatewayColumn];
    var first := FirstGateway(ips, 0);
    if first.None? {
      forall j | 2 <= j < |route| ensures route[j][GatewayColumn] == NoGateway {
        assert ips[j - 2] == NoGateway;
      }
    } else {
      var i := first.value;
      assert route[i + 2][GatewayColumn] != NoGateway;
      assert IsGatewayRow(route, i + 2);
    }
  }

  /** A `route -n` table with a default route via 192.168.1.1 on eth0. */
  function ExampleRoute(): Table
  {
    [["Kernel", "IP", "routing", "table"],
     ["Destination", "Gateway", "Genmask", "Flags", "Metric", "Ref", "Use", "Iface"],
     ["0.0.0.0", "192.168.1.1", "0.0.0.0", "UG", "100", "0", "0", "eth0"],
     ["192.168.1.0", "0.0.0.0", "255.255.255.0", "U", "100", "0", "0", "eth0"]]
  }

  /** On that table GatewayInterface as written rejects the gateway's interface
      eth0 and accepts its address, while the corrected check accepts eth0. */
  lemma GatewayInterfaceExample()
    ensures GatewayInterfaceOutcome(ExampleRoute(), "eth0", GatewayColumn) != Pass
    ensures GatewayInterfaceOutcome(ExampleRoute(), "192.168.1.1", GatewayColumn) == Pass
    ensures GatewayInterfaceOutcome(ExampleRoute(), "eth0", InterfaceColumn) == Pass
  {
    var route := ExampleRoute();
    assert IsGatewayRow(route, 2);
    GatewayInterfaceAsWrittenComparesAddress(route, "eth0");
    GatewayInterfaceAsWrittenComparesAddress(route, "192.168.1.1");
    GatewayInterfaceCorrectedNamesInterface(route, "eth0");
    forall k | IsGatewayRow(route, k) ensures k == 2 {
    }
  }
}
