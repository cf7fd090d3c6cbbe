/** Address handling of the registry: the NetAddr value type, Go's
    net.SplitHostPort, the local-IPv4 lookup over the host's interface
    addresses, and Resolve, which turns a bind address into an address
    peers can dial. */
module NetAddr {
  import opened Base
  import opened Text
  import opened Decimal

  /** A net.Addr that reports exactly the two strings it was built from. */
  datatype NetAddr = NetAddr(network: string, address: string) {
    function Network(): string {
      network
    }

    function String(): string {
      address
    }
  }

  function NewNetAddr(network: string, address: string): (a: NetAddr)
    ensures a.Network() == network && a.String() == address
  {
    NetAddr(network, address)
  }

  // ---------------------------------------------------------------------
  // net.SplitHostPort and its inverse net.JoinHostPort

  /** The reasons net.SplitHostPort gives for rejecting its input. */
  datatype AddrError =
    | MissingPort
    | TooManyColons
    | MissingCloseBracket
    | UnexpectedOpenBracket
    | UnexpectedCloseBracket

  datatype HostPort = HostPort(host: string, port: string)

  /** net.SplitHostPort: the port follows the last colon; a host containing
      colons must be bracketed, and brackets may appear nowhere else. */
  function SplitHostPort(hostport: string): (r: Result<HostPort, AddrError>)
    ensures ':' !in hostport ==> r == Failure(MissingPort)
    ensures r.Success? ==> ':' !in r.value.port
    ensures r.Success? ==> '[' !in r.value.host && ']' !in r.value.host
    ensures r.Success? ==>
      || (hostport == r.value.host + ":" + r.value.port && ':' !in r.value.host)
      || hostport == "[" + r.value.host + "]:" + r.value.port
  {
    match LastIndexOf(hostport, ':')
    case None => Failure(MissingPort)
    case Some(i) =>
      if hostport[0] == '[' then SplitBracketedHost(hostport, i)
      else SplitPlainHost(hostport, i)
  }

  /** SplitHostPort for an input starting with '[': the host runs to the
      first ']', which must come right before the last colon. */
  function SplitBracketedHost(hostport: string, i: nat): (r: Result<HostPort, AddrError>)
    requires LastIndexOf(hostport, ':') == Some(i) && hostport[0] == '['
    ensures r.Success? ==> ':' !in r.value.port
    ensures r.Success? ==> '[' !in r.value.host && ']' !in r.value.host
    ensures r.Success? ==> hostport == "[" + r.value.host + "]:" + r.value.port
  {
    match IndexOf(hostport, ']')
    case None => Failure(MissingCloseBracket)
    case Some(end) =>
      if end + 1 == |hostport| then Failure(MissingPort)
      else if end + 1 != i then
        if hostport[end + 1] == ':' then Failure(TooManyColons) else Failure(MissingPort)
      else
        var r := CheckBrackets(hostport, hostport[1..end], 1, end + 1, i);
        assert r.Success? ==> hostport == "[" + hostport[1..end] + "]:" + hostport[i + 1..];
        r
  }

  /** SplitHostPort for an input not starting with '[': the host is
      everything before the last colon and may hold no colon. */
  function SplitPlainHost(hostport: string, i: nat): (r: Result<HostPort, AddrError>)
    requires LastIndexOf(hostport, ':') == Some(i)
    ensures r.Success? ==> ':' !in r.value.port
    ensures r.Success? ==> '[' !in r.value.host && ']' !in r.value.host
    ensures r.Success? ==> hostport == r.value.host + ":" + r.value.port && ':' !in r.value.host
  {
    var host := hostport[..i];
    if ':' in host then Failure(TooManyColons)
    else
      var r := CheckBrackets(hostport, host, 0, 0, i);
      assert hostport == host + ":" + hostport[i + 1..];
      r
  }

  /** The last two checks of net.SplitHostPort: no '[' from position `j`
      on and no ']' from position `k` on. */
  function CheckBrackets(hostport: string, host: string, j: nat, k: nat, i: nat): (r: Result<HostPort, AddrError>)
    requires j <= |hostport| && k <= |hostport| && i < |hostport|
    ensures r.Success? <==> '[' !in hostport[j..] && ']' !in hostport[k..]
    ensures r.Success? ==> r.value == HostPort(host, hostport[i + 1..])
  {
    if '[' in hostport[j..] then Failure(UnexpectedOpenBracket)
    else if ']' in hostport[k..] then Failure(UnexpectedCloseBracket)
    else Success(HostPort(host, hostport[i + 1..]))
  }

  /** net.JoinHostPort: a host containing a colon is bracketed. */
  function JoinHostPort(host: string, port: string): string {
    if ':' in host then "[" + host + "]:" + port else host + ":" + port
  }

  /** Splitting a joined address gives back its host and port, provided
      neither holds a bracket and the port holds no colon. */
  lemma SplitJoinHostPort(host: string, port: string)
    requires '[' !in host && ']' !in host
    requires '[' !in port && ']' !in port && ':' !in port
    ensures SplitHostPort(JoinHostPort(host, port)) == Success(HostPort(host, port))
  {
    if ':' in host {
      SplitBracketed(host, port);
    } else {
      SplitPlain(host, port);
    }
  }

  lemma SplitPlain(host: string, port: string)
    requires '[' !in host && ']' !in host && ':' !in host
    requires '[' !in port && ']' !in port && ':' !in port
    ensures SplitHostPort(host + ":" + port) == Success(HostPort(host, port))
  {
    var s := host + ":" + port;
    var n := |host|;
    assert s[n + 1..] == port;
    LastIndexOfUnique(s, ':', n);
    assert s[..n] == host;
    assert s[0] != '[' by {
      if n > 0 { assert s[0] == host[0]; } else { assert s[0] == ':'; }
    }
    assert '[' !in s && ']' !in s;
    assert s[0..] == s;
    assert CheckBrackets(s, host, 0, 0, n) == Success(HostPort(host, port));
  }

  lemma SplitBracketed(host: string, port: string)
    requires '[' !in host && ']' !in host
    requires '[' !in port && ']' !in port && ':' !in port
    ensures SplitHostPort("[" + host + "]:" + port) == Success(HostPort(host, port))
  {
    var s := "[" + host + "]:" + port;
    var n := |host|;
    BracketedColon(host, port);
    BracketedClose(host, port);
    BracketedChecks(host, port);
    assert s[0] == '[';
    assert SplitHostPort(s) == SplitBracketedHost(s, n + 2);
  }

  lemma BracketedColon(host: string, port: string)
    requires ':' !in port
    ensures LastIndexOf("[" + host + "]:" + port, ':') == Some(|host| + 2)
  {
    var s := "[" + host + "]:" + port;
    assert s[|host| + 3..] == port;
    LastIndexOfUnique(s, ':', |host| + 2);
  }

  lemma BracketedClose(host: string, port: string)
    requires ']' !in host
    ensures IndexOf("[" + host + "]:" + port, ']') == Some(|host| + 1)
  {
    var s := "[" + host + "]:" + port;
    assert s[..|host| + 1] == "[" + host;
    IndexOfUnique(s, ']', |host| + 1);
  }

  lemma BracketedChecks(host: string, port: string)
    requires '[' !in host && ']' !in port && '[' !in port
    ensures var s := "[" + host + "]:" + port;
      CheckBrackets(s, s[1..|host| + 1], 1, |host| + 2, |host| + 2) == Success(HostPort(host, port))
  {
    var s := "[" + host + "]:" + port;
    var n := |host|;
    assert s[1..n + 1] == host;
    assert s[1..] == host + "]:" + port;
    assert s[n + 2..] == ":" + port;
    assert s[n + 3..] == port;
  }

  // ---------------------------------------------------------------------
  // Interface addresses and the local IPv4 lookup

  /** An address reported by net.InterfaceAddrs: an *net.IPNet carrying an
      IP of 4 or 16 bytes (Go's net.IP), or some other net.Addr. */
  datatype IfaceAddr = IPNet(ip: seq<byte>) | OtherAddr

  /** net.IP.To4: the 4-byte form of an IPv4 or IPv4-mapped IPv6 address. */
  function To4(ip: seq<byte>): (r: Option<seq<byte>>)
    ensures r.Some? ==> |r.value| == 4
  {
    if |ip| == 4 then Some(ip)
    else if |ip| == 16 && (forall k :: 0 <= k < 10 ==> ip[k] == 0) && ip[10] == 255 && ip[11] == 255 then Some(ip[12..])
    else None
  }

  const IPv6Loopback: seq<byte> := [0, 0, 0, 0, 0, 0, 0, 0, 0, 0, 0, 0, 0, 0, 0, 1]

  /** net.IP.IsLoopback: 127.0.0.0/8 or ::1. */
  predicate IsLoopback(ip: seq<byte>) {
    match To4(ip)
    case Some(v4) => v4[0] == 127
    case None => ip == IPv6Loopback
  }

  /** net.IP.String of a 4-byte address: dotted decimal. */
  function DottedQuad(v4: seq<byte>): (s: string)
    requires |v4| == 4
    ensures '.' in s && s != "::"
  {
    var s := Itoa(v4[0]) + "." + Itoa(v4[1]) + "." + Itoa(v4[2]) + "." + Itoa(v4[3]);
    assert s[|Itoa(v4[0])|] == '.';
    s
  }

  /** The test the lookup loop applies to each interface address. */
  predicate Usable(a: IfaceAddr) {
    a.IPNet? && !IsLoopback(a.ip) && To4(a.ip).Some?
  }

  /** Position of the first usable address, if any. */
  function FirstUsable(addrs: seq<IfaceAddr>): (r: Option<nat>)
    ensures r.None? <==> forall k :: 0 <= k < |addrs| ==> !Usable(addrs[k])
    ensures r.Some? ==> r.value < |addrs| && Usable(addrs[r.value])
    ensures r.Some? ==> forall k :: 0 <= k < r.value ==> !Usable(addrs[k])
  {
    if |addrs| == 0 then None
    else if Usable(addrs[0]) then Some(0)
    else
      match FirstUsable(addrs[1..])
      case None => None
      case Some(k) => Some(k + 1)
  }

  datatype LookupError = InterfacesUnavailable | NoIPv4Address

  /** localIPv4Host: the first non-loopback interface address that has an
      IPv4 form, printed in dotted decimal. `ifaces` is what
      net.InterfaceAddrs returned (None when it failed). */
  function LocalIPv4Host(ifaces: Option<seq<IfaceAddr>>): (r: Result<string, LookupError>)
    ensures ifaces.None? ==> r == Failure(InterfacesUnavailable)
    ensures ifaces.Some? ==>
      (r == Failure(NoIPv4Address) <==> forall k :: 0 <= k < |ifaces.value| ==> !Usable(ifaces.value[k]))
    ensures r.Success? ==> (ifaces.Some? &&
      exists k :: 0 <= k < |ifaces.value| && Usable(ifaces.value[k])
        && (forall m :: 0 <= m < k ==> !Usable(ifaces.value[m]))
        && r.value == DottedQuad(To4(ifaces.value[k].ip).value))
    ensures r.Success? ==> r.value != "" && r.value != "::"
  {
    match ifaces
    case None => Failure(InterfacesUnavailable)
    case Some(addrs) =>
      match FirstUsable(addrs)
      case None => Failure(NoIPv4Address)
      case Some(k) => Success(DottedQuad(To4(addrs[k].ip).value))
  }

  /** LocalAddr: the same lookup, offered on its own. */
  function LocalAddr(ifaces: Option<seq<IfaceAddr>>): (r: Result<string, LookupError>)
    ensures ifaces.None? ==> r == Failure(InterfacesUnavailable)
    ensures ifaces.Some? ==>
      (r == Failure(NoIPv4Address) <==> forall k :: 0 <= k < |ifaces.value| ==> !Usable(ifaces.value[k]))
    ensures ifaces.Some? && FirstUsable(ifaces.value).Some? ==>
      r == Success(DottedQuad(To4(ifaces.value[FirstUsable(ifaces.value).value].ip).value))
    ensures r.Success? ==> r.value != "" && r.value != "::"
  {
    LocalIPv4Host(ifaces)
  }

  // ---------------------------------------------------------------------
  // Resolve

  datatype ResolveError =
    | SplitFailed(cause: AddrError)
    | HostFailed(lookup: LookupError)
    | PortFailed(num: NumError)

  /** The hosts Resolve replaces by the local IPv4 address: empty and "::"
      only ("0.0.0.0" is not one of them). */
  predicate IsWildcardHost(h: string) {
    h == "" || h == "::"
  }

  /** A resolved address: a host and the parsed port. */
  datatype Endpoint = Endpoint(host: string, port: int) {
    /** `%s:%d` -- the host is never re-bracketed. */
    function Text(): string {
      host + ":" + Itoa(port)
    }
  }

  /** The steps of Resolve up to printing: split, substitute a wildcard
      host, parse the port. */
  function ResolveEndpoint(address: string, ifaces: Option<seq<IfaceAddr>>): (r: Result<Endpoint, ResolveError>)
    ensures SplitHostPort(address).Failure? ==> r == Failure(SplitFailed(SplitHostPort(address).error))
    ensures r.Success? ==> !IsWildcardHost(r.value.host) && IsInt64(r.value.port)
    ensures r.Success? ==> (SplitHostPort(address).Success?
      && Atoi(SplitHostPort(address).value.port) == Success(r.value.port))
    ensures r.Success? && !IsWildcardHost(SplitHostPort(address).value.host) ==>
      r.value.host == SplitHostPort(address).value.host
    ensures r.Success? && IsWildcardHost(SplitHostPort(address).value.host) ==>
      LocalIPv4Host(ifaces) == Success(r.value.host)
  {
    match SplitHostPort(address)
    case Failure(e) => Failure(SplitFailed(e))
    case Success(hp) =>
      var host := if IsWildcardHost(hp.host) then LocalIPv4Host(ifaces) else Success(hp.host);
      match host
      case Failure(e) => Failure(HostFailed(e))
      case Success(h) =>
        match Atoi(hp.port)
        case Failure(e) => Failure(PortFailed(e))
        case Success(p) => Success(Endpoint(h, p))
  }

  /** hestia.Resolve. */
  function Resolve(address: string, ifaces: Option<seq<IfaceAddr>>): (r: Result<string, ResolveError>)
    ensures r.Success? <==> ResolveEndpoint(address, ifaces).Success?
    ensures r.Success? ==> r.value == ResolveEndpoint(address, ifaces).value.Text()
    ensures r.Failure? ==> r.error == ResolveEndpoint(address, ifaces).error
  {
    match ResolveEndpoint(address, ifaces)
    case Success(e) => Success(e.Text())
    case Failure(e) => Failure(e)
  }

  // ---------------------------------------------------------------------
  // What Resolve does to the host and the port

  /** A host that is neither empty nor "::" is passed through verbatim,
      whatever the interfaces are; only the port is re-printed. */
  lemma ResolveKeepsHost(host: string, port: string, ifaces: Option<seq<IfaceAddr>>)
    requires !IsWildcardHost(host)
    requires '[' !in host && ']' !in host && ':' !in host
    requires '[' !in port && ']' !in port && ':' !in port
    ensures Atoi(port).Success? ==> Resolve(host + ":" + port, ifaces) == Success(host + ":" + Itoa(Atoi(port).value))
    ensures Atoi(port).Failure? ==> Resolve(host + ":" + port, ifaces) == Failure(PortFailed(Atoi(port).error))
  {
    SplitPlain(host, port);
  }

  /** ResolveKeepsHost for a port known to parse to `n`. */
  lemma ResolvePlainParsed(host: string, port: string, n: int, ifaces: Option<seq<IfaceAddr>>)
    requires !IsWildcardHost(host)
    requires '[' !in host && ']' !in host && ':' !in host
    requires '[' !in port && ']' !in port && ':' !in port
    requires Atoi(port) == Success(n)
    ensures Resolve(host + ":" + port, ifaces) == Success(host + ":" + Itoa(n))
  {
    ResolveKeepsHost(host, port, ifaces);
  }

  /** A zero in front of a digit port changes nothing in the result. */
  lemma ResolveZeroPaddedPort(host: string, port: string, n: int, ifaces: Option<seq<IfaceAddr>>)
    requires !IsWildcardHost(host)
    requires '[' !in host && ']' !in host && ':' !in host
    requires |port| > 0 && AllDigits(port) && Atoi(port) == Success(n)
    ensures Resolve(host + ":" + ("0" + port), ifaces) == Success(host + ":" + Itoa(n))
  {
    AtoiLeadingZero(port);
    var z := "0" + port;
    assert forall i :: 0 <= i < |z| ==> IsDigit(z[i]);
    ResolvePlainParsed(host, z, n, ifaces);
  }

  /** A bracketed host other than "::" is passed through without its
      brackets; only the port is re-printed. */
  lemma ResolveBracketedParsed(host: string, port: string, n: int, ifaces: Option<seq<IfaceAddr>>)
    requires !IsWildcardHost(host)
    requires '[' !in host && ']' !in host
    requires '[' !in port && ']' !in port && ':' !in port
    requires Atoi(port) == Success(n)
    ensures Resolve("[" + host + "]:" + port, ifaces) == Success(host + ":" + Itoa(n))
  {
    SplitBracketed(host, port);
  }

  /** An empty host is replaced by the first usable local IPv4 address. */
  lemma ResolveEmptyHost(port: string, ifaces: Option<seq<IfaceAddr>>)
    requires '[' !in port && ']' !in port && ':' !in port
    ensures LocalIPv4Host(ifaces).Success? && Atoi(port).Success? ==>
      Resolve(":" + port, ifaces) == Success(LocalIPv4Host(ifaces).value + ":" + Itoa(Atoi(port).value))
    ensures LocalIPv4Host(ifaces).Failure? ==>
      Resolve(":" + port, ifaces) == Failure(HostFailed(LocalIPv4Host(ifaces).error))
  {
    SplitPlain("", port);
    assert "" + ":" + port == ":" + port;
  }

  /** The bracketed any-address "[::]" is replaced likewise; the lookup
      happens before the port is parsed, so a missing IPv4 address is the
      error reported even when the port is malformed too. */
  lemma ResolveAnyHost(port: string, ifaces: Option<seq<IfaceAddr>>)
    requires '[' !in port && ']' !in port && ':' !in port
    ensures LocalIPv4Host(ifaces).Success? && Atoi(port).Success? ==>
      Resolve("[::]:" + port, ifaces) == Success(LocalIPv4Host(ifaces).value + ":" + Itoa(Atoi(port).value))
    ensures LocalIPv4Host(ifaces).Failure? ==>
      Resolve("[::]:" + port, ifaces) == Failure(HostFailed(LocalIPv4Host(ifaces).error))
  {
    var a := "[::]:" + port;
    assert a == "[" + "::" + "]:" + port;
    SplitBracketed("::", port);
    assert SplitHostPort(a) == Success(HostPort("::", port));
  }

  /** The port text most examples use, printed and parsed. */
  lemma Port8090()
    ensures Itoa(8090) == "8090" && Atoi("8090") == Success(8090)
  {
    AtoiItoa(8090);
    assert Itoa(8090) == "8090";
  }

  /** A port above 65535, printed and parsed. */
  lemma Port99999()
    ensures Itoa(99999) == "99999" && Atoi("99999") == Success(99999)
  {
    AtoiItoa(99999);
    assert Itoa(99999) == "99999";
  }

  /** The HTTP port, printed and parsed. */
  lemma Port80()
    ensures Itoa(80) == "80" && Atoi("80") == Success(80)
  {
    AtoiItoa(80);
    assert Itoa(80) == "80";
  }

  /** A negative port, printed and parsed. */
  lemma PortMinusOne()
    ensures Itoa(-1) == "-1" && Atoi("-1") == Success(-1)
  {
    AtoiItoa(-1);
    assert Itoa(-1) == "-1";
  }

  /** Example from the package test: an address with no colon is a
      format error. */
  lemma ResolveNoColonExample(ifaces: Option<seq<IfaceAddr>>)
    ensures Resolve("8090", ifaces) == Failure(SplitFailed(MissingPort))
  {
  }

  /** Example: "0.0.0.0" is not a wildcard and is kept. */
  lemma ResolveZeroHostExample(ifaces: Option<seq<IfaceAddr>>)
    ensures Resolve("0.0.0.0:8090", ifaces) == Success("0.0.0.0:8090")
  {
    assert "0.0.0.0:8090" == "0.0.0.0" + ":" + "8090";
    Port8090();
    ResolvePlainParsed("0.0.0.0", "8090", 8090, ifaces);
  }

  /** Example: "localhost" is kept. */
  lemma ResolveLocalhostExample(ifaces: Option<seq<IfaceAddr>>)
    ensures Resolve("localhost:8090", ifaces) == Success("localhost:8090")
  {
    assert "localhost:8090" == "localhost" + ":" + "8090";
    Port8090();
    ResolvePlainParsed("localhost", "8090", 8090, ifaces);
  }

  /** Example: the port is re-printed without its leading zero. */
  lemma ResolveLeadingZeroExample(ifaces: Option<seq<IfaceAddr>>)
    ensures Resolve("localhost:08090", ifaces) == Success("localhost:8090")
  {
    assert "localhost:08090" == "localhost" + ":" + ("0" + "8090");
    assert "localhost:8090" == "localhost" + ":" + "8090";
    Port8090();
    ResolveZeroPaddedPort("localhost", "8090", 8090, ifaces);
  }

  /** Example: a negative port is accepted (no range check). */
  lemma ResolveNegativePortExample(ifaces: Option<seq<IfaceAddr>>)
    ensures Resolve("localhost:-1", ifaces) == Success("localhost:-1")
  {
    assert "localhost:-1" == "localhost" + ":" + "-1";
    PortMinusOne();
    ResolvePlainParsed("localhost", "-1", -1, ifaces);
  }

  /** Example: a port above 65535 is accepted (no range check). */
  lemma ResolveLargePortExample(ifaces: Option<seq<IfaceAddr>>)
    ensures Resolve("localhost:99999", ifaces) == Success("localhost:99999")
  {
    assert "localhost:99999" == "localhost" + ":" + "99999";
    Port99999();
    ResolvePlainParsed("localhost", "99999", 99999, ifaces);
  }

  /** Example: an IPv6 host loses its brackets. */
  lemma ResolveIPv6Example(ifaces: Option<seq<IfaceAddr>>)
    ensures Resolve("[fe80::1]:80", ifaces) == Success("fe80::1:80")
  {
    assert "[fe80::1]:80" == "[" + "fe80::1" + "]:" + "80";
    assert "fe80::1:80" == "fe80::1" + ":" + "80";
    Port80();
    ResolveBracketedParsed("fe80::1", "80", 80, ifaces);
  }

  /** Example: the wildcard ":8090" resolves to the first non-loopback IPv4
      address, skipping 127.0.0.1, ::1 and a non-IP address. */
  lemma ResolveWildcardExample()
    ensures Resolve(":" + "8090", Some([IPNet([127, 0, 0, 1]), IPNet(IPv6Loopback), OtherAddr, IPNet([10, 0, 0, 7])]))
      == Success(DottedQuad([10, 0, 0, 7]) + ":" + "8090")
  {
    var ifs := [IPNet([127, 0, 0, 1]), IPNet(IPv6Loopback), OtherAddr, IPNet([10, 0, 0, 7])];
    assert !Usable(ifs[0]) && !Usable(ifs[1]) && !Usable(ifs[2]) && Usable(ifs[3]);
    assert FirstUsable(ifs[3..]) == Some(0);
    assert FirstUsable(ifs) == Some(3);
    Port8090();
    ResolveEmptyHost("8090", Some(ifs));
  }

  /** Example: with only a loopback address a wildcard host is an error. */
  lemma ResolveLoopbackOnlyExample()
    ensures Resolve(":" + "8090", Some([IPNet([127, 0, 0, 1])])) == Failure(HostFailed(NoIPv4Address))
  {
    var ifs := [IPNet([127, 0, 0, 1])];
    assert !Usable(ifs[0]);
    assert LocalIPv4Host(Some(ifs)) == Failure(NoIPv4Address);
    ResolveEmptyHost("8090", Some(ifs));
  }

  /** Example: when the interfaces cannot be listed, "[::]" is an error even
      though the port is malformed too. */
  lemma ResolveUnlistedExample()
    ensures Resolve("[::]:" + "bad", None) == Failure(HostFailed(InterfacesUnavailable))
  {
    ResolveAnyHost("bad", None);
  }
}
