/** The text form of port mappings: [[ip:]hostport:]containerport[/protocol]. */
module PortMappings {
  import opened Wrappers
  import opened Strings

  datatype PortMapping = PortMapping(hostIp: string, hostPort: int, containerPort: int, protocol: string) {
    predicate Valid() {
      0 <= hostPort <= 65535 && 1 <= containerPort <= 65535 && (protocol == "tcp" || protocol == "udp")
    }
  }

  /** strings.ToLower on ASCII text. */
  function ToLower(s: string): string {
    seq(|s|, i requires 0 <= i < |s| => if 'A' <= s[i] <= 'Z' then 'a' + (s[i] - 'A') else s[i])
  }

  function ParseContainerPort(input: string): Option<(int, string)> {
    var s := Split(input, '/');
    if |s| > 2 then None
    else
      var protocol := if |s| == 1 then "tcp" else ToLower(s[1]);
      var port := Atoi(s[0]);
      if port.Some? && 1 <= port.value <= 65535 && (protocol == "udp" || protocol == "tcp") then Some((port.value, protocol))
      else None
  }

  function ParseHostPort(input: string): Option<int> {
    if input == "" then Some(0) else Atoi(input)
  }

  /** The parser proper; the host port is not checked to be in range here. */
  function ParsePortMapping(input: string): Option<PortMapping> {
    var parts := Split(input, ':');
    if |parts| > 3 then None
    else
      var container := ParseContainerPort(parts[|parts| - 1]);
      var hostPort := if |parts| == 1 then Some(0) else ParseHostPort(parts[|parts| - 2]);
      if container.None? || hostPort.None? then None
      else Some(PortMapping(if |parts| == 3 then parts[0] else "", hostPort.value, container.value.0, container.value.1))
  }

  /** Parsing with validation of the result. */
  function Parse(input: string): Option<PortMapping> {
    var p := ParsePortMapping(input);
    if p.Some? && p.value.Valid() then p else None
  }

  function PrintContainerPort(p: PortMapping): string {
    if p.protocol == "udp" then Itoa(p.containerPort) + "/" + p.protocol else Itoa(p.containerPort)
  }

  function PrintHostPort(p: PortMapping): string {
    if p.hostPort != 0 then Itoa(p.hostPort) else ""
  }

  function Print(p: PortMapping): string {
    if p.hostIp == "" then PrintHostPort(p) + ":" + PrintContainerPort(p)
    else p.hostIp + ":" + PrintHostPort(p) + ":" + PrintContainerPort(p)
  }

  lemma ItoaChars(n: int, c: char)
    requires !IsDigit(c) && c != '-'
    ensures c !in Itoa(n)
  {
  }

  lemma ContainerPortRoundTrip(p: PortMapping)
    requires 1 <= p.containerPort <= 65535 && (p.protocol == "tcp" || p.protocol == "udp")
    ensures ParseContainerPort(PrintContainerPort(p)) == Some((p.containerPort, p.protocol)) && ':' !in PrintContainerPort(p)
  {
    hide Split, Itoa, Atoi;
    var port := Itoa(p.containerPort);
    AtoiItoa(p.containerPort);
    ItoaChars(p.containerPort, '/');
    ItoaChars(p.containerPort, ':');
    if p.protocol == "udp" {
      SplitFirstPart(port, "udp", '/');
      SplitOnePart("udp", '/');
      assert ToLower("udp") == "udp";
    } else {
      SplitOnePart(port, '/');
    }
  }

  lemma HostPortRoundTrip(p: PortMapping)
    requires MIN_INT64 <= p.hostPort <= MAX_INT64
    ensures ParseHostPort(PrintHostPort(p)) == Some(p.hostPort) && ':' !in PrintHostPort(p)
  {
    AtoiItoa(p.hostPort);
    ItoaChars(p.hostPort, ':');
  }

  /** Any mapping with a port in range and a known protocol prints to text that parses to it. */
  lemma PrintThenParse(p: PortMapping)
    requires MIN_INT64 <= p.hostPort <= MAX_INT64 && 1 <= p.containerPort <= 65535
    requires (p.protocol == "tcp" || p.protocol == "udp") && ':' !in p.hostIp
    ensures ParsePortMapping(Print(p)) == Some(p)
  {
    hide Split, ParseContainerPort, ParseHostPort, PrintHostPort, PrintContainerPort;
    ContainerPortRoundTrip(p);
    HostPortRoundTrip(p);
    var host, container := PrintHostPort(p), PrintContainerPort(p);
    SplitOnePart(container, ':');
    SplitFirstPart(host, container, ':');
    if p.hostIp != "" {
      SplitFirstPart(p.hostIp, host + ":" + container, ':');
      assert Print(p) == p.hostIp + ":" + (host + ":" + container);
    }
  }

  /** Printing a parsed mapping and parsing again gives the same mapping, whatever way it was written. */
  lemma PortMappingRoundTrip(input: string)
    requires ParsePortMapping(input).Some?
    ensures ParsePortMapping(Print(ParsePortMapping(input).value)) == ParsePortMapping(input)
  {
    JoinSplit(input, ':');
    PrintThenParse(ParsePortMapping(input).value);
  }

  /** The same with validation: what Parse accepts it accepts again. */
  lemma ParseRoundTrip(input: string)
    requires Parse(input).Some?
    ensures Parse(Print(Parse(input).value)) == Parse(input)
  {
    PortMappingRoundTrip(input);
  }

  // ----- Every text that is a port mapping -----

  /** Without a host port, or without an address, it is as if they were left empty. */
  lemma ShortMappings(host: string, container: string)
    requires ':' !in host && ':' !in container
    ensures ParsePortMapping(container) == ParsePortMapping(":" + container)
    ensures ParsePortMapping(host + ":" + container) == ParsePortMapping(":" + host + ":" + container)
  {
    hide Split, ParseContainerPort, ParseHostPort;
    NoHostPort();
    SplitOnePart(container, ':');
    SplitTwoParts("", container, ':');
    assert "" + ":" + container == ":" + container;
    SplitTwoParts(host, container, ':');
    SplitThreeParts("", host, container, ':');
    assert "" + ":" + host + ":" + container == ":" + host + ":" + container;
  }

  lemma NoHostPort()
    ensures ParseHostPort("") == Some(0)
  {
  }

  /** The full form: an address, a host port that is a number or empty, and a container port. */
  lemma FullMapping(ip: string, host: string, container: string)
    requires ':' !in ip && ':' !in host && ':' !in container
    ensures ParsePortMapping(ip + ":" + host + ":" + container) ==
              if ParseContainerPort(container).Some? && (host == "" || Atoi(host).Some?)
              then Some(PortMapping(ip, if host == "" then 0 else Atoi(host).value,
                                    ParseContainerPort(container).value.0, ParseContainerPort(container).value.1))
              else None
  {
    hide Split, ParseContainerPort, Atoi;
    SplitThreeParts(ip, host, container, ':');
  }

  /** More than two colons are an error. */
  lemma TooManyColons(a: string, b: string, c: string, rest: string)
    requires ':' !in a && ':' !in b && ':' !in c
    ensures ParsePortMapping(a + ":" + b + ":" + c + ":" + rest) == None
  {
    SplitMoreParts(a, b, c, rest, ':');
  }

  /** A container port is a number from 1 to 65535, with tcp or udp after it in upper or lower case, or as if with tcp. */
  lemma ContainerPortTexts(port: string, protocol: string)
    requires '/' !in port && '/' !in protocol
    ensures ParseContainerPort(port) == ParseContainerPort(port + "/tcp")
    ensures ParseContainerPort(port + "/" + protocol) ==
              if Atoi(port).Some? && 1 <= Atoi(port).value <= 65535 && (IsTcp(protocol) || IsUdp(protocol))
              then Some((Atoi(port).value, if IsTcp(protocol) then "tcp" else "udp")) else None
  {
    hide Split, Atoi, ToLower;
    SplitOnePart(port, '/');
    SplitTwoParts(port, "tcp", '/');
    SplitTwoParts(port, protocol, '/');
    assert port + "/" + "tcp" == port + "/tcp";
    ProtocolInLower("tcp");
    ProtocolInLower(protocol);
  }

  predicate IsTcp(s: string) { |s| == 3 && s[0] in "tT" && s[1] in "cC" && s[2] in "pP" }

  predicate IsUdp(s: string) { |s| == 3 && s[0] in "uU" && s[1] in "dD" && s[2] in "pP" }

  lemma ProtocolInLower(s: string)
    ensures ToLower(s) == "tcp" <==> IsTcp(s)
    ensures ToLower(s) == "udp" <==> IsUdp(s)
  {
    LowerIs(s, "tcp");
    LowerIs(s, "udp");
  }

  lemma LowerIs(s: string, t: string)
    ensures ToLower(s) == t <==> |s| == |t| && forall i :: 0 <= i < |s| ==> t[i] == if 'A' <= s[i] <= 'Z' then 'a' + (s[i] - 'A') else s[i]
  {
  }
}
