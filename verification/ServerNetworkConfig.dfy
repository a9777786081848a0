/** The OpenVPN server configuration: managed lines are replaced, all others kept. */
module ServerNetworkConfig {
  import opened Text
  import opened Ipv4

  datatype RouteMode = Nat | Routing
  datatype Compression = Off | Lzo | Lz4
  datatype Protocol = Udp | Tcp

  datatype Settings = Settings(
    vpnNetwork: string, dnsServers: seq<string>, searchDomains: seq<string>, internalDomains: seq<string>,
    routeMode: RouteMode, splitTunnel: bool, compression: Compression, protocol: Protocol, port: int)

  // Validation --------------------------------------------------------------

  predicate IsLetter(c: char) {
    'a' <= c <= 'z' || 'A' <= c <= 'Z'
  }

  predicate IsLabel(s: string) {
    1 <= |s| <= 63 && forall i :: 0 <= i < |s| ==> IsLetter(s[i]) || IsDigit(s[i]) || s[i] == '-'
  }

  predicate IsTopLabel(s: string) {
    2 <= |s| <= 63 && forall i :: 0 <= i < |s| ==> IsLetter(s[i])
  }

  function WithoutFinalDot(s: string): string {
    if s != [] && s[|s| - 1] == '.' then s[..|s| - 1] else s
  }

  /** At least two labels, the last of letters; one final dot is allowed. */
  predicate ValidDomain(s: string) {
    && 1 <= |s| <= 253 && s[0] != '-'
    && var parts := Split(WithoutFinalDot(s), '.');
       && 2 <= |parts|
       && (forall i :: 0 <= i < |parts| - 1 ==> IsLabel(parts[i]))
       && IsTopLabel(parts[|parts| - 1])
  }

  predicate LetterCode(n: int) {
    97 <= n <= 122 || 65 <= n <= 90
  }

  /** A label of letters, digits and hyphens. */
  predicate Labelled(l: string) {
    1 <= |l| <= 63 && forall c :: c in l ==> LetterCode(c as int) || 48 <= c as int <= 57 || c as int == 45
  }

  predicate TopLabelled(l: string) {
    2 <= |l| <= 63 && forall c :: c in l ==> LetterCode(c as int)
  }

  /** The domain is spelled by these labels and a last one of letters, with or without
      a final dot. */
  ghost predicate SpelledBy(s: string, labels: seq<string>, top: string, dot: string) {
    && labels != [] && (forall l :: l in labels ==> Labelled(l)) && TopLabelled(top)
    && dot in {"", "."} && s == Join(labels + [top], ".") + dot
  }

  /** The valid domains are those spelled by one or more labels and a last one of
      letters, of at most 253 characters, and not with a hyphen in front. */
  lemma ValidDomainIff(s: string)
    ensures ValidDomain(s)
            <==> 1 <= |s| <= 253 && s[0] != '-' && exists labels, top, dot :: SpelledBy(s, labels, top, dot)
  {
    hide Split, Join;
    if ValidDomain(s) {
      DomainIsSpelled(s);
    }
    if labels, top, dot :| SpelledBy(s, labels, top, dot) {
      SpelledHasParts(s, labels, top, dot);
    }
  }

  lemma LabelIff(l: string)
    ensures IsLabel(l) <==> Labelled(l)
    ensures IsTopLabel(l) <==> TopLabelled(l)
    ensures IsLabel(l) || IsTopLabel(l) ==> '.' !in l
  {
    assert forall i :: 0 <= i < |l| ==> l[i] in l;
  }

  lemma DomainParts(s: string)
    requires ValidDomain(s)
    ensures var parts := Split(WithoutFinalDot(s), '.');
            && 2 <= |parts| && (forall i :: 0 <= i < |parts| - 1 ==> IsLabel(parts[i])) && IsTopLabel(parts[|parts| - 1])
    ensures s == WithoutFinalDot(s) || s == WithoutFinalDot(s) + "."
  {
    hide Split, IsLabel, IsTopLabel;
  }

  lemma DomainIsSpelled(s: string)
    requires ValidDomain(s)
    ensures exists labels, top, dot :: SpelledBy(s, labels, top, dot)
  {
    hide Split, Join, ValidDomain, IsLabel, IsTopLabel, Labelled, TopLabelled, WithoutFinalDot;
    DomainParts(s);
    var t := WithoutFinalDot(s);
    var parts := Split(t, '.');
    var n := |parts| - 1;
    JoinOfSplit(t, '.');
    var labels, top, dot := parts[..n], parts[n], if s == t then "" else ".";
    assert labels + [top] == parts;
    forall l | l in labels ensures Labelled(l) {
      var i :| 0 <= i < n && labels[i] == l;
      LabelIff(parts[i]);
    }
    LabelIff(top);
    assert t + "" == t;
    assert SpelledBy(s, labels, top, dot);
  }

  lemma SpelledHasParts(s: string, labels: seq<string>, top: string, dot: string)
    requires SpelledBy(s, labels, top, dot)
    ensures var parts := Split(WithoutFinalDot(s), '.');
            && parts == labels + [top]
            && (forall i :: 0 <= i < |parts| - 1 ==> IsLabel(parts[i])) && IsTopLabel(parts[|parts| - 1])
  {
    hide Split, Join, IsLabel, IsTopLabel, Labelled, TopLabelled;
    var parts := labels + [top];
    forall p | p in parts ensures '.' !in p {
      LabelIff(p);
    }
    JoinEnd(labels, top);
    LabelIff(top);
    EndsWithLetter(s, Join(labels, "."), top, dot);
    SplitOfJoin(parts, '.');
    forall i | 0 <= i < |labels| ensures IsLabel(parts[i]) {
      assert labels[i] in labels;
      LabelIff(labels[i]);
    }
  }

  lemma JoinEnd(labels: seq<string>, top: string)
    requires labels != []
    ensures Join(labels + [top], ".") == Join(labels, ".") + "." + top
  {
    JoinAppend(labels, top, ".");
  }

  lemma EndsWithLetter(s: string, front: string, top: string, dot: string)
    requires TopLabelled(top) && dot in {"", "."} && s == front + "." + top + dot
    ensures WithoutFinalDot(s) == front + "." + top
  {
    assert top[|top| - 1] in top;
    assert dot == "." ==> s[..|s| - 1] == front + "." + top;
  }

  predicate ValidSettings(s: Settings) {
    && ValidCidr(s.vpnNetwork)
    && 1 <= s.port <= 65535
    && (forall i :: 0 <= i < |s.dnsServers| ==> IsQuad(s.dnsServers[i]))
    && (forall i :: 0 <= i < |s.searchDomains| ==> ValidDomain(s.searchDomains[i]))
    && (forall i :: 0 <= i < |s.internalDomains| ==> ValidDomain(s.internalDomains[i]))
  }

  datatype Problem = BadNetwork | BadPort | BadDns(server: string) | BadDomain(domain: string)

  /** Finds no problem exactly in valid settings; a reported part is a bad one. */
  method ValidateServerNetworkSettings(s: Settings) returns (problem: Option<Problem>)
    ensures problem.None? <==> ValidSettings(s)
    ensures problem == Some(BadNetwork) <==> !ValidCidr(s.vpnNetwork)
    ensures problem == Some(BadPort) <==> ValidCidr(s.vpnNetwork) && !(1 <= s.port <= 65535)
    ensures problem.Some? && problem.value.BadDns? ==> problem.value.server in s.dnsServers && !IsQuad(problem.value.server)
    ensures problem.Some? && problem.value.BadDomain?
            ==> problem.value.domain in s.searchDomains + s.internalDomains && !ValidDomain(problem.value.domain)
  {
    hide ValidCidr, IsQuad, ValidDomain;
    if !ValidCidr(s.vpnNetwork) {
      return Some(BadNetwork);
    }
    if s.port < 1 || s.port > 65535 {
      return Some(BadPort);
    }
    for i := 0 to |s.dnsServers|
      invariant forall k :: 0 <= k < i ==> IsQuad(s.dnsServers[k])
    {
      if !IsQuad(s.dnsServers[i]) {
        return Some(BadDns(s.dnsServers[i]));
      }
    }
    var domains := s.searchDomains + s.internalDomains;
    for i := 0 to |domains|
      invariant forall k :: 0 <= k < i ==> ValidDomain(domains[k])
    {
      if !ValidDomain(domains[i]) {
        if i < |s.searchDomains| {
          assert !ValidDomain(s.searchDomains[i]);
        } else {
          assert !ValidDomain(s.internalDomains[i - |s.searchDomains|]);
        }
        return Some(BadDomain(domains[i]));
      }
    }
    assert forall i :: 0 <= i < |s.searchDomains| ==> domains[i] == s.searchDomains[i];
    assert forall i :: 0 <= i < |s.internalDomains| ==> domains[|s.searchDomains| + i] == s.internalDomains[i];
    return None;
  }

  // The managed block -------------------------------------------------------

  const HEADING: string := "# Managed by AccessCore"

  function ProtocolText(p: Protocol): string {
    match p case Udp => "udp" case Tcp => "tcp"
  }

  function PortLine(s: Settings): string
    requires s.port >= 0
  {
    "port " + Decimal(s.port)
  }

  function ProtoLine(s: Settings): string {
    "proto " + ProtocolText(s.protocol)
  }

  function DnsLine(server: string): string {
    "push \"dhcp-option DNS " + server + "\""
  }

  function DomainLine(domain: string): string {
    "push \"dhcp-option DOMAIN-SEARCH " + domain + "\""
  }

  function RouteModeLine(s: Settings): string {
    "# portal-route-mode " + match s.routeMode { case Nat => "NAT" case Routing => "ROUTING" }
  }

  function CompressionLines(s: Settings): seq<string> {
    match s.compression
    case Lz4 => ["compress lz4"]
    case Lzo => ["comp-lzo yes"]
    case Off => []
  }

  function TunnelLines(s: Settings): seq<string> {
    if s.splitTunnel then [] else ["push \"redirect-gateway def1 bypass-dhcp\""]
  }

  function DnsLines(servers: seq<string>): (lines: seq<string>)
    ensures |lines| == |servers| && forall i :: 0 <= i < |servers| ==> lines[i] == DnsLine(servers[i])
  {
    seq(|servers|, i requires 0 <= i < |servers| => DnsLine(servers[i]))
  }

  function DomainLines(domains: seq<string>): (lines: seq<string>)
    ensures |lines| == |domains| && forall i :: 0 <= i < |domains| ==> lines[i] == DomainLine(domains[i])
  {
    seq(|domains|, i requires 0 <= i < |domains| => DomainLine(domains[i]))
  }

  /** Without repeats, in order of first occurrence. */
  function Unique(list: seq<string>): (u: seq<string>)
    ensures forall x :: x in u <==> x in list
  {
    if list == [] then []
    else
      var before := Unique(list[..|list| - 1]);
      var last := list[|list| - 1];
      assert list == list[..|list| - 1] + [last];
      if last in before then before else before + [last]
  }

  function ManagedLines(s: Settings): seq<string>
    requires ValidSettings(s)
  {
    [HEADING, PortLine(s), ProtoLine(s), CidrToServerDirective(s.vpnNetwork)]
    + CompressionLines(s) + TunnelLines(s) + DnsLines(s.dnsServers)
    + DomainLines(Unique(s.searchDomains + s.internalDomains)) + [RouteModeLine(s)]
  }

  // What the managed block says ----------------------------------------------

  lemma DnsLineShape(x: string)
    ensures var l := DnsLine(x); |l| > 19 && l[0] == 'p' && l[1] == 'u' && l[6] == 'd' && l[19] == 'N' && l[21..|l| - 1] == " " + x
  {
    assert DnsLine(x) == "push \"dhcp-option DNS" + (" " + x) + "\"";
  }

  lemma DomainLineShape(x: string)
    ensures var l := DomainLine(x); |l| > 31 && l[0] == 'p' && l[1] == 'u' && l[6] == 'd' && l[19] == 'O' && l[31..|l| - 1] == " " + x
  {
    assert DomainLine(x) == "push \"dhcp-option DOMAIN-SEARCH" + (" " + x) + "\"";
  }

  lemma DnsLineIn(servers: seq<string>, x: string)
    ensures DnsLine(x) in DnsLines(servers) <==> x in servers
    ensures forall l :: l in DnsLines(servers) ==> |l| > 19 && l[0] == 'p' && l[1] == 'u' && l[6] == 'd' && l[19] == 'N'
  {
    hide DnsLine;
    forall i | 0 <= i < |servers| ensures DnsLine(servers[i]) == DnsLine(x) ==> servers[i] == x {
      DnsLineShape(servers[i]);
      DnsLineShape(x);
      assert (" " + servers[i])[1..] == servers[i] && (" " + x)[1..] == x;
    }
    forall l | l in DnsLines(servers) ensures |l| > 19 && l[0] == 'p' && l[1] == 'u' && l[6] == 'd' && l[19] == 'N' {
      var i :| 0 <= i < |servers| && DnsLines(servers)[i] == l;
      DnsLineShape(servers[i]);
    }
    if x in servers {
      var i :| 0 <= i < |servers| && servers[i] == x;
      assert DnsLines(servers)[i] == DnsLine(x);
    }
  }

  lemma DomainLineIn(domains: seq<string>, x: string)
    ensures DomainLine(x) in DomainLines(domains) <==> x in domains
    ensures forall l :: l in DomainLines(domains) ==> |l| > 19 && l[0] == 'p' && l[1] == 'u' && l[6] == 'd' && l[19] == 'O'
  {
    hide DomainLine;
    forall i | 0 <= i < |domains| ensures DomainLine(domains[i]) == DomainLine(x) ==> domains[i] == x {
      DomainLineShape(domains[i]);
      DomainLineShape(x);
      assert (" " + domains[i])[1..] == domains[i] && (" " + x)[1..] == x;
    }
    forall l | l in DomainLines(domains) ensures |l| > 19 && l[0] == 'p' && l[1] == 'u' && l[6] == 'd' && l[19] == 'O' {
      var i :| 0 <= i < |domains| && DomainLines(domains)[i] == l;
      DomainLineShape(domains[i]);
    }
    if x in domains {
      var i :| 0 <= i < |domains| && domains[i] == x;
      assert DomainLines(domains)[i] == DomainLine(x);
    }
  }

  const REDIRECT: string := "push \"redirect-gateway def1 bypass-dhcp\""

  /** Told apart from the pushed lines, and from those about compression. */
  predicate Plain(l: string) {
    l != [] && l[0] != 'c' && (l[0] == 'p' ==> |l| > 1 && l[1] != 'u')
  }

  lemma PlainStart(start: string, rest: string)
    requires |start| > 1 && start[0] != 'c' && (start[0] == 'p' ==> start[1] != 'u')
    ensures Plain(start + rest)
  {
  }

  lemma PlainLines(s: Settings)
    requires ValidSettings(s)
    ensures Plain(HEADING) && Plain(PortLine(s)) && Plain(ProtoLine(s)) && Plain(RouteModeLine(s))
    ensures Plain(CidrToServerDirective(s.vpnNetwork))
  {
    hide Decimal, ValidCidr, ProtocolText, Plain;
    PlainStart("port ", Decimal(s.port));
    PlainStart("proto ", ProtocolText(s.protocol));
    PlainStart("# portal-route-mode ", match s.routeMode { case Nat => "NAT" case Routing => "ROUTING" });
    PlainStart(HEADING, "");
    assert HEADING + "" == HEADING;
    ServerIsPlain(s.vpnNetwork);
  }

  lemma ServerIsPlain(cidr: string)
    requires ValidCidr(cidr)
    ensures Plain(CidrToServerDirective(cidr))
  {
    hide ValidCidr, Plain, CidrToServerDirective, CidrToSubnetMask;
    DirectiveHasSameMask(cidr);
    var r := CidrToSubnetMask(cidr);
    PlainStart("server ", r.ip + " " + r.mask);
    assert "server " + r.ip + " " + r.mask == "server " + (r.ip + " " + r.mask);
  }

  lemma CompressionIn(s: Settings)
    ensures "compress lz4" in CompressionLines(s) <==> s.compression == Lz4
    ensures "comp-lzo yes" in CompressionLines(s) <==> s.compression == Lzo
    ensures forall l :: l in CompressionLines(s) ==> |l| > 0 && l[0] == 'c'
  {
    var a, b := "compress lz4", "comp-lzo yes";
    assert a[4] != b[4] && a[0] == b[0] == 'c';
  }

  lemma TunnelIn(s: Settings)
    ensures REDIRECT in TunnelLines(s) <==> !s.splitTunnel
    ensures forall l :: l in TunnelLines(s) ==> |l| > 6 && l[0] == 'p' && l[1] == 'u' && l[6] == 'r'
    ensures |REDIRECT| > 6 && REDIRECT[0] == 'p' && REDIRECT[1] == 'u' && REDIRECT[6] == 'r'
  {
  }

  lemma InManaged(s: Settings, l: string)
    requires ValidSettings(s)
    ensures l in ManagedLines(s) <==>
              || l in [HEADING, PortLine(s), ProtoLine(s), CidrToServerDirective(s.vpnNetwork)]
              || l in CompressionLines(s) || l in TunnelLines(s) || l in DnsLines(s.dnsServers)
              || l in DomainLines(Unique(s.searchDomains + s.internalDomains)) || l == RouteModeLine(s)
  {
    hide ValidSettings, HEADING, PortLine, ProtoLine, CidrToServerDirective, CompressionLines, TunnelLines, DnsLines, DomainLines, Unique,
         RouteModeLine;
  }

  lemma OptionInManaged(s: Settings)
    requires ValidSettings(s)
    ensures var lines := ManagedLines(s);
            && ("compress lz4" in lines <==> s.compression == Lz4) && ("comp-lzo yes" in lines <==> s.compression == Lzo)
            && (REDIRECT in lines <==> !s.splitTunnel)
  {
    hide ValidSettings, PortLine, ProtoLine, CidrToServerDirective, CompressionLines, TunnelLines, DnsLines, DomainLines, Unique,
         RouteModeLine, ManagedLines, DnsLine, DomainLine, REDIRECT, HEADING;
    var lz4, lzo := "compress lz4", "comp-lzo yes";
    assert lz4[0] == lzo[0] == 'c';
    PlainLines(s);
    CompressionIn(s);
    TunnelIn(s);
    DnsLineIn(s.dnsServers, "");
    DomainLineIn(Unique(s.searchDomains + s.internalDomains), "");
    InManaged(s, lz4);
    InManaged(s, lzo);
    InManaged(s, REDIRECT);
  }

  lemma PushedInManaged(s: Settings, x: string)
    requires ValidSettings(s)
    ensures DnsLine(x) in ManagedLines(s) <==> x in s.dnsServers
    ensures DomainLine(x) in ManagedLines(s) <==> x in s.searchDomains || x in s.internalDomains
  {
    hide ValidSettings, PortLine, ProtoLine, CidrToServerDirective, CompressionLines, TunnelLines, DnsLines, DomainLines, Unique,
         RouteModeLine, ManagedLines, DnsLine, DomainLine, REDIRECT, HEADING;
    PlainLines(s);
    CompressionIn(s);
    TunnelIn(s);
    DnsLineShape(x);
    DomainLineShape(x);
    DnsLineIn(s.dnsServers, x);
    DomainLineIn(Unique(s.searchDomains + s.internalDomains), x);
    InManaged(s, DnsLine(x));
    InManaged(s, DomainLine(x));
  }

  /** What the block says, setting by setting: each can be read off it again. */
  lemma {:induction false} ManagedLinesMean(s: Settings, x: string)
    requires ValidSettings(s)
    ensures var lines := ManagedLines(s);
            && |lines| >= 5
            && lines[0] == "# Managed by AccessCore"
            && lines[1] == "port " + Decimal(s.port)
            && lines[2] == (if s.protocol == Udp then "proto udp" else "proto tcp")
            && lines[3] == CidrToServerDirective(s.vpnNetwork)
            && lines[|lines| - 1] == (if s.routeMode == Nat then "# portal-route-mode NAT" else "# portal-route-mode ROUTING")
            && ("compress lz4" in lines <==> s.compression == Lz4) && ("comp-lzo yes" in lines <==> s.compression == Lzo)
            && ("push \"redirect-gateway def1 bypass-dhcp\"" in lines <==> !s.splitTunnel)
            && ("push \"dhcp-option DNS " + x + "\"" in lines <==> x in s.dnsServers)
            && ("push \"dhcp-option DOMAIN-SEARCH " + x + "\"" in lines <==> x in s.searchDomains || x in s.internalDomains)
  {
    hide ValidSettings, PortLine, ProtoLine, CidrToServerDirective, CompressionLines, TunnelLines, RouteModeLine, DnsLine, DomainLine,
         DnsLines, DomainLines, Unique;
    OptionInManaged(s);
    PushedInManaged(s, x);
    LinesAsText(s, x);
  }

  lemma LinesAsText(s: Settings, x: string)
    requires ValidSettings(s)
    ensures PortLine(s) == "port " + Decimal(s.port)
    ensures ProtoLine(s) == if s.protocol == Udp then "proto udp" else "proto tcp"
    ensures RouteModeLine(s) == if s.routeMode == Nat then "# portal-route-mode NAT" else "# portal-route-mode ROUTING"
    ensures DnsLine(x) == "push \"dhcp-option DNS " + x + "\"" && DomainLine(x) == "push \"dhcp-option DOMAIN-SEARCH " + x + "\""
  {
    hide Decimal, ValidCidr;
  }

  method BuildManagedLines(s: Settings) returns (lines: seq<string>)
    requires ValidSettings(s)
    ensures lines == ManagedLines(s)
  {
    hide ValidCidr, IsQuad, ValidDomain, DnsLine, DomainLine, PortLine, ProtoLine, CidrToServerDirective, RouteModeLine;
    lines := [HEADING, PortLine(s), ProtoLine(s), CidrToServerDirective(s.vpnNetwork)];
    if s.compression == Lz4 {
      lines := lines + ["compress lz4"];
    } else if s.compression == Lzo {
      lines := lines + ["comp-lzo yes"];
    }
    if !s.splitTunnel {
      lines := lines + ["push \"redirect-gateway def1 bypass-dhcp\""];
    }
    ghost var before := lines;
    assert before == [HEADING, PortLine(s), ProtoLine(s), CidrToServerDirective(s.vpnNetwork)]
                     + CompressionLines(s) + TunnelLines(s);
    for i := 0 to |s.dnsServers|
      invariant lines == before + DnsLines(s.dnsServers[..i])
    {
      lines := lines + [DnsLine(s.dnsServers[i])];
      assert DnsLines(s.dnsServers[..i + 1]) == DnsLines(s.dnsServers[..i]) + [DnsLine(s.dnsServers[i])];
    }
    assert s.dnsServers[..|s.dnsServers|] == s.dnsServers;
    before := lines;
    var pushed := Unique(s.searchDomains + s.internalDomains);
    for i := 0 to |pushed|
      invariant lines == before + DomainLines(pushed[..i])
    {
      lines := lines + [DomainLine(pushed[i])];
      assert DomainLines(pushed[..i + 1]) == DomainLines(pushed[..i]) + [DomainLine(pushed[i])];
    }
    assert pushed[..|pushed|] == pushed;
    lines := lines + [RouteModeLine(s)];
  }

  /** Of a trimmed line. */
  predicate IsManagedLine(t: string) {
    || t == HEADING
    || "# portal-route-mode " <= t
    || "port " <= t
    || "proto " <= t
    || "server " <= t
    || "compress " <= t
    || "comp-lzo" <= t
    || t == "allow-compression yes"
    || "push \"redirect-gateway " <= t
    || "push \"dhcp-option DNS " <= t
    || "push \"dhcp-option DOMAIN " <= t
    || "push \"dhcp-option DOMAIN-SEARCH " <= t
  }

  const REPLACED_STARTS: seq<string> := [
    "# portal-route-mode ", "port ", "proto ", "server ", "compress ", "comp-lzo", "push \"redirect-gateway ",
    "push \"dhcp-option DNS ", "push \"dhcp-option DOMAIN ", "push \"dhcp-option DOMAIN-SEARCH "]

  ghost predicate StartsLike(t: string, starts: seq<string>) {
    exists i :: 0 <= i < |starts| && starts[i] <= t
  }

  /** The lines an update replaces: two of them in full, the others by what they start
      with. */
  lemma ManagedIff(t: string)
    ensures IsManagedLine(t)
            <==> t == "# Managed by AccessCore" || t == "allow-compression yes" || StartsLike(t, REPLACED_STARTS)
  {
    hide StartsLike;
    var starts := REPLACED_STARTS;
    TenStarts(t, starts);
  }

  lemma TenStarts(t: string, s: seq<string>)
    requires |s| == 10
    ensures StartsLike(t, s) <==> s[0] <= t || s[1] <= t || s[2] <= t || s[3] <= t || s[4] <= t || s[5] <= t || s[6] <= t
                                  || s[7] <= t || s[8] <= t || s[9] <= t
  {
  }

  // Lines of a configuration --------------------------------------------------

  function DropCr(line: string): string {
    if line != [] && line[|line| - 1] == '\r' then line[..|line| - 1] else line
  }

  /** Splitting at every line feed, together with a carriage return before it. */
  function Lines(config: string): (lines: seq<string>)
    ensures lines != []
    ensures forall i :: 0 <= i < |lines| ==> '\n' !in lines[i]
    decreases |config|
  {
    var i := Find(config, '\n');
    if i == |config| then [config] else [DropCr(config[..i])] + Lines(config[i + 1..])
  }

  function Unmanaged(lines: seq<string>): seq<string> {
    if lines == [] then []
    else
      (if IsManagedLine(Trim(lines[0])) then [] else [lines[0]]) + Unmanaged(lines[1..])
  }

  predicate IsBlank(line: string) {
    Trim(line) == ""
  }

  function DropBlankTail(lines: seq<string>): (kept: seq<string>)
    ensures kept <= lines
    ensures kept != [] ==> !IsBlank(kept[|kept| - 1])
  {
    if lines != [] && IsBlank(lines[|lines| - 1]) then DropBlankTail(lines[..|lines| - 1]) else lines
  }

  /** The lines of a configuration that an update keeps. */
  function Kept(config: string): (kept: seq<string>)
    ensures kept != [] ==> !IsBlank(kept[|kept| - 1])
  {
    DropBlankTail(Unmanaged(Lines(config)))
  }

  function Applied(config: string, s: Settings): string
    requires ValidSettings(s)
  {
    var preserved := TrimEnd(Join(Kept(config), "\n"));
    if preserved != "" then preserved + "\n\n" + Join(ManagedLines(s), "\n") + "\n"
    else Join(ManagedLines(s), "\n") + "\n"
  }

  method ApplyNetworkSettingsToServerConfig(currentConfig: string, s: Settings) returns (config: string)
    requires ValidSettings(s)
    ensures config == Applied(currentConfig, s)
  {
    hide ValidSettings, IsManagedLine, ManagedLines, Join, TrimEnd, Trim;
    var filteredLines := Unmanaged(Lines(currentConfig));
    while |filteredLines| > 0 && IsBlank(filteredLines[|filteredLines| - 1])
      invariant DropBlankTail(filteredLines) == Kept(currentConfig)
    {
      filteredLines := filteredLines[..|filteredLines| - 1];
    }
    var preserved := TrimEnd(Join(filteredLines, "\n"));
    var managed := BuildManagedLines(s);
    config := if preserved != "" then preserved + "\n\n" + Join(managed, "\n") + "\n" else Join(managed, "\n") + "\n";
  }
}
