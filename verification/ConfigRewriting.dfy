/** What applying network settings to a server configuration does to its lines. */
module ConfigRewriting {
  import opened Text
  import opened Words
  import opened Ipv4
  import opened Ccd
  import opened ServerNetworkConfig

  // Trimming ----------------------------------------------------------------

  lemma {:induction false} TrimStartTail(m: string, c: char)
    requires IsSpace(c)
    ensures TrimStart(m + [c]) == if TrimStart(m) == [] then [] else TrimStart(m) + [c]
  {
    if m == [] {
      assert (m + [c])[1..] == [];
    } else if IsSpace(m[0]) {
      TrimStartTail(m[1..], c);
      assert (m + [c])[1..] == m[1..] + [c];
    }
  }

  lemma TrimTail(m: string, c: char)
    requires IsSpace(c)
    ensures Trim(m + [c]) == Trim(m)
  {
    TrimStartTail(m, c);
    var t := TrimStart(m);
    if t != [] {
      assert (t + [c])[..|t + [c]| - 1] == t;
    }
  }

  lemma TrimDropCr(line: string)
    ensures Trim(DropCr(line)) == Trim(line)
  {
    if DropCr(line) != line {
      TrimTail(DropCr(line), '\r');
      assert line == DropCr(line) + ['\r'];
    }
  }

  lemma {:induction false} TrimTrimEnd(line: string)
    ensures Trim(TrimEnd(line)) == Trim(line)
    ensures TrimEnd(TrimEnd(line)) == TrimEnd(line)
  {
    hide Trim;
    if line != [] && IsSpace(line[|line| - 1]) {
      var m := line[..|line| - 1];
      TrimTrimEnd(m);
      TrimTail(m, line[|line| - 1]);
      assert line == m + [line[|line| - 1]];
    }
  }

  lemma {:induction false} TrimEndOfSum(x: string, y: string)
    requires TrimEnd(y) != []
    ensures TrimEnd(x + y) == x + TrimEnd(y)
  {
    if IsSpace(y[|y| - 1]) {
      TrimEndOfSum(x, y[..|y| - 1]);
      assert (x + y)[..|x + y| - 1] == x + y[..|y| - 1];
    }
  }

  lemma EndedIsNotBlank(t: string)
    requires t != [] && !IsSpace(t[|t| - 1])
    ensures Trim(t) != []
  {
    hide TrimStart, TrimEnd, IsSpace;
    var u := TrimStart(t);
    TrimStartShape(t);
    TrimEndShape(u);
    if u != [] {
      assert u[|u| - 1] == t[|t| - 1];
    }
  }

  lemma BlankIff(line: string)
    ensures IsBlank(line) <==> TrimEnd(line) == []
  {
    TrimTrimEnd(line);
    TrimEndShape(line);
    if TrimEnd(line) != [] {
      hide TrimEnd, Trim;
      EndedIsNotBlank(TrimEnd(line));
    }
  }

  // The managed lines -------------------------------------------------------

  /** One line of text that an update recognises as its own. */
  predicate Fits(line: string) {
    line != [] && Trimmed(line) && '\n' !in line && IsManagedLine(line)
  }

  lemma {:induction false} NotInJoin(parts: seq<string>, sep: string, c: char)
    requires c !in sep && forall p :: p in parts ==> c !in p
    ensures c !in Join(parts, sep)
  {
    if |parts| > 1 {
      NotInJoin(parts[1..], sep, c);
    }
  }

  lemma LabelHasNoNewline(s: string)
    requires IsLabel(s) || IsTopLabel(s)
    ensures '\n' !in s
  {
  }

  lemma DomainHasNoNewline(domain: string)
    requires ValidDomain(domain)
    ensures '\n' !in domain
  {
    var t := WithoutFinalDot(domain);
    var parts := Split(t, '.');
    forall i | 0 <= i < |parts| ensures '\n' !in parts[i] {
      hide Split, WithoutFinalDot;
      LabelHasNoNewline(parts[i]);
    }
    hide Split, Join, ValidDomain;
    NotInJoin(parts, ".", '\n');
    JoinOfSplit(t, '.');
    assert domain == t || domain == t + ".";
  }

  lemma DigitsHaveNoSpace(s: string)
    requires AddressText(s)
    ensures '\n' !in s && forall i :: 0 <= i < |s| ==> !IsSpace(s[i])
  {
    forall i | 0 <= i < |s| ensures s[i] != '\n' && !IsSpace(s[i]) {
      assert IsAddressChar(s[i]);
    }
  }

  lemma PortFits(s: Settings)
    requires s.port >= 0
    ensures Fits(PortLine(s))
  {
    var d := Decimal(s.port);
    assert AddressText(d) by {
      assert forall i :: 0 <= i < |d| ==> IsDigit(d[i]);
    }
    DigitsHaveNoSpace(d);
    assert "port " <= PortLine(s);
  }

  lemma ServerFits(cidr: string)
    requires ValidCidr(cidr)
    ensures Fits(CidrToServerDirective(cidr))
  {
    hide ValidCidr, QuadText, IsQuad, MaskWord, AddressText;
    DirectiveHasSameMask(cidr);
    var r := CidrToSubnetMask(cidr);
    QuadIsAddressText(r.ip);
    QuadTextIsAddressText(MaskWord(PrefixLength(cidr)));
    DigitsHaveNoSpace(r.ip);
    DigitsHaveNoSpace(r.mask);
    ServerLineFits(r.ip, r.mask);
  }

  /** A server directive, split at its spaces, is read as the network and mask of
      exactly the addresses of its block, for every prefix length from 0 to 32. */
  lemma {:induction false} DirectiveCoversBlock(cidr: string, address: Word)
    requires ValidCidr(cidr)
    ensures var words := Split(CidrToServerDirective(cidr), ' ');
            && |words| == 3 && words[0] == "server"
            && (Covers(Route(words[1], words[2]), address) <==> InBlock(address, cidr))
  {
    hide *;
    DirectiveWords(cidr);
    RouteCoversBlock(cidr, address);
  }

  lemma DirectiveWords(cidr: string)
    requires ValidCidr(cidr)
    ensures var r := CidrToSubnetMask(cidr);
            Split(CidrToServerDirective(cidr), ' ') == ["server", r.ip, r.mask]
  {
    hide ValidCidr, QuadText, IsQuad, MaskWord, AddressText, CidrToServerDirective, Split;
    DirectiveHasSameMask(cidr);
    var r := CidrToSubnetMask(cidr);
    QuadIsAddressText(r.ip);
    QuadTextIsAddressText(MaskWord(PrefixLength(cidr)));
    NoSpaceIn(r.ip);
    NoSpaceIn(r.mask);
    ThreeWords("server", r.ip, r.mask);
    assert "server " == "server" + " ";
  }

  lemma NoSpaceIn(s: string)
    requires AddressText(s)
    ensures ' ' !in s
  {
    DigitsHaveNoSpace(s);
  }

  lemma ThreeWords(a: string, b: string, c: string)
    requires ' ' !in a && ' ' !in b && ' ' !in c
    ensures Split(a + " " + b + " " + c, ' ') == [a, b, c]
  {
    hide Split;
    SplitHead(a, b + " " + c, ' ');
    SplitHead(b, c, ' ');
    SplitNone(c, ' ');
    assert a + " " + b + " " + c == a + [' '] + (b + " " + c);
  }

  lemma ServerLineFits(ip: string, mask: string)
    requires AddressText(ip) && AddressText(mask)
    ensures Fits("server " + ip + " " + mask)
  {
    DigitsHaveNoSpace(ip);
    DigitsHaveNoSpace(mask);
    var line := "server " + ip + " " + mask;
    assert line == "server " + (ip + " " + mask);
    assert line[|line| - 1] == mask[|mask| - 1];
  }

  lemma DnsFits(server: string)
    requires '\n' !in server
    ensures Fits(DnsLine(server))
  {
    assert DnsLine(server) == "push \"dhcp-option DNS " + (server + "\"");
  }

  lemma DomainFits(domain: string)
    requires '\n' !in domain
    ensures Fits(DomainLine(domain))
  {
    assert DomainLine(domain) == "push \"dhcp-option DOMAIN-SEARCH " + (domain + "\"");
  }

  lemma HeadingFits()
    ensures Fits(HEADING)
  {
  }

  lemma ProtoFits(s: Settings)
    ensures Fits(ProtoLine(s))
  {
    assert "proto " <= ProtoLine(s);
  }

  lemma RouteModeFits(s: Settings)
    ensures Fits(RouteModeLine(s))
  {
    assert "# portal-route-mode " <= RouteModeLine(s);
  }

  lemma CompressionFits(s: Settings)
    ensures forall l :: l in CompressionLines(s) ==> Fits(l)
  {
    assert "compress " <= "compress lz4" && "comp-lzo" <= "comp-lzo yes";
  }

  lemma TunnelFits(s: Settings)
    ensures forall l :: l in TunnelLines(s) ==> Fits(l)
  {
    assert "push \"redirect-gateway " <= "push \"redirect-gateway def1 bypass-dhcp\"";
  }

  lemma ManagedLinesFit(s: Settings)
    requires ValidSettings(s)
    ensures forall l :: l in ManagedLines(s) ==> Fits(l)
  {
    hide Fits, ValidCidr, CidrToServerDirective, PortLine, ProtoLine, RouteModeLine, DnsLine, DomainLine, IsQuad, ValidDomain,
         CompressionLines, TunnelLines;
    HeadingFits();
    ProtoFits(s);
    RouteModeFits(s);
    CompressionFits(s);
    TunnelFits(s);
    PortFits(s);
    ServerFits(s.vpnNetwork);
    forall i | 0 <= i < |s.dnsServers| ensures Fits(DnsLines(s.dnsServers)[i]) {
      QuadIsAddressText(s.dnsServers[i]);
      DigitsHaveNoSpace(s.dnsServers[i]);
      DnsFits(s.dnsServers[i]);
    }
    var domains := Unique(s.searchDomains + s.internalDomains);
    forall i | 0 <= i < |domains| ensures Fits(DomainLines(domains)[i]) {
      assert domains[i] in s.searchDomains + s.internalDomains;
      DomainHasNoNewline(domains[i]);
      DomainFits(domains[i]);
    }
  }

  // Lines of a text -----------------------------------------------------------

  function Dropped(lines: seq<string>): (d: seq<string>)
    ensures |d| == |lines| && forall i :: 0 <= i < |lines| ==> d[i] == DropCr(lines[i])
  {
    seq(|lines|, i requires 0 <= i < |lines| => DropCr(lines[i]))
  }

  lemma LinesHead(head: string, tail: string)
    requires '\n' !in head
    ensures Lines(head + "\n" + tail) == [DropCr(head)] + Lines(tail)
  {
    var s := head + "\n" + tail;
    FindAt(s, '\n', |head|);
    assert s[..|head|] == head && s[|head| + 1..] == tail;
  }

  lemma {:induction false} LinesOfJoin(parts: seq<string>, tail: string)
    requires parts != [] && forall p :: p in parts ==> '\n' !in p
    ensures Lines(Join(parts, "\n") + "\n" + tail) == Dropped(parts) + Lines(tail)
  {
    hide Lines, DropCr;
    if |parts| == 1 {
      LinesHead(parts[0], tail);
    } else {
      var rest := Join(parts[1..], "\n");
      LinesOfJoin(parts[1..], tail);
      LinesHead(parts[0], rest + "\n" + tail);
      assert Join(parts, "\n") + "\n" + tail == parts[0] + "\n" + (rest + "\n" + tail);
      assert Dropped(parts) == [DropCr(parts[0])] + Dropped(parts[1..]);
    }
  }

  lemma LinesOfNothing()
    ensures Lines("") == [""]
  {
  }

  /** What the kept lines look like once written and read again. */
  function Settled(kept: seq<string>): seq<string> {
    if kept == [] then [] else Dropped(kept[..|kept| - 1]) + [TrimEnd(kept[|kept| - 1])]
  }

  /** The kept lines as they are written. */
  function Written(kept: seq<string>): seq<string> {
    if kept == [] then [] else kept[..|kept| - 1] + [TrimEnd(kept[|kept| - 1])]
  }

  lemma PreservedText(kept: seq<string>)
    requires kept != [] && !IsBlank(kept[|kept| - 1])
    ensures TrimEnd(Join(kept, "\n")) == Join(Written(kept), "\n")
    ensures Join(Written(kept), "\n") != ""
  {
    hide IsBlank;
    var init, last := kept[..|kept| - 1], kept[|kept| - 1];
    BlankIff(last);
    assert kept == init + [last];
    if init == [] {
      assert Join(kept, "\n") == last;
    } else {
      JoinAppend(init, last, "\n");
      JoinAppend(init, TrimEnd(last), "\n");
      TrimEndOfSum(Join(init, "\n") + "\n", last);
    }
  }

  lemma DroppedWritten(kept: seq<string>)
    ensures Dropped(Written(kept)) == Settled(kept)
  {
    if kept != [] {
      var t := TrimEnd(kept[|kept| - 1]);
      TrimEndShape(kept[|kept| - 1]);
      assert DropCr(t) == t;
    }
  }

  lemma WrittenHasNoNewline(kept: seq<string>)
    requires forall l :: l in kept ==> '\n' !in l
    ensures forall l :: l in Written(kept) ==> '\n' !in l
  {
    if kept != [] {
      var last := kept[|kept| - 1];
      assert last in kept;
      TrimEndShape(last);
      assert forall c :: c in TrimEnd(last) ==> c in last;
    }
  }

  lemma {:induction false} UnmanagedMeaning(lines: seq<string>)
    ensures forall l :: l in Unmanaged(lines) <==> l in lines && !IsManagedLine(Trim(l))
  {
    hide IsManagedLine, Trim;
    if lines != [] {
      UnmanagedMeaning(lines[1..]);
      assert lines == [lines[0]] + lines[1..];
    }
  }

  lemma KeptAreUnmanaged(config: string)
    ensures forall l :: l in Kept(config) ==> l in Lines(config) && !IsManagedLine(Trim(l))
  {
    hide IsManagedLine, Trim, IsBlank, Lines;
    UnmanagedMeaning(Lines(config));
  }

  lemma KeptHasNoNewline(config: string)
    ensures forall l :: l in Kept(config) ==> '\n' !in l
  {
    KeptAreUnmanaged(config);
    forall l | l in Kept(config) ensures '\n' !in l {
      assert l in Lines(config);
    }
  }

  lemma TextOfFitting(lines: seq<string>)
    requires lines != [] && forall l :: l in lines ==> Fits(l)
    ensures Lines(Join(lines, "\n") + "\n") == lines + [""]
  {
    hide IsManagedLine, Lines, Join, IsSpace;
    LinesOfNothing();
    forall i | 0 <= i < |lines| ensures '\n' !in lines[i] && DropCr(lines[i]) == lines[i] {
      assert Fits(lines[i]);
      CrIsSpace();
    }
    LinesOfJoin(lines, "");
    assert Join(lines, "\n") + "\n" + "" == Join(lines, "\n") + "\n";
    assert Dropped(lines) == lines;
  }

  lemma CrIsSpace()
    ensures IsSpace('\r')
  {
  }

  lemma ManagedText(s: Settings)
    requires ValidSettings(s)
    ensures Lines(Join(ManagedLines(s), "\n") + "\n") == ManagedLines(s) + [""]
  {
    ManagedLinesFit(s);
    hide Fits, ValidSettings, Lines, Join, CidrToServerDirective, PortLine, ProtoLine, RouteModeLine;
    TextOfFitting(ManagedLines(s));
  }

  /** Every line of an updated configuration: the kept lines, a blank line, the
      managed lines for the new settings. */
  lemma {:induction false} LinesOfApplied(config: string, s: Settings)
    requires ValidSettings(s)
    ensures Lines(Applied(config, s))
            == Settled(Kept(config)) + (if Kept(config) == [] then [] else [""]) + ManagedLines(s) + [""]
  {
    hide ValidSettings, ManagedLines, Lines, IsBlank, Kept, Settled, Written, Dropped;
    var kept := Kept(config);
    var m := Join(ManagedLines(s), "\n");
    ManagedText(s);
    if kept == [] {
      NothingKept();
      assert Settled([]) + [] + ManagedLines(s) + [""] == ManagedLines(s) + [""];
    } else {
      PreservedText(kept);
      KeptHasNoNewline(config);
      WrittenHasNoNewline(kept);
      var p := Join(Written(kept), "\n");
      WrittenIsSomething(kept);
      LinesOfJoin(Written(kept), "\n" + (m + "\n"));
      LinesHead("", m + "\n");
      DroppedWritten(kept);
      assert p + "\n\n" + m + "\n" == p + "\n" + ("\n" + (m + "\n"));
      assert "" + "\n" + (m + "\n") == "\n" + (m + "\n");
      assert DropCr("") == "";
      var st, ml := Settled(kept), ManagedLines(s);
      assert st + ([""] + (ml + [""])) == st + [""] + ml + [""];
    }
  }

  lemma NothingKept()
    ensures Settled([]) == [] && TrimEnd(Join([], "\n")) == ""
  {
  }

  lemma WrittenIsSomething(kept: seq<string>)
    requires kept != []
    ensures Written(kept) != []
  {
  }

  // Updating again ------------------------------------------------------------

  lemma {:induction false} UnmanagedOfSum(a: seq<string>, b: seq<string>)
    ensures Unmanaged(a + b) == Unmanaged(a) + Unmanaged(b)
  {
    hide IsManagedLine, Trim;
    if a == [] {
      assert a + b == b && [] + Unmanaged(b) == Unmanaged(b);
    } else {
      UnmanagedStep(a[0], a[1..] + b);
      UnmanagedStep(a[0], a[1..]);
      hide Unmanaged;
      assert a == [a[0]] + a[1..] && a + b == [a[0]] + (a[1..] + b);
      UnmanagedOfSum(a[1..], b);
      var head := if IsManagedLine(Trim(a[0])) then [] else [a[0]];
      var x, y := Unmanaged(a[1..]), Unmanaged(b);
      assert head + (x + y) == head + x + y;
    }
  }

  lemma UnmanagedStep(first: string, rest: seq<string>)
    ensures Unmanaged([first] + rest) == (if IsManagedLine(Trim(first)) then [] else [first]) + Unmanaged(rest)
  {
    hide IsManagedLine, Trim;
    assert ([first] + rest)[1..] == rest;
  }

  lemma {:induction false} UnmanagedOfKept(lines: seq<string>)
    requires forall l :: l in lines ==> !IsManagedLine(Trim(l))
    ensures Unmanaged(lines) == lines
  {
    if lines != [] {
      UnmanagedOfKept(lines[1..]);
    }
  }

  lemma {:induction false} UnmanagedOfManaged(lines: seq<string>)
    requires forall l :: l in lines ==> Fits(l)
    ensures Unmanaged(lines) == []
  {
    if lines != [] {
      assert Fits(lines[0]);
      TrimOfTrimmed(lines[0]);
      UnmanagedOfManaged(lines[1..]);
    }
  }

  lemma SettledIsUnmanaged(kept: seq<string>)
    requires forall l :: l in kept ==> !IsManagedLine(Trim(l))
    ensures forall l :: l in Settled(kept) ==> !IsManagedLine(Trim(l))
  {
    hide IsManagedLine, Trim, TrimEnd;
    forall l | l in Settled(kept) ensures !IsManagedLine(Trim(l)) {
      var i :| 0 <= i < |Settled(kept)| && Settled(kept)[i] == l;
      assert kept[i] in kept;
      if i < |kept| - 1 {
        TrimDropCr(kept[i]);
      } else {
        TrimTrimEnd(kept[i]);
      }
    }
  }

  lemma BlankTailDropped(lines: seq<string>)
    requires lines != [] ==> !IsBlank(lines[|lines| - 1])
    ensures DropBlankTail(lines) == lines
    ensures DropBlankTail(lines + [""]) == lines
    ensures DropBlankTail(lines + [""] + [""]) == lines
  {
    OneBlankDropped(lines);
    OneBlankDropped(lines + [""]);
  }

  lemma OneBlankDropped(lines: seq<string>)
    ensures DropBlankTail(lines + [""]) == DropBlankTail(lines)
  {
    assert IsBlank("");
    hide IsBlank;
    assert (lines + [""])[..|lines|] == lines;
  }

  lemma SettledEnds(kept: seq<string>)
    requires kept != [] ==> !IsBlank(kept[|kept| - 1])
    ensures Settled(kept) != [] ==> !IsBlank(Settled(kept)[|Settled(kept)| - 1])
    ensures Settled(kept) == [] <==> kept == []
  {
    if kept != [] {
      TrimTrimEnd(kept[|kept| - 1]);
    }
  }

  /** Unmanaged lines survive an update in order: no line is lost, added or moved;
      each loses at most one carriage return, and the last its trailing blanks. */
  lemma {:induction false} KeptOfApplied(config: string, s: Settings)
    requires ValidSettings(s)
    ensures Kept(Applied(config, s)) == Settled(Kept(config))
  {
    hide ValidSettings, ManagedLines, Lines, IsBlank, Settled, Applied, IsManagedLine, Fits, Kept, Trim, DropBlankTail, Unmanaged;
    var kept := Kept(config);
    ManagedLinesFit(s);
    LinesOfApplied(config, s);
    KeptAreUnmanaged(config);
    SettledIsUnmanaged(kept);
    SettledEnds(kept);
    UnmanagedOfLayout(Settled(kept), if kept == [] then [] else [""], ManagedLines(s));
    BlankTailDropped(Settled(kept));
    KeptIs(Applied(config, s));
    if kept == [] {
      assert Settled(kept) + [] + [""] == Settled(kept) + [""];
    }
  }

  lemma UnmanagedOfLayout(settled: seq<string>, gap: seq<string>, managed: seq<string>)
    requires forall l :: l in settled ==> !IsManagedLine(Trim(l))
    requires gap == [] || gap == [""]
    requires forall l :: l in managed ==> Fits(l)
    ensures Unmanaged(settled + gap + managed + [""]) == settled + gap + [""]
  {
    hide IsManagedLine, Fits, Trim, Unmanaged;
    UnmanagedOfSum(settled + gap + managed, [""]);
    UnmanagedOfSum(settled + gap, managed);
    UnmanagedOfSum(settled, gap);
    UnmanagedOfKept(settled);
    UnmanagedOfManaged(managed);
    BlankIsUnmanaged();
    assert settled + gap + [] + [""] == settled + gap + [""];
  }

  lemma KeptIs(config: string)
    ensures Kept(config) == DropBlankTail(Unmanaged(Lines(config)))
  {
  }

  lemma BlankIsUnmanaged()
    ensures Unmanaged([""]) == [""] && Unmanaged([]) == []
  {
    assert Trim("") == "";
  }

  predicate EndsWithCr(line: string) {
    line != [] && line[|line| - 1] == '\r'
  }

  /** No kept line but the last ends with a carriage return of its own. */
  predicate NoStrayCr(config: string) {
    forall i :: 0 <= i < |Kept(config)| - 1 ==> !EndsWithCr(Kept(config)[i])
  }

  lemma JoinIsInjective(a: seq<string>, b: seq<string>)
    requires a != [] && b != []
    requires (forall p :: p in a ==> '\n' !in p) && (forall p :: p in b ==> '\n' !in p)
    requires Join(a, "\n") == Join(b, "\n")
    ensures a == b
  {
    SplitOfJoin(a, '\n');
    SplitOfJoin(b, '\n');
  }

  /** The written lines are the same after a further update exactly without stray
      carriage returns. */
  lemma WrittenOfSettled(kept: seq<string>)
    ensures Written(Settled(kept)) == Settled(kept)
    ensures Settled(kept) == Written(kept) <==> forall i :: 0 <= i < |kept| - 1 ==> !EndsWithCr(kept[i])
  {
    if kept != [] {
      var n := |kept| - 1;
      TrimTrimEnd(kept[n]);
      assert Settled(kept)[..n] == Dropped(kept[..n]);
      assert forall i :: 0 <= i < n ==> Settled(kept)[i] == DropCr(kept[i]) && Written(kept)[i] == kept[i];
      assert forall i :: 0 <= i < n ==> (DropCr(kept[i]) == kept[i] <==> !EndsWithCr(kept[i]));
    }
  }

  function Preserved(config: string): string {
    TrimEnd(Join(Kept(config), "\n"))
  }

  lemma PreservedIsWritten(config: string)
    ensures Preserved(config) == Join(Written(Kept(config)), "\n")
    ensures Preserved(config) == "" <==> Kept(config) == []
  {
    hide IsBlank, TrimEnd, Written;
    if Kept(config) == [] {
      NothingKept();
      WrittenNothing();
    } else {
      PreservedText(Kept(config));
    }
  }

  lemma WrittenNothing()
    ensures Written([]) == []
  {
  }

  lemma AppliedSameIff(a: string, b: string, s: Settings)
    requires ValidSettings(s)
    ensures Applied(a, s) == Applied(b, s) <==> Preserved(a) == Preserved(b)
  {
    hide ValidSettings, ManagedLines, Kept, TrimEnd;
    var m := Join(ManagedLines(s), "\n") + "\n";
    var p, q := Preserved(a), Preserved(b);
    if Applied(a, s) == Applied(b, s) {
      if p != "" && q != "" {
        assert Applied(a, s) == p + "\n\n" + Join(ManagedLines(s), "\n") + "\n" == p + ("\n\n" + m);
        assert Applied(b, s) == q + "\n\n" + Join(ManagedLines(s), "\n") + "\n" == q + ("\n\n" + m);
        SameTail(p, q, "\n\n" + m);
      }
    }
  }

  lemma SameTail(p: string, q: string, t: string)
    requires p + t == q + t
    ensures p == q
  {
    assert |p| == |q|;
    assert (p + t)[..|p|] == p && (q + t)[..|p|] == q;
  }

  /** The last writer wins: the result of an update does not depend on an update
      before it, exactly when no kept line but the last ends with a carriage return. */
  lemma {:induction false} LastWriterWinsIff(config: string, s1: Settings, s2: Settings)
    requires ValidSettings(s1) && ValidSettings(s2)
    ensures Applied(Applied(config, s1), s2) == Applied(config, s2) <==> NoStrayCr(config)
  {
    hide ValidSettings, ManagedLines, Lines, IsBlank, Settled, Written, Applied, IsManagedLine, Kept, Preserved, EndsWithCr;
    var kept := Kept(config);
    var again := Applied(config, s1);
    KeptOfApplied(config, s1);
    AppliedSameIff(again, config, s2);
    PreservedIsWritten(config);
    PreservedIsWritten(again);
    WrittenOfSettled(kept);
    if Preserved(again) == Preserved(config) {
      KeptHasNoNewline(config);
      KeptHasNoNewline(again);
      WrittenHasNoNewline(kept);
      if kept != [] {
        SomethingKept(kept);
        JoinIsInjective(Settled(kept), Written(kept));
      }
    }
  }

  lemma SomethingKept(kept: seq<string>)
    requires kept != []
    ensures Written(kept) != [] && Settled(kept) != []
  {
  }

  predicate HasCrCrLf(config: string) {
    exists i :: 0 <= i < |config| - 2 && config[i] == '\r' && config[i + 1] == '\r' && config[i + 2] == '\n'
  }

  lemma StrayCrAtFirstBreak(config: string)
    requires '\n' in config && EndsWithCr(DropCr(config[..Find(config, '\n')]))
    ensures HasCrCrLf(config)
  {
    var i := Find(config, '\n');
    assert config[i - 2] == '\r' && config[i - 1] == '\r' && config[i] == '\n';
  }

  lemma HasCrCrLfFurtherOn(config: string, from: nat)
    requires from <= |config| && HasCrCrLf(config[from..])
    ensures HasCrCrLf(config)
  {
    var tail := config[from..];
    var k :| 0 <= k < |tail| - 2 && tail[k] == '\r' && tail[k + 1] == '\r' && tail[k + 2] == '\n';
    assert config[from + k] == '\r';
  }

  lemma {:induction false} StrayCrIsSeen(config: string, j: nat)
    requires j < |Lines(config)| - 1 && EndsWithCr(Lines(config)[j])
    ensures HasCrCrLf(config)
    decreases |config|
  {
    hide HasCrCrLf, EndsWithCr, DropCr;
    var i := Find(config, '\n');
    if j == 0 {
      StrayCrAtFirstBreak(config);
    } else {
      StrayCrIsSeen(config[i + 1..], j - 1);
      HasCrCrLfFurtherOn(config, i + 1);
    }
  }

  lemma {:induction false} UnmanagedIsBefore(lines: seq<string>, i: nat) returns (j: nat)
    requires i < |Unmanaged(lines)|
    ensures j < |lines| && lines[j] == Unmanaged(lines)[i]
    ensures i < |Unmanaged(lines)| - 1 ==> j < |lines| - 1
  {
    hide IsManagedLine, Trim;
    if IsManagedLine(Trim(lines[0])) {
      var k := UnmanagedIsBefore(lines[1..], i);
      j := k + 1;
    } else if i == 0 {
      j := 0;
      assert Unmanaged(lines) == [lines[0]] + Unmanaged(lines[1..]);
    } else {
      var k := UnmanagedIsBefore(lines[1..], i - 1);
      j := k + 1;
    }
  }

  /** Whatever the settings: it is enough that "\r\r\n" does not occur. */
  lemma {:induction false} WithoutCrCrLfLastWriterWins(config: string, s1: Settings, s2: Settings)
    requires ValidSettings(s1) && ValidSettings(s2) && !HasCrCrLf(config)
    ensures Applied(Applied(config, s1), s2) == Applied(config, s2)
  {
    hide ValidSettings, Applied, HasCrCrLf, EndsWithCr, IsManagedLine, Trim, IsBlank;
    forall i | 0 <= i < |Kept(config)| - 1 ensures !EndsWithCr(Kept(config)[i]) {
      if EndsWithCr(Kept(config)[i]) {
        assert Kept(config)[i] == Unmanaged(Lines(config))[i];
        var j := UnmanagedIsBefore(Lines(config), i);
        StrayCrIsSeen(config, j);
      }
    }
    LastWriterWinsIff(config, s1, s2);
  }

  /** A configuration with "\r\r\n" on which the last writer does not win. */
  lemma CrCrLfExample()
    ensures !NoStrayCr("a\r\r\nb")
  {
    hide Trim, TrimEnd, TrimStart, IsBlank;
    var config := "a\r\r\nb";
    var lines := ["a\r", "b"];
    assert config == "a\r\r" + "\n" + "b";
    LinesHead("a\r\r", "b");
    assert Lines("b") == ["b"];
    PlainExample();
    UnmanagedOfKept(lines);
    BlankTailDropped(lines);
    assert Kept(config) == lines;
  }

  lemma PlainExample()
    ensures !IsManagedLine(Trim("a\r")) && !IsManagedLine(Trim("b")) && !IsBlank("b")
    ensures DropCr("a\r\r") == "a\r"
  {
    TrimTail("a", '\r');
    assert "a" + ['\r'] == "a\r";
    TrimOfTrimmed("a");
    TrimOfTrimmed("b");
  }

  // Directives ----------------------------------------------------------------

  function Word(s: string): string {
    if s == [] || IsSpace(s[0]) then [] else [s[0]] + Word(s[1..])
  }

  /** The name of a directive: the first word of its line. */
  function FirstWord(line: string): string {
    Word(TrimStart(line))
  }

  lemma {:induction false} WordTail(m: string, c: char)
    requires IsSpace(c)
    ensures Word(m + [c]) == Word(m)
  {
    if m != [] && !IsSpace(m[0]) {
      WordTail(m[1..], c);
      assert (m + [c])[1..] == m[1..] + [c];
    }
  }

  lemma FirstWordTail(m: string, c: char)
    requires IsSpace(c)
    ensures FirstWord(m + [c]) == FirstWord(m)
  {
    TrimStartTail(m, c);
    WordTail(TrimStart(m), c);
  }

  lemma FirstWordDropCr(line: string)
    ensures FirstWord(DropCr(line)) == FirstWord(line)
  {
    if DropCr(line) != line {
      FirstWordTail(DropCr(line), '\r');
      assert line == DropCr(line) + ['\r'];
    }
  }

  lemma {:induction false} FirstWordTrimEnd(line: string)
    ensures FirstWord(TrimEnd(line)) == FirstWord(line)
  {
    hide FirstWord;
    if line != [] && IsSpace(line[|line| - 1]) {
      var m := line[..|line| - 1];
      FirstWordTrimEnd(m);
      FirstWordTail(m, line[|line| - 1]);
      assert line == m + [line[|line| - 1]];
    }
  }

  predicate NoSpaces(s: string) {
    forall i :: 0 <= i < |s| ==> !IsSpace(s[i])
  }

  lemma {:induction false} WordOf(p: string, c: char, rest: string)
    requires NoSpaces(p) && IsSpace(c)
    ensures Word(p + [c] + rest) == p
  {
    if p != [] {
      WordOf(p[1..], c, rest);
      assert (p + [c] + rest)[1..] == p[1..] + [c] + rest;
    }
  }

  lemma FirstWordOf(p: string, c: char, rest: string)
    requires p != [] && NoSpaces(p) && IsSpace(c)
    ensures FirstWord(p + [c] + rest) == p
  {
    WordOf(p, c, rest);
    assert TrimStart(p + [c] + rest) == p + [c] + rest;
  }

  lemma FirstWordBehind(line: string, p: string)
    requires p != [] && NoSpaces(p) && p + " " <= line
    ensures FirstWord(line) == p
  {
    FirstWordOf(p, ' ', line[|p| + 1..]);
    assert line == p + [' '] + line[|p| + 1..];
  }

  const DIRECTIVES: set<string> := {"port", "proto", "server"}

  function DirectiveLine(s: Settings, name: string): string
    requires ValidSettings(s) && name in DIRECTIVES
  {
    if name == "port" then PortLine(s) else if name == "proto" then ProtoLine(s) else CidrToServerDirective(s.vpnNetwork)
  }

  /** The lines with a given first word. */
  function Called(lines: seq<string>, name: string): (d: seq<string>) {
    if lines == [] then [] else (if FirstWord(lines[0]) == name then [lines[0]] else []) + Called(lines[1..], name)
  }

  lemma {:induction false} CalledMeaning(lines: seq<string>, name: string)
    ensures forall l :: l in Called(lines, name) <==> l in lines && FirstWord(l) == name
  {
    hide FirstWord;
    if lines != [] {
      CalledMeaning(lines[1..], name);
      assert lines == [lines[0]] + lines[1..];
    }
  }

  lemma {:induction false} CalledOfSum(a: seq<string>, b: seq<string>, name: string)
    ensures Called(a + b, name) == Called(a, name) + Called(b, name)
  {
    hide FirstWord;
    if a == [] {
      assert a + b == b;
    } else {
      CalledOfSum(a[1..], b, name);
      var head := if FirstWord(a[0]) == name then [a[0]] else [];
      var x, y := Called(a[1..], name), Called(b, name);
      assert (a + b)[1..] == a[1..] + b;
      assert head + (x + y) == head + x + y;
    }
  }

  lemma CalledNothing(lines: seq<string>, name: string)
    requires forall l :: l in lines ==> FirstWord(l) != name
    ensures Called(lines, name) == []
  {
    hide FirstWord;
    CalledMeaning(lines, name);
    if Called(lines, name) != [] {
      assert Called(lines, name)[0] in Called(lines, name);
    }
  }

  lemma HeadingWord()
    ensures FirstWord(HEADING) == "#"
  {
    hide FirstWord;
    FirstWordBehind(HEADING, "#");
  }

  lemma PortWord(s: Settings)
    requires s.port >= 0
    ensures FirstWord(PortLine(s)) == "port"
  {
    hide FirstWord, Decimal;
    FirstWordBehind(PortLine(s), "port");
  }

  lemma ProtoWord(s: Settings)
    ensures FirstWord(ProtoLine(s)) == "proto"
  {
    hide FirstWord, ProtocolText;
    FirstWordBehind(ProtoLine(s), "proto");
  }

  lemma ServerWord(cidr: string)
    requires ValidCidr(cidr)
    ensures FirstWord(CidrToServerDirective(cidr)) == "server"
  {
    hide FirstWord, QuadText, ValidCidr, CidrToServerDirective;
    DirectiveHasSameMask(cidr);
    FirstWordBehind(CidrToServerDirective(cidr), "server");
  }

  lemma PushWords(text: string)
    ensures FirstWord(DnsLine(text)) == "push" && FirstWord(DomainLine(text)) == "push"
  {
    hide FirstWord;
    FirstWordBehind(DnsLine(text), "push");
    FirstWordBehind(DomainLine(text), "push");
  }

  lemma CompressionWords(s: Settings)
    ensures forall l :: l in CompressionLines(s) ==> FirstWord(l) in {"compress", "comp-lzo"}
  {
    hide FirstWord;
    FirstWordBehind("compress lz4", "compress");
    FirstWordBehind("comp-lzo yes", "comp-lzo");
  }

  lemma TunnelWord(s: Settings)
    ensures forall l :: l in TunnelLines(s) ==> FirstWord(l) == "push"
  {
    hide FirstWord;
    FirstWordBehind("push \"redirect-gateway def1 bypass-dhcp\"", "push");
  }

  lemma RouteModeWord(s: Settings)
    ensures FirstWord(RouteModeLine(s)) == "#"
  {
    hide FirstWord;
    FirstWordBehind(RouteModeLine(s), "#");
  }

  function OtherLines(s: Settings): seq<string> {
    CompressionLines(s) + TunnelLines(s) + DnsLines(s.dnsServers)
    + DomainLines(Unique(s.searchDomains + s.internalDomains)) + [RouteModeLine(s)]
  }

  lemma OtherWords(s: Settings)
    ensures forall l :: l in OtherLines(s) ==> FirstWord(l) in {"compress", "comp-lzo", "push", "#"}
  {
    hide FirstWord, CompressionLines, TunnelLines, DnsLine, DomainLine, RouteModeLine, Unique;
    CompressionWords(s);
    TunnelWord(s);
    RouteModeWord(s);
    var domains := Unique(s.searchDomains + s.internalDomains);
    forall i | 0 <= i < |s.dnsServers| ensures FirstWord(DnsLines(s.dnsServers)[i]) == "push" {
      PushWords(s.dnsServers[i]);
    }
    forall i | 0 <= i < |domains| ensures FirstWord(DomainLines(domains)[i]) == "push" {
      PushWords(domains[i]);
    }
  }

  lemma CalledStep(first: string, rest: seq<string>, name: string)
    ensures Called([first] + rest, name) == (if FirstWord(first) == name then [first] else []) + Called(rest, name)
  {
    hide FirstWord;
    assert ([first] + rest)[1..] == rest;
  }

  /** The managed block has each directive once. */
  lemma ManagedDirective(s: Settings, name: string)
    requires ValidSettings(s) && name in DIRECTIVES
    ensures Called(ManagedLines(s), name) == [DirectiveLine(s, name)]
  {
    hide FirstWord, PortLine, ProtoLine, CidrToServerDirective, ValidCidr, OtherLines, Called, ManagedLines;
    HeadingWord();
    PortWord(s);
    ProtoWord(s);
    ServerWord(s.vpnNetwork);
    OtherWords(s);
    CalledNothing(OtherLines(s), name);
    ManagedParts(s);
    var r3 := [CidrToServerDirective(s.vpnNetwork)] + OtherLines(s);
    var r2 := [ProtoLine(s)] + r3;
    var r1 := [PortLine(s)] + r2;
    CalledStep(CidrToServerDirective(s.vpnNetwork), OtherLines(s), name);
    CalledStep(ProtoLine(s), r3, name);
    CalledStep(PortLine(s), r2, name);
    CalledStep(HEADING, r1, name);
  }

  lemma ManagedParts(s: Settings)
    requires ValidSettings(s)
    ensures ManagedLines(s)
            == [HEADING] + ([PortLine(s)] + ([ProtoLine(s)] + ([CidrToServerDirective(s.vpnNetwork)] + OtherLines(s))))
  {
    hide ValidCidr, IsQuad, ValidDomain, PortLine, ProtoLine, CidrToServerDirective, CompressionLines, TunnelLines,
         RouteModeLine, DnsLines, DomainLines, Unique;
    var h, p, t, v := HEADING, PortLine(s), ProtoLine(s), CidrToServerDirective(s.vpnNetwork);
    assert [h] + ([p] + ([t] + ([v] + OtherLines(s)))) == [h, p, t, v] + OtherLines(s);
  }

  lemma CalledInSettled(kept: seq<string>, name: string)
    ensures Called(Settled(kept), name) == [] <==> forall l :: l in kept ==> FirstWord(l) != name
  {
    hide FirstWord, TrimEnd;
    CalledMeaning(Settled(kept), name);
    forall i | 0 <= i < |kept| ensures FirstWord(Settled(kept)[i]) == FirstWord(kept[i]) {
      FirstWordDropCr(kept[i]);
      FirstWordTrimEnd(kept[i]);
    }
    if Called(Settled(kept), name) == [] {
      forall l | l in kept ensures FirstWord(l) != name {
        var i :| 0 <= i < |kept| && kept[i] == l;
        assert Settled(kept)[i] in Settled(kept);
      }
    } else {
      var l := Called(Settled(kept), name)[0];
      assert l in Called(Settled(kept), name);
      var i :| 0 <= i < |Settled(kept)| && Settled(kept)[i] == l;
      assert kept[i] in kept;
    }
  }

  lemma {:induction false} OnlyBlanksAreDropped(lines: seq<string>, l: string)
    requires l in lines && !IsBlank(l)
    ensures l in DropBlankTail(lines)
  {
    hide IsBlank;
    if IsBlank(lines[|lines| - 1]) {
      OnlyBlanksAreDropped(lines[..|lines| - 1], l);
    }
  }

  lemma BlankHasNoWord(line: string)
    requires IsBlank(line)
    ensures FirstWord(line) == []
  {
    TrimStartShape(line);
    TrimEndShape(TrimStart(line));
  }

  /** The kept lines with a given first word are the unmanaged ones. */
  lemma KeptDirectives(config: string, name: string)
    requires name != []
    ensures (forall l :: l in Kept(config) ==> FirstWord(l) != name)
            <==> forall l :: l in Lines(config) && FirstWord(l) == name ==> IsManagedLine(Trim(l))
  {
    hide IsManagedLine, Trim, FirstWord, IsBlank, Lines;
    KeptAreUnmanaged(config);
    UnmanagedMeaning(Lines(config));
    forall l | l in Lines(config) && FirstWord(l) == name && !IsManagedLine(Trim(l)) ensures l in Kept(config) {
      if IsBlank(l) {
        BlankHasNoWord(l);
      }
      OnlyBlanksAreDropped(Unmanaged(Lines(config)), l);
    }
  }

  /** After an update the configuration has exactly one port, proto and server
      directive, the one for the new settings, if and only if every such directive
      of the old configuration is recognised: its name is followed by a plain blank. */
  lemma {:induction false} ExactlyOneDirectiveIff(config: string, s: Settings, name: string)
    requires ValidSettings(s) && name in DIRECTIVES
    ensures Called(Lines(Applied(config, s)), name) == [DirectiveLine(s, name)]
            <==> forall l :: l in Lines(config) && FirstWord(l) == name ==> IsManagedLine(Trim(l))
  {
    hide ValidSettings, ManagedLines, Lines, Settled, Applied, IsManagedLine, Kept, Trim, FirstWord, DirectiveLine;
    var kept := Kept(config);
    var gap := if kept == [] then [] else [""];
    LinesOfApplied(config, s);
    CalledOfSum(Settled(kept) + gap + ManagedLines(s), [""], name);
    CalledOfSum(Settled(kept) + gap, ManagedLines(s), name);
    CalledOfSum(Settled(kept), gap, name);
    NoWordInBlank();
    CalledNothing(gap, name);
    CalledNothing([""], name);
    ManagedDirective(s, name);
    CalledInSettled(kept, name);
    KeptDirectives(config, name);
    var d := [DirectiveLine(s, name)];
    assert Called(Lines(Applied(config, s)), name) == Called(Settled(kept), name) + d;
    if Called(Settled(kept), name) + d == d {
      assert |Called(Settled(kept), name)| == 0;
    }
  }

  lemma NoWordInBlank()
    ensures FirstWord("") == []
  {
  }

  /** A directive whose name is followed by a tab is not recognised: it survives,
      next to the one for the new settings. */
  lemma {:induction false} TabDirectiveSurvives(s: Settings)
    requires ValidSettings(s)
    ensures Called(Lines(Applied("port\t1", s)), "port") != [DirectiveLine(s, "port")]
  {
    hide ValidSettings, Applied, DirectiveLine, FirstWord, IsManagedLine, Trim, Lines;
    var config := "port\t1";
    TabIsNotManaged();
    ExactlyOneDirectiveIff(config, s, "port");
    assert config in Lines(config);
  }

  lemma TabIsNotManaged()
    ensures Lines("port\t1") == ["port\t1"] && FirstWord("port\t1") == "port" && !IsManagedLine(Trim("port\t1"))
  {
    TabLine();
    TabWord();
    hide IsManagedLine, Trim, Lines, FirstWord;
    TabTrimmed();
    TabIsNoPrefix("port\t1");
  }

  lemma TabLine()
    ensures Lines("port\t1") == ["port\t1"]
  {
  }

  lemma TabWord()
    ensures FirstWord("port\t1") == "port"
  {
    FirstWordOf("port", '\t', "1");
    hide FirstWord;
    assert "port\t1" == "port" + ['\t'] + "1";
  }

  lemma TabTrimmed()
    ensures Trim("port\t1") == "port\t1"
  {
    TrimOfTrimmed("port\t1");
  }

  lemma TabIsNoPrefix(line: string)
    requires |line| == 6 && line[0] == 'p' && line[1] == 'o' && line[4] == '\t'
    ensures !IsManagedLine(line)
  {
  }
}
