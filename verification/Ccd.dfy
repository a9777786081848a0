/** The per-client OpenVPN configuration (CCD) of a user: printed by the generator,
    parsed back by the import. */
module Ccd {
  import opened Text
  import opened Words
  import opened Ipv4

  // Printing ----------------------------------------------------------------

  function RouteKey(r: Route): string {
    r.ip + "/" + r.mask
  }

  function RouteLine(r: Route): string {
    "push \"route " + r.ip + " " + r.mask + "\""
  }

  const DEFAULT_NETWORK: string := "10.8.0.0/24"

  /** An absent or empty static address prints no line. */
  predicate HasStatic(staticIp: Option<string>) {
    staticIp.Some? && staticIp.value != ""
  }

  function StaticLine(staticIp: string, vpnNetwork: string): string
    requires vpnNetwork == "" || ValidCidr(vpnNetwork)
  {
    DefaultIsValid();
    var networkCidr := if vpnNetwork == "" then DEFAULT_NETWORK else vpnNetwork;
    "ifconfig-push " + staticIp + " " + CidrToSubnetMask(networkCidr).mask
  }

  /** The static line gives the address with the mask of the VPN network, of
      10.8.0.0/24 if none is set: as many ones as its prefix is long. */
  lemma StaticLineMeaning(staticIp: string, vpnNetwork: string)
    requires vpnNetwork == "" || ValidCidr(vpnNetwork)
    ensures var line := StaticLine(staticIp, vpnNetwork);
            var start := "ifconfig-push " + staticIp + " ";
            var p := if vpnNetwork == "" then 24 else PrefixLength(vpnNetwork);
            start <= line && IsQuad(line[|start|..]) && Address(line[|start|..]) == Ones(p) + Zeros(32 - p)
  {
    hide ValidCidr, PrefixLength, QuadText, Address, IsQuad, MaskWord, Network, Zeros, Ones;
    DefaultIsValid();
    DefaultPrefix();
    var network := if vpnNetwork == "" then DEFAULT_NETWORK else vpnNetwork;
    var p := PrefixLength(network);
    AddressOfQuadText(MaskWord(p));
    MaskShape(p);
    var start := "ifconfig-push " + staticIp + " ";
    assert StaticLine(staticIp, vpnNetwork) == start + QuadText(MaskWord(p));
  }

  lemma DefaultPrefix()
    ensures ValidCidr(DEFAULT_NETWORK) && PrefixLength(DEFAULT_NETWORK) == 24
  {
    DefaultIsValid();
    hide ValidCidr, Split;
    SplitHead("10.8.0.0", "24", '/');
    SplitNone("24", '/');
    assert DEFAULT_NETWORK == "10.8.0.0" + ['/'] + "24";
    assert Reading("2") == 2 && Reading("24") == 24;
  }

  lemma DefaultIsValid()
    ensures ValidCidr(DEFAULT_NETWORK)
  {
    DefaultNumbers();
    hide ShortNumber, ValidCidr;
    ValidFromParts("10", "8", "0", "0", "24");
    assert DEFAULT_NETWORK == "10" + "." + ("8" + "." + ("0" + "." + "0")) + "/" + "24";
  }

  lemma DefaultNumbers()
    ensures ShortNumber("10", 3, 256) && ShortNumber("8", 3, 256) && ShortNumber("0", 3, 256) && ShortNumber("24", 2, 33)
  {
    assert Reading("1") == 1 && Reading("10") == 10 && Reading("2") == 2 && Reading("24") == 24;
    assert Reading("8") == 8 && Reading("0") == 0;
  }

  function KeySet(routes: seq<Route>): set<string> {
    set r | r in routes :: RouteKey(r)
  }

  lemma NoKeys()
    ensures KeySet([]) == {}
  {
  }

  lemma KeySetAppend(routes: seq<Route>, r: Route)
    ensures KeySet(routes + [r]) == KeySet(routes) + {RouteKey(r)}
  {
    assert r in routes + [r];
    forall x | x in routes ensures x in routes + [r] {
    }
  }

  /** The routes without repeats of ip/mask, in order of first occurrence. */
  function Distinct(routes: seq<Route>): seq<Route> {
    if routes == [] then []
    else
      var before := Distinct(routes[..|routes| - 1]);
      var r := routes[|routes| - 1];
      if RouteKey(r) in KeySet(before) then before else before + [r]
  }

  function CcdLines(routes: seq<Route>, staticIp: Option<string>, vpnNetwork: string): seq<string>
    requires vpnNetwork == "" || ValidCidr(vpnNetwork)
  {
    (if HasStatic(staticIp) then [StaticLine(staticIp.value, vpnNetwork)] else []) + RouteLines(Distinct(routes))
  }

  /** The lines of a CCD: the static one exactly for an address that is not empty, then
      one for each distinct route, in order. */
  lemma CcdLinesMeaning(routes: seq<Route>, staticIp: Option<string>, vpnNetwork: string, k: nat)
    requires vpnNetwork == "" || ValidCidr(vpnNetwork)
    ensures var lines := CcdLines(routes, staticIp, vpnNetwork);
            var first := if staticIp.Some? && |staticIp.value| > 0 then 1 else 0;
            && |lines| == first + |Distinct(routes)|
            && (first == 1 ==> lines[0] == StaticLine(staticIp.value, vpnNetwork))
            && (k < |Distinct(routes)| ==>
                  lines[first + k] == "push \"route " + Distinct(routes)[k].ip + " " + Distinct(routes)[k].mask + "\"")
  {
    hide ValidCidr, StaticLine, Distinct;
  }

  function RouteLines(routes: seq<Route>): (lines: seq<string>)
    ensures |lines| == |routes| && forall i :: 0 <= i < |routes| ==> lines[i] == RouteLine(routes[i])
  {
    seq(|routes|, i requires 0 <= i < |routes| => RouteLine(routes[i]))
  }

  function CcdContent(routes: seq<Route>, staticIp: Option<string>, vpnNetwork: string): string
    requires vpnNetwork == "" || ValidCidr(vpnNetwork)
  {
    Join(CcdLines(routes, staticIp, vpnNetwork), "\n")
  }

  method GenerateCcdContent(routes: seq<Route>, staticIp: Option<string>, vpnNetwork: string) returns (content: string)
    requires vpnNetwork == "" || ValidCidr(vpnNetwork)
    ensures content == CcdContent(routes, staticIp, vpnNetwork)
  {
    hide StaticLine, RouteLine, RouteKey, ValidCidr, Join, KeySet;
    var lines: seq<string> := [];
    if HasStatic(staticIp) {
      lines := lines + [StaticLine(staticIp.value, vpnNetwork)];
    }
    var seen: set<string> := {};
    var unique: seq<Route> := [];
    NoKeys();
    for i := 0 to |routes|
      invariant unique == Distinct(routes[..i])
      invariant seen == KeySet(unique)
    {
      assert routes[..i + 1][..i] == routes[..i];
      var key := RouteKey(routes[i]);
      KeySetAppend(unique, routes[i]);
      if key !in seen {
        seen := seen + {key};
        unique := unique + [routes[i]];
      }
    }
    assert routes[..|routes|] == routes;
    ghost var header := lines;
    for i := 0 to |unique|
      invariant lines == header + RouteLines(unique[..i])
    {
      lines := lines + [RouteLine(unique[i])];
      assert RouteLines(unique[..i + 1]) == RouteLines(unique[..i]) + [RouteLine(unique[i])];
    }
    assert unique[..|unique|] == unique;
    assert lines == CcdLines(routes, staticIp, vpnNetwork);
    content := Join(lines, "\n");
  }

  /** What Distinct keeps: every key once, from the first route that has it. */
  lemma {:induction false} DistinctMeaning(routes: seq<Route>)
    ensures forall r :: r in Distinct(routes) ==> r in routes
    ensures KeySet(Distinct(routes)) == KeySet(routes)
    ensures KeysDiffer(Distinct(routes))
  {
    if routes != [] {
      var before, r := routes[..|routes| - 1], routes[|routes| - 1];
      DistinctMeaning(before);
      assert routes == before + [r];
      KeySetAppend(before, r);
      KeySetAppend(Distinct(before), r);
    }
  }

  ghost predicate KeysDiffer(routes: seq<Route>) {
    forall i, j :: 0 <= i < j < |routes| ==> RouteKey(routes[i]) != RouteKey(routes[j])
  }

  // Parsing -----------------------------------------------------------------

  predicate IsAddressChar(c: char) {
    IsDigit(c) || c == '.'
  }

  /** A nonempty text of digits and dots. */
  predicate AddressText(s: string) {
    s != [] && forall i :: 0 <= i < |s| ==> IsAddressChar(s[i])
  }

  /** The text behind a required run of white space. */
  function AfterSpace(s: string): Option<string> {
    if s == [] || !IsSpace(s[0]) then None else Some(TrimStart(s))
  }

  /** How many digits and dots a text starts with. */
  function AddressRun(s: string): (n: nat)
    ensures n <= |s|
    ensures forall i :: 0 <= i < n ==> IsAddressChar(s[i])
    ensures n < |s| ==> !IsAddressChar(s[n])
  {
    if s == [] || !IsAddressChar(s[0]) then 0 else 1 + AddressRun(s[1..])
  }

  /** The line expression: push, space, "route, space, digits and dots, space,
      digits and dots, ". No run can be cut short, so the match is unique. */
  function MatchRoute(line: string): Option<Route> {
    if !("push" <= line) then None
    else match AfterSpace(line[4..])
         case None => None
         case Some(s1) =>
           if !("\"route" <= s1) then None
           else match AfterSpace(s1[6..])
                case None => None
                case Some(s2) => MatchAddresses(s2)
  }

  /** Digits and dots, space, digits and dots, ". */
  function MatchAddresses(s2: string): Option<Route> {
    var n := AddressRun(s2);
    if n == 0 then None
    else match AfterSpace(s2[n..])
         case None => None
         case Some(s3) =>
           var m := AddressRun(s3);
           if m > 0 && s3[m..] == "\"" then Some(Route(s2[..n], s3[..m])) else None
  }

  /** The routes in a CCD text, line by line. */
  function RoutesIn(lines: seq<string>): seq<Route> {
    if lines == [] then []
    else
      var m := MatchRoute(Trim(lines[|lines| - 1]));
      RoutesIn(lines[..|lines| - 1]) + if m.Some? then [m.value] else []
  }

  function Keys(routes: seq<Route>): (keys: seq<string>)
    ensures |keys| == |routes| && forall i :: 0 <= i < |routes| ==> keys[i] == RouteKey(routes[i])
  {
    seq(|routes|, i requires 0 <= i < |routes| => RouteKey(routes[i]))
  }

  method ParseCcdRoutes(content: string) returns (routes: seq<string>)
    ensures routes == Keys(RoutesIn(Split(content, '\n')))
  {
    hide MatchRoute, RouteKey, Trim, Split;
    routes := [];
    var lines := Split(content, '\n');
    for i := 0 to |lines|
      invariant routes == Keys(RoutesIn(lines[..i]))
    {
      assert lines[..i + 1][..i] == lines[..i];
      var matched := MatchRoute(Trim(lines[i]));
      if matched.Some? {
        routes := routes + [RouteKey(matched.value)];
        assert RoutesIn(lines[..i + 1]) == RoutesIn(lines[..i]) + [matched.value];
      }
    }
    assert lines[..|lines|] == lines;
  }

  // Printer and parser ------------------------------------------------------

  lemma AddressRunAt(s: string, c: char, rest: string)
    requires AddressText(s) && !IsAddressChar(c)
    ensures AddressRun(s + [c] + rest) == |s|
  {
    var t := s + [c] + rest;
    assert t[|s|] == c;
    assert forall i :: 0 <= i < |s| ==> t[i] == s[i];
  }

  lemma SpaceBefore(s: string)
    requires s != [] && !IsSpace(s[0])
    ensures AfterSpace(" " + s) == Some(s)
  {
    assert (" " + s)[0] == ' ' && IsSpace(' ');
    assert (" " + s)[1..] == s;
    assert TrimStart(s) == s;
  }

  lemma AddressesMatch(r: Route)
    requires AddressText(r.ip) && AddressText(r.mask)
    ensures MatchAddresses(r.ip + " " + r.mask + "\"") == Some(r)
  {
    var s3 := r.mask + "\"";
    var s2 := r.ip + " " + r.mask + "\"";
    assert s2 == r.ip + [' '] + s3;
    AddressRunAt(r.ip, ' ', s3);
    assert s2[|r.ip|..] == " " + s3 && s2[..|r.ip|] == r.ip;
    assert IsAddressChar(r.mask[0]);
    SpaceBefore(s3);
    assert s3 == r.mask + ['"'] + "";
    AddressRunAt(r.mask, '"', "");
    assert s3[|r.mask|..] == "\"" && s3[..|r.mask|] == r.mask;
  }

  lemma StartsWith(p: string, rest: string)
    ensures p <= p + rest && (p + rest)[|p|..] == rest
  {
  }

  /** A printed route line is matched with its own parts. */
  lemma RouteLineMatches(r: Route)
    requires AddressText(r.ip) && AddressText(r.mask)
    ensures MatchRoute(RouteLine(r)) == Some(r)
  {
    hide AfterSpace, MatchAddresses;
    var line := RouteLine(r);
    var s2 := r.ip + " " + r.mask + "\"";
    var s1 := "\"route " + s2;
    AddressesMatch(r);
    assert IsAddressChar(r.ip[0]);
    SpaceBefore(s2);
    SpaceBefore(s1);
    StartsWith("push", " " + s1);
    StartsWith("\"route", " " + s2);
    assert line == "push" + (" " + s1);
    assert s1 == "\"route" + (" " + s2);
  }

  predicate SpaceRun(w: string) {
    w != "" && forall i :: 0 <= i < |w| ==> IsSpace(w[i])
  }

  /** push, white space, "route, white space, digits and dots, white space, digits and
      dots, and a closing quote. */
  ghost predicate RouteText(line: string, w1: string, w2: string, w3: string, r: Route) {
    && SpaceRun(w1) && SpaceRun(w2) && SpaceRun(w3) && AddressText(r.ip) && AddressText(r.mask)
    && line == "push" + w1 + "\"route" + w2 + r.ip + w3 + r.mask + "\""
  }

  lemma AfterSpaceGives(s: string) returns (w: string)
    requires AfterSpace(s).Some?
    ensures SpaceRun(w) && s == w + AfterSpace(s).value
  {
    TrimStartShape(s);
    w := s[..|s| - |TrimStart(s)|];
  }

  lemma {:induction false} AfterSpaceOf(w: string, t: string)
    requires SpaceRun(w) && t != "" && !IsSpace(t[0])
    ensures AfterSpace(w + t) == Some(t)
  {
    assert (w + t)[0] == w[0] && (w + t)[1..] == w[1..] + t;
    if |w| == 1 {
      assert w[1..] + t == t;
      assert TrimStart(t) == t;
    } else {
      AfterSpaceOf(w[1..], t);
    }
  }

  lemma MatchAddressesGives(s: string) returns (w: string)
    requires MatchAddresses(s).Some?
    ensures var r := MatchAddresses(s).value;
            SpaceRun(w) && AddressText(r.ip) && AddressText(r.mask) && s == r.ip + w + r.mask + "\""
  {
    hide AfterSpace;
    var n := AddressRun(s);
    w := AfterSpaceGives(s[n..]);
    var s3 := AfterSpace(s[n..]).value;
    var m := AddressRun(s3);
    assert s == s[..n] + (w + s3) && s3 == s3[..m] + s3[m..];
  }

  lemma AddressesMatchText(w: string, r: Route)
    requires SpaceRun(w) && AddressText(r.ip) && AddressText(r.mask)
    ensures MatchAddresses(r.ip + w + r.mask + "\"") == Some(r)
  {
    hide AfterSpace;
    var s3 := r.mask + "\"";
    var s2 := r.ip + w + r.mask + "\"";
    assert s2 == r.ip + [w[0]] + (w[1..] + s3);
    AddressRunAt(r.ip, w[0], w[1..] + s3);
    assert s2[|r.ip|..] == w + s3 && s2[..|r.ip|] == r.ip;
    assert IsAddressChar(r.mask[0]);
    AfterSpaceOf(w, s3);
    assert s3 == r.mask + ['"'] + "";
    AddressRunAt(r.mask, '"', "");
    assert s3[|r.mask|..] == "\"" && s3[..|r.mask|] == r.mask;
  }

  lemma {:induction false} RouteTextMatches(line: string, w1: string, w2: string, w3: string, r: Route)
    requires RouteText(line, w1, w2, w3, r)
    ensures MatchRoute(line) == Some(r)
  {
    hide AfterSpace, MatchAddresses, SpaceRun;
    var s2 := r.ip + w3 + r.mask + "\"";
    var s1 := "\"route" + w2 + s2;
    AddressesMatchText(w3, r);
    assert IsAddressChar(r.ip[0]);
    AfterSpaceOf(w2, s2);
    AfterSpaceOf(w1, s1);
    StartsWith("push", w1 + s1);
    StartsWith("\"route", w2 + s2);
    assert line == "push" + (w1 + s1);
    assert s1 == "\"route" + (w2 + s2);
  }

  /** A line matches with just this route exactly when it is spelled like this. */
  lemma {:induction false} MatchRouteIff(line: string, r: Route)
    ensures MatchRoute(line) == Some(r) <==> exists w1, w2, w3 :: RouteText(line, w1, w2, w3, r)
  {
    hide AfterSpace, MatchAddresses, SpaceRun;
    if w1, w2, w3 :| RouteText(line, w1, w2, w3, r) {
      RouteTextMatches(line, w1, w2, w3, r);
    }
    if MatchRoute(line) == Some(r) {
      MatchRouteGives(line, r);
    }
  }

  lemma MatchRouteGives(line: string, r: Route)
    requires MatchRoute(line) == Some(r)
    ensures exists w1, w2, w3 :: RouteText(line, w1, w2, w3, r)
  {
    hide AfterSpace, MatchAddresses, SpaceRun, AddressText;
    var w1 := AfterSpaceGives(line[4..]);
    var s1 := AfterSpace(line[4..]).value;
    var w2 := AfterSpaceGives(s1[6..]);
    var s2 := AfterSpace(s1[6..]).value;
    var w3 := MatchAddressesGives(s2);
    assert line == "push" + line[4..] && s1 == "\"route" + s1[6..];
    assert line == "push" + w1 + "\"route" + w2 + r.ip + w3 + r.mask + "\"";
    assert RouteText(line, w1, w2, w3, r);
  }

  lemma RouteLineIsTrimmed(r: Route)
    ensures Trim(RouteLine(r)) == RouteLine(r)
  {
    TrimOfTrimmed(RouteLine(r));
  }

  /** A line that starts with "i" is skipped, trimmed or not. */
  lemma StaticLineIsSkipped(line: string)
    requires line != [] && line[0] == 'i'
    ensures MatchRoute(Trim(line)) == None
  {
    TrimEndShape(line);
    assert !IsSpace('i');
    if TrimEnd(line) != [] {
      assert TrimEnd(line)[0] == 'i';
    }
  }

  lemma {:induction false} RoutesInRouteLines(header: seq<string>, routes: seq<Route>)
    requires RoutesIn(header) == []
    requires forall i :: 0 <= i < |routes| ==> AddressText(routes[i].ip) && AddressText(routes[i].mask)
    ensures RoutesIn(header + RouteLines(routes)) == routes
  {
    hide MatchRoute, RouteLine, Trim, AddressText;
    if routes == [] {
      assert header + RouteLines(routes) == header;
    } else {
      var n := |routes| - 1;
      var lines := header + RouteLines(routes);
      assert lines[..|lines| - 1] == header + RouteLines(routes[..n]);
      RoutesInRouteLines(header, routes[..n]);
      RouteLineMatches(routes[n]);
      RouteLineIsTrimmed(routes[n]);
      assert lines[|lines| - 1] == RouteLine(routes[n]);
    }
  }

  lemma NoNewlineInAddress(s: string)
    requires AddressText(s)
    ensures '\n' !in s
  {
    forall i | 0 <= i < |s| ensures s[i] != '\n' {
      assert IsAddressChar(s[i]);
    }
  }

  predicate Plain(routes: seq<Route>, staticIp: Option<string>) {
    && (forall i :: 0 <= i < |routes| ==> AddressText(routes[i].ip) && AddressText(routes[i].mask))
    && (HasStatic(staticIp) ==> AddressText(staticIp.value))
  }

  lemma RouteLineHasNoNewline(r: Route)
    requires AddressText(r.ip) && AddressText(r.mask)
    ensures '\n' !in RouteLine(r)
  {
    NoNewlineInAddress(r.ip);
    NoNewlineInAddress(r.mask);
  }

  lemma LinesHaveNoNewline(routes: seq<Route>, staticIp: Option<string>, vpnNetwork: string)
    requires vpnNetwork == "" || ValidCidr(vpnNetwork)
    requires Plain(routes, staticIp)
    ensures forall l :: l in CcdLines(routes, staticIp, vpnNetwork) ==> '\n' !in l
  {
    DistinctMeaning(routes);
    var unique := Distinct(routes);
    hide RouteLine, StaticLine, Distinct, AddressText, ValidCidr;
    forall i | 0 <= i < |unique| ensures '\n' !in RouteLine(unique[i]) {
      assert unique[i] in routes;
      RouteLineHasNoNewline(unique[i]);
    }
    if HasStatic(staticIp) {
      NoNewlineInAddress(staticIp.value);
      StaticLineHasNoNewline(staticIp.value, vpnNetwork);
    }
  }

  lemma StaticLineHasNoNewline(staticIp: string, vpnNetwork: string)
    requires vpnNetwork == "" || ValidCidr(vpnNetwork)
    requires '\n' !in staticIp
    ensures '\n' !in StaticLine(staticIp, vpnNetwork)
  {
    DefaultIsValid();
    hide ValidCidr, PrefixLength, QuadText, AddressText, Network, MaskWord;
    var cidr := if vpnNetwork == "" then DEFAULT_NETWORK else vpnNetwork;
    QuadTextIsAddressText(MaskWord(PrefixLength(cidr)));
    NoNewlineInAddress(CidrToSubnetMask(cidr).mask);
  }

  lemma QuadTextIsAddressText(w: Word)
    ensures AddressText(QuadText(w))
  {
    hide Decimal, ByteAt;
    var a, b, c, d := Decimal(ByteAt(w, 24)), Decimal(ByteAt(w, 16)), Decimal(ByteAt(w, 8)), Decimal(ByteAt(w, 0));
    JoinOfFour(a, b, c, d, ".");
  }

  /** Parsing what was printed gives the distinct routes, in order of first
      occurrence; the static line is skipped. */
  lemma {:induction false} ParseOfGenerated(routes: seq<Route>, staticIp: Option<string>, vpnNetwork: string)
    requires vpnNetwork == "" || ValidCidr(vpnNetwork)
    requires Plain(routes, staticIp)
    ensures RoutesIn(Split(CcdContent(routes, staticIp, vpnNetwork), '\n')) == Distinct(routes)
  {
    hide StaticLine, RouteLine, AddressText, ValidCidr, Distinct, MatchRoute, Trim;
    var lines := CcdLines(routes, staticIp, vpnNetwork);
    var header := if HasStatic(staticIp) then [StaticLine(staticIp.value, vpnNetwork)] else [];
    DistinctMeaning(routes);
    if HasStatic(staticIp) {
      StaticStartsWithI(staticIp.value, vpnNetwork);
      StaticLineIsSkipped(header[0]);
      assert header[..0] == [];
    }
    forall i | 0 <= i < |Distinct(routes)|
      ensures AddressText(Distinct(routes)[i].ip) && AddressText(Distinct(routes)[i].mask)
    {
      assert Distinct(routes)[i] in routes;
    }
    RoutesInRouteLines(header, Distinct(routes));
    if lines == [] {
      NoRoutesInEmptyText();
    } else {
      LinesHaveNoNewline(routes, staticIp, vpnNetwork);
      SplitOfJoin(lines, '\n');
    }
  }

  lemma NoRoutesInEmptyText()
    ensures RoutesIn(Split("", '\n')) == []
  {
    SplitNone("", '\n');
    assert [""][..0] == [] && Trim("") == "";
  }

  lemma StaticStartsWithI(staticIp: string, vpnNetwork: string)
    requires vpnNetwork == "" || ValidCidr(vpnNetwork)
    ensures StaticLine(staticIp, vpnNetwork) != [] && StaticLine(staticIp, vpnNetwork)[0] == 'i'
  {
  }

  // The CCD of a user -------------------------------------------------------

  datatype Group = Group(cidrBlocks: seq<string>)

  datatype Grant = Grant(isActive: bool, expiresAt: int, group: Group)

  datatype User = User(staticIp: Option<string>, vpnNetwork: string, groups: seq<Group>, grants: seq<Grant>)

  predicate Live(g: Grant, now: int) {
    g.isActive && g.expiresAt > now
  }

  /** The blocks of the permanent groups, then those of the live grants. */
  function BlocksOf(groups: seq<Group>): seq<string> {
    if groups == [] then [] else BlocksOf(groups[..|groups| - 1]) + groups[|groups| - 1].cidrBlocks
  }

  lemma BlocksOfAppend(groups: seq<Group>, g: Group)
    ensures BlocksOf(groups + [g]) == BlocksOf(groups) + g.cidrBlocks
  {
    assert (groups + [g])[..|groups|] == groups;
  }

  function LiveGroups(grants: seq<Grant>, now: int): seq<Group> {
    if grants == [] then []
    else
      var g := grants[|grants| - 1];
      LiveGroups(grants[..|grants| - 1], now) + if Live(g, now) then [g.group] else []
  }

  function Blocks(u: User, now: int): seq<string> {
    BlocksOf(u.groups) + BlocksOf(LiveGroups(u.grants, now))
  }

  predicate AllValid(blocks: seq<string>) {
    forall i :: 0 <= i < |blocks| ==> ValidCidr(blocks[i])
  }

  function RoutesOf(blocks: seq<string>): (routes: seq<Route>)
    requires AllValid(blocks)
    ensures |routes| == |blocks| && forall i :: 0 <= i < |blocks| ==> routes[i] == CidrToSubnetMask(blocks[i])
  {
    seq(|blocks|, i requires 0 <= i < |blocks| => CidrToSubnetMask(blocks[i]))
  }

  predicate ValidUser(u: User, now: int) {
    (u.vpnNetwork == "" || ValidCidr(u.vpnNetwork)) && AllValid(Blocks(u, now))
  }

  function CcdFor(u: User, now: int): string
    requires ValidUser(u, now)
  {
    CcdContent(RoutesOf(Blocks(u, now)), u.staticIp, u.vpnNetwork)
  }

  method GenerateCcdForUser(u: User, now: int) returns (content: string)
    requires ValidUser(u, now)
    ensures content == CcdFor(u, now)
  {
    hide ValidCidr, CidrToSubnetMask, CcdContent, BlocksOf, LiveGroups;
    var blocks := GroupBlocks(u.groups);
    var grantBlocks := GrantBlocks(u.grants, now);
    blocks := blocks + grantBlocks;
    var routes := [];
    for i := 0 to |blocks|
      invariant AllValid(blocks[..i]) && routes == RoutesOf(blocks[..i])
    {
      routes := routes + [CidrToSubnetMask(blocks[i])];
    }
    assert blocks[..|blocks|] == blocks;
    content := GenerateCcdContent(routes, u.staticIp, u.vpnNetwork);
  }

  method GroupBlocks(groups: seq<Group>) returns (blocks: seq<string>)
    ensures blocks == BlocksOf(groups)
  {
    blocks := [];
    for i := 0 to |groups|
      invariant blocks == BlocksOf(groups[..i])
    {
      assert groups[..i + 1][..i] == groups[..i];
      blocks := blocks + groups[i].cidrBlocks;
    }
    assert groups[..|groups|] == groups;
  }

  method GrantBlocks(grants: seq<Grant>, now: int) returns (blocks: seq<string>)
    ensures blocks == BlocksOf(LiveGroups(grants, now))
  {
    blocks := [];
    for i := 0 to |grants|
      invariant blocks == BlocksOf(LiveGroups(grants[..i], now))
    {
      assert grants[..i + 1][..i] == grants[..i];
      var before := LiveGroups(grants[..i], now);
      BlocksOfAppend(before, grants[i].group);
      assert before + [] == before;
      if Live(grants[i], now) {
        blocks := blocks + grants[i].group.cidrBlocks;
      }
    }
    assert grants[..|grants|] == grants;
  }

  // What it means -----------------------------------------------------------

  /** A CCD text covers an address when one of its routes does. */
  ghost predicate TextCovers(content: string, address: Word) {
    exists r :: r in RoutesIn(Split(content, '\n')) && Covers(r, address)
  }

  /** What the user is entitled to, without masks or texts. */
  ghost predicate Entitled(u: User, now: int, address: Word)
    requires ValidUser(u, now)
  {
    exists b :: Given(u, now, b) && ValidCidr(b) && InBlock(address, b)
  }

  /** A block of a permanent group, or of an active grant that has not yet expired. */
  ghost predicate Given(u: User, now: int, b: string) {
    || (exists g :: g in u.groups && b in g.cidrBlocks)
    || (exists g :: g in u.grants && g.isActive && now < g.expiresAt && b in g.group.cidrBlocks)
  }

  /** Blocks are those of the permanent groups and of the grants live at that time. */
  lemma BlocksMeaning(u: User, now: int, b: string)
    ensures b in Blocks(u, now) <==> Given(u, now, b)
  {
    BlocksOfMeaning(u.groups, b);
    BlocksOfMeaning(LiveGroups(u.grants, now), b);
    LiveGroupsMeaning(u.grants, now);
    if g :| g in u.grants && Live(g, now) && b in g.group.cidrBlocks {
      assert g.group in LiveGroups(u.grants, now);
    }
  }

  lemma {:induction false} BlocksOfMeaning(groups: seq<Group>, b: string)
    ensures b in BlocksOf(groups) <==> exists g :: g in groups && b in g.cidrBlocks
  {
    if groups != [] {
      BlocksOfMeaning(groups[..|groups| - 1], b);
      assert groups == groups[..|groups| - 1] + [groups[|groups| - 1]];
    }
  }

  lemma {:induction false} LiveGroupsMeaning(grants: seq<Grant>, now: int)
    ensures forall g :: g in grants && Live(g, now) ==> g.group in LiveGroups(grants, now)
    ensures forall x :: x in LiveGroups(grants, now) ==> exists g :: g in grants && Live(g, now) && g.group == x
  {
    if grants != [] {
      var init, last := grants[..|grants| - 1], grants[|grants| - 1];
      LiveGroupsMeaning(init, now);
      assert grants == init + [last];
      forall x | x in LiveGroups(grants, now) ensures exists g :: g in grants && Live(g, now) && g.group == x {
        if x in LiveGroups(init, now) {
          var g :| g in init && Live(g, now) && g.group == x;
          assert g in grants;
        } else {
          assert last in grants && last.group == x;
        }
      }
    }
  }

  lemma KeysDetermine(r: Route, s: Route)
    requires AddressText(r.ip) && AddressText(s.ip) && RouteKey(r) == RouteKey(s)
    ensures r == s
  {
    var k := RouteKey(r);
    assert k[|r.ip|] == '/' && k[|s.ip|] == '/';
    assert forall i :: 0 <= i < |r.ip| ==> k[i] == r.ip[i] && IsAddressChar(r.ip[i]);
    assert forall i :: 0 <= i < |s.ip| ==> k[i] == s.ip[i] && IsAddressChar(s.ip[i]);
    assert k[..|r.ip|] == r.ip && k[..|s.ip|] == s.ip;
    assert k[|r.ip| + 1..] == r.mask && k[|s.ip| + 1..] == s.mask;
  }

  lemma QuadIsAddressText(s: string)
    requires IsQuad(s)
    ensures AddressText(s)
  {
    JoinOfSplit(s, '.');
    var p := Split(s, '.');
    assert p == [p[0], p[1], p[2], p[3]];
    JoinOfFour(p[0], p[1], p[2], p[3], ".");
  }

  lemma BlockRoutesArePlain(blocks: seq<string>)
    requires AllValid(blocks)
    ensures forall i :: 0 <= i < |blocks| ==> AddressText(RoutesOf(blocks)[i].ip) && AddressText(RoutesOf(blocks)[i].mask)
  {
    hide AddressText, QuadText, ValidCidr, Network, PrefixLength, MaskWord, IsQuad;
    forall i | 0 <= i < |blocks|
      ensures AddressText(RoutesOf(blocks)[i].ip) && AddressText(RoutesOf(blocks)[i].mask)
    {
      QuadIsAddressText(Network(blocks[i]));
      QuadTextIsAddressText(MaskWord(PrefixLength(blocks[i])));
    }
  }

  /** Meaning is preserved through mask arithmetic, removal of repeats, printing and
      parsing: an address is covered by the user's CCD exactly when it shares the
      top p bits with some a.b.c.d/p of a permanent group or of a live grant. */
  lemma {:induction false} CcdMeansBlocks(u: User, now: int, address: Word)
    requires ValidUser(u, now) && (HasStatic(u.staticIp) ==> AddressText(u.staticIp.value))
    ensures TextCovers(CcdFor(u, now), address) <==> Entitled(u, now, address)
  {
    var blocks := Blocks(u, now);
    BlockRoutesArePlain(blocks);
    ParseOfGenerated(RoutesOf(blocks), u.staticIp, u.vpnNetwork);
    hide Covers, InBlock, CidrToSubnetMask, Blocks, ValidCidr, CcdContent, AddressText, RoutesIn, Distinct, RoutesOf;
    hide Given;
    RoutesMeanBlocks(blocks, address);
    forall b ensures b in blocks <==> Given(u, now, b) {
      BlocksMeaning(u, now, b);
    }
  }

  lemma RoutesMeanBlocks(blocks: seq<string>, address: Word)
    requires AllValid(blocks)
    ensures (exists r :: r in Distinct(RoutesOf(blocks)) && Covers(r, address))
            <==> (exists b :: b in blocks && ValidCidr(b) && InBlock(address, b))
  {
    hide Covers, InBlock, Distinct, RoutesOf, ValidCidr;
    if r :| r in Distinct(RoutesOf(blocks)) && Covers(r, address) {
      RouteHasBlock(blocks, r, address);
    }
    if b :| b in blocks && ValidCidr(b) && InBlock(address, b) {
      BlockHasRoute(blocks, b, address);
    }
  }

  lemma RouteHasBlock(blocks: seq<string>, r: Route, address: Word)
    requires AllValid(blocks) && r in Distinct(RoutesOf(blocks)) && Covers(r, address)
    ensures exists b :: b in blocks && ValidCidr(b) && InBlock(address, b)
  {
    hide Covers, InBlock, Distinct, CidrToSubnetMask, ValidCidr;
    var routes := RoutesOf(blocks);
    DistinctMeaning(routes);
    var i :| 0 <= i < |routes| && routes[i] == r;
    RouteCoversBlock(blocks[i], address);
    assert blocks[i] in blocks;
  }

  lemma BlockHasRoute(blocks: seq<string>, b: string, address: Word)
    requires AllValid(blocks) && b in blocks && ValidCidr(b) && InBlock(address, b)
    ensures exists r :: r in Distinct(RoutesOf(blocks)) && Covers(r, address)
  {
    hide Covers, InBlock, Distinct, CidrToSubnetMask, ValidCidr, AddressText;
    var routes := RoutesOf(blocks);
    BlockRoutesArePlain(blocks);
    var i :| 0 <= i < |blocks| && blocks[i] == b;
    RouteCoversBlock(b, address);
    DistinctKeeps(routes, i);
    assert Covers(routes[i], address);
  }

  /** Without two texts for one key, Distinct keeps every route. */
  lemma DistinctKeeps(routes: seq<Route>, i: nat)
    requires i < |routes| && forall k :: 0 <= k < |routes| ==> AddressText(routes[k].ip)
    ensures routes[i] in Distinct(routes)
  {
    DistinctMeaning(routes);
    assert RouteKey(routes[i]) in KeySet(routes);
    var r :| r in Distinct(routes) && RouteKey(r) == RouteKey(routes[i]);
    var j :| 0 <= j < |routes| && routes[j] == r;
    KeysDetermine(r, routes[i]);
  }
}
