/** Comparing CCD texts regardless of the order of their lines. */
module CcdComparison {
  import opened Text
  import opened Collections
  import opened Ipv4
  import opened Ccd

  // Sorting -----------------------------------------------------------------

  /** Character by character; a prefix comes first. */
  predicate Leq(a: string, b: string) {
    a == [] || (b != [] && (a[0] < b[0] || (a[0] == b[0] && Leq(a[1..], b[1..]))))
  }

  lemma {:induction false} LeqIsTotal(a: string, b: string)
    ensures Leq(a, b) || Leq(b, a)
  {
    if a != [] && b != [] && a[0] == b[0] {
      LeqIsTotal(a[1..], b[1..]);
    }
  }

  lemma {:induction false} LeqIsAntisymmetric(a: string, b: string)
    requires Leq(a, b) && Leq(b, a)
    ensures a == b
  {
    if a != [] && b != [] {
      LeqIsAntisymmetric(a[1..], b[1..]);
      assert a == [a[0]] + a[1..] && b == [b[0]] + b[1..];
    }
  }

  lemma {:induction false} LeqIsTransitive(a: string, b: string, c: string)
    requires Leq(a, b) && Leq(b, c)
    ensures Leq(a, c)
  {
    if a != [] && a[0] == b[0] && b[0] == c[0] {
      LeqIsTransitive(a[1..], b[1..], c[1..]);
    }
  }

  predicate Sorted(list: seq<string>) {
    forall i, j :: 0 <= i < j < |list| ==> Leq(list[i], list[j])
  }

  function Insert(x: string, list: seq<string>): seq<string> {
    if list == [] || Leq(x, list[0]) then [x] + list else [list[0]] + Insert(x, list[1..])
  }

  function Sort(list: seq<string>): seq<string> {
    if list == [] then [] else Insert(list[0], Sort(list[1..]))
  }

  lemma {:induction false} InsertMeaning(x: string, list: seq<string>)
    requires Sorted(list)
    ensures multiset(Insert(x, list)) == multiset(list) + multiset{x}
    ensures Sorted(Insert(x, list))
  {
    hide Leq;
    if list == [] {
    } else if Leq(x, list[0]) {
      forall j | 0 <= j < |list| ensures Leq(x, list[j]) {
        if j > 0 {
          LeqIsTransitive(x, list[0], list[j]);
        }
      }
    } else {
      LeqIsTotal(x, list[0]);
      InsertMeaning(x, list[1..]);
      assert list == [list[0]] + list[1..];
      var rest := Insert(x, list[1..]);
      forall j | 0 <= j < |rest| ensures Leq(list[0], rest[j]) {
        assert rest[j] in multiset(rest);
        if rest[j] != x {
          assert rest[j] in list[1..];
        }
      }
    }
  }

  lemma {:induction false} SortMeaning(list: seq<string>)
    ensures Sorted(Sort(list)) && multiset(Sort(list)) == multiset(list)
  {
    hide Sorted;
    if list == [] {
      NothingIsSorted();
    } else {
      SortMeaning(list[1..]);
      InsertMeaning(list[0], Sort(list[1..]));
      assert list == [list[0]] + list[1..];
    }
  }

  lemma NothingIsSorted()
    ensures Sorted([])
  {
  }

  lemma HeadIsLeast(list: seq<string>, x: string)
    requires Sorted(list) && x in list
    ensures Leq(list[0], x)
  {
    LeqIsTotal(x, x);
  }

  lemma SameHeads(a: seq<string>, b: seq<string>)
    requires Sorted(a) && Sorted(b) && multiset(a) == multiset(b) && a != []
    ensures b != [] && a[0] == b[0]
    ensures multiset(a[1..]) == multiset(b[1..])
  {
    hide Leq, Sorted;
    assert a[0] in multiset(b);
    assert b[0] in multiset(a);
    HeadIsLeast(a, b[0]);
    HeadIsLeast(b, a[0]);
    LeqIsAntisymmetric(a[0], b[0]);
    TailOf(a);
    TailOf(b);
  }

  lemma TailOf(a: seq<string>)
    requires a != []
    ensures multiset(a[1..]) == multiset(a) - multiset{a[0]}
  {
    assert a == [a[0]] + a[1..];
  }

  lemma TailIsSorted(a: seq<string>)
    requires Sorted(a) && a != []
    ensures Sorted(a[1..])
  {
    hide Leq;
  }

  /** There is one sorted order of given lines, however they came. */
  lemma {:induction false} SortedIsUnique(a: seq<string>, b: seq<string>)
    requires Sorted(a) && Sorted(b) && multiset(a) == multiset(b)
    ensures a == b
  {
    hide Leq, Sorted;
    if a == [] {
      assert |b| == |multiset(b)| == |multiset(a)| == 0;
    } else {
      SameHeads(a, b);
      TailIsSorted(a);
      TailIsSorted(b);
      SortedIsUnique(a[1..], b[1..]);
      assert a == [a[0]] + a[1..] && b == [b[0]] + b[1..];
    }
  }

  // The normal form ---------------------------------------------------------

  /** Every line trimmed, blank ones dropped. */
  function NonBlank(lines: seq<string>): seq<string> {
    if lines == [] then []
    else
      var t := Trim(lines[0]);
      (if |t| > 0 then [t] else []) + NonBlank(lines[1..])
  }

  function Significant(content: string): seq<string> {
    NonBlank(Split(content, '\n'))
  }

  function NormalizeCcd(content: string): string {
    Join(Sort(Significant(content)), "\n")
  }

  lemma TrimKeepsLine(l: string)
    requires '\n' !in l
    ensures '\n' !in Trim(l)
  {
    TrimStartShape(l);
    TrimEndShape(TrimStart(l));
  }

  lemma {:induction false} NonBlankHasNoNewline(lines: seq<string>)
    requires forall l :: l in lines ==> '\n' !in l
    ensures forall l :: l in NonBlank(lines) ==> '\n' !in l && l != ""
  {
    hide Trim;
    if lines != [] {
      TrimKeepsLine(lines[0]);
      NonBlankHasNoNewline(lines[1..]);
    }
  }

  lemma SortedLines(content: string)
    ensures forall l :: l in Sort(Significant(content)) ==> '\n' !in l && l != ""
  {
    hide Trim, Sort, Sorted, NonBlank;
    NonBlankHasNoNewline(Split(content, '\n'));
    SortMeaning(Significant(content));
    forall l | l in Sort(Significant(content)) ensures l in Significant(content) {
      assert l in multiset(Sort(Significant(content)));
    }
  }

  lemma JoinIsNotEmpty(lines: seq<string>)
    requires lines != [] && lines[0] != ""
    ensures Join(lines, "\n") != ""
  {
  }

  /** Two texts have the same normal form exactly when they have the same nonblank
      lines, each as often, in any order and with any blanks around. */
  lemma {:induction false} SameNormalFormIff(a: string, b: string)
    ensures NormalizeCcd(a) == NormalizeCcd(b) <==> multiset(Significant(a)) == multiset(Significant(b))
  {
    hide Significant, Sort, Sorted, Join;
    var x, y := Sort(Significant(a)), Sort(Significant(b));
    SortMeaning(Significant(a));
    SortMeaning(Significant(b));
    SortedLines(a);
    SortedLines(b);
    if multiset(Significant(a)) == multiset(Significant(b)) {
      SortedIsUnique(x, y);
    } else if Join(x, "\n") == Join(y, "\n") {
      JoinOfNone();
      if x != [] && y != [] {
        SplitOfJoin(x, '\n');
        SplitOfJoin(y, '\n');
      } else if x != [] {
        assert x[0] in x;
        JoinIsNotEmpty(x);
      } else if y != [] {
        assert y[0] in y;
        JoinIsNotEmpty(y);
      }
    }
  }

  lemma JoinOfNone()
    ensures Join([], "\n") == ""
  {
  }

  // Generated texts ---------------------------------------------------------

  lemma {:induction false} NonBlankOfTrimmed(lines: seq<string>)
    requires forall l :: l in lines ==> l != "" && Trimmed(l)
    ensures NonBlank(lines) == lines
  {
    if lines != [] {
      TrimOfTrimmed(lines[0]);
      hide Trim, Trimmed;
      assert forall l :: l in lines[1..] ==> l in lines;
      NonBlankOfTrimmed(lines[1..]);
    }
  }

  lemma RouteLineTrimmed(r: Route)
    ensures Trimmed(RouteLine(r)) && RouteLine(r) != "" && RouteLine(r)[0] == 'p'
  {
  }

  lemma AddressEndsPlain(s: string)
    requires AddressText(s)
    ensures !IsSpace(s[|s| - 1])
  {
    assert IsAddressChar(s[|s| - 1]);
  }

  lemma StaticLineTrimmed(staticIp: string, vpnNetwork: string)
    requires vpnNetwork == "" || ValidCidr(vpnNetwork)
    ensures Trimmed(StaticLine(staticIp, vpnNetwork))
  {
    DefaultIsValid();
    hide ValidCidr, PrefixLength, QuadText, AddressText, Network, MaskWord;
    var cidr := if vpnNetwork == "" then DEFAULT_NETWORK else vpnNetwork;
    var mask := CidrToSubnetMask(cidr).mask;
    QuadTextIsAddressText(MaskWord(PrefixLength(cidr)));
    AddressEndsPlain(mask);
    MaskIsSomething(mask);
    var line := StaticLine(staticIp, vpnNetwork);
    assert line[|line| - 1] == mask[|mask| - 1];
  }

  lemma MaskIsSomething(s: string)
    requires AddressText(s)
    ensures s != []
  {
  }

  lemma CcdLinesAreTrimmed(routes: seq<Route>, staticIp: Option<string>, vpnNetwork: string)
    requires vpnNetwork == "" || ValidCidr(vpnNetwork)
    ensures forall l :: l in CcdLines(routes, staticIp, vpnNetwork) ==> l != "" && Trimmed(l)
  {
    hide Trimmed, RouteLine, StaticLine, Distinct, ValidCidr;
    var unique := Distinct(routes);
    forall i | 0 <= i < |unique| ensures Trimmed(RouteLine(unique[i])) && RouteLine(unique[i]) != "" {
      RouteLineTrimmed(unique[i]);
    }
    if HasStatic(staticIp) {
      StaticLineTrimmed(staticIp.value, vpnNetwork);
      StaticStartsWithI(staticIp.value, vpnNetwork);
    }
  }

  lemma {:induction false} SignificantOfGenerated(routes: seq<Route>, staticIp: Option<string>, vpnNetwork: string)
    requires vpnNetwork == "" || ValidCidr(vpnNetwork)
    requires Plain(routes, staticIp)
    ensures Significant(CcdContent(routes, staticIp, vpnNetwork)) == CcdLines(routes, staticIp, vpnNetwork)
  {
    hide Trimmed, CcdLines, Plain, ValidCidr;
    var lines := CcdLines(routes, staticIp, vpnNetwork);
    CcdLinesAreTrimmed(routes, staticIp, vpnNetwork);
    if lines == [] {
      BlankContent();
    } else {
      LinesHaveNoNewline(routes, staticIp, vpnNetwork);
      SplitOfJoin(lines, '\n');
      NonBlankOfTrimmed(lines);
    }
  }

  lemma BlankContent()
    ensures Significant("") == []
  {
    SplitNone("", '\n');
    assert Trim("") == "" && [""][1..] == [];
  }

  // When two generated texts agree --------------------------------------------

  lemma SameElements(a: seq<string>, b: seq<string>)
    requires NoRepeats(a) && NoRepeats(b)
    ensures multiset(a) == multiset(b) <==> forall x :: x in a <==> x in b
  {
    hide NoRepeats;
    if multiset(a) == multiset(b) {
      forall x ensures x in a <==> x in b {
        assert x in multiset(a) <==> x in multiset(b);
      }
    }
    if forall x :: x in a <==> x in b {
      forall x ensures multiset(a)[x] == multiset(b)[x] {
        CountWithoutRepeats(a, x);
        CountWithoutRepeats(b, x);
      }
    }
  }

  function StaticPart(staticIp: Option<string>, vpnNetwork: string): Option<string>
    requires vpnNetwork == "" || ValidCidr(vpnNetwork)
  {
    if HasStatic(staticIp) then Some(StaticLine(staticIp.value, vpnNetwork)) else None
  }

  function RouteSet(routes: seq<Route>): set<Route> {
    set r | r in routes
  }

  lemma CcdLinesNoRepeats(routes: seq<Route>, staticIp: Option<string>, vpnNetwork: string)
    requires vpnNetwork == "" || ValidCidr(vpnNetwork)
    requires Plain(routes, staticIp)
    ensures NoRepeats(CcdLines(routes, staticIp, vpnNetwork))
  {
    hide RouteLine, StaticLine, Distinct, ValidCidr, AddressText, MatchRoute;
    var unique := Distinct(routes);
    var lines := CcdLines(routes, staticIp, vpnNetwork);
    var shift := if HasStatic(staticIp) then 1 else 0;
    DistinctMeaning(routes);
    assert forall i :: shift <= i < |lines| ==> lines[i] == RouteLine(unique[i - shift]);
    forall i, j | 0 <= i < j < |lines| ensures lines[i] != lines[j] {
      RouteLineTrimmed(unique[j - shift]);
      if i < shift {
        StaticStartsWithI(staticIp.value, vpnNetwork);
      } else {
        assert unique[i - shift] in routes && unique[j - shift] in routes;
        RouteLineMatches(unique[i - shift]);
        RouteLineMatches(unique[j - shift]);
      }
    }
  }

  /** Which lines a generated text has. */
  lemma InCcdLines(routes: seq<Route>, staticIp: Option<string>, vpnNetwork: string, line: string)
    requires vpnNetwork == "" || ValidCidr(vpnNetwork)
    requires Plain(routes, staticIp)
    ensures line in CcdLines(routes, staticIp, vpnNetwork)
            <==> StaticPart(staticIp, vpnNetwork) == Some(line) || exists r :: r in routes && RouteLine(r) == line
  {
    hide RouteLine, StaticLine, Distinct, ValidCidr, AddressText;
    var unique := Distinct(routes);
    DistinctMeaning(routes);
    if r :| r in routes && RouteLine(r) == line {
      var i :| 0 <= i < |routes| && routes[i] == r;
      DistinctKeeps(routes, i);
      var j :| 0 <= j < |unique| && unique[j] == r;
      assert RouteLines(unique)[j] == line;
    }
    if line in RouteLines(unique) {
      var j :| 0 <= j < |unique| && RouteLines(unique)[j] == line;
      assert unique[j] in routes && RouteLine(unique[j]) == line;
    }
  }

  lemma SameLinesSameRoutes(routes1: seq<Route>, static1: Option<string>, network1: string,
                            routes2: seq<Route>, static2: Option<string>, network2: string)
    requires (network1 == "" || ValidCidr(network1)) && (network2 == "" || ValidCidr(network2))
    requires Plain(routes1, static1) && Plain(routes2, static2)
    requires forall x :: x in CcdLines(routes1, static1, network1) ==> x in CcdLines(routes2, static2, network2)
    ensures StaticPart(static1, network1).Some? ==> StaticPart(static2, network2) == StaticPart(static1, network1)
    ensures RouteSet(routes1) <= RouteSet(routes2)
  {
    hide RouteLine, StaticLine, ValidCidr, AddressText, CcdLines, MatchRoute;
    if HasStatic(static1) {
      var line := StaticLine(static1.value, network1);
      StaticStartsWithI(static1.value, network1);
      InCcdLines(routes1, static1, network1, line);
      InCcdLines(routes2, static2, network2, line);
      forall r ensures RouteLine(r) != line {
        RouteLineTrimmed(r);
      }
    }
    forall r | r in routes1 ensures r in routes2 {
      var line := RouteLine(r);
      RouteLineTrimmed(r);
      InCcdLines(routes1, static1, network1, line);
      InCcdLines(routes2, static2, network2, line);
      if HasStatic(static2) {
        StaticStartsWithI(static2.value, network2);
      }
      var r2 :| r2 in routes2 && RouteLine(r2) == line;
      RouteLineMatches(r);
      RouteLineMatches(r2);
    }
  }

  /** Two generated texts have the same normal form exactly when they have the same
      static line and the same set of routes. */
  lemma {:induction false} GeneratedAgreeIff(routes1: seq<Route>, static1: Option<string>, network1: string,
                          routes2: seq<Route>, static2: Option<string>, network2: string)
    requires (network1 == "" || ValidCidr(network1)) && (network2 == "" || ValidCidr(network2))
    requires Plain(routes1, static1) && Plain(routes2, static2)
    ensures NormalizeCcd(CcdContent(routes1, static1, network1)) == NormalizeCcd(CcdContent(routes2, static2, network2))
            <==> StaticPart(static1, network1) == StaticPart(static2, network2) && RouteSet(routes1) == RouteSet(routes2)
  {
    hide ValidCidr, Plain, CcdContent, CcdLines, NormalizeCcd, Significant, StaticPart, RouteSet, NoRepeats;
    SignificantOfGenerated(routes1, static1, network1);
    SignificantOfGenerated(routes2, static2, network2);
    SameNormalFormIff(CcdContent(routes1, static1, network1), CcdContent(routes2, static2, network2));
    CcdLinesNoRepeats(routes1, static1, network1);
    CcdLinesNoRepeats(routes2, static2, network2);
    var a, b := CcdLines(routes1, static1, network1), CcdLines(routes2, static2, network2);
    SameElements(a, b);
    if forall x :: x in a <==> x in b {
      SameLinesSameRoutes(routes1, static1, network1, routes2, static2, network2);
      SameLinesSameRoutes(routes2, static2, network2, routes1, static1, network1);
      OptionsAgree(StaticPart(static1, network1), StaticPart(static2, network2));
    }
    if StaticPart(static1, network1) == StaticPart(static2, network2) && RouteSet(routes1) == RouteSet(routes2) {
      SameRoutes(routes1, routes2);
      forall x ensures x in a <==> x in b {
        InCcdLines(routes1, static1, network1, x);
        InCcdLines(routes2, static2, network2, x);
      }
    }
  }

  lemma OptionsAgree(a: Option<string>, b: Option<string>)
    requires (a.Some? ==> b == a) && (b.Some? ==> a == b)
    ensures a == b
  {
  }

  lemma SameRoutes(routes1: seq<Route>, routes2: seq<Route>)
    requires RouteSet(routes1) == RouteSet(routes2)
    ensures forall r :: r in routes1 <==> r in routes2
  {
    forall r ensures r in routes1 <==> r in routes2 {
      assert r in RouteSet(routes1) <==> r in RouteSet(routes2);
    }
  }

  // Texts as files ------------------------------------------------------------

  lemma {:induction false} NonBlankOfSum(a: seq<string>, b: seq<string>)
    ensures NonBlank(a + b) == NonBlank(a) + NonBlank(b)
  {
    hide Trim;
    if a == [] {
      assert a + b == b;
    } else {
      NonBlankOfSum(a[1..], b);
      assert (a + b)[1..] == a[1..] + b;
      var t := Trim(a[0]);
      var head := if |t| > 0 then [t] else [];
      assert head + (NonBlank(a[1..]) + NonBlank(b)) == head + NonBlank(a[1..]) + NonBlank(b);
    }
  }

  /** A final newline makes no difference. */
  lemma NormalFormOfFile(content: string)
    ensures NormalizeCcd(content + "\n") == NormalizeCcd(content)
  {
    hide NonBlank, Split, Sort, Join;
    SplitSum(content, "", '\n');
    assert content + ['\n'] + "" == content + "\n";
    NonBlankOfSum(Split(content, '\n'), [""]);
    BlankContent();
    SplitNone("", '\n');
    var lines := NonBlank(Split(content, '\n'));
    assert lines + [] == lines;
  }
}
