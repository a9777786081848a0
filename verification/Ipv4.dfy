/** Dotted quads and CIDR blocks: the validated texts, what they denote, and the
    subnet masks derived from them. */
module Ipv4 {
  import opened Text
  import opened Words

  // Texts -------------------------------------------------------------------

  predicate ShortNumber(s: string, maxDigits: nat, bound: nat) {
    1 <= |s| <= maxDigits && AllDigits(s) && Reading(s) < bound
  }

  /** Four decimal numbers up to 255, of at most three digits each. */
  predicate IsQuad(s: string) {
    var parts := Split(s, '.');
    |parts| == 4 && forall i :: 0 <= i < 4 ==> ShortNumber(parts[i], 3, 256)
  }

  /** A quad, "/", and a prefix length up to 32 of at most two digits. */
  predicate ValidCidr(s: string) {
    var parts := Split(s, '/');
    |parts| == 2 && IsQuad(parts[0]) && ShortNumber(parts[1], 2, 33)
  }

  function Network(cidr: string): (ip: string)
    requires ValidCidr(cidr)
    ensures IsQuad(ip)
  {
    Split(cidr, '/')[0]
  }

  function PrefixLength(cidr: string): (p: nat)
    requires ValidCidr(cidr)
    ensures p <= 32
  {
    Reading(Split(cidr, '/')[1])
  }

  lemma DigitsAreNot(s: string, c: char)
    requires AllDigits(s) && !IsDigit(c)
    ensures c !in s
  {
  }

  /** Valid texts are put together from their numbers. */
  lemma ValidFromParts(a: string, b: string, c: string, d: string, prefix: string)
    requires ShortNumber(a, 3, 256) && ShortNumber(b, 3, 256) && ShortNumber(c, 3, 256) && ShortNumber(d, 3, 256)
    requires ShortNumber(prefix, 2, 33)
    ensures ValidCidr(a + "." + (b + "." + (c + "." + d)) + "/" + prefix)
  {
    var parts := [a, b, c, d];
    var quad := a + "." + (b + "." + (c + "." + d));
    forall i | 0 <= i < 4 ensures '.' !in parts[i] && '/' !in parts[i] {
      DigitsAreNot(parts[i], '.');
      DigitsAreNot(parts[i], '/');
    }
    JoinOfFour(a, b, c, d, ".");
    SplitOfJoin(parts, '.');
    DigitsAreNot(prefix, '/');
    SplitHead(quad, prefix, '/');
    SplitNone(prefix, '/');
  }

  // What they denote --------------------------------------------------------

  /** The address a quad denotes. */
  function Address(s: string): Word
    requires IsQuad(s)
  {
    var p := Split(s, '.');
    ByteOf(Reading(p[0])) + ByteOf(Reading(p[1])) + ByteOf(Reading(p[2])) + ByteOf(Reading(p[3]))
  }

  /** Section 3.1 of RFC 4632: a block holds the addresses that share its top bits. */
  predicate InBlock(address: Word, cidr: string)
    requires ValidCidr(cidr)
  {
    address[..PrefixLength(cidr)] == Address(Network(cidr))[..PrefixLength(cidr)]
  }

  // Masks -------------------------------------------------------------------

  /** prefix == 0 ? 0 : ~0 << (32 - prefix). The case of 0 is apart because a shift
      count is taken modulo 32. */
  function MaskWord(prefix: nat): Word
    requires prefix <= 32
  {
    if prefix == 0 then Zeros(32) else Shl(Ones(32), (32 - prefix) % 32)
  }

  /** (w >>> n) & 255 */
  function ByteAt(w: Word, n: nat): (x: int)
    requires n <= 24
    ensures 0 <= x < 256
  {
    ByteValue(Low(And(Shr(w, n), Widen(Ones(8))), 8))
  }

  function QuadText(w: Word): string {
    Join([Decimal(ByteAt(w, 24)), Decimal(ByteAt(w, 16)), Decimal(ByteAt(w, 8)), Decimal(ByteAt(w, 0))], ".")
  }

  datatype Route = Route(ip: string, mask: string)

  function CidrToSubnetMask(cidr: string): Route
    requires ValidCidr(cidr)
  {
    Route(Network(cidr), QuadText(MaskWord(PrefixLength(cidr))))
  }

  /** The same computation in the server configuration. */
  function CidrToServerDirective(cidr: string): string
    requires ValidCidr(cidr)
  {
    var prefixNum := Reading(Split(cidr, '/')[1]);
    var maskNum := if prefixNum == 0 then Zeros(32) else Shl(Ones(32), (32 - prefixNum) % 32);
    var mask := Join([Decimal(ByteAt(maskNum, 24)), Decimal(ByteAt(maskNum, 16)), Decimal(ByteAt(maskNum, 8)),
                      Decimal(ByteAt(maskNum, 0))], ".");
    "server " + Split(cidr, '/')[0] + " " + mask
  }

  // Their meaning -----------------------------------------------------------

  lemma ByteAtIsOctet(w: Word, n: nat)
    requires n <= 24
    ensures ByteAt(w, n) == ByteValue(w[24 - n..32 - n])
  {
    var x := Low(And(Shr(w, n), Widen(Ones(8))), 8);
    var y := w[24 - n..32 - n];
    forall i | 0 <= i < 8 ensures x[i] == y[i] {
    }
    assert x == y;
  }

  /** A byte in decimal has at most three digits and no dot. */
  lemma DecimalByte(x: int)
    requires 0 <= x < 256
    ensures ShortNumber(Decimal(x), 3, 256) && Reading(Decimal(x)) == x && '.' !in Decimal(x)
  {
    ReadingOfDecimal(x);
    if x >= 100 {
      assert |Decimal(x / 10 / 10)| == 1;
    }
    var s := Decimal(x);
    forall i | 0 <= i < |s| ensures s[i] != '.' {
      assert IsDigit(s[i]);
    }
  }

  /** A word written as a quad is read back as that word. */
  lemma {:induction false} AddressOfQuadText(w: Word)
    ensures IsQuad(QuadText(w)) && Address(QuadText(w)) == w
  {
    hide Decimal, Reading, ByteAt, ByteValue, ByteOf, ShortNumber;
    var a, b, c, d := ByteAt(w, 24), ByteAt(w, 16), ByteAt(w, 8), ByteAt(w, 0);
    DecimalByte(a);
    DecimalByte(b);
    DecimalByte(c);
    DecimalByte(d);
    SplitOfJoin([Decimal(a), Decimal(b), Decimal(c), Decimal(d)], '.');
    ByteAtIsOctet(w, 24);
    ByteAtIsOctet(w, 16);
    ByteAtIsOctet(w, 8);
    ByteAtIsOctet(w, 0);
    ByteOfValue(w[0..8]);
    ByteOfValue(w[8..16]);
    ByteOfValue(w[16..24]);
    ByteOfValue(w[24..32]);
    assert w == w[0..8] + w[8..16] + w[16..24] + w[24..32];
  }

  /** The mask of a prefix length has that many ones on top. */
  lemma MaskShape(prefix: nat)
    requires prefix <= 32
    ensures MaskWord(prefix) == Ones(prefix) + Zeros(32 - prefix)
  {
    var m, x := MaskWord(prefix), Ones(prefix) + Zeros(32 - prefix);
    forall i | 0 <= i < 32 ensures m[i] == x[i] {
      assert x[i] == (i < prefix);
    }
    assert |m| == |x| == 32;
  }

  /** What a router makes of a route. */
  predicate Covers(r: Route, address: Word) {
    IsQuad(r.ip) && IsQuad(r.mask) && And(address, Address(r.mask)) == And(Address(r.ip), Address(r.mask))
  }

  /** The route of a block covers exactly the addresses of the block, for every
      prefix length from 0 to 32. */
  lemma {:induction false} RouteCoversBlock(cidr: string, address: Word)
    requires ValidCidr(cidr)
    ensures Covers(CidrToSubnetMask(cidr), address) <==> InBlock(address, cidr)
  {
    hide QuadText, Address, IsQuad, ValidCidr, PrefixLength, Network;
    var p := PrefixLength(cidr);
    var mask := MaskWord(p);
    var network := Address(Network(cidr));
    AddressOfQuadText(mask);
    MaskShape(p);
    MaskedIsPrefix(address, network, p);
  }

  lemma MaskedIsPrefix(x: Word, y: Word, p: nat)
    requires p <= 32
    ensures var m := Ones(p) + Zeros(32 - p);
            And(x, m) == And(y, m) <==> x[..p] == y[..p]
  {
    var m := Ones(p) + Zeros(32 - p);
    if And(x, m) == And(y, m) {
      forall i | 0 <= i < p ensures x[i] == y[i] {
        assert And(x, m)[i] == And(y, m)[i];
      }
    }
    if x[..p] == y[..p] {
      forall i | 0 <= i < 32 ensures And(x, m)[i] == And(y, m)[i] {
        if i < p {
          assert x[..p][i] == y[..p][i];
        }
      }
    }
  }

  /** Both mask implementations agree. */
  lemma {:induction false} DirectiveHasSameMask(cidr: string)
    requires ValidCidr(cidr)
    ensures var r := CidrToSubnetMask(cidr);
            CidrToServerDirective(cidr) == "server " + r.ip + " " + r.mask
  {
    hide Reading, Decimal, ByteAt, Join, Split, Zeros, Ones, Shl, ValidCidr, IsQuad;
  }
}
