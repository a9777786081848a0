/** The base32 codec of the TOTP secrets: two loops over a wrapping 32-bit
    accumulator, proved against the bit-string reading of section 6 of RFC 4648. */
module Base32 {
  import opened Text
  import opened Words

  const BASE32_ALPHABET: string := "ABCDEFGHIJKLMNOPQRSTUVWXYZ234567"

  // The accumulator ---------------------------------------------------------

  /** Shifting a group in appends its bits to the n pending ones: although the
      accumulator is never masked, nothing that is pending leaves the word. */
  lemma Push(v: Word, x: Bits, n: nat)
    requires n + |x| <= 32
    ensures Low(Or(Shl(v, |x|), Widen(x)), n + |x|) == Low(v, n) + x
  {
  }

  /** Reading the w bits above the n lowest leaves those n pending. */
  lemma Take(v: Word, w: nat, n: nat)
    requires w + n <= 32
    ensures And(Shr(v, n), Widen(Ones(w))) == Widen(Low(v, w + n)[..w])
    ensures Low(v, w + n) == Low(v, w + n)[..w] + Low(v, n)
  {
    var x := And(Shr(v, n), Widen(Ones(w)));
    var y := Widen(Low(v, w + n)[..w]);
    forall i | 0 <= i < 32 ensures x[i] == y[i] {
    }
  }

  /** The last, short group is filled with zeros on the right. */
  lemma Pad(v: Word, w: nat, n: nat)
    requires n <= w <= 32
    ensures And(Shl(v, w - n), Widen(Ones(w))) == Widen(Low(v, n) + Zeros(w - n))
  {
    var x := And(Shl(v, w - n), Widen(Ones(w)));
    var y := Widen(Low(v, n) + Zeros(w - n));
    forall i | 0 <= i < 32 ensures x[i] == y[i] {
    }
  }

  // Groups of bits ----------------------------------------------------------

  predicate AllWide(groups: seq<Bits>, w: nat) {
    forall i :: 0 <= i < |groups| ==> |groups[i]| == w
  }

  function Joined(groups: seq<Bits>): Bits {
    if groups == [] then [] else Joined(groups[..|groups| - 1]) + groups[|groups| - 1]
  }

  lemma JoinedAppend(groups: seq<Bits>, x: Bits)
    ensures Joined(groups + [x]) == Joined(groups) + x
  {
    assert (groups + [x])[..|groups|] == groups;
  }

  lemma {:induction false} JoinedLength(groups: seq<Bits>, w: nat)
    requires AllWide(groups, w)
    ensures |Joined(groups)| == w * |groups|
  {
    if groups != [] {
      JoinedLength(groups[..|groups| - 1], w);
      assert w * (|groups| - 1) == w * |groups| - w;
    }
  }

  /** A bit string cut into groups of w bits. */
  function Cut(bits: Bits, w: nat): (r: seq<Bits>)
    requires w > 0
    ensures AllWide(r, w)
    decreases |bits|
  {
    if |bits| < w then []
    else Cut(bits[..|bits| - w], w) + [bits[|bits| - w..]]
  }

  lemma {:induction false} JoinedOfCut(bits: Bits, w: nat, n: nat)
    requires w > 0 && |bits| == w * n
    ensures |Cut(bits, w)| == n && Joined(Cut(bits, w)) == bits
  {
    if n > 0 {
      assert w * (n - 1) == w * n - w && w * (n - 1) >= 0;
      var init, last := bits[..|bits| - w], bits[|bits| - w..];
      JoinedOfCut(init, w, n - 1);
      JoinedAppend(Cut(init, w), last);
    }
  }

  lemma {:induction false} CutOfJoined(groups: seq<Bits>, w: nat)
    requires w > 0 && AllWide(groups, w)
    ensures Cut(Joined(groups), w) == groups
  {
    if groups != [] {
      var init, last := groups[..|groups| - 1], groups[|groups| - 1];
      var bits := Joined(groups);
      CutOfJoined(init, w);
      assert bits[..|bits| - w] == Joined(init);
      assert bits[|bits| - w..] == last;
    }
  }

  /** One more group x read into the accumulator. */
  lemma PushStep(done: Bits, v: Word, n: nat, groups: seq<Bits>, x: Bits)
    requires n + |x| <= 32 && done + Low(v, n) == Joined(groups)
    ensures done + Low(Or(Shl(v, |x|), Widen(x)), n + |x|) == Joined(groups + [x])
  {
    Push(v, x, n);
    JoinedAppend(groups, x);
    assert done + (Low(v, n) + x) == (done + Low(v, n)) + x;
  }

  /** One group of w bits written from the top of the pending bits. */
  lemma TakeStep(all: Bits, out: seq<Bits>, v: Word, w: nat, n: nat)
    requires w + n <= 32 && Joined(out) + Low(v, w + n) == all
    ensures Joined(out + [Low(And(Shr(v, n), Widen(Ones(w))), w)]) + Low(v, n) == all
  {
    Take(v, w, n);
    var x := Low(v, w + n)[..w];
    assert Low(Widen(x), w) == x;
    JoinedAppend(out, x);
    assert Joined(out) + (x + Low(v, n)) == (Joined(out) + x) + Low(v, n);
  }

  lemma PadStep(all: Bits, out: seq<Bits>, v: Word, w: nat, n: nat)
    requires n <= w <= 32 && Joined(out) + Low(v, n) == all
    ensures Joined(out + [Low(And(Shl(v, w - n), Widen(Ones(w))), w)]) == all + Zeros(w - n)
  {
    Pad(v, w, n);
    var x := Low(v, n) + Zeros(w - n);
    assert Low(Widen(x), w) == x;
    JoinedAppend(out, x);
    assert Joined(out) + (Low(v, n) + Zeros(w - n)) == (Joined(out) + Low(v, n)) + Zeros(w - n);
  }

  // Symbols -----------------------------------------------------------------

  /** Five bits as a number. */
  function Number(q: Bits): (x: int)
    requires |q| == 5
    ensures 0 <= x < 32
  {
    Weight(q[0], 16) + Weight(q[1], 8) + Weight(q[2], 4) + Weight(q[3], 2) + Weight(q[4], 1)
  }

  function Quintet(x: int): (q: Bits)
    requires 0 <= x < 32
    ensures |q| == 5 && Number(q) == x
  {
    [x >= 16, x % 16 >= 8, x % 8 >= 4, x % 4 >= 2, x % 2 >= 1]
  }

  lemma NumberIsInjective(q: Bits)
    requires |q| == 5
    ensures Quintet(Number(q)) == q
  {
  }

  function Symbol(q: Bits): char
    requires |q| == 5
  {
    BASE32_ALPHABET[Number(q)]
  }

  /** The position of a character in the alphabet, or -1. */
  function IndexOf(c: char): (i: int)
    ensures -1 <= i < 32
  {
    if 'A' <= c <= 'Z' then c as int - 'A' as int
    else if '2' <= c <= '7' then c as int - '2' as int + 26
    else -1
  }

  predicate IsSymbol(c: char) {
    IndexOf(c) >= 0
  }

  /** IndexOf is the position of a character in the alphabet. */
  lemma PositionOfSymbol(x: nat)
    requires x < 32
    ensures IndexOf(BASE32_ALPHABET[x]) == x
  {
    if x < 16 {
      FirstHalf(x);
    } else {
      SecondHalf(x);
    }
  }

  lemma FirstHalf(x: nat)
    requires x < 16
    ensures IndexOf(BASE32_ALPHABET[x]) == x
  {
    assert BASE32_ALPHABET[..16] == "ABCDEFGHIJKLMNOP";
  }

  lemma SecondHalf(x: nat)
    requires 16 <= x < 32
    ensures IndexOf(BASE32_ALPHABET[x]) == x
  {
    assert BASE32_ALPHABET[16..] == "QRSTUVWXYZ234567";
  }

  lemma SymbolAtPosition(c: char)
    requires IndexOf(c) >= 0
    ensures BASE32_ALPHABET[IndexOf(c)] == c
  {
    PositionOfSymbol(IndexOf(c));
  }

  predicate AllSymbols(s: string) {
    forall i :: 0 <= i < |s| ==> IsSymbol(s[i])
  }

  function Quintets(s: string): (r: seq<Bits>)
    requires AllSymbols(s)
    ensures |r| == |s| && AllWide(r, 5)
  {
    seq(|s|, i requires 0 <= i < |s| => Quintet(IndexOf(s[i])))
  }

  function Spelled(groups: seq<Bits>): (s: string)
    requires AllWide(groups, 5)
    ensures |s| == |groups|
  {
    seq(|groups|, i requires 0 <= i < |groups| => Symbol(groups[i]))
  }

  lemma QuintetsOfSpelled(groups: seq<Bits>)
    requires AllWide(groups, 5)
    ensures AllSymbols(Spelled(groups)) && Quintets(Spelled(groups)) == groups
  {
    forall i | 0 <= i < |groups| ensures IndexOf(Spelled(groups)[i]) == Number(groups[i]) && Quintet(Number(groups[i])) == groups[i] {
      PositionOfSymbol(Number(groups[i]));
      NumberIsInjective(groups[i]);
    }
  }

  lemma SpelledOfQuintets(s: string)
    requires AllSymbols(s)
    ensures Spelled(Quintets(s)) == s
  {
    forall i | 0 <= i < |s| ensures BASE32_ALPHABET[IndexOf(s[i])] == s[i] {
      SymbolAtPosition(s[i]);
    }
  }

  // Encoding ----------------------------------------------------------------

  /** How many symbols n bytes take: 8n/5 rounded up. */
  function SymbolCount(n: nat): nat {
    (8 * n + 4) / 5
  }

  function Padded(bytes: seq<Bits>): Bits {
    Joined(bytes) + Zeros(5 * SymbolCount(|bytes|) - 8 * |bytes|)
  }

  /** Section 6 of RFC 4648 without its "=" padding. */
  function Encoded(bytes: seq<Bits>): string {
    Spelled(Cut(Padded(bytes), 5))
  }

  method EncodeBase32(buffer: seq<Bits>) returns (output: string)
    requires AllWide(buffer, 8)
    ensures output == Encoded(buffer)
  {
    hide Symbol, Encoded, Cut, Padded;
    var bits: nat := 0;
    var value: Word := Zeros(32);
    output := "";
    ghost var out: seq<Bits> := [];
    for i := 0 to |buffer|
      invariant bits < 5 && AllWide(out, 5) && output == Spelled(out)
      invariant Joined(out) + Low(value, bits) == Joined(buffer[..i])
    {
      PushStep(Joined(out), value, bits, buffer[..i], buffer[i]);
      assert buffer[..i + 1] == buffer[..i] + [buffer[i]];
      value := Or(Shl(value, 8), Widen(buffer[i]));
      bits := bits + 8;
      while bits >= 5
        invariant bits <= 12 && AllWide(out, 5) && output == Spelled(out)
        invariant Joined(out) + Low(value, bits) == Joined(buffer[..i + 1])
      {
        TakeStep(Joined(buffer[..i + 1]), out, value, 5, bits - 5);
        var index := And(Shr(value, bits - 5), Widen(Ones(5)));
        output, out := output + [Symbol(Low(index, 5))], out + [Low(index, 5)];
        bits := bits - 5;
      }
    }
    assert buffer[..|buffer|] == buffer;
    ghost var zeros := 0;
    if bits > 0 {
      PadStep(Joined(buffer), out, value, 5, bits);
      var index := And(Shl(value, 5 - bits), Widen(Ones(5)));
      output, out := output + [Symbol(Low(index, 5))], out + [Low(index, 5)];
      zeros := 5 - bits;
    }
    assert Joined(out) == Joined(buffer) + Zeros(zeros);
    EncodingDone(buffer, out, zeros);
  }

  lemma EncodingDone(bytes: seq<Bits>, out: seq<Bits>, zeros: nat)
    requires AllWide(bytes, 8) && AllWide(out, 5) && zeros < 5
    requires Joined(out) == Joined(bytes) + Zeros(zeros)
    ensures Spelled(out) == Encoded(bytes)
  {
    hide Spelled, Cut, Joined, AllWide, Zeros, SymbolCount;
    JoinedLength(bytes, 8);
    JoinedLength(out, 5);
    SymbolCountIs(|bytes|, |out|, zeros);
    CutOfJoined(out, 5);
  }

  lemma SymbolCountIs(n: nat, m: nat, zeros: nat)
    requires 5 * m == 8 * n + zeros && zeros < 5
    ensures m == SymbolCount(n) && zeros == 5 * SymbolCount(n) - 8 * n
  {
  }

  // Decoding ----------------------------------------------------------------

  function StripPadding(s: string): string {
    if s != [] && s[|s| - 1] == '=' then StripPadding(s[..|s| - 1]) else s
  }

  function StripSpace(s: string): string {
    if s == [] then []
    else (if IsSpace(s[0]) then [] else [s[0]]) + StripSpace(s[1..])
  }

  function UpperChar(c: char): char {
    if 'a' <= c <= 'z' then c - 'a' + 'A' else c
  }

  /** Upper case undoes lower case on letters and leaves what has no case alone. */
  lemma UpperOfLower(c: char)
    ensures 'A' <= c <= 'Z' ==> UpperChar(LowerChar(c)) == c
    ensures LowerChar(c) == c && !('a' <= c <= 'z') ==> UpperChar(c) == c
  {
  }

  function Upper(s: string): (r: string)
    ensures |r| == |s| && forall i :: 0 <= i < |s| ==> r[i] == UpperChar(s[i])
  {
    seq(|s|, i requires 0 <= i < |s| => UpperChar(s[i]))
  }

  function NormalizeBase32(value: string): string {
    Upper(StripSpace(StripPadding(value)))
  }

  /** The whole octets in the bits of the symbols, and the bits left over. */
  function WholeOctets(s: string): seq<Bits>
    requires AllSymbols(s)
  {
    JoinedLength(Quintets(s), 5);
    Cut(Joined(Quintets(s))[..8 * (5 * |s| / 8)], 8)
  }

  function Leftover(s: string): Bits
    requires AllSymbols(s)
  {
    JoinedLength(Quintets(s), 5);
    Joined(Quintets(s))[8 * (5 * |s| / 8)..]
  }

  /** The left-over bits are dropped; a character outside the alphabet is an error. */
  function Decoded(value: string): Option<seq<Bits>> {
    var s := NormalizeBase32(value);
    if AllSymbols(s) then Some(WholeOctets(s)) else None
  }

  method DecodeBase32(value: string) returns (r: Option<seq<Bits>>)
    ensures r == Decoded(value)
  {
    var normalized := NormalizeBase32(value);
    var bits: nat := 0;
    var current: Word := Zeros(32);
    var bytes: seq<Bits> := [];
    for i := 0 to |normalized|
      invariant bits < 8 && AllSymbols(normalized[..i]) && AllWide(bytes, 8)
      invariant Joined(bytes) + Low(current, bits) == Joined(Quintets(normalized[..i]))
    {
      var index := IndexOf(normalized[i]);
      if index == -1 {
        assert !IsSymbol(normalized[i]);
        return None;
      }
      var x := Quintet(index);
      PushStep(Joined(bytes), current, bits, Quintets(normalized[..i]), x);
      QuintetsAppend(normalized, i);
      current := Or(Shl(current, 5), Widen(x));
      bits := bits + 5;
      if bits >= 8 {
        TakeStep(Joined(Quintets(normalized[..i + 1])), bytes, current, 8, bits - 8);
        bytes := bytes + [Low(And(Shr(current, bits - 8), Widen(Ones(8))), 8)];
        bits := bits - 8;
      }
    }
    assert normalized[..|normalized|] == normalized;
    DecodingDone(normalized, bytes, Low(current, bits));
    r := Some(bytes);
  }

  lemma QuintetsAppend(s: string, i: nat)
    requires i < |s| && AllSymbols(s[..i]) && IsSymbol(s[i])
    ensures AllSymbols(s[..i + 1])
    ensures Quintets(s[..i + 1]) == Quintets(s[..i]) + [Quintet(IndexOf(s[i]))]
  {
  }

  lemma WholePart(all: Bits, whole: Bits, rest: Bits, n: nat, k: nat)
    requires all == whole + rest && |all| == 5 * n && |whole| == 8 * k && |rest| < 8
    ensures 5 * n / 8 == k && all[..8 * k] == whole && all[8 * k..] == rest
  {
  }

  lemma DecodingDone(s: string, bytes: seq<Bits>, rest: Bits)
    requires AllSymbols(s) && AllWide(bytes, 8) && |rest| < 8
    requires Joined(bytes) + rest == Joined(Quintets(s))
    ensures WholeOctets(s) == bytes && Leftover(s) == rest
  {
    var all := Quintets(s);
    JoinedLength(all, 5);
    JoinedLength(bytes, 8);
    WholePart(Joined(all), Joined(bytes), rest, |s|, |bytes|);
    CutOfJoined(bytes, 8);
  }

  // The laws ----------------------------------------------------------------

  lemma {:induction false} NothingToStrip(s: string)
    requires forall i :: 0 <= i < |s| ==> !IsSpace(s[i])
    ensures StripSpace(s) == s
  {
    if s != [] {
      NothingToStrip(s[1..]);
    }
  }

  lemma SymbolsNeedNoNormalizing(s: string)
    requires AllSymbols(s)
    ensures NormalizeBase32(s) == s
  {
    forall i | 0 <= i < |s| ensures UpperChar(s[i]) == s[i] && !IsSpace(s[i]) && s[i] != '=' {
      assert IsSymbol(s[i]);
    }
    NothingToStrip(s);
  }

  /** What an encoding looks like: 8n/5 symbols rounded up, reading as the bits of
      the bytes followed by fewer than five zeros. */
  lemma {:induction false} EncodedShape(bytes: seq<Bits>)
    requires AllWide(bytes, 8)
    ensures var s := Encoded(bytes);
            && AllSymbols(s)
            && 8 * |bytes| <= 5 * |s| < 8 * |bytes| + 5
            && Joined(Quintets(s)) == Joined(bytes) + Zeros(5 * |s| - 8 * |bytes|)
  {
    JoinedLength(bytes, 8);
    JoinedOfCut(Padded(bytes), 5, SymbolCount(|bytes|));
    QuintetsOfSpelled(Cut(Padded(bytes), 5));
  }

  /** Nothing is lost: decoding an encoding gives the bytes back. */
  lemma {:induction false} RoundTrip(bytes: seq<Bits>)
    requires AllWide(bytes, 8)
    ensures Decoded(Encoded(bytes)) == Some(bytes)
  {
    EncodedShape(bytes);
    SymbolsNeedNoNormalizing(Encoded(bytes));
    DecodingDone(Encoded(bytes), bytes, Zeros(5 * |Encoded(bytes)| - 8 * |bytes|));
  }

  // What the decoder forgives -------------------------------------------------

  /** t is s with letters in either case and white space put in anywhere. */
  predicate Typed(t: string, s: string) {
    if t == [] then s == []
    else
      || (IsSpace(t[0]) && Typed(t[1..], s))
      || (s != [] && UpperChar(t[0]) == s[0] && Typed(t[1..], s[1..]))
  }

  function Padding(k: nat): (r: string)
    ensures |r| == k
  {
    seq(k, _ => '=')
  }

  lemma SymbolIsPlain(c: char)
    requires IsSymbol(UpperChar(c))
    ensures !IsSpace(c) && c != '='
  {
  }

  lemma {:induction false} TypedIff(t: string, s: string)
    requires AllSymbols(s)
    ensures Typed(t, s) <==> Upper(StripSpace(t)) == s
  {
    if t != [] {
      hide IsSpace;
      if IsSpace(t[0]) {
        TypedIff(t[1..], s);
        if s != [] && UpperChar(t[0]) == s[0] {
          assert IsSymbol(s[0]);
          SymbolIsPlain(t[0]);
        }
      } else {
        var rest := Upper(StripSpace(t[1..]));
        assert StripSpace(t) == [t[0]] + StripSpace(t[1..]);
        assert Upper(StripSpace(t)) == [UpperChar(t[0])] + rest;
        if s != [] {
          TypedIff(t[1..], s[1..]);
          assert s == [s[0]] + s[1..];
          assert ([UpperChar(t[0])] + rest)[1..] == rest;
        }
      }
    }
  }

  lemma {:induction false} TypedHasNoPadding(t: string, s: string)
    requires AllSymbols(s) && Typed(t, s)
    ensures '=' !in t
  {
    if t != [] {
      hide IsSpace;
      if s != [] && UpperChar(t[0]) == s[0] && Typed(t[1..], s[1..]) {
        assert IsSymbol(s[0]);
        SymbolIsPlain(t[0]);
        TypedHasNoPadding(t[1..], s[1..]);
      } else {
        TypedHasNoPadding(t[1..], s);
        EqualsIsNoSpace();
      }
    }
  }

  lemma EqualsIsNoSpace()
    ensures !IsSpace('=')
  {
  }

  lemma {:induction false} StripPaddingOf(t: string, k: nat)
    requires t == [] || t[|t| - 1] != '='
    ensures StripPadding(t + Padding(k)) == t
  {
    var s := t + Padding(k);
    if k == 0 {
      assert s == t;
    } else {
      StripPaddingOf(t, k - 1);
      assert s[..|s| - 1] == t + Padding(k - 1);
    }
  }

  lemma {:induction false} StripPaddingShape(s: string)
    ensures |StripPadding(s)| <= |s| && s == StripPadding(s) + Padding(|s| - |StripPadding(s)|)
    ensures StripPadding(s) == [] || StripPadding(s)[|StripPadding(s)| - 1] != '='
  {
    if s != [] && s[|s| - 1] == '=' {
      StripPaddingShape(s[..|s| - 1]);
      var t := StripPadding(s);
      assert Padding(|s| - |t|) == Padding(|s| - 1 - |t|) + "=";
    }
  }

  /** The texts with a given normal form: the symbols in either case, with white space
      put in anywhere, and then any number of "=" at the very end. */
  lemma {:induction false} NormalFormIff(value: string, s: string)
    requires AllSymbols(s)
    ensures NormalizeBase32(value) == s <==> exists t, k :: value == t + Padding(k) && Typed(t, s)
  {
    hide Typed, IsSpace, AllSymbols;
    var p := StripPadding(value);
    StripPaddingShape(value);
    TypedIff(p, s);
    if t, k :| value == t + Padding(k) && Typed(t, s) {
      TypedHasNoPadding(t, s);
      StripPaddingOf(t, k);
    }
  }

  /** An encoding is decoded to its bytes in whatever case it is typed, with white
      space put in anywhere, and with "=" after all of that. */
  lemma {:induction false} DecoderIsLenient(t: string, k: nat, bytes: seq<Bits>)
    requires AllWide(bytes, 8) && Typed(t, Encoded(bytes))
    ensures Decoded(t + Padding(k)) == Some(bytes)
  {
    hide Typed;
    EncodedShape(bytes);
    NormalFormIff(t + Padding(k), Encoded(bytes));
    SymbolsNeedNoNormalizing(Encoded(bytes));
    RoundTrip(bytes);
  }

  predicate OnlyPadding(value: string, i: nat) {
    forall j :: i <= j < |value| ==> value[j] == '='
  }

  predicate BlankOrSymbol(c: char) {
    IsSpace(c) || IsSymbol(UpperChar(c))
  }

  lemma SymbolsOf(first: char, rest: string)
    ensures AllSymbols([first] + rest) <==> IsSymbol(first) && AllSymbols(rest)
  {
    hide IsSymbol;
    var s := [first] + rest;
    assert s[0] == first && forall i :: 0 <= i < |rest| ==> s[i + 1] == rest[i];
  }

  lemma {:induction false} StrippedSymbolsIff(t: string)
    ensures AllSymbols(Upper(StripSpace(t))) <==> forall i :: 0 <= i < |t| ==> BlankOrSymbol(t[i])
  {
    if t != [] {
      var rest := Upper(StripSpace(t[1..]));
      StrippedSymbolsIff(t[1..]);
      SymbolsOf(UpperChar(t[0]), rest);
      hide IsSpace, IsSymbol, AllSymbols;
      assert forall i :: 1 <= i < |t| ==> t[i] == t[1..][i - 1];
      if IsSpace(t[0]) {
        assert Upper(StripSpace(t)) == rest;
      } else {
        assert Upper(StripSpace(t)) == [UpperChar(t[0])] + rest;
      }
    }
  }

  /** Which texts are decoded at all: every character is white space, a symbol in either
      case, or a "=" with nothing but "=" behind it. So padding is refused as soon as
      anything follows it, be it a blank. */
  lemma {:induction false} DecodableIff(value: string)
    ensures Decoded(value).Some?
            <==> forall i :: 0 <= i < |value| ==> BlankOrSymbol(value[i]) || OnlyPadding(value, i)
  {
    var t := StripPadding(value);
    StripPaddingShape(value);
    StrippedSymbolsIff(t);
    hide BlankOrSymbol, AllSymbols, StripPadding;
    assert forall i :: 0 <= i < |t| ==> t[i] == value[i];
    assert forall i :: |t| <= i < |value| ==> OnlyPadding(value, i);
    forall i | 0 <= i < |t| ensures !OnlyPadding(value, i) {
      assert value[|t| - 1] != '=';
    }
  }

  /** A padded text, and the same with a blank behind it. */
  lemma BlankBehindPadding()
    ensures Decoded("MY==").Some? && Decoded("MY== ").None?
  {
    hide Decoded;
    DecodableIff("MY==");
    DecodableIff("MY== ");
    assert IsSymbol('M') && IsSymbol('Y');
    EqualsIsNoSpace();
    assert !IsSymbol(UpperChar('='));
    var value := "MY== ";
    assert value[2] == '=' && value[4] == ' ' && !OnlyPadding(value, 2);
  }

  /** The other way round: a decodable text spells the encoding of what it decodes
      to exactly when fewer than five bits are left over and all are zero. */
  lemma {:induction false} ReencodeIffCanonical(value: string)
    requires Decoded(value).Some?
    ensures var s := NormalizeBase32(value);
            Encoded(Decoded(value).value) == s
            <==> |Leftover(s)| < 5 && Leftover(s) == Zeros(|Leftover(s)|)
  {
    hide Joined, Cut, Spelled, Quintets, Zeros, Encoded, NormalizeBase32, AllSymbols, AllWide;
    var s := NormalizeBase32(value);
    var bits := Joined(Quintets(s));
    var bytes, rest := WholeOctets(s), Leftover(s);
    JoinedLength(Quintets(s), 5);
    JoinedOfCut(bits[..8 * (5 * |s| / 8)], 8, 5 * |s| / 8);
    assert bits == Joined(bytes) + rest;
    if |rest| < 5 && rest == Zeros(|rest|) {
      EncodingDone(bytes, Quintets(s), |rest|);
      SpelledOfQuintets(s);
    }
    if Encoded(bytes) == s {
      EncodedShape(bytes);
      JoinedLength(bytes, 8);
      assert rest == bits[8 * |bytes|..] == Zeros(5 * |s| - 8 * |bytes|);
    }
  }
}
