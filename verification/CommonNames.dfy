/** Common names of VPN users: which are valid, and how one is derived from an
    e-mail address so that no other user of the server has it. */
module CommonNames {
  import opened Text
  import opened Collections

  predicate IsNameChar(c: char) {
    'a' <= c <= 'z' || 'A' <= c <= 'Z' || IsDigit(c) || c == '.' || c == '_' || c == '-'
  }

  predicate AllNameChars(s: string) {
    forall i :: 0 <= i < |s| ==> IsNameChar(s[i])
  }

  predicate HasTwoDots(s: string) {
    exists i :: 0 <= i < |s| - 1 && s[i] == '.' && s[i + 1] == '.'
  }

  predicate ValidCommonName(s: string) {
    1 <= |s| <= 64 && AllNameChars(s) && !HasTwoDots(s)
  }

  /** The characters of a name by their codes: letters, digits, "-", "." and "_". */
  predicate NameCode(n: int) {
    97 <= n <= 122 || 65 <= n <= 90 || 48 <= n <= 57 || n in {45, 46, 95}
  }

  lemma TwoDotsIff(s: string)
    ensures HasTwoDots(s) <==> exists a, b :: s == a + ".." + b
  {
    if a, b :| s == a + ".." + b {
      assert s[|a|] == '.' && s[|a| + 1] == '.';
    }
    if HasTwoDots(s) {
      var i :| 0 <= i < |s| - 1 && s[i] == '.' && s[i + 1] == '.';
      assert s == s[..i] + ".." + s[i + 2..];
    }
  }

  /** A valid name is nonempty, has at most 64 of these characters, and is not put
      together around "..". */
  lemma ValidNameIff(s: string)
    ensures ValidCommonName(s)
            <==> && s != "" && |s| <= 64 && (forall c :: c in s ==> NameCode(c as int))
                 && !exists a, b :: s == a + ".." + b
  {
    TwoDotsIff(s);
    hide HasTwoDots;
    if forall c :: c in s ==> NameCode(c as int) {
      forall i | 0 <= i < |s| ensures IsNameChar(s[i]) {
        assert s[i] in s;
      }
    }
  }

  // Deriving a base ---------------------------------------------------------

  predicate IsLineTerminator(c: char) {
    c == '\n' || c == '\r' || c == '\U{2028}' || c == '\U{2029}'
  }

  /** Cut at the first "+" behind which no line ends. */
  function DropPlus(s: string): string {
    if s == [] then []
    else if s[0] == '+' && forall i :: 1 <= i < |s| ==> !IsLineTerminator(s[i]) then []
    else [s[0]] + DropPlus(s[1..])
  }

  function DeriveCommonName(email: string): string {
    DropPlus(Split(email, '@')[0])
  }

  function NameCharsOnly(s: string): (r: string)
    ensures |r| == |s| && AllNameChars(r)
  {
    seq(|s|, i requires 0 <= i < |s| => if IsNameChar(s[i]) then s[i] else '_')
  }

  predicate IsSeparator(c: char) {
    c == '.' || c == '_' || c == '-'
  }

  function StripFront(s: string): (r: string)
    ensures AllNameChars(s) ==> AllNameChars(r)
  {
    if s != [] && IsSeparator(s[0]) then StripFront(s[1..]) else s
  }

  function StripBack(s: string): (r: string)
    ensures AllNameChars(s) ==> AllNameChars(r)
  {
    if s != [] && IsSeparator(s[|s| - 1]) then StripBack(s[..|s| - 1]) else s
  }

  function Take(s: string, n: nat): (r: string)
    ensures |r| == if n <= |s| then n else |s|
    ensures r <= s
  {
    if n <= |s| then s[..n] else s
  }

  /** A base is never empty, at most 64 characters long, and made of name
      characters; it may still contain two dots in a row. */
  predicate IsBase(s: string) {
    1 <= |s| <= 64 && AllNameChars(s)
  }

  function SanitizeCommonName(email: string): (base: string)
    ensures IsBase(base)
  {
    var candidate := Take(StripBack(StripFront(NameCharsOnly(DeriveCommonName(email)))), 64);
    if |candidate| > 0 then candidate else "user"
  }

  /** Where the name is cut: at the first "+" with no line feed, carriage return, line
      separator or paragraph separator behind it; nowhere if there is none. */
  lemma {:induction false} DropPlusMeaning(s: string)
    ensures var k := |DropPlus(s)|;
            && DropPlus(s) <= s
            && (k < |s| ==> CutAt(s, k)) && forall j :: 0 <= j < k ==> !CutAt(s, j)
  {
    if s != [] && !CutAt(s, 0) {
      DropPlusMeaning(s[1..]);
      var k := |DropPlus(s[1..])|;
      forall j | 0 <= j < |s| - 1 ensures CutAt(s[1..], j) <==> CutAt(s, j + 1) {
        assert forall i :: j + 1 < i < |s| ==> s[i] == s[1..][i - 1];
        assert forall i :: j < i < |s| - 1 ==> s[1..][i] == s[i + 1];
      }
      forall j | 0 <= j < k + 1 ensures !CutAt(s, j) {
        if j > 0 {
          assert !CutAt(s[1..], j - 1);
        }
      }
      if !(s[0] == '+' && forall i :: 1 <= i < |s| ==> !IsLineTerminator(s[i])) {
        assert DropPlus(s) == [s[0]] + DropPlus(s[1..]);
      }
    }
  }

  predicate CutAt(s: string, k: nat)
    requires k < |s|
  {
    s[k] as int == 43 && forall i :: k < i < |s| ==> !EndsLine(s[i] as int)
  }

  predicate EndsLine(n: int) {
    n in {10, 13, 0x2028, 0x2029}
  }

  /** The part of an e-mail in front of the first "@" or "+", if no line ends in it. */
  lemma DerivedIsPrefix(email: string)
    requires forall i :: 0 <= i < |email| ==> !IsLineTerminator(email[i])
    ensures var d := DeriveCommonName(email);
            && d <= email && '@' !in d && '+' !in d
            && (d == email || email[|d|] == '@' || email[|d|] == '+')
  {
    var i := Find(email, '@');
    assert Split(email, '@')[0] == email[..i];
    DropPlusCuts(email[..i]);
  }

  lemma {:induction false} DropPlusCuts(s: string)
    requires forall i :: 0 <= i < |s| ==> !IsLineTerminator(s[i])
    ensures DropPlus(s) <= s && '+' !in DropPlus(s)
    ensures DropPlus(s) == s || s[|DropPlus(s)|] == '+'
  {
    if s != [] && s[0] != '+' {
      DropPlusCuts(s[1..]);
    }
  }

  /** The name between its leading and trailing separators. */
  lemma {:induction false} StripBackShape(s: string)
    ensures StripBack(s) <= s && (StripBack(s) == [] || !IsSeparator(StripBack(s)[|StripBack(s)| - 1]))
    ensures forall i :: |StripBack(s)| <= i < |s| ==> IsSeparator(s[i])
  {
    if s != [] && IsSeparator(s[|s| - 1]) {
      StripBackShape(s[..|s| - 1]);
    }
  }

  lemma {:induction false} StripFrontShape(s: string) returns (n: nat)
    ensures n <= |s| && StripFront(s) == s[n..] && (n == |s| || !IsSeparator(s[n]))
    ensures forall i :: 0 <= i < n ==> IsSeparator(s[i])
  {
    n := 0;
    if s != [] && IsSeparator(s[0]) {
      var m := StripFrontShape(s[1..]);
      n := m + 1;
      assert s[1..][m..] == s[n..];
      assert forall i :: 1 <= i < n ==> s[i] == s[1..][i - 1];
    }
  }

  /** Where the base comes from: the derived name, other characters replaced by "_",
      without the separators at either end, cut to 64; "user" if nothing is left. */
  lemma BaseMeaning(email: string) returns (from: nat, to: nat)
    ensures var name := NameCharsOnly(DeriveCommonName(email));
            && from <= to <= |name|
            && (forall i :: 0 <= i < from || to <= i < |name| ==> name[i] in "._-")
            && (from < to ==> name[from] !in "._-" && name[to - 1] !in "._-")
            && SanitizeCommonName(email) == if from < to then Take(name[from..to], 64) else "user"
  {
    var name := NameCharsOnly(DeriveCommonName(email));
    from := StripFrontShape(name);
    StripBackShape(name[from..]);
    to := from + |StripBack(name[from..])|;
    assert name[from..to] == StripBack(name[from..]);
    assert forall i :: from <= i < |name| ==> name[i] == name[from..][i - from];
  }

  // Candidates --------------------------------------------------------------

  /** The base itself, then the base cut to make room for "-2" up to "-100". */
  function Candidate(base: string, suffix: nat): string {
    if suffix == 0 then base
    else
      var digits := Decimal(suffix + 1);
      Take(base, if 64 - |digits| - 1 > 1 then 64 - |digits| - 1 else 1) + "-" + digits
  }

  const ATTEMPTS: nat := 100

  /** The first candidate from `suffix` on that is valid and not taken. */
  function FirstFree(base: string, taken: set<string>, suffix: nat): Option<string>
    decreases ATTEMPTS - suffix
  {
    if suffix >= ATTEMPTS then None
    else if ValidCommonName(Candidate(base, suffix)) && Candidate(base, suffix) !in taken
    then Some(Candidate(base, suffix))
    else FirstFree(base, taken, suffix + 1)
  }

  method BuildUniqueCommonName(email: string, taken: set<string>) returns (name: Option<string>)
    ensures name == FirstFree(SanitizeCommonName(email), taken, 0)
  {
    var base := SanitizeCommonName(email);
    var suffix := 0;
    while suffix < ATTEMPTS
      invariant suffix <= ATTEMPTS && FirstFree(base, taken, 0) == FirstFree(base, taken, suffix)
    {
      var next := Candidate(base, suffix);
      if ValidCommonName(next) && next !in taken {
        return Some(next);
      }
      suffix := suffix + 1;
    }
    return None;
  }

  /** A name that is returned is valid, not taken, and the first such candidate;
      none is returned exactly when every candidate is invalid or taken. */
  lemma {:induction false} FirstFreeMeaning(base: string, taken: set<string>, suffix: nat)
    ensures match FirstFree(base, taken, suffix)
            case Some(name) =>
              && ValidCommonName(name) && name !in taken
              && exists k :: suffix <= k < ATTEMPTS && name == Candidate(base, k)
            case None =>
              forall k :: suffix <= k < ATTEMPTS ==> !ValidCommonName(Candidate(base, k)) || Candidate(base, k) in taken
    decreases ATTEMPTS - suffix
  {
    if suffix < ATTEMPTS {
      FirstFreeMeaning(base, taken, suffix + 1);
    }
  }

  // When it succeeds --------------------------------------------------------

  lemma DecimalLength(n: nat)
    requires n <= 100
    ensures |Decimal(n)| == if n < 10 then 1 else if n < 100 then 2 else 3
  {
    if n >= 10 {
      assert |Decimal(n / 10)| == if n < 100 then 1 else 2;
    }
  }

  /** How much of the base a candidate keeps. */
  lemma CandidateShape(base: string, k: nat)
    requires IsBase(base) && 1 <= k < ATTEMPTS
    ensures var room := if k + 1 < 10 then 62 else if k + 1 < 100 then 61 else 60;
            Candidate(base, k) == Take(base, room) + "-" + Decimal(k + 1)
    ensures 1 <= |Candidate(base, k)| <= 64
  {
    DecimalLength(k + 1);
  }

  lemma DigitsAreNameChars(s: string)
    requires AllDigits(s)
    ensures AllNameChars(s) && '.' !in s && '-' !in s
  {
    forall i | 0 <= i < |s| ensures IsNameChar(s[i]) && s[i] != '.' && s[i] != '-' {
      assert IsDigit(s[i]);
    }
  }

  /** Behind the kept part come no two dots. */
  lemma DashAndDigitsAddNoDots(kept: string, digits: string)
    requires AllDigits(digits)
    ensures HasTwoDots(kept + "-" + digits) <==> HasTwoDots(kept)
  {
    var c := kept + "-" + digits;
    assert forall i :: 0 <= i < |kept| ==> c[i] == kept[i];
    if HasTwoDots(kept) {
      var i :| 0 <= i < |kept| - 1 && kept[i] == '.' && kept[i + 1] == '.';
      assert c[i] == '.' && c[i + 1] == '.';
    }
    if HasTwoDots(c) {
      var i :| 0 <= i < |c| - 1 && c[i] == '.' && c[i + 1] == '.';
      assert kept[i] == '.' && kept[i + 1] == '.';
    }
  }

  /** A candidate is valid exactly when the part of the base it keeps is. */
  lemma CandidateValidIff(base: string, k: nat)
    requires IsBase(base) && 1 <= k < ATTEMPTS
    ensures var room := if k + 1 < 10 then 62 else if k + 1 < 100 then 61 else 60;
            ValidCommonName(Candidate(base, k)) <==> !HasTwoDots(Take(base, room))
  {
    hide HasTwoDots, Decimal, Candidate;
    var kept := Take(base, if k + 1 < 10 then 62 else if k + 1 < 100 then 61 else 60);
    CandidateShape(base, k);
    DigitsAreNameChars(Decimal(k + 1));
    DashAndDigitsAddNoDots(kept, Decimal(k + 1));
  }

  /** Behind the last "-" stands the number, so the numbered candidates differ. */
  lemma CandidatesDiffer(base: string, j: nat, k: nat)
    requires IsBase(base) && 1 <= j < k < ATTEMPTS
    ensures Candidate(base, j) != Candidate(base, k)
  {
    CandidateShape(base, j);
    CandidateShape(base, k);
    if Candidate(base, j) == Candidate(base, k) {
      var a := Take(base, if j + 1 < 10 then 62 else 61);
      var b := Take(base, if k + 1 < 10 then 62 else if k + 1 < 100 then 61 else 60);
      LastDash(a, Decimal(j + 1), b, Decimal(k + 1));
      DecimalIsInjective(j + 1, k + 1);
    }
  }

  lemma LastDash(a: string, x: string, b: string, y: string)
    requires AllDigits(x) && AllDigits(y) && a + "-" + x == b + "-" + y
    ensures x == y
  {
    var s := a + "-" + x;
    DigitsAreNameChars(x);
    DigitsAreNameChars(y);
    assert s[|a|] == '-' && s[|b|] == '-';
    assert forall i :: |a| < i < |s| ==> s[i] == x[i - |a| - 1] && s[i] in x;
    assert forall i :: |b| < i < |s| ==> s[i] == y[i - |b| - 1] && s[i] in y;
    assert |a| == |b|;
    assert s[|a| + 1..] == x && s[|b| + 1..] == y;
  }

  ghost function NumberedCandidates(base: string, n: nat): set<string> {
    set k | 1 <= k <= n :: Candidate(base, k)
  }

  lemma {:induction false} NumberedSize(base: string, n: nat)
    requires IsBase(base) && n < ATTEMPTS
    ensures |NumberedCandidates(base, n)| == n
  {
    hide Candidate;
    if n == 0 {
      assert NumberedCandidates(base, 0) == {};
    } else {
      NumberedSize(base, n - 1);
      forall k | 1 <= k < n ensures Candidate(base, k) != Candidate(base, n) {
        CandidatesDiffer(base, k, n);
      }
      assert NumberedCandidates(base, n) == NumberedCandidates(base, n - 1) + {Candidate(base, n)};
    }
  }

  lemma PrefixDots(s: string, m: nat, n: nat)
    requires m <= n && HasTwoDots(Take(s, m))
    ensures HasTwoDots(Take(s, n))
  {
    var i :| 0 <= i < |Take(s, m)| - 1 && Take(s, m)[i] == '.' && Take(s, m)[i + 1] == '.';
    assert Take(s, n)[i] == '.' && Take(s, n)[i + 1] == '.';
  }

  /** With fewer than 99 names taken one of the 99 numbered candidates is free. */
  lemma Pigeonhole(base: string, taken: set<string>)
    requires IsBase(base) && !HasTwoDots(Take(base, 62)) && |taken| < 99
    ensures FirstFree(base, taken, 0).Some?
  {
    FirstFreeMeaning(base, taken, 0);
    if FirstFree(base, taken, 0).None? {
      var all := NumberedCandidates(base, 99);
      forall k | 1 <= k <= 99 ensures Candidate(base, k) in taken {
        CandidateValidIff(base, k);
        NoDotsInPrefix(base, if k + 1 < 10 then 62 else if k + 1 < 100 then 61 else 60, 62);
      }
      NumberedSize(base, 99);
      SubsetSize(all, taken);
    }
  }

  lemma NoDotsInPrefix(s: string, m: nat, n: nat)
    requires m <= n && !HasTwoDots(Take(s, n))
    ensures !HasTwoDots(Take(s, m))
  {
    if HasTwoDots(Take(s, m)) {
      PrefixDots(s, m, n);
    }
  }

  ghost function Tail(base: string, n: nat): set<string> {
    set k | 9 <= k < 9 + n :: Candidate(base, k)
  }

  /** The names that make the search fail when the base has two dots early on:
      the base itself and the candidates "-10" up to "-100". */
  ghost function Blockers(base: string): set<string> {
    {Candidate(base, 0)} + Tail(base, 91)
  }

  lemma BlockersAreFew(base: string)
    ensures |Blockers(base)| < 99
  {
    ImageSize(base, 91);
  }

  lemma {:induction false} ImageSize(base: string, n: nat)
    ensures |Tail(base, n)| <= n
  {
    hide Candidate;
    if n == 0 {
      assert Tail(base, 0) == {};
    } else {
      ImageSize(base, n - 1);
      assert Tail(base, n) == Tail(base, n - 1) + {Candidate(base, 9 + n - 1)};
    }
  }

  /** Exactly when a name is found whichever fewer than 99 names are taken: when
      the first 62 characters of the base have no two dots in a row. */
  lemma {:induction false} AllocationSucceedsIff(base: string)
    requires IsBase(base)
    ensures (forall taken: set<string> :: |taken| < 99 ==> FirstFree(base, taken, 0).Some?)
            <==> !HasTwoDots(Take(base, 62))
  {
    if !HasTwoDots(Take(base, 62)) {
      forall taken: set<string> | |taken| < 99 ensures FirstFree(base, taken, 0).Some? {
        Pigeonhole(base, taken);
      }
    } else {
      var taken := Blockers(base);
      BlockersAreFew(base);
      forall k | 0 <= k < ATTEMPTS ensures !ValidCommonName(Candidate(base, k)) || Candidate(base, k) in taken {
        if 1 <= k < 9 {
          CandidateValidIff(base, k);
        }
      }
      NothingFree(base, taken, 0);
    }
  }

  lemma {:induction false} NothingFree(base: string, taken: set<string>, suffix: nat)
    requires forall k :: suffix <= k < ATTEMPTS ==> !ValidCommonName(Candidate(base, k)) || Candidate(base, k) in taken
    ensures FirstFree(base, taken, suffix).None?
    decreases ATTEMPTS - suffix
  {
    if suffix < ATTEMPTS {
      NothingFree(base, taken, suffix + 1);
    }
  }

  /** With two dots among the first 60 characters it fails even on an empty server. */
  lemma {:induction false} EarlyDotsAlwaysFail(base: string, taken: set<string>)
    requires IsBase(base) && HasTwoDots(Take(base, 60))
    ensures FirstFree(base, taken, 0) == None
  {
    forall k | 0 <= k < ATTEMPTS ensures !ValidCommonName(Candidate(base, k)) {
      if k == 0 {
        PrefixDots(base, 60, 64);
        assert Take(base, 64) == base;
      } else {
        CandidateValidIff(base, k);
        PrefixDots(base, 60, if k + 1 < 10 then 62 else if k + 1 < 100 then 61 else 60);
      }
    }
    NothingFree(base, taken, 0);
  }
}
