/** C string helpers shared by the model: character search, `%s` tokens and decimal integers. */
module Text {

  datatype Option<+T> = None | Some(value: T) {
    function GetOr(default: T): T {
      if None? then default else value
    }
  }

  /** The characters for which isspace() holds in the C locale. */
  predicate IsSpace(c: char) {
    c == ' ' || c == '\t' || c == '\n' || c == '\r' || c == '\U{000B}' || c == '\U{000C}'
  }

  /** Those are the blank and the control characters 9 to 13. */
  lemma SpaceCodes(c: char)
    ensures IsSpace(c) <==> c as int == 32 || 9 <= c as int <= 13
  {
  }

  predicate IsDigit(c: char) {
    '0' <= c <= '9'
  }

  predicate NoSpace(s: string) {
    forall c | c in s :: !IsSpace(c)
  }

  /** strchr(): the index of the first `c` in `s`, or |s| when there is none. */
  function FindChar(s: string, c: char): (k: nat)
    ensures k <= |s|
    ensures c !in s[..k]
    ensures k < |s| ==> s[k] == c
    ensures k == |s| <==> c !in s
  {
    if s == "" || s[0] == c then 0
    else
      assert s == [s[0]] + s[1..];
      1 + FindChar(s[1..], c)
  }

  lemma {:induction false} FindCharAfter(a: string, c: char, rest: string)
    requires c !in a
    ensures FindChar(a + [c] + rest, c) == |a|
  {
    if a == "" {
    } else {
      assert a[0] in a && a == [a[0]] + a[1..];
      assert (a + [c] + rest)[1..] == a[1..] + [c] + rest;
      FindCharAfter(a[1..], c, rest);
    }
  }

  /** What the C library sees of a buffer: everything before the first NUL. */
  function CString(s: string): (r: string)
    ensures r <= s && '\0' !in r
    ensures '\0' !in s ==> r == s
  {
    s[..FindChar(s, '\0')]
  }

  /** The number of leading white-space characters. */
  function LeadingSpaces(s: string): (k: nat)
    ensures k <= |s|
    ensures forall i | 0 <= i < k :: IsSpace(s[i])
    ensures k < |s| ==> !IsSpace(s[k])
  {
    if s == "" || !IsSpace(s[0]) then 0 else 1 + LeadingSpaces(s[1..])
  }

  /** The longest prefix without white space. */
  function Word(s: string): (w: string)
    ensures w <= s && NoSpace(w)
    ensures |w| < |s| ==> IsSpace(s[|w|])
    ensures NoSpace(s) ==> w == s
  {
    if s == "" || IsSpace(s[0]) then ""
    else
      assert s == [s[0]] + s[1..];
      [s[0]] + Word(s[1..])
  }

  /** sscanf(s, "%s", ..): skip white space, then take the word; "" when nothing is left. */
  function Token(s: string): (w: string)
    ensures NoSpace(w) && |w| <= |s|
    ensures forall c | c in w :: c in s
    ensures NoSpace(s) ==> w == s
    ensures w == "" <==> LeadingSpaces(s) == |s|
    ensures w != "" ==> w[0] == s[LeadingSpaces(s)]
  {
    Word(s[LeadingSpaces(s)..])
  }

  // ---- decimal integers ----

  function DigitChar(d: nat): (c: char)
    requires d < 10
    ensures IsDigit(c) && DigitOf(c) == d
  {
    '0' + d as char
  }

  function DigitOf(c: char): (d: nat)
    requires IsDigit(c)
    ensures d < 10
  {
    (c - '0') as nat
  }

  function Digits(n: nat): (s: string)
    ensures s != "" && AllDigits(s)
  {
    if n < 10 then [DigitChar(n)] else Digits(n / 10) + [DigitChar(n % 10)]
  }

  predicate AllDigits(s: string) {
    forall c | c in s :: IsDigit(c)
  }

  /** printf("%i"). */
  function IntToString(n: int): (s: string)
    ensures s != "" && NoSpace(s) && forall c | c in s :: IsDigit(c) || c == '-'
  {
    if n < 0 then "-" + Digits(-n) else Digits(n)
  }

  function DigitValue(s: string): nat
    requires AllDigits(s)
  {
    if s == "" then 0 else DigitValue(s[..|s| - 1]) * 10 + DigitOf(s[|s| - 1])
  }

  /** The longest prefix made of digits. */
  function DigitPrefix(s: string): (p: string)
    ensures p <= s && AllDigits(p)
    ensures AllDigits(s) ==> p == s
  {
    if s == "" || !IsDigit(s[0]) then ""
    else
      assert s == [s[0]] + s[1..];
      [s[0]] + DigitPrefix(s[1..])
  }

  /** atoi(): white space, an optional sign, then digits; 0 when there is no digit. */
  function Atoi(s: string): int
  {
    var t := s[LeadingSpaces(s)..];
    if t != "" && t[0] == '-' then 0 - DigitValue(DigitPrefix(t[1..])) as int
    else if t != "" && t[0] == '+' then DigitValue(DigitPrefix(t[1..]))
    else DigitValue(DigitPrefix(t))
  }

  lemma {:induction false} DigitsRoundTrip(n: nat)
    ensures DigitValue(Digits(n)) == n
  {
    if n >= 10 {
      DigitsRoundTrip(n / 10);
      var s := Digits(n);
      assert s[..|s| - 1] == Digits(n / 10);
    } else {
      assert Digits(n)[..0] == "";
    }
  }

  /** Reading a printed integer gives the integer back. */
  lemma AtoiOfIntToString(n: int)
    ensures Atoi(IntToString(n)) == n
  {
    var s := IntToString(n);
    assert s[0] in s && LeadingSpaces(s) == 0 && s[0..] == s;
    if n < 0 {
      DigitsRoundTrip(-n);
      assert s[1..] == Digits(-n);
    } else {
      DigitsRoundTrip(n);
      assert IsDigit(s[0]);
    }
  }

  lemma {:induction false} DigitPrefixStops(digits: string, tail: string)
    requires AllDigits(digits) && (tail != "" ==> !IsDigit(tail[0]))
    ensures DigitPrefix(digits + tail) == digits
  {
    if digits == "" {
      assert digits + tail == tail;
    } else {
      assert digits[0] in digits && (digits + tail)[1..] == digits[1..] + tail;
      DigitPrefixStops(digits[1..], tail);
    }
  }

  lemma {:induction false} LeadingSpacesSkip(lead: string, rest: string)
    requires (forall c | c in lead :: IsSpace(c)) && rest != "" && !IsSpace(rest[0])
    ensures LeadingSpaces(lead + rest) == |lead| && (lead + rest)[|lead|..] == rest
  {
    if lead == "" {
      assert lead + rest == rest;
    } else {
      assert lead[0] in lead && (lead + rest)[1..] == lead[1..] + rest;
      LeadingSpacesSkip(lead[1..], rest);
    }
  }

  /** Reading a hand-written number: white space before it, a sign, and anything but a digit after it. */
  lemma {:induction false} AtoiReads(lead: string, sign: string, n: nat, tail: string)
    requires (forall c | c in lead :: IsSpace(c)) && sign in {"", "-", "+"} && (tail != "" ==> !IsDigit(tail[0]))
    ensures Atoi(lead + sign + Digits(n) + tail) == if sign == "-" then 0 - n else n
  {
    hide Digits, DigitPrefix, LeadingSpaces, DigitValue, IsSpace, IsDigit;
    var digits := Digits(n);
    var rest := sign + digits + tail;
    assert rest[0] == if sign == "" then digits[0] else sign[0];
    PlainStart(digits);
    assert lead + sign + digits + tail == lead + rest;
    LeadingSpacesSkip(lead, rest);
    DigitPrefixStops(digits, tail);
    DigitsRoundTrip(n);
    assert sign == "" ==> rest == digits + tail;
    assert sign != "" ==> rest[1..] == digits + tail;
  }

  /** A number starts with neither white space nor a sign, and a sign is no white space. */
  lemma PlainStart(digits: string)
    requires digits != "" && AllDigits(digits)
    ensures !IsSpace(digits[0]) && digits[0] != '-' && digits[0] != '+' && !IsSpace('-') && !IsSpace('+')
  {
    assert digits[0] in digits;
  }

  lemma IntToStringInjective(m: int, n: int)
    requires m != n
    ensures IntToString(m) != IntToString(n)
  {
    AtoiOfIntToString(m);
    AtoiOfIntToString(n);
  }

  function Pow10(k: nat): (r: nat)
    ensures r > 0
  {
    if k == 0 then 1 else 10 * Pow10(k - 1)
  }

  /** A number below 10^k prints as at most k digits. */
  lemma {:induction false} DigitsLength(n: nat, k: nat)
    requires n < Pow10(k) && k > 0
    ensures |Digits(n)| <= k
  {
    if n < 10 {
    } else {
      assert k > 1 && n / 10 < Pow10(k - 1);
      DigitsLength(n / 10, k - 1);
    }
  }

  /** The largest C int. */
  const INT_MAX: nat := 0x7fff_ffff

  /** A C int that is not below -1 prints as at most ten characters. */
  lemma IntToStringLength(n: int)
    requires -1 <= n <= INT_MAX
    ensures |IntToString(n)| <= 10
  {
    if n < 0 {
      assert Digits(1) == [DigitChar(1)];
    } else {
      assert Pow10(10) == 10 * 10 * 10 * 10 * 10 * Pow10(5) == 10000000000;
      DigitsLength(n, 10);
    }
  }

  // ---- case-insensitive comparison ----

  function Lower(c: char): char {
    if 'A' <= c <= 'Z' then c + ('a' - 'A') else c
  }

  function ToLower(s: string): (r: string)
    ensures |r| == |s|
  {
    seq(|s|, i requires 0 <= i < |s| => Lower(s[i]))
  }

  /** strcasecmp(a, b) == 0. */
  predicate SameIgnoringCase(a: string, b: string) {
    ToLower(a) == ToLower(b)
  }

  /** The same letter, maybe once as a capital and once not. */
  predicate SameLetter(c: char, d: char) {
    || c == d
    || ('A' <= c <= 'Z' && d as int == c as int + 32)
    || ('A' <= d <= 'Z' && c as int == d as int + 32)
  }

  /** What "ignoring case" means, letter by letter. */
  lemma SameIgnoringCaseIff(a: string, b: string)
    ensures SameIgnoringCase(a, b) <==> |a| == |b| && forall i | 0 <= i < |a| :: SameLetter(a[i], b[i])
  {
    assert forall c: char, d: char :: Lower(c) == Lower(d) <==> SameLetter(c, d);
    if SameIgnoringCase(a, b) {
      forall i | 0 <= i < |a| ensures SameLetter(a[i], b[i]) {
        assert ToLower(a)[i] == ToLower(b)[i];
      }
    }
  }

  /** strstr(s, needle) != NULL, giving the index of the first match. */
  function FindString(s: string, needle: string): (k: Option<nat>)
    ensures k.Some? ==> OccursAt(s, needle, k.value) && forall i: nat | i < k.value :: !OccursAt(s, needle, i)
    ensures k.None? ==> forall i: nat :: !OccursAt(s, needle, i)
  {
    if needle <= s then Some(0)
    else if s == "" then None
    else
      assert forall i: nat | 0 < i <= |s| :: s[1..][i - 1..] == s[i..];
      assert forall i: nat | 0 < i :: OccursAt(s, needle, i) <==> OccursAt(s[1..], needle, i - 1);
      match FindString(s[1..], needle)
      case None => None
      case Some(k) => Some(1 + k)
  }

  predicate OccursAt(s: string, needle: string, i: nat) {
    i <= |s| && needle <= s[i..]
  }
}
