/**
The string operations the naming code uses: splitting and joining on a separator, prefixes and
suffixes, and decimal numbers. A string stands for the bytes of a Go string, one char a byte.
*/
module Strings {
  import opened Wrappers

  predicate HasPrefix(s: string, prefix: string) {
    |prefix| <= |s| && s[..|prefix|] == prefix
  }

  predicate HasSuffix(s: string, suffix: string) {
    |suffix| <= |s| && s[|s| - |suffix|..] == suffix
  }

  // ----- Split and Join -----

  /** strings.Split for a one-byte separator: n separators give n + 1 parts. */
  function Split(s: string, sep: char): (parts: seq<string>)
    ensures |parts| > 0
  {
    if s == "" then [""]
    else
      var rest := Split(s[1..], sep);
      if s[0] == sep then [""] + rest else [[s[0]] + rest[0]] + rest[1..]
  }

  /** strings.Join for a one-byte separator. */
  function Join(parts: seq<string>, sep: char): string {
    if |parts| == 0 then ""
    else if |parts| == 1 then parts[0]
    else parts[0] + [sep] + Join(parts[1..], sep)
  }

  lemma {:induction false} SplitOnePart(p: string, sep: char)
    requires sep !in p
    ensures Split(p, sep) == [p]
  {
    if p != "" {
      SplitOnePart(p[1..], sep);
      assert [p[0]] + p[1..] == p;
    }
  }

  lemma {:induction false} SplitFirstPart(p: string, rest: string, sep: char)
    requires sep !in p
    ensures Split(p + [sep] + rest, sep) == [p] + Split(rest, sep)
  {
    var s := p + [sep] + rest;
    if p == "" {
      assert s[1..] == rest;
    } else {
      SplitFirstPart(p[1..], rest, sep);
      assert s[1..] == p[1..] + [sep] + rest;
      assert [p[0]] + p[1..] == p;
    }
  }

  lemma {:induction false} SplitJoin(parts: seq<string>, sep: char)
    requires |parts| > 0 && forall i :: 0 <= i < |parts| ==> sep !in parts[i]
    ensures Split(Join(parts, sep), sep) == parts
  {
    if |parts| == 1 {
      SplitOnePart(parts[0], sep);
    } else {
      SplitFirstPart(parts[0], Join(parts[1..], sep), sep);
      SplitJoin(parts[1..], sep);
    }
  }

  lemma {:induction false} JoinSplit(s: string, sep: char)
    ensures Join(Split(s, sep), sep) == s
    ensures forall i :: 0 <= i < |Split(s, sep)| ==> sep !in Split(s, sep)[i]
  {
    if s != "" {
      JoinSplit(s[1..], sep);
      var rest := Split(s[1..], sep);
      if s[0] != sep {
        var head := [s[0]] + rest[0];
        assert Split(s, sep)[1..] == rest[1..];
        assert Join(Split(s, sep), sep) == [s[0]] + Join(rest, sep);
      } else {
        assert Split(s, sep)[1..] == rest;
      }
    }
  }

  lemma SplitTwoParts(a: string, b: string, sep: char)
    requires sep !in a && sep !in b
    ensures Split(a + [sep] + b, sep) == [a, b]
  {
    SplitOnePart(b, sep);
    SplitFirstPart(a, b, sep);
  }

  lemma SplitThreeParts(a: string, b: string, c: string, sep: char)
    requires sep !in a && sep !in b && sep !in c
    ensures Split(a + [sep] + b + [sep] + c, sep) == [a, b, c]
  {
    SplitTwoParts(b, c, sep);
    SplitFirstPart(a, b + [sep] + c, sep);
    assert a + [sep] + b + [sep] + c == a + [sep] + (b + [sep] + c);
  }

  /** Three separators make at least four parts. */
  lemma SplitMoreParts(a: string, b: string, c: string, rest: string, sep: char)
    requires sep !in a && sep !in b && sep !in c
    ensures |Split(a + [sep] + b + [sep] + c + [sep] + rest, sep)| > 3
  {
    SplitFirstPart(c, rest, sep);
    SplitFirstPart(b, c + [sep] + rest, sep);
    SplitFirstPart(a, b + [sep] + (c + [sep] + rest), sep);
    assert a + [sep] + b + [sep] + c + [sep] + rest == a + [sep] + (b + [sep] + (c + [sep] + rest));
  }

  lemma JoinOfFew(parts: seq<string>, sep: char)
    requires 1 <= |parts| <= 3
    ensures |parts| == 1 ==> Join(parts, sep) == parts[0]
    ensures |parts| == 2 ==> Join(parts, sep) == parts[0] + [sep] + parts[1]
    ensures |parts| == 3 ==> Join(parts, sep) == parts[0] + [sep] + (parts[1] + [sep] + parts[2])
    ensures |parts| == 3 ==> Join(parts, sep) == parts[0] + [sep] + parts[1] + [sep] + parts[2]
  {
    if |parts| == 3 {
      assert parts[0] + [sep] + (parts[1] + [sep] + parts[2]) == parts[0] + [sep] + parts[1] + [sep] + parts[2];
    }
  }

  lemma PartsHaveOnlyCharsOf(s: string, sep: char, c: char)
    requires c !in s
    ensures forall i :: 0 <= i < |Split(s, sep)| ==> c !in Split(s, sep)[i]
  {
    if s != "" {
      PartsHaveOnlyCharsOf(s[1..], sep, c);
    }
  }

  // ----- Decimal numbers -----

  predicate IsDigit(c: char) { '0' <= c <= '9' }

  predicate AllDigits(s: string) { forall i :: 0 <= i < |s| ==> IsDigit(s[i]) }

  function DigitChar(d: nat): (c: char)
    requires d < 10
    ensures IsDigit(c)
  {
    '0' + (d as char)
  }

  function DigitValue(c: char): (d: nat)
    requires IsDigit(c)
    ensures d < 10
  {
    (c - '0') as nat
  }

  /** The decimal text of n, as strconv.Itoa and %d print it. */
  function Decimal(n: nat): (s: string)
    ensures |s| > 0 && AllDigits(s)
  {
    if n < 10 then [DigitChar(n)] else Decimal(n / 10) + [DigitChar(n % 10)]
  }

  function DecimalValue(s: string): nat
    requires AllDigits(s)
  {
    if s == "" then 0 else 10 * DecimalValue(s[..|s| - 1]) + DigitValue(s[|s| - 1])
  }

  lemma {:induction false} DecimalRoundTrip(n: nat)
    ensures DecimalValue(Decimal(n)) == n
  {
    if n >= 10 {
      DecimalRoundTrip(n / 10);
      assert Decimal(n)[..|Decimal(n)| - 1] == Decimal(n / 10);
    } else {
      assert Decimal(n)[..0] == "";
    }
  }

  lemma DecimalInjective(m: nat, n: nat)
    requires Decimal(m) == Decimal(n)
    ensures m == n
  {
    DecimalRoundTrip(m);
    DecimalRoundTrip(n);
  }

  const MIN_INT64: int := -0x8000_0000_0000_0000
  const MAX_INT64: int := 0x7fff_ffff_ffff_ffff

  /** strconv.Itoa. */
  function Itoa(n: int): string {
    if n < 0 then "-" + Decimal(-n) else Decimal(n)
  }

  /** strconv.Atoi: an optional sign, at least one digit, and a value that fits in an int. */
  function Atoi(s: string): Option<int> {
    var digits := if s != "" && (s[0] == '-' || s[0] == '+') then s[1..] else s;
    if digits == "" || !AllDigits(digits) then None
    else
      var n := DecimalValue(digits) * (if s[0] == '-' then -1 else 1);
      if MIN_INT64 <= n <= MAX_INT64 then Some(n) else None
  }

  lemma AtoiUnsigned(n: nat)
    requires n <= MAX_INT64
    ensures Atoi(Decimal(n)) == Some(n)
  {
    DecimalRoundTrip(n);
    AtoiDigits(Decimal(n));
  }

  lemma AtoiDigits(digits: string)
    requires digits != "" && AllDigits(digits) && DecimalValue(digits) <= MAX_INT64
    ensures Atoi(digits) == Some(DecimalValue(digits))
  {
    assert IsDigit(digits[0]);
  }

  lemma AtoiNegative(digits: string)
    requires digits != "" && AllDigits(digits) && 0 - DecimalValue(digits) >= MIN_INT64
    ensures Atoi("-" + digits) == Some(0 - DecimalValue(digits))
  {
    assert ("-" + digits)[1..] == digits;
  }

  /** All texts of numbers: digits, whatever zeros they start with, after one sign or none, as long as the value fits. */
  lemma AtoiTexts(digits: string)
    requires digits != "" && AllDigits(digits)
    ensures Atoi(digits) == if DecimalValue(digits) <= MAX_INT64 then Some(DecimalValue(digits)) else None
    ensures Atoi("+" + digits) == Atoi(digits)
    ensures Atoi("-" + digits) == if 0 - DecimalValue(digits) >= MIN_INT64 then Some(0 - DecimalValue(digits)) else None
    ensures Atoi("0" + digits) == Atoi(digits)
  {
    hide DecimalValue;
    assert IsDigit(digits[0]);
    assert ("+" + digits)[1..] == digits && ("-" + digits)[1..] == digits;
    LeadingZero(digits);
  }

  lemma {:induction false} LeadingZero(digits: string)
    requires AllDigits(digits)
    ensures AllDigits("0" + digits) && DecimalValue("0" + digits) == DecimalValue(digits)
  {
    var s := "0" + digits;
    if digits == "" {
      assert s[..0] == "" && DigitValue('0') == 0;
    } else {
      LeadingZero(digits[..|digits| - 1]);
      assert s[..|s| - 1] == "0" + digits[..|digits| - 1];
    }
  }

  /** Nothing else is a number. */
  lemma AtoiShape(s: string)
    requires Atoi(s).Some?
    ensures s != "" && if s[0] == '-' || s[0] == '+' then s[1..] != "" && AllDigits(s[1..]) else AllDigits(s)
  {
  }

  lemma AtoiItoa(n: int)
    requires MIN_INT64 <= n <= MAX_INT64
    ensures Atoi(Itoa(n)) == Some(n)
  {
    if n < 0 {
      var m: nat := -n;
      DecimalRoundTrip(m);
      AtoiNegative(Decimal(m));
    } else {
      AtoiUnsigned(n);
    }
  }

  lemma AtoiChars(s: string, c: char)
    requires Atoi(s).Some? && c != '-' && c != '+' && !IsDigit(c)
    ensures c !in s
  {
    var digits := if s != "" && (s[0] == '-' || s[0] == '+') then s[1..] else s;
    assert s == digits || s == [s[0]] + digits;
  }

  // ----- Replacing characters -----

  /** strings.Replace of one byte by another. */
  function ReplaceChar(s: string, from: char, to: char): (r: string)
    ensures |r| == |s|
  {
    seq(|s|, i requires 0 <= i < |s| => if s[i] == from then to else s[i])
  }

  lemma ReplaceCharInjective(s: string, t: string, from: char, to: char)
    requires to !in s && to !in t && ReplaceChar(s, from, to) == ReplaceChar(t, from, to)
    ensures s == t
  {
    forall i | 0 <= i < |s| ensures s[i] == t[i] {
      assert ReplaceChar(s, from, to)[i] == ReplaceChar(t, from, to)[i];
      assert s[i] in s && t[i] in t;
    }
  }
}
