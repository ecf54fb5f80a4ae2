/**
 * Decimal text for the replay file: how numbers are written, and how the
 * standard library's `stoi`/`stoul` read them back.
 */
module ReplayText {
  import opened Wrappers

  type String = seq<char>

  /** The smallest and largest values of a 32-bit `int`. */
  const INT_MIN: int := -0x8000_0000
  const INT_MAX: int := 0x7FFF_FFFF
  /** The largest value of a 64-bit `unsigned long`. */
  const ULONG_MAX: nat := 0xFFFF_FFFF_FFFF_FFFF

  predicate IsDigit(c: char) { '0' <= c <= '9' }

  /** The characters `isspace` accepts in the default locale. */
  predicate IsSpace(c: char) { c == ' ' || c == '\t' || c == '\n' || c == '\r' || c == '\U{000C}' || c == '\U{000B}' }

  predicate AllDigits(s: String) { forall i :: 0 <= i < |s| ==> IsDigit(s[i]) }

  function DigitChar(d: nat): (c: char)
    requires d < 10
    ensures IsDigit(c)
  {
    (('0' as int) + d) as char
  }

  function DigitValue(c: char): nat
    requires IsDigit(c)
  {
    (c as int) - ('0' as int)
  }

  /** `n` in decimal, without leading zeros. */
  function NatToString(n: nat): String
  {
    if n < 10 then [DigitChar(n)] else NatToString(n / 10) + [DigitChar(n % 10)]
  }

  /** A number's decimal text is a non-empty string of digits. */
  lemma {:induction false} NatToStringDigits(n: nat)
    ensures |NatToString(n)| > 0 && AllDigits(NatToString(n))
  {
    if n >= 10 {
      NatToStringDigits(n / 10);
      assert NatToString(n) == NatToString(n / 10) + [DigitChar(n % 10)];
    }
  }

  /** `n` in decimal, with a leading minus sign when negative, as `operator<<` writes an `int`. */
  function IntToString(n: int): String
  {
    if n < 0 then "-" + NatToString(-n) else NatToString(n)
  }

  /** The value of a string of decimal digits. */
  function DigitsValue(s: String): nat
    requires AllDigits(s)
  {
    if |s| == 0 then 0 else DigitsValue(s[..|s| - 1]) * 10 + DigitValue(s[|s| - 1])
  }

  /** Reading a number's decimal digits gives the number back. */
  lemma {:induction false} NatToStringValue(n: nat)
    ensures AllDigits(NatToString(n)) && DigitsValue(NatToString(n)) == n
  {
    NatToStringDigits(n);
    if n >= 10 {
      NatToStringValue(n / 10);
      NatToStringDigits(n / 10);
      var s := NatToString(n);
      assert s[..|s| - 1] == NatToString(n / 10);
    }
  }

  /** The longest prefix of `s` made of digits. */
  function DigitRun(s: String): (r: String)
    ensures AllDigits(r)
  {
    if |s| == 0 || !IsDigit(s[0]) then [] else [s[0]] + DigitRun(s[1..])
  }

  /** The digit run is a prefix of `s`, and the character after it, if any, is not a digit. */
  lemma {:induction false} DigitRunLongest(s: String)
    ensures |DigitRun(s)| <= |s| && DigitRun(s) == s[..|DigitRun(s)|]
    ensures |DigitRun(s)| < |s| ==> !IsDigit(s[|DigitRun(s)|])
  {
    if |s| > 0 && IsDigit(s[0]) {
      DigitRunLongest(s[1..]);
      var r := DigitRun(s[1..]);
      assert DigitRun(s) == [s[0]] + r;
      assert s[..|r| + 1] == [s[0]] + s[1..][..|r|];
    }
  }

  /** A string of digits is its own longest digit prefix. */
  lemma {:induction false} DigitRunOfDigits(s: String)
    requires AllDigits(s)
    ensures DigitRun(s) == s
  {
    if |s| > 0 {
      DigitRunOfDigits(s[1..]);
      assert s == [s[0]] + s[1..];
    }
  }

  /** `s` without its leading white space. */
  function SkipSpace(s: String): String
  {
    if |s| > 0 && IsSpace(s[0]) then SkipSpace(s[1..]) else s
  }

  /** Skipping white space drops a prefix of `s`, and what is left does not start with white space. */
  lemma {:induction false} SkipSpaceSuffix(s: String)
    ensures |SkipSpace(s)| <= |s| && SkipSpace(s) == s[|s| - |SkipSpace(s)|..]
    ensures |SkipSpace(s)| > 0 ==> !IsSpace(SkipSpace(s)[0])
  {
    if |s| > 0 && IsSpace(s[0]) {
      SkipSpaceSuffix(s[1..]);
      assert s[1..][|s| - 1 - |SkipSpace(s)|..] == s[|s| - |SkipSpace(s)|..];
    }
  }

  /**
   * The magnitude and sign `strtol` reads from `s`: leading white space, an
   * optional `+` or `-`, then the longest run of digits, which must not be
   * empty; anything after the digits is ignored.
   */
  function ReadSigned(s: String): Option<(bool, nat)>
  {
    var t := SkipSpace(s);
    var negative := |t| > 0 && t[0] == '-';
    var body := if |t| > 0 && (t[0] == '-' || t[0] == '+') then t[1..] else t;
    var run := DigitRun(body);
    if |run| == 0 then None else Some((negative, DigitsValue(run)))
  }

  /**
   * `std::stoi`: the value `ReadSigned` reads, or no value where the library
   * throws, for text without digits and for values outside a 32-bit `int`.
   */
  function ParseInt(s: String): (r: Option<int>)
    ensures r.Some? ==> INT_MIN <= r.value <= INT_MAX
  {
    match ReadSigned(s)
    case None => None
    case Some((negative, m)) =>
      var v: int := if negative then 0 - (m as int) else m;
      if INT_MIN <= v <= INT_MAX then Some(v) else None
  }

  /**
   * `std::stoul` on a 64-bit `unsigned long`: the magnitude must fit, and
   * a minus sign negates modulo 2^64.
   */
  function ParseUnsigned(s: String): (r: Option<nat>)
    ensures r.Some? ==> r.value <= ULONG_MAX
  {
    match ReadSigned(s)
    case None => None
    case Some((negative, m)) =>
      if m > ULONG_MAX then None
      else if negative then Some((ULONG_MAX + 1 - m) % (ULONG_MAX + 1))
      else Some(m)
  }

  /** A number written as decimal text reads back as the same number. */
  lemma NatReadBack(n: nat)
    ensures ReadSigned(NatToString(n)) == Some((false, n))
  {
    var s := NatToString(n);
    NatToStringDigits(n);
    assert !IsSpace(s[0]) && s[0] != '-' && s[0] != '+';
    assert SkipSpace(s) == s;
    DigitRunOfDigits(s);
    NatToStringValue(n);
    ReadDigits(s);
  }

  /** Text starting with a digit reads as its leading digits, unsigned. */
  lemma ReadDigits(s: String)
    requires |s| > 0 && IsDigit(s[0]) && SkipSpace(s) == s
    ensures ReadSigned(s) == Some((false, DigitsValue(DigitRun(s))))
  {
    assert s[0] != '-' && s[0] != '+';
    var run := DigitRun(s);
    assert run == [s[0]] + DigitRun(s[1..]);
  }

  /** A number written as decimal text reads back through `std::stoi` and `std::stoul` when it fits. */
  lemma NatRoundTrip(n: nat)
    ensures n <= INT_MAX ==> ParseInt(NatToString(n)) == Some(n)
    ensures n <= ULONG_MAX ==> ParseUnsigned(NatToString(n)) == Some(n)
  {
    NatReadBack(n);
    ParseRead(NatToString(n), false, n);
  }

  /** What `std::stoi` and `std::stoul` make of a sign and magnitude read from the text. */
  lemma ParseRead(s: String, negative: bool, m: nat)
    requires ReadSigned(s) == Some((negative, m))
    ensures !negative && m <= INT_MAX ==> ParseInt(s) == Some(m)
    ensures negative && m <= 0x8000_0000 ==> ParseInt(s) == Some(0 - m)
    ensures !negative && m <= ULONG_MAX ==> ParseUnsigned(s) == Some(m)
    ensures m > ULONG_MAX ==> ParseUnsigned(s).None?
  {
  }

  /** An `int` written by `operator<<` reads back through `std::stoi` unchanged. */
  lemma IntRoundTrip(n: int)
    requires INT_MIN <= n <= INT_MAX
    ensures ParseInt(IntToString(n)) == Some(n)
  {
    if n < 0 {
      NegativeRoundTrip(n);
    } else {
      NatRoundTrip(n);
    }
  }

  /** A negative `int` written with its minus sign reads back through `std::stoi` unchanged. */
  lemma NegativeRoundTrip(n: int)
    requires INT_MIN <= n < 0
    ensures ParseInt(IntToString(n)) == Some(n)
  {
    var m: nat := -n;
    assert IntToString(n) == "-" + NatToString(m);
    NegativeParse(m);
  }

  /** A negative number written with its minus sign reads back through `std::stoi` when it fits. */
  lemma NegativeParse(m: nat)
    requires m <= 0x8000_0000
    ensures ParseInt("-" + NatToString(m)) == Some(0 - m)
  {
    NegativeReadBack(m);
    ParseRead("-" + NatToString(m), true, m);
  }

  /** A number written after a minus sign reads back as that magnitude, negative. */
  lemma NegativeReadBack(m: nat)
    ensures ReadSigned("-" + NatToString(m)) == Some((true, m))
  {
    var digits := NatToString(m);
    NatToStringDigits(m);
    var s := "-" + digits;
    assert SkipSpace(s) == s;
    assert s[1..] == digits;
    DigitRunOfDigits(digits);
    NatToStringValue(m);
    ReadMinus(s);
  }

  /** Text starting with a minus sign reads as the digits after it, negative. */
  lemma ReadMinus(s: String)
    requires |s| > 0 && s[0] == '-' && SkipSpace(s) == s
    ensures ReadSigned(s) == if |DigitRun(s[1..])| == 0 then None else Some((true, DigitsValue(DigitRun(s[1..]))))
  {
    var t := SkipSpace(s);
    assert t == s && |t| > 0 && t[0] == '-';
  }

  /** `std::stoi` reads the leading number of a token and ignores what follows it. */
  lemma ParseIgnoresTrailing(n: nat, junk: String)
    requires n <= INT_MAX && (|junk| == 0 || !IsDigit(junk[0]))
    ensures ParseInt(NatToString(n) + junk) == Some(n)
  {
    var s := NatToString(n);
    NatToStringDigits(n);
    var t := s + junk;
    assert t[0] == s[0];
    assert SkipSpace(t) == t;
    DigitRunPrefix(s, junk);
    NatToStringValue(n);
    ReadDigits(t);
    ParseRead(t, false, n);
  }

  /** The digit run of digits followed by a non-digit is those digits. */
  lemma {:induction false} DigitRunPrefix(s: String, junk: String)
    requires AllDigits(s) && (|junk| == 0 || !IsDigit(junk[0]))
    ensures DigitRun(s + junk) == s
  {
    if |s| > 0 {
      DigitRunPrefix(s[1..], junk);
      assert (s + junk)[1..] == s[1..] + junk;
      assert s == [s[0]] + s[1..];
    }
  }

  /** The index of the first `c` in `s`, if any. */
  function IndexOf(s: String, c: char): (r: Option<nat>)
    ensures r.None? <==> c !in s
    ensures r.Some? ==> r.value < |s| && s[r.value] == c && c !in s[..r.value]
  {
    if |s| == 0 then None
    else if s[0] == c then Some(0)
    else
      match IndexOf(s[1..], c)
      case None => None
      case Some(i) => assert s[..i + 1] == [s[0]] + s[1..][..i]; Some(i + 1)
  }

  /**
   * The tokens `std::getline(stream, token, ',')` extracts from `s` one by
   * one: the text between commas; a trailing comma starts no further token.
   */
  function SplitFields(s: String): seq<String>
    decreases |s|
  {
    if |s| == 0 then []
    else
      match IndexOf(s, ',')
      case None => [s]
      case Some(i) => [s[..i]] + SplitFields(s[i + 1..])
  }

  /** Fields joined with commas. */
  function Join(fields: seq<String>): String
  {
    if |fields| == 0 then []
    else if |fields| == 1 then fields[0]
    else fields[0] + "," + Join(fields[1..])
  }

  /** Joining non-empty fields without commas and splitting again gives the fields back. */
  lemma {:induction false} SplitJoin(fields: seq<String>)
    requires forall k :: 0 <= k < |fields| ==> |fields[k]| > 0 && ',' !in fields[k]
    ensures SplitFields(Join(fields)) == fields
  {
    if |fields| == 1 {
      assert IndexOf(fields[0], ',').None?;
    } else if |fields| > 1 {
      var head, rest := fields[0], Join(fields[1..]);
      var s := head + "," + rest;
      assert s[..|head|] == head && s[|head|] == ',';
      assert ',' !in s[..|head|];
      assert IndexOf(s, ',') == Some(|head|);
      assert s[|head| + 1..] == rest;
      SplitJoin(fields[1..]);
      assert fields == [head] + fields[1..];
    }
  }

  /** Decimal text holds no comma and no equals sign. */
  lemma NumberTextPlain(n: int)
    ensures ',' !in IntToString(n) && '=' !in IntToString(n)
    ensures ',' !in NatToString(if n < 0 then -n else n)
  {
    var d := NatToString(if n < 0 then -n else n);
    NatToStringDigits(if n < 0 then -n else n);
    assert forall i :: 0 <= i < |d| ==> IsDigit(d[i]);
    assert ',' !in d && '=' !in d;
    if n < 0 {
      assert IntToString(n) == "-" + d;
    }
  }
}
