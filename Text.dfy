/** The Python string builtins the matching code relies on: str.strip(), str.upper() and int()
    applied to a string. */
module Text {
  import opened Wrappers

  /** The characters for which Python's str.isspace() holds; str.strip() removes them. */
  const SpaceChars: set<char> := {
    '\t', '\n', '\U{000B}', '\U{000C}', '\r', '\U{001C}', '\U{001D}', '\U{001E}', '\U{001F}', ' ',
    '\U{0085}', '\U{00A0}', '\U{1680}',
    '\U{2000}', '\U{2001}', '\U{2002}', '\U{2003}', '\U{2004}', '\U{2005}', '\U{2006}',
    '\U{2007}', '\U{2008}', '\U{2009}', '\U{200A}',
    '\U{2028}', '\U{2029}', '\U{202F}', '\U{205F}', '\U{3000}'
  }

  /** The whitespace int() skips around a numeral. CPython hands the characters below U+007F
      to its C digit reader unchanged, and that reader skips only tab, newline, vertical tab,
      form feed, carriage return and space; so the four separators U+001C..U+001F, which
      str.isspace() accepts, are not skipped and make int() raise. Non-ASCII whitespace is
      turned into a space first and is skipped. */
  const IntSpaceChars: set<char> := SpaceChars - {'\U{001C}', '\U{001D}', '\U{001E}', '\U{001F}'}

  predicate IsSpace(c: char) {
    c in SpaceChars
  }

  /** The number of characters of ws at the start of s. */
  function LeadingIn(s: string, ws: set<char>): (n: nat)
    ensures n <= |s|
    ensures forall i :: 0 <= i < n ==> s[i] in ws
    ensures n < |s| ==> s[n] !in ws
  {
    if s != [] && s[0] in ws then 1 + LeadingIn(s[1..], ws) else 0
  }

  /** The number of characters of ws at the end of s. */
  function TrailingIn(s: string, ws: set<char>): (n: nat)
    ensures n <= |s|
    ensures forall i :: |s| - n <= i < |s| ==> s[i] in ws
    ensures n < |s| ==> s[|s| - n - 1] !in ws
  {
    if s != [] && s[|s| - 1] in ws then 1 + TrailingIn(s[..|s| - 1], ws) else 0
  }

  /** r is the slice of s that starts at i, and everything in s around it belongs to ws. */
  predicate SliceAmid(s: string, r: string, i: nat, ws: set<char>) {
    && i + |r| <= |s|
    && r == s[i..i + |r|]
    && (forall k :: 0 <= k < i ==> s[k] in ws)
    && (forall k :: i + |r| <= k < |s| ==> s[k] in ws)
  }

  /** The slice of s left after removing the characters of ws at both ends. */
  function Trim(s: string, ws: set<char>): (r: string)
    ensures |r| <= |s|
    ensures r != [] ==> r[0] !in ws && r[|r| - 1] !in ws
  {
    var lead := LeadingIn(s, ws);
    if lead == |s| then []
    else
      var trail := TrailingIn(s, ws);
      assert s[lead] !in ws;
      s[lead..|s| - trail]
  }

  /** Trimming removes characters of ws and only those: the result is the slice of s after its
      leading run of ws, and everything after the slice belongs to ws too. */
  lemma TrimIsSliceAmid(s: string, ws: set<char>)
    ensures SliceAmid(s, Trim(s, ws), LeadingIn(s, ws), ws)
  {
  }

  lemma TrimOfTrimmed(s: string, ws: set<char>)
    requires s != [] ==> s[0] !in ws && s[|s| - 1] !in ws
    ensures Trim(s, ws) == s
  {
  }

  /** Python's s.strip(). */
  function Strip(s: string): (r: string)
    ensures |r| <= |s|
    ensures r != [] ==> !IsSpace(r[0]) && !IsSpace(r[|r| - 1])
  {
    Trim(s, SpaceChars)
  }

  /** Python's c.upper() on ASCII letters; every other character is left as it is. */
  function UpperChar(c: char): char {
    if 'a' <= c <= 'z' then (c as int - 'a' as int + 'A' as int) as char else c
  }

  function Upper(s: string): (r: string)
    ensures |r| == |s| && forall i :: 0 <= i < |s| ==> r[i] == UpperChar(s[i])
    ensures forall i :: 0 <= i < |r| ==> !('a' <= r[i] <= 'z')
  {
    seq(|s|, i requires 0 <= i < |s| => UpperChar(s[i]))
  }

  /** The carpark identifier key, s.strip().upper(): no whitespace at either end and no
      lower-case ASCII letter. */
  function Normalize(s: string): (r: string)
    ensures |r| <= |s|
    ensures r != [] ==> !IsSpace(r[0]) && !IsSpace(r[|r| - 1])
    ensures forall i :: 0 <= i < |r| ==> !('a' <= r[i] <= 'z')
  {
    var t := Strip(s);
    if t == [] then []
    else
      UpperCharKeepsSpace(t[0]);
      UpperCharKeepsSpace(t[|t| - 1]);
      Upper(t)
  }

  lemma {:induction false} StripIdempotent(s: string)
    ensures Strip(Strip(s)) == Strip(s)
  {
    TrimOfTrimmed(Strip(s), SpaceChars);
  }

  lemma UpperCharKeepsSpace(c: char)
    ensures IsSpace(UpperChar(c)) == IsSpace(c)
    ensures UpperChar(UpperChar(c)) == UpperChar(c)
  {
  }

  /** Normalizing a key twice gives the same key, so matching on normalized keys is an
      equivalence that does not depend on how many times a key has been normalized. */
  lemma {:induction false} NormalizeIdempotent(s: string)
    ensures Normalize(Normalize(s)) == Normalize(s)
  {
    var t := Strip(s);
    var u := Upper(t);
    if u != [] {
      UpperCharKeepsSpace(t[0]);
      UpperCharKeepsSpace(t[|u| - 1]);
    }
    TrimOfTrimmed(u, SpaceChars);
    forall i | 0 <= i < |u| ensures Upper(u)[i] == u[i] {
      UpperCharKeepsSpace(t[i]);
    }
    assert Upper(u) == u;
  }

  /** " a1" and "A1" name the same carpark. */
  lemma NormalizeExample()
    ensures Normalize(" a1") == Normalize("A1") == "A1"
  {
    assert !IsSpace('a') && !IsSpace('A') && !IsSpace('1') && IsSpace(' ');
    TrimOfTrimmed("A1", SpaceChars);
    assert " a1"[1..] == "a1";
    assert LeadingIn(" a1", SpaceChars) == 1;
    assert TrailingIn(" a1", SpaceChars) == 0;
    assert Strip(" a1") == "a1";
    assert Upper("a1") == "A1" by {
      assert UpperChar('a') == 'A';
    }
    assert Upper("A1") == "A1";
  }

  // ---- int() applied to a string ----

  predicate IsDigit(c: char) {
    '0' <= c <= '9'
  }

  /** The base-10 digit part accepted by Python's int(): a digit, then digits each optionally
      preceded by one underscore. */
  predicate IsNumeral(s: string) {
    && |s| > 0
    && IsDigit(s[0])
    && (|s| == 1 || IsNumeral(if s[1] == '_' then s[2..] else s[1..]))
  }

  function DigitValue(c: char): nat
    requires IsDigit(c)
  {
    c as int - '0' as int
  }

  /** The value of the digits of s read in base 10, underscores skipped. */
  function NumeralValue(s: string): nat {
    if s == [] then 0
    else
      var last := s[|s| - 1];
      if IsDigit(last) then NumeralValue(s[..|s| - 1]) * 10 + DigitValue(last)
      else NumeralValue(s[..|s| - 1])
  }

  /** The most digits int() and str() convert between a string and an integer: Python's
      default int_max_str_digits. Longer numerals make int() raise ValueError. */
  const IntMaxStrDigits: nat := 4300

  /** The number of digit characters in s (underscores not counted). */
  function DigitCount(s: string): nat {
    if s == [] then 0
    else DigitCount(s[..|s| - 1]) + (if IsDigit(s[|s| - 1]) then 1 else 0)
  }

  /** An unsigned numeral int() converts: well formed and within the digit limit. */
  predicate IsAcceptedNumeral(s: string) {
    IsNumeral(s) && DigitCount(s) <= IntMaxStrDigits
  }

  /** Python's int(s) for a string s: None where int() raises ValueError. The text between
      the surrounding whitespace int() skips must be an optional sign and an accepted numeral. */
  function ParseInt(s: string): Option<int> {
    ParseSigned(Trim(s, IntSpaceChars))
  }

  /** What int() reads once the whitespace it skips is dropped: an optional sign and an accepted
      numeral, and nothing else. */
  function ParseSigned(t: string): Option<int> {
    if t != [] && (t[0] == '-' || t[0] == '+') then
      if IsAcceptedNumeral(t[1..]) then
        var n: int := NumeralValue(t[1..]);
        Some(if t[0] == '-' then -n else n)
      else None
    else if IsAcceptedNumeral(t) then Some(NumeralValue(t))
    else None
  }

  /** What int() accepts: once the whitespace it skips is dropped, the text starts with a digit
      or a sign and ends with a digit, and it holds at most 4300 digits. */
  lemma ParseIntShape(s: string)
    requires ParseInt(s).Some?
    ensures var t := Trim(s, IntSpaceChars);
      && t != []
      && (IsDigit(t[0]) || t[0] == '-' || t[0] == '+')
      && IsDigit(t[|t| - 1])
      && DigitCount(t) <= IntMaxStrDigits
  {
    var t := Trim(s, IntSpaceChars);
    if t[0] == '-' || t[0] == '+' {
      LastIsDigit(t[1..]);
      DigitCountOfSigned(t);
    } else {
      LastIsDigit(t);
    }
  }

  lemma DigitCountOfSigned(t: string)
    requires t != [] && !IsDigit(t[0])
    ensures DigitCount(t) == DigitCount(t[1..])
  {
    assert t == [t[0]] + t[1..];
    DigitCountAppend([t[0]], t[1..]);
  }

  lemma {:induction false} DigitCountAppend(a: string, b: string)
    ensures DigitCount(a + b) == DigitCount(a) + DigitCount(b)
  {
    if b != [] {
      DigitCountAppend(a, b[..|b| - 1]);
      assert (a + b)[..|a + b| - 1] == a + b[..|b| - 1];
    } else {
      assert a + b == a;
    }
  }

  /** Python's str(n) for a natural number n: its decimal digits. */
  function NatToDecimal(n: nat): (r: string)
    ensures |r| > 0 && forall i :: 0 <= i < |r| ==> IsDigit(r[i])
  {
    var d := ['0' + (n % 10) as char];
    if n < 10 then d else NatToDecimal(n / 10) + d
  }

  /** Python's str(n) for an integer n. */
  function IntToDecimal(n: int): string {
    if n < 0 then "-" + NatToDecimal(-n) else NatToDecimal(n)
  }

  lemma {:induction false} DigitsAreNumeral(s: string)
    requires |s| > 0 && forall i :: 0 <= i < |s| ==> IsDigit(s[i])
    ensures IsNumeral(s)
  {
    if |s| > 1 {
      DigitsAreNumeral(s[1..]);
    }
  }

  lemma {:induction false} DigitCountOfDigits(s: string)
    requires forall i :: 0 <= i < |s| ==> IsDigit(s[i])
    ensures DigitCount(s) == |s|
  {
    if s != [] {
      DigitCountOfDigits(s[..|s| - 1]);
    }
  }

  lemma {:induction false} NumeralValueOfDecimal(n: nat)
    ensures NumeralValue(NatToDecimal(n)) == n
  {
    var s := NatToDecimal(n);
    if n >= 10 {
      NumeralValueOfDecimal(n / 10);
      assert s[..|s| - 1] == NatToDecimal(n / 10);
    }
  }

  /** int(str(n)) == n for every integer n whose decimal form is within the digit limit (str()
      itself raises ValueError beyond it). */
  lemma ParseIntOfDecimal(n: int)
    requires |NatToDecimal(if n < 0 then -n else n)| <= IntMaxStrDigits
    ensures ParseInt(IntToDecimal(n)) == Some(n)
  {
    var m: nat := if n < 0 then -n else n;
    var digits := NatToDecimal(m);
    NumeralValueOfDecimal(m);
    DigitsAreNumeral(digits);
    DigitCountOfDigits(digits);
    DigitIsNotSpace(digits[0]);
    DigitIsNotSpace(digits[|digits| - 1]);
    if n < 0 {
      ParseIntOfNegativeNumeral(digits);
    } else {
      TrimOfTrimmed(digits, IntSpaceChars);
    }
  }

  lemma ParseIntOfNegativeNumeral(digits: string)
    requires IsAcceptedNumeral(digits)
    requires digits[0] !in IntSpaceChars && digits[|digits| - 1] !in IntSpaceChars
    ensures ParseInt("-" + digits) == Some(-(NumeralValue(digits) as int))
  {
    var s := "-" + digits;
    assert s[1..] == digits && s[|s| - 1] == digits[|digits| - 1];
    assert s[0] !in IntSpaceChars;
    TrimOfTrimmed(s, IntSpaceChars);
    ParseSignedNegative(digits);
  }

  lemma ParseSignedNegative(digits: string)
    requires IsAcceptedNumeral(digits)
    ensures ParseSigned("-" + digits) == Some(-(NumeralValue(digits) as int))
  {
    assert ("-" + digits)[1..] == digits;
  }

  /** A numeral of more than 4300 digits is refused, signed or not. */
  lemma RejectsLongNumerals(s: string)
    requires IsNumeral(s) && DigitCount(s) > IntMaxStrDigits
    ensures ParseInt(s) == None && ParseInt("-" + s) == None
  {
    LastIsDigit(s);
    DigitIsNotSpace(s[0]);
    DigitIsNotSpace(s[|s| - 1]);
    TrimOfTrimmed(s, IntSpaceChars);
    var t := "-" + s;
    assert t[1..] == s && t[|t| - 1] == s[|s| - 1];
    TrimOfTrimmed(t, IntSpaceChars);
  }

  lemma DigitIsNotSpace(c: char)
    requires IsDigit(c)
    ensures c !in IntSpaceChars
  {
  }

  lemma {:induction false} LastIsDigit(s: string)
    requires IsNumeral(s)
    ensures IsDigit(s[|s| - 1])
  {
    if |s| > 1 {
      LastIsDigit(if s[1] == '_' then s[2..] else s[1..]);
    }
  }

  /** int() skips the whitespace str.strip() skips, except the separators U+001C..U+001F:
      " 5\n" and "\u30005" read as 5, while "\x1c5" raises although its strip() is "5". */
  lemma IntSpaceExamples()
    ensures ParseInt(" 5\n") == Some(5)
    ensures ParseInt("\U{3000}5") == Some(5)
    ensures ParseInt("\U{001C}5") == None
    ensures Strip("\U{001C}5") == "5"
  {
    assert NumeralValue("5") == 5 by {
      assert "5"[..0] == [];
    }
    assert IsAcceptedNumeral("5") by {
      assert "5"[..0] == [];
    }
    var a := " 5\n";
    assert LeadingIn(a, IntSpaceChars) == 1 by {
      assert a[1..][0] == '5';
    }
    assert TrailingIn(a, IntSpaceChars) == 1 by {
      assert a[..2][1] == '5';
    }
    assert a[1..2] == "5";
    var b := "\U{3000}5";
    assert LeadingIn(b, IntSpaceChars) == 1 by {
      assert b[1..][0] == '5';
    }
    assert TrailingIn(b, IntSpaceChars) == 0;
    assert b[1..2] == "5";
    var c := "\U{001C}5";
    TrimOfTrimmed(c, IntSpaceChars);
    assert !IsNumeral(c);
    assert LeadingIn(c, SpaceChars) == 1 by {
      assert c[1..][0] == '5';
    }
    assert TrailingIn(c, SpaceChars) == 0;
    assert c[1..2] == "5";
  }
}
