/** Character- and string-level behaviour of the JavaScript built-ins that the
    booking code leans on: what `\d`, `\D` and `\s` match, `trim`, the first two
    segments of `split`, `parseInt` on decimal input, and how a template string
    renders an integer. Every other module imports this one. */
module Text {

  datatype Option<+T> = None | Some(value: T)

  predicate IsDigit(c: char) { '0' <= c <= '9' }

  predicate AllDigits(s: string) { forall i :: 0 <= i < |s| ==> IsDigit(s[i]) }

  /** The characters matched by `\s` and removed by `trim` and skipped by
      `parseInt`: the ECMAScript WhiteSpace and LineTerminator code points. */
  predicate IsSpace(c: char) {
    || c == '\t' || c == '\n' || c == '\U{000B}' || c == '\U{000C}' || c == '\r'
    || c == ' ' || c == '\U{00A0}' || c == '\U{1680}'
    || ('\U{2000}' <= c <= '\U{200A}')
    || c == '\U{2028}' || c == '\U{2029}' || c == '\U{202F}' || c == '\U{205F}'
    || c == '\U{3000}' || c == '\U{FEFF}'
  }

  predicate NoSpace(s: string) { forall i :: 0 <= i < |s| ==> !IsSpace(s[i]) }

  // ---------------------------------------------------------------------------
  // s.replace(/\D/g, '') and s.replace(/\s+/g, '')

  /** The digits of `s`, in order: `s.replace(/\D/g, '')`. */
  function DigitsOnly(s: string): (r: string)
    ensures AllDigits(r) && |r| <= |s|
  {
    if s == [] then []
    else (if IsDigit(s[0]) then [s[0]] else []) + DigitsOnly(s[1..])
  }

  /** `DigitsOnly` distributes over concatenation. */
  lemma {:induction false} DigitsOnlyAppend(a: string, b: string)
    ensures DigitsOnly(a + b) == DigitsOnly(a) + DigitsOnly(b)
  {
    if a != [] {
      var x := if IsDigit(a[0]) then [a[0]] else [];
      assert (a + b)[0] == a[0];
      assert (a + b)[1..] == a[1..] + b;
      DigitsOnlyAppend(a[1..], b);
      assert DigitsOnly(a) == x + DigitsOnly(a[1..]);
      calc {
        DigitsOnly(a + b);
        x + DigitsOnly(a[1..] + b);
        x + (DigitsOnly(a[1..]) + DigitsOnly(b));
        (x + DigitsOnly(a[1..])) + DigitsOnly(b);
      }
    } else {
      assert a + b == b;
    }
  }

  /** A string made of digits only is left as it is. */
  lemma {:induction false} DigitsOnlyKeepsDigits(s: string)
    requires AllDigits(s)
    ensures DigitsOnly(s) == s
  {
    if s != [] { DigitsOnlyKeepsDigits(s[1..]); }
  }

  /** The non-digits are all dropped. */
  lemma {:induction false} DigitsOnlyDropsOthers(s: string)
    requires forall i :: 0 <= i < |s| ==> !IsDigit(s[i])
    ensures DigitsOnly(s) == []
  {
    if s != [] { DigitsOnlyDropsOthers(s[1..]); }
  }

  /** `s.replace(/\s+/g, '')`: every whitespace character removed. */
  function RemoveSpaces(s: string): (r: string)
    ensures NoSpace(r) && |r| <= |s|
  {
    if s == [] then []
    else (if IsSpace(s[0]) then [] else [s[0]]) + RemoveSpaces(s[1..])
  }

  lemma {:induction false} RemoveSpacesKeeps(s: string)
    requires NoSpace(s)
    ensures RemoveSpaces(s) == s
  {
    if s != [] { RemoveSpacesKeeps(s[1..]); }
  }

  // ---------------------------------------------------------------------------
  // trim

  function TrimStart(s: string): (r: string)
    ensures |r| <= |s| && r == s[|s| - |r|..]
    ensures r == [] || !IsSpace(r[0])
    ensures forall i :: 0 <= i < |s| - |r| ==> IsSpace(s[i])
  {
    if s != [] && IsSpace(s[0]) then TrimStart(s[1..]) else s
  }

  function TrimEnd(s: string): (r: string)
    ensures |r| <= |s| && r == s[..|r|]
    ensures r == [] || !IsSpace(r[|r| - 1])
    ensures forall i :: |r| <= i < |s| ==> IsSpace(s[i])
  {
    if s != [] && IsSpace(s[|s| - 1]) then TrimEnd(s[..|s| - 1]) else s
  }

  /** `s.trim()`. */
  function Trim(s: string): (r: string)
    ensures r == [] || (!IsSpace(r[0]) && !IsSpace(r[|r| - 1]))
    ensures var k := |s| - |TrimStart(s)|;
      && k + |r| <= |s| && r == s[k..k + |r|]
      && (forall i :: 0 <= i < k ==> IsSpace(s[i]))
      && (forall i :: k + |r| <= i < |s| ==> IsSpace(s[i]))
  {
    TrimEnd(TrimStart(s))
  }

  // ---------------------------------------------------------------------------
  // s.length

  /** How many UTF-16 code units `c` takes: two outside the Basic
      Multilingual Plane (a surrogate pair), one inside it. */
  function Utf16Units(c: char): nat
  {
    if c as int >= 0x1_0000 then 2 else 1
  }

  /** JavaScript's `s.length`, which counts UTF-16 code units, not
      characters. */
  function Utf16Length(s: string): (n: nat)
    ensures |s| <= n <= 2 * |s|
  {
    if s == [] then 0 else Utf16Units(s[0]) + Utf16Length(s[1..])
  }

  /** `length` adds up over concatenation. */
  lemma {:induction false} Utf16LengthAppend(a: string, b: string)
    ensures Utf16Length(a + b) == Utf16Length(a) + Utf16Length(b)
  {
    if a != [] {
      assert (a + b)[0] == a[0];
      assert (a + b)[1..] == a[1..] + b;
      Utf16LengthAppend(a[1..], b);
    } else {
      assert a + b == b;
    }
  }

  /** A slice is never longer than the whole string. */
  lemma Utf16LengthSlice(s: string, i: nat, j: nat)
    requires i <= j <= |s|
    ensures Utf16Length(s[i..j]) <= Utf16Length(s)
  {
    var a, m, c := s[..i], s[i..j], s[j..];
    assert a + m == s[..j];
    assert s[..j] + c == s;
    Utf16LengthAppend(a, m);
    Utf16LengthAppend(s[..j], c);
  }

  // ---------------------------------------------------------------------------
  // s.split(sep)[0] and s.split(sep)[1]

  /** `s.split(sep)[0]`: everything before the first `sep`. */
  function FirstSegment(s: string, sep: char): (r: string)
    ensures |r| <= |s| && r == s[..|r|]
    ensures sep !in r
    ensures |r| < |s| ==> s[|r|] == sep
  {
    if s == [] || s[0] == sep then [] else [s[0]] + FirstSegment(s[1..], sep)
  }

  /** `s.split(sep)[1]`: the text between the first and the second `sep`
      (or the end); `None` when `s` holds no `sep` (JavaScript's undefined). */
  function SecondSegment(s: string, sep: char): (r: Option<string>)
    ensures r.None? <==> sep !in s
    ensures r.Some? ==> sep !in r.value
  {
    var a := FirstSegment(s, sep);
    if |a| == |s| then None
    else Some(FirstSegment(s[|a| + 1..], sep))
  }

  lemma {:induction false} FirstSegmentOf(a: string, sep: char, rest: string)
    requires sep !in a
    requires rest == [] || rest[0] == sep
    ensures FirstSegment(a + rest, sep) == a
  {
    if a != [] {
      assert (a + rest)[1..] == a[1..] + rest;
      FirstSegmentOf(a[1..], sep, rest);
    }
  }

  lemma FirstSegmentOfJoin(a: string, sep: char, t: string, rest: string)
    requires sep !in a
    ensures FirstSegment(a + [sep] + t + rest, sep) == a
  {
    var tail := [sep] + t + rest;
    assert a + [sep] + t + rest == a + tail;
    FirstSegmentOf(a, sep, tail);
  }

  /** Splitting recovers the pieces a string was joined from: the segment
      after the first separator is the text up to the next one. */
  lemma SecondSegmentOf(a: string, sep: char, t: string, rest: string)
    requires sep !in a && sep !in t
    requires rest == [] || rest[0] == sep
    ensures SecondSegment(a + [sep] + t + rest, sep) == Some(t)
  {
    var s := a + [sep] + t + rest;
    FirstSegmentOfJoin(a, sep, t, rest);
    assert s[|a| + 1..] == t + rest;
    FirstSegmentOf(t, sep, rest);
  }

  // ---------------------------------------------------------------------------
  // integers: parseInt and template-string rendering

  function DigitChar(d: nat): (c: char)
    requires d < 10
    ensures IsDigit(c)
  {
    ['0', '1', '2', '3', '4', '5', '6', '7', '8', '9'][d]
  }

  function DigitValue(c: char): (d: nat)
    requires IsDigit(c)
    ensures d < 10
  {
    c as int - '0' as int
  }

  /** The decimal value of a string of digits. */
  function DigitsValue(s: string): nat
    requires AllDigits(s)
  {
    if s == [] then 0 else DigitsValue(s[..|s| - 1]) * 10 + DigitValue(s[|s| - 1])
  }

  /** The longest prefix of `s` made of digits. */
  function LeadingDigits(s: string): (r: string)
    ensures |r| <= |s| && r == s[..|r|] && AllDigits(r)
    ensures |r| < |s| ==> !IsDigit(s[|r|])
  {
    if s == [] || !IsDigit(s[0]) then [] else [s[0]] + LeadingDigits(s[1..])
  }

  /** `parseInt(s)` for decimal input: leading whitespace is skipped, an
      optional sign is read, then the longest run of digits; `None` stands for
      NaN (no digit where one was expected). */
  function ParseInt(s: string): (r: Option<int>)
  {
    var t := TrimStart(s);
    if |t| > 0 && t[0] == '-' then Negate(ParseDigits(t[1..]))
    else if |t| > 0 && t[0] == '+' then ParseDigits(t[1..])
    else ParseDigits(t)
  }

  /** NaN when, after the leading whitespace, there is no sign and no digit. */
  lemma ParseIntNaN(s: string)
    requires var t := TrimStart(s); t == [] || (!IsDigit(t[0]) && t[0] != '-' && t[0] != '+')
    ensures ParseInt(s).None?
  {
    var t := TrimStart(s);
    assert LeadingDigits(t) == [];
  }

  /** The value of the leading digits of `t`, NaN when there are none. */
  function ParseDigits(t: string): (r: Option<int>)
  {
    var d := LeadingDigits(t);
    if d == [] then None else Some(DigitsValue(d))
  }

  function Negate(x: Option<int>): Option<int>
  {
    match x
    case None => None
    case Some(n) => Some(-n)
  }

  /** `${n}` for a natural number. */
  function NatToString(n: nat): (r: string)
    ensures |r| > 0 && AllDigits(r)
    decreases n
  {
    if n < 10 then [DigitChar(n)] else NatToString(n / 10) + [DigitChar(n % 10)]
  }

  /** `${n}` for an integer number. */
  function IntToString(n: int): (r: string)
    ensures |r| > 0 && (r[0] == '-' <==> n < 0)
    ensures n >= 0 ==> AllDigits(r)
    ensures n < 0 ==> AllDigits(r[1..]) && |r| > 1
  {
    if n < 0 then "-" + NatToString(-n) else NatToString(n)
  }

  /** `${x}` for a `parseInt` result: NaN renders as "NaN". */
  function NumberToString(x: Option<int>): (r: string)
  {
    match x
    case None => "NaN"
    case Some(n) => IntToString(n)
  }

  lemma {:induction false} LeadingDigitsOfDigits(s: string, rest: string)
    requires AllDigits(s)
    requires rest == [] || !IsDigit(rest[0])
    ensures LeadingDigits(s + rest) == s
  {
    if s != [] {
      assert (s + rest)[1..] == s[1..] + rest;
      LeadingDigitsOfDigits(s[1..], rest);
    }
  }

  lemma {:induction false} DigitValueOfChar(d: nat)
    requires d < 10
    ensures DigitValue(DigitChar(d)) == d
  {
  }

  lemma {:induction false} DigitsValueOfNatToString(n: nat)
    ensures DigitsValue(NatToString(n)) == n
    decreases n
  {
    var s := NatToString(n);
    if n < 10 {
      assert s[..|s| - 1] == [];
    } else {
      DigitsValueOfNatToString(n / 10);
      assert s[..|s| - 1] == NatToString(n / 10);
    }
  }

  lemma ParseDigitsOfNatToString(n: nat, rest: string)
    requires rest == [] || !IsDigit(rest[0])
    ensures ParseDigits(NatToString(n) + rest) == Some(n)
  {
    LeadingDigitsOfDigits(NatToString(n), rest);
    DigitsValueOfNatToString(n);
  }

  lemma TrimStartUnpadded(s: string)
    requires s != [] && (IsDigit(s[0]) || s[0] == '-')
    ensures TrimStart(s) == s
  {
  }

  /** Rendering then parsing gives back the number, as long as what follows
      the digits is not itself a digit. */
  lemma ParseIntOfNatToString(n: nat, rest: string)
    requires rest == [] || !IsDigit(rest[0])
    ensures ParseInt(NatToString(n) + rest) == Some(n)
  {
    var s := NatToString(n) + rest;
    assert s[0] == NatToString(n)[0];
    TrimStartUnpadded(s);
    ParseDigitsOfNatToString(n, rest);
  }

  lemma ParseIntOfNegative(m: nat, rest: string)
    requires m > 0
    requires rest == [] || !IsDigit(rest[0])
    ensures ParseInt("-" + NatToString(m) + rest) == Some(-(m as int))
  {
    var d := NatToString(m);
    ParseIntOfMinus(d, rest);
    ParseDigitsOfNatToString(m, rest);
    NegateSome(ParseDigits(d + rest), m);
  }

  lemma NegateSome(x: Option<int>, m: int)
    requires x == Some(m)
    ensures Negate(x) == Some(-m)
  {
  }

  lemma AppendAssoc(a: string, b: string, c: string)
    ensures a + b + c == a + (b + c)
  {
  }

  /** A minus sign in front of digits negates their value. */
  lemma ParseIntOfMinus(d: string, rest: string)
    requires d != [] && IsDigit(d[0])
    ensures ParseInt("-" + d + rest) == Negate(ParseDigits(d + rest))
  {
    var u := d + rest;
    var s := "-" + u;
    AppendAssoc("-", d, rest);
    assert s[0] == '-' && s[1..] == u;
    TrimStartUnpadded(s);
  }

  /** The same for any integer, negative ones included. */
  lemma ParseIntOfIntToString(n: int, rest: string)
    requires rest == [] || !IsDigit(rest[0])
    ensures ParseInt(IntToString(n) + rest) == Some(n)
  {
    var s := IntToString(n) + rest;
    if n < 0 {
      var m: nat := -n;
      assert s == "-" + NatToString(m) + rest;
      ParseIntOfNegative(m, rest);
    } else {
      var m: nat := n;
      assert s == NatToString(m) + rest;
      ParseIntOfNatToString(m, rest);
    }
  }

  /** Distinct numbers render differently. */
  lemma IntToStringInjective(m: int, n: int)
    requires IntToString(m) == IntToString(n)
    ensures m == n
  {
    ParseIntOfIntToString(m, []);
    ParseIntOfIntToString(n, []);
    assert IntToString(m) + [] == IntToString(n) + [];
  }

  /** The hour of an "h:mm" time: `parseInt(time.split(':')[0])` gives back
      the integer that was rendered in front of the colon. */
  lemma HourOfTime(h: int, minutes: string)
    ensures ParseInt(FirstSegment(IntToString(h) + ":" + minutes, ':')) == Some(h)
  {
    var a := IntToString(h);
    IntToStringHasNoColon(h);
    FirstSegmentOf(a, ':', ":" + minutes);
    assert a + ":" + minutes == a + (":" + minutes);
    ParseIntOfIntToString(h, "");
    assert a + "" == a;
  }

  /** The hour of a zero-padded "0d:mm" time is d. */
  lemma HourOfPaddedTime(d: nat, minutes: string)
    requires d < 10
    ensures ParseInt(FirstSegment(['0', DigitChar(d)] + ":" + minutes, ':')) == Some(d)
  {
    var a := ['0', DigitChar(d)];
    FirstSegmentOf(a, ':', ":" + minutes);
    assert a + ":" + minutes == a + (":" + minutes);
    TrimStartUnpadded(a);
    LeadingDigitsOfDigits(a, "");
    assert a + "" == a;
    DigitValueOfChar(d);
    assert a[..|a| - 1] == ['0'];
    assert ['0'][..0] == [];
    assert DigitsValue(a) == DigitsValue(['0']) * 10 + d;
  }

  lemma IntToStringHasNoColon(h: int)
    ensures ':' !in IntToString(h)
  {
    var a := IntToString(h);
    if h < 0 {
      assert a == "-" + NatToString(-h);
      assert forall i :: 1 <= i < |a| ==> a[i] == NatToString(-h)[i - 1];
    }
  }
}
