/** Strings and integers as .NET and JavaScript treat them: whitespace tests,
    ASCII lower-casing, substring search, decimal formatting and parsing,
    truncating division and 64-bit wrap-around. */
module Text {
  import opened Wrappers

  /** C# `int`. */
  type Int32 = x: int | -0x8000_0000 <= x <= 0x7FFF_FFFF
  /** C# `long`. */
  type Int64 = x: int | -0x8000_0000_0000_0000 <= x <= 0x7FFF_FFFF_FFFF_FFFF

  const TWO_POW_64: int := 0x1_0000_0000_0000_0000

  // ---------------------------------------------------------------------------
  // Whitespace

  /** .NET `Char.IsWhiteSpace`: the Unicode White_Space characters. */
  predicate IsDotNetWhiteSpace(c: char) {
    ('\t' <= c <= '\r') || c == ' ' || c == '\U{0085}' || c == '\U{00A0}' || c == '\U{1680}'
    || ('\U{2000}' <= c <= '\U{200A}') || c == '\U{2028}' || c == '\U{2029}'
    || c == '\U{202F}' || c == '\U{205F}' || c == '\U{3000}'
  }

  /** .NET `string.IsNullOrWhiteSpace` on a non-null string (a null string behaves like ""). */
  predicate IsBlank(s: string) {
    forall i :: 0 <= i < |s| ==> IsDotNetWhiteSpace(s[i])
  }

  /** .NET `string.IsNullOrWhiteSpace` on a nullable string. */
  predicate IsNullOrWhiteSpace(s: Option<string>) {
    s.None? || IsBlank(s.value)
  }

  /** .NET `string.IsNullOrEmpty` on a nullable string. */
  predicate IsNullOrEmpty(s: Option<string>) {
    s.None? || s.value == ""
  }

  /** JavaScript WhiteSpace and LineTerminator code points, the ones `String.prototype.trim` removes. */
  predicate IsJsWhiteSpace(c: char) {
    ('\t' <= c <= '\r') || c == ' ' || c == '\U{00A0}' || c == '\U{1680}'
    || ('\U{2000}' <= c <= '\U{200A}') || c == '\U{2028}' || c == '\U{2029}'
    || c == '\U{202F}' || c == '\U{205F}' || c == '\U{3000}' || c == '\U{FEFF}'
  }

  /** `s.trim()` is truthy (non-empty) in JavaScript. */
  predicate JsTrimNonEmpty(s: string) {
    exists i :: 0 <= i < |s| && !IsJsWhiteSpace(s[i])
  }

  // ---------------------------------------------------------------------------
  // Case and substrings

  function LowerChar(c: char): char {
    if 'A' <= c <= 'Z' then (c as int + 32) as char else c
  }

  /** `toLowerCase()`, restricted to the ASCII letters. */
  function Lower(s: string): (r: string)
    ensures |r| == |s|
    ensures forall i :: 0 <= i < |s| ==> r[i] == LowerChar(s[i])
  {
    seq(|s|, i requires 0 <= i < |s| => LowerChar(s[i]))
  }

  lemma LowerIdempotent(s: string)
    ensures Lower(Lower(s)) == Lower(s)
  {
  }

  predicate IsPrefix(p: string, s: string) {
    |p| <= |s| && s[..|p|] == p
  }

  /** `sub` occurs in `s` starting at index `k`. */
  predicate OccursAt(s: string, sub: string, k: int) {
    0 <= k && k + |sub| <= |s| && s[k..k + |sub|] == sub
  }

  /** JavaScript `s.includes(sub)`: `sub` occurs in `s` at some position. */
  predicate Contains(s: string, sub: string)
    decreases |s|
  {
    IsPrefix(sub, s) || (|s| > 0 && Contains(s[1..], sub))
  }

  /** `Contains` finds exactly the strings that occur at some position. */
  lemma {:induction false} ContainsIff(s: string, sub: string)
    ensures Contains(s, sub) <==> exists k :: OccursAt(s, sub, k)
    decreases |s|
  {
    if IsPrefix(sub, s) {
      assert OccursAt(s, sub, 0);
    }
    if |s| > 0 {
      ContainsIff(s[1..], sub);
      if Contains(s[1..], sub) {
        var k :| OccursAt(s[1..], sub, k);
        assert OccursAt(s, sub, k + 1);
      }
      if k :| OccursAt(s, sub, k) {
        if k > 0 {
          assert OccursAt(s[1..], sub, k - 1);
        } else {
          assert IsPrefix(sub, s);
        }
      }
    } else if exists k :: OccursAt(s, sub, k) {
      var k :| OccursAt(s, sub, k);
      assert IsPrefix(sub, s);
    }
  }

  /** The text after the last `sep` in `s`, or all of `s` when it holds none:
      JavaScript `s.split(sep).pop()`. */
  function LastSegment(s: string, sep: char): string
    decreases |s|
  {
    if s == [] then []
    else if s[|s| - 1] == sep then []
    else LastSegment(s[..|s| - 1], sep) + [s[|s| - 1]]
  }

  lemma {:induction false} LastSegmentSpec(s: string, sep: char)
    ensures var r := LastSegment(s, sep);
      && |r| <= |s|
      && r == s[|s| - |r|..]
      && sep !in r
      && (sep in s <==> |r| < |s|)
      && (|r| < |s| ==> s[|s| - |r| - 1] == sep)
    decreases |s|
  {
    if s != [] && s[|s| - 1] != sep {
      var init := s[..|s| - 1];
      LastSegmentSpec(init, sep);
      var r0 := LastSegment(init, sep);
      assert s == init + [s[|s| - 1]];
      assert LastSegment(s, sep) == r0 + [s[|s| - 1]];
      assert sep in s <==> sep in init;
    }
  }

  // ---------------------------------------------------------------------------
  // Integers

  function Abs(a: int): nat {
    if a < 0 then -a else a
  }

  /** C#'s `/` on integers for a positive divisor: the quotient is truncated toward zero,
      so its magnitude is that of the dividend divided down and its sign is the dividend's. */
  function TruncDiv(a: int, b: int): (q: int)
    requires b > 0
    ensures Abs(q) == Abs(a) / b
    ensures a >= 0 ==> q >= 0
    ensures a <= 0 ==> q <= 0
  {
    if a >= 0 then a / b else -((-a) / b)
  }

  lemma TruncDivOdd(a: int, b: int)
    requires b > 0
    ensures TruncDiv(-a, b) == -TruncDiv(a, b)
  {
  }

  lemma TruncDivMonotone(a: int, a': int, b: int)
    requires b > 0 && a <= a'
    ensures TruncDiv(a, b) <= TruncDiv(a', b)
  {
    if 0 <= a {
      DivMonotone(a, a', b);
    } else if a' < 0 {
      DivMonotone(-a', -a, b);
    }
  }

  lemma DivMonotone(a: nat, a': nat, b: int)
    requires b > 0 && a <= a'
    ensures a / b <= a' / b
  {
    var q, q' := a / b, a' / b;
    assert q * b <= a;
    assert a' < q' * b + b;
    assert q' * b + b == (q' + 1) * b;
    MulCancel(q, q' + 1, b);
  }

  lemma MulCancel(x: int, y: int, b: int)
    requires b > 0 && x * b < y * b
    ensures x < y
  {
  }

  /** C# unchecked `long + long`: the mathematical sum reduced into the 64-bit range. */
  function WrapAdd64(a: Int64, b: Int64): (r: Int64)
    ensures -0x8000_0000_0000_0000 <= a + b <= 0x7FFF_FFFF_FFFF_FFFF ==> r == a + b
    ensures a + b > 0x7FFF_FFFF_FFFF_FFFF ==> r == a + b - TWO_POW_64
    ensures a + b < -0x8000_0000_0000_0000 ==> r == a + b + TWO_POW_64
  {
    var s := a + b;
    if s > 0x7FFF_FFFF_FFFF_FFFF then s - TWO_POW_64
    else if s < -0x8000_0000_0000_0000 then s + TWO_POW_64
    else s
  }

  // ---------------------------------------------------------------------------
  // Decimal text

  predicate IsDigit(c: char) {
    '0' <= c <= '9'
  }

  predicate AllDigits(s: string) {
    forall i :: 0 <= i < |s| ==> IsDigit(s[i])
  }

  function DigitChar(d: nat): (c: char)
    requires d < 10
    ensures IsDigit(c)
  {
    (48 + d) as char
  }

  function DigitValue(c: char): nat
    requires IsDigit(c)
  {
    c as int - 48
  }

  /** The decimal digits of `n`, without leading zeros. */
  function NatToDigits(n: nat): (s: string)
    ensures |s| > 0 && AllDigits(s)
    ensures n > 0 ==> s[0] != '0'
  {
    if n < 10 then [DigitChar(n)] else NatToDigits(n / 10) + [DigitChar(n % 10)]
  }

  /** The value of a run of decimal digits. */
  function DigitsValue(s: string): nat
    requires AllDigits(s)
  {
    if s == [] then 0 else DigitsValue(s[..|s| - 1]) * 10 + DigitValue(s[|s| - 1])
  }

  lemma {:induction false} DigitsRoundTrip(n: nat)
    ensures DigitsValue(NatToDigits(n)) == n
  {
    if n >= 10 {
      DigitsRoundTrip(n / 10);
      var s := NatToDigits(n);
      assert s[..|s| - 1] == NatToDigits(n / 10);
    }
  }

  /** How .NET and JavaScript print an integer: an optional '-' and the digits of its magnitude. */
  function IntToString(n: int): string {
    if n < 0 then "-" + NatToDigits(-n) else NatToDigits(n)
  }

  /** An optional '-' followed by one or more digits; the inverse of `IntToString`. */
  function ParseDecimal(s: string): Option<int> {
    if |s| > 0 && s[0] == '-' then
      (if |s| > 1 && AllDigits(s[1..]) then Some(-(DigitsValue(s[1..]) as int)) else None)
    else if |s| > 0 && AllDigits(s) then Some(DigitsValue(s))
    else None
  }

  lemma IntToStringRoundTrip(n: int)
    ensures ParseDecimal(IntToString(n)) == Some(n)
  {
    if n < 0 {
      DigitsRoundTrip(-n);
      assert IntToString(n)[1..] == NatToDigits(-n);
    } else {
      DigitsRoundTrip(n);
    }
  }

  /** Characters that .NET number parsing skips around the number (`NumberStyles.Integer`). */
  predicate IsNumberWhite(c: char) {
    '\t' <= c <= '\r' || c == ' '
  }

  function TrimStart(s: string): (r: string)
    ensures |r| <= |s|
    decreases |s|
  {
    if |s| > 0 && IsNumberWhite(s[0]) then TrimStart(s[1..]) else s
  }

  function TrimEnd(s: string): (r: string)
    ensures |r| <= |s|
    decreases |s|
  {
    if |s| > 0 && IsNumberWhite(s[|s| - 1]) then TrimEnd(s[..|s| - 1]) else s
  }

  /** .NET number parsing accepts a run of '\0' characters at the very end of the text,
      after any trailing white space. */
  function TrimTrailingNuls(s: string): (r: string)
    ensures |r| <= |s|
    decreases |s|
  {
    if |s| > 0 && s[|s| - 1] == '\0' then TrimTrailingNuls(s[..|s| - 1]) else s
  }

  /** .NET `int.TryParse(s, out n)` with the invariant culture: surrounding white space,
      an optional '+' or '-', one or more ASCII digits, a value that fits in an `int`, and
      '\0' characters at the end. */
  function TryParseInt32(s: string): (r: Option<Int32>)
  {
    ParseSignedDigits(TrimTrailingNuls(s))
  }

  /** The rest of `int.TryParse` once the '\0' characters are gone. */
  function ParseSignedDigits(s: string): (r: Option<Int32>)
  {
    var t := TrimEnd(TrimStart(s));
    var body := if |t| > 0 && (t[0] == '+' || t[0] == '-') then t[1..] else t;
    if |body| == 0 || !AllDigits(body) then None
    else
      var v: int := if t[0] == '-' then -(DigitsValue(body) as int) else DigitsValue(body);
      if -0x8000_0000 <= v <= 0x7FFF_FFFF then Some(v as Int32) else None
  }

  predicate AllNumberWhite(s: string) {
    forall i :: 0 <= i < |s| ==> IsNumberWhite(s[i])
  }

  predicate AllNuls(s: string) {
    forall i :: 0 <= i < |s| ==> s[i] == '\0'
  }

  /** The value an optional sign and a run of digits denote. */
  function SignedValue(sign: string, digits: string): int
    requires AllDigits(digits)
  {
    if sign == "-" then -(DigitsValue(digits) as int) else DigitsValue(digits)
  }

  /** White space, an optional '+' or '-', digits, white space and '\0' characters parse
      to the value the sign and digits denote, exactly when it fits in an `int`. */
  lemma TryParsePadded(w1: string, sign: string, digits: string, w2: string, z: string)
    requires AllNumberWhite(w1) && AllNumberWhite(w2) && AllNuls(z)
    requires sign == "" || sign == "+" || sign == "-"
    requires |digits| > 0 && AllDigits(digits)
    ensures var r := TryParseInt32(w1 + sign + digits + w2 + z);
            && (r.Some? <==> -0x8000_0000 <= SignedValue(sign, digits) <= 0x7FFF_FFFF)
            && (r.Some? ==> r.value == SignedValue(sign, digits))
  {
    var x := w1 + sign + digits + w2;
    assert x[|x| - 1] != '\0' by {
      if |w2| > 0 {
        assert x[|x| - 1] == w2[|w2| - 1];
      } else {
        assert x[|x| - 1] == digits[|digits| - 1];
      }
    }
    TrimTrailingNulsPadding(x, z);
    SignedDigitsPadded(w1, sign, digits, w2);
  }

  lemma SignedDigitsPadded(w1: string, sign: string, digits: string, w2: string)
    requires AllNumberWhite(w1) && AllNumberWhite(w2)
    requires sign == "" || sign == "+" || sign == "-"
    requires |digits| > 0 && AllDigits(digits)
    ensures var r := ParseSignedDigits(w1 + sign + digits + w2);
            && (r.Some? <==> -0x8000_0000 <= SignedValue(sign, digits) <= 0x7FFF_FFFF)
            && (r.Some? ==> r.value == SignedValue(sign, digits))
  {
    var t := sign + digits;
    assert w1 + sign + digits + w2 == w1 + (t + w2);
    assert IsDigit(digits[|digits| - 1]) && t[|t| - 1] == digits[|digits| - 1];
    assert (t + w2)[0] == t[0];
    TrimStartPadding(w1, t + w2);
    TrimEndPadding(t, w2);
    if sign == "" {
      assert t == digits && IsDigit(t[0]);
    } else {
      assert t[0] == sign[0] && t[1..] == digits;
    }
  }

  /** Conversely, every text `int.TryParse` accepts is white space, an optional sign,
      digits, white space and '\0' characters, and the parsed value is the one the sign and
      digits denote. */
  lemma TryParseDecomposes(s: string) returns (w1: string, sign: string, digits: string, w2: string, z: string)
    requires TryParseInt32(s).Some?
    ensures s == w1 + sign + digits + w2 + z
    ensures AllNumberWhite(w1) && AllNumberWhite(w2) && AllNuls(z)
    ensures sign == "" || sign == "+" || sign == "-"
    ensures |digits| > 0 && AllDigits(digits)
    ensures SignedValue(sign, digits) == TryParseInt32(s).value
  {
    z := TrimTrailingNulsSplit(s);
    w1, sign, digits, w2 := SignedDigitsDecompose(TrimTrailingNuls(s));
  }

  lemma SignedDigitsDecompose(s: string) returns (w1: string, sign: string, digits: string, w2: string)
    requires ParseSignedDigits(s).Some?
    ensures s == w1 + sign + digits + w2
    ensures AllNumberWhite(w1) && AllNumberWhite(w2)
    ensures sign == "" || sign == "+" || sign == "-"
    ensures |digits| > 0 && AllDigits(digits)
    ensures SignedValue(sign, digits) == ParseSignedDigits(s).value
  {
    var t := TrimEnd(TrimStart(s));
    var body := if |t| > 0 && (t[0] == '+' || t[0] == '-') then t[1..] else t;
    assert |body| > 0 && AllDigits(body);
    var v: int := if t[0] == '-' then -(DigitsValue(body) as int) else DigitsValue(body);
    assert ParseSignedDigits(s) == Some(v);
    w1 := TrimStartSplit(s);
    w2 := TrimEndSplit(TrimStart(s));
    if t[0] == '+' || t[0] == '-' {
      sign, digits := [t[0]], t[1..];
      assert t == sign + digits;
    } else {
      sign, digits := "", t;
      assert t == sign + digits;
    }
    assert SignedValue(sign, digits) == v;
    AppendAssoc(w1, t, w2);
    AppendAssoc(w1, sign, digits);
  }

  lemma NoPadding(sign: string, digits: string)
    ensures "" + sign + digits + "" + "" == sign + digits
  {
  }

  lemma {:induction false} TrimTrailingNulsPadding(x: string, z: string)
    requires AllNuls(z) && |x| > 0 && x[|x| - 1] != '\0'
    ensures TrimTrailingNuls(x + z) == x
    decreases |z|
  {
    if z == [] {
      assert x + z == x;
    } else {
      assert (x + z)[..|x + z| - 1] == x + z[..|z| - 1];
      TrimTrailingNulsPadding(x, z[..|z| - 1]);
    }
  }

  lemma {:induction false} TrimTrailingNulsSplit(s: string) returns (z: string)
    ensures s == TrimTrailingNuls(s) + z && AllNuls(z)
    decreases |s|
  {
    if |s| > 0 && s[|s| - 1] == '\0' {
      var rest := TrimTrailingNulsSplit(s[..|s| - 1]);
      z := rest + [s[|s| - 1]];
      assert s == s[..|s| - 1] + [s[|s| - 1]];
    } else {
      z := [];
    }
  }

  lemma AppendAssoc(a: string, b: string, c: string)
    ensures a + (b + c) == a + b + c
  {
  }

  lemma {:induction false} TrimStartPadding(w: string, x: string)
    requires AllNumberWhite(w) && |x| > 0 && !IsNumberWhite(x[0])
    ensures TrimStart(w + x) == x
    decreases |w|
  {
    if w == [] {
      assert w + x == x;
    } else {
      assert (w + x)[1..] == w[1..] + x;
      TrimStartPadding(w[1..], x);
    }
  }

  lemma {:induction false} TrimEndPadding(x: string, w: string)
    requires AllNumberWhite(w) && |x| > 0 && !IsNumberWhite(x[|x| - 1])
    ensures TrimEnd(x + w) == x
    decreases |w|
  {
    if w == [] {
      assert x + w == x;
    } else {
      assert (x + w)[..|x + w| - 1] == x + w[..|w| - 1];
      TrimEndPadding(x, w[..|w| - 1]);
    }
  }

  lemma {:induction false} TrimStartSplit(s: string) returns (w: string)
    ensures s == w + TrimStart(s) && AllNumberWhite(w)
    decreases |s|
  {
    if |s| > 0 && IsNumberWhite(s[0]) {
      var rest := TrimStartSplit(s[1..]);
      w := [s[0]] + rest;
      assert s == [s[0]] + s[1..];
    } else {
      w := [];
    }
  }

  lemma {:induction false} TrimEndSplit(s: string) returns (w: string)
    ensures s == TrimEnd(s) + w && AllNumberWhite(w)
    decreases |s|
  {
    if |s| > 0 && IsNumberWhite(s[|s| - 1]) {
      var rest := TrimEndSplit(s[..|s| - 1]);
      w := rest + [s[|s| - 1]];
      assert s == s[..|s| - 1] + [s[|s| - 1]];
    } else {
      w := [];
    }
  }

  /** Every C# `int`, printed and parsed back, is itself. */
  lemma Int32RoundTrip(n: Int32)
    ensures TryParseInt32(IntToString(n)) == Some(n)
  {
    var sign := if n < 0 then "-" else "";
    var d := NatToDigits(Abs(n));
    DigitsRoundTrip(Abs(n));
    assert SignedValue(sign, d) == n;
    TryParsePadded("", sign, d, "", "");
    NoPadding(sign, d);
    assert IntToString(n) == sign + d;
  }

  /** Text that is not a (signed) run of digits never parses. */
  lemma TryParseRejectsNonNumeric(s: string)
    requires forall i :: 0 <= i < |s| ==> !IsDigit(s[i])
    ensures TryParseInt32(s) == None
  {
    var t := TrimEnd(TrimStart(TrimTrailingNuls(s)));
    TrimKeepsSubstring(s);
    var body := if |t| > 0 && (t[0] == '+' || t[0] == '-') then t[1..] else t;
    if |body| > 0 {
      assert body[0] in t;
      assert !IsDigit(body[0]);
    }
  }

  lemma TrimKeepsSubstring(s: string)
    ensures forall c :: c in TrimEnd(TrimStart(TrimTrailingNuls(s))) ==> c in s
  {
    TrimTrailingNulsSub(s);
    TrimStartSub(TrimTrailingNuls(s));
    TrimEndSub(TrimStart(TrimTrailingNuls(s)));
  }

  lemma {:induction false} TrimTrailingNulsSub(s: string)
    ensures forall c :: c in TrimTrailingNuls(s) ==> c in s
    decreases |s|
  {
    if |s| > 0 && s[|s| - 1] == '\0' {
      TrimTrailingNulsSub(s[..|s| - 1]);
    }
  }

  lemma {:induction false} TrimStartSub(s: string)
    ensures forall c :: c in TrimStart(s) ==> c in s
    decreases |s|
  {
    if |s| > 0 && IsNumberWhite(s[0]) {
      TrimStartSub(s[1..]);
    }
  }

  lemma {:induction false} TrimEndSub(s: string)
    ensures forall c :: c in TrimEnd(s) ==> c in s
    decreases |s|
  {
    if |s| > 0 && IsNumberWhite(s[|s| - 1]) {
      TrimEndSub(s[..|s| - 1]);
    }
  }
}
