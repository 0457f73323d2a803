/** `Common.GenerateStorageKey` (server/src/Cloudy.Domain/Common.cs): the object key a new
    file gets, `{today:yyyy/MM/dd}/{guid}-{name}`. The clock and the GUID generator are
    parameters; the date separator is '/' as under the invariant culture. */
module Common {
  import opened Wrappers
  import opened Text

  /** A calendar day in the range `DateTime` supports. */
  datatype Date = Date(year: int, month: int, day: int)
  {
    predicate Valid() {
      1 <= year <= 9999 && 1 <= month <= 12 && 1 <= day <= DaysInMonth(year, month)
    }
  }

  predicate IsLeapYear(y: int) {
    y % 4 == 0 && (y % 100 != 0 || y % 400 == 0)
  }

  function DaysInMonth(y: int, m: int): int {
    if m == 2 then (if IsLeapYear(y) then 29 else 28)
    else if m == 4 || m == 6 || m == 9 || m == 11 then 30
    else 31
  }

  /** A GUID as its 32 hexadecimal digits, most significant first, as `ToString()` prints them. */
  datatype Guid = Guid(nibbles: seq<int>)
  {
    predicate Valid() {
      |nibbles| == 32 && forall i :: 0 <= i < 32 ==> 0 <= nibbles[i] < 16
    }
  }

  // ---------------------------------------------------------------------------
  // Fixed-width decimal and hexadecimal text

  function Pad2(n: nat): (s: string)
    requires n < 100
    ensures |s| == 2 && AllDigits(s)
  {
    [DigitChar(n / 10), DigitChar(n % 10)]
  }

  function Pad4(n: nat): (s: string)
    requires n < 10000
    ensures |s| == 4 && AllDigits(s)
  {
    [DigitChar(n / 1000), DigitChar(n / 100 % 10), DigitChar(n / 10 % 10), DigitChar(n % 10)]
  }

  lemma Pad2Value(n: nat)
    requires n < 100
    ensures DigitsValue(Pad2(n)) == n
  {
    var s := Pad2(n);
    assert s[..1][..0] == [];
    assert DigitsValue(s[..1]) == n / 10;
  }

  lemma Pad4Value(n: nat)
    requires n < 10000
    ensures DigitsValue(Pad4(n)) == n
  {
    var s := Pad4(n);
    assert s[..1][..0] == [];
    assert s[..2][..1] == s[..1];
    assert s[..3][..2] == s[..2];
    assert s[..4][..3] == s[..3];
    assert DigitsValue(s[..1]) == n / 1000;
    assert DigitsValue(s[..2]) == n / 100;
    assert DigitsValue(s[..3]) == n / 10;
  }

  function HexChar(d: int): char
    requires 0 <= d < 16
  {
    "0123456789abcdef"[d]
  }

  predicate IsHexChar(c: char) {
    '0' <= c <= '9' || 'a' <= c <= 'f'
  }

  function HexValue(c: char): int
    requires IsHexChar(c)
  {
    if c <= '9' then c as int - '0' as int else c as int - 'a' as int + 10
  }

  function Hex(ds: seq<int>): (s: string)
    requires forall i :: 0 <= i < |ds| ==> 0 <= ds[i] < 16
    ensures |s| == |ds|
    ensures forall i :: 0 <= i < |s| ==> IsHexChar(s[i]) && HexValue(s[i]) == ds[i]
  {
    seq(|ds|, i requires 0 <= i < |ds| => HexChar(ds[i]))
  }

  function UnHex(s: string): seq<int>
    requires forall i :: 0 <= i < |s| ==> IsHexChar(s[i])
  {
    seq(|s|, i requires 0 <= i < |s| => HexValue(s[i]))
  }

  // ---------------------------------------------------------------------------
  // Formatting

  /** `yyyy/MM/dd`. */
  function FormatDate(d: Date): (s: string)
    requires d.Valid()
    ensures |s| == 10 && s[4] == '/' && s[7] == '/'
  {
    Pad4(d.year) + "/" + Pad2(d.month) + "/" + Pad2(d.day)
  }

  /** The "D" format: 8-4-4-4-12 lower-case hexadecimal digits. */
  function FormatGuid(g: Guid): (s: string)
    requires g.Valid()
    ensures |s| == 36 && s[8] == '-' && s[13] == '-' && s[18] == '-' && s[23] == '-'
  {
    var n := g.nibbles;
    Hex(n[..8]) + "-" + Hex(n[8..12]) + "-" + Hex(n[12..16]) + "-" + Hex(n[16..20]) + "-" + Hex(n[20..])
  }

  /** The storage key of a file named `name` created on `today` with identifier `guid`:
      a 10-character date, '/', the 36-character GUID, '-', and the name exactly as given. */
  function GenerateStorageKey(today: Date, guid: Guid, name: string): (key: string)
    requires today.Valid() && guid.Valid()
    ensures |key| == 48 + |name|
    ensures key[..10] == FormatDate(today) && key[10] == '/'
    ensures key[11..47] == FormatGuid(guid)
    ensures key[47] == '-' && key[48..] == name
  {
    FormatDate(today) + "/" + FormatGuid(guid) + "-" + name
  }

  // ---------------------------------------------------------------------------
  // Reading a key back

  datatype KeyParts = KeyParts(date: Date, guid: Guid, name: string)

  function ParseDate(s: string): Option<Date>
    requires |s| == 10
  {
    if AllDigits(s[..4]) && s[4] == '/' && AllDigits(s[5..7]) && s[7] == '/' && AllDigits(s[8..]) then
      var d := Date(DigitsValue(s[..4]), DigitsValue(s[5..7]), DigitsValue(s[8..]));
      if d.Valid() then Some(d) else None
    else None
  }

  predicate GuidShaped(s: string)
    requires |s| == 36
  {
    s[8] == '-' && s[13] == '-' && s[18] == '-' && s[23] == '-'
    && forall i :: 0 <= i < 36 && i != 8 && i != 13 && i != 18 && i != 23 ==> IsHexChar(s[i])
  }

  function ParseGuid(s: string): Option<Guid>
    requires |s| == 36
  {
    if GuidShaped(s) then
      Some(Guid(UnHex(s[..8]) + UnHex(s[9..13]) + UnHex(s[14..18]) + UnHex(s[19..23]) + UnHex(s[24..])))
    else None
  }

  /** Splits a key into the date, the GUID and the name it was made from. */
  function ParseStorageKey(key: string): Option<KeyParts> {
    if |key| < 48 || key[10] != '/' || key[47] != '-' then None
    else
      match (ParseDate(key[..10]), ParseGuid(key[11..47]))
      case (Some(d), Some(g)) => Some(KeyParts(d, g, key[48..]))
      case _ => None
  }

  lemma DateRoundTrip(d: Date)
    requires d.Valid()
    ensures ParseDate(FormatDate(d)) == Some(d)
  {
    var s := FormatDate(d);
    assert s[..4] == Pad4(d.year);
    assert s[5..7] == Pad2(d.month);
    assert s[8..] == Pad2(d.day);
    Pad4Value(d.year);
    Pad2Value(d.month);
    Pad2Value(d.day);
  }

  lemma GuidRoundTrip(g: Guid)
    requires g.Valid()
    ensures ParseGuid(FormatGuid(g)) == Some(g)
  {
    var s := FormatGuid(g);
    var n := g.nibbles;
    assert s[..8] == Hex(n[..8]);
    assert s[9..13] == Hex(n[8..12]);
    assert s[14..18] == Hex(n[12..16]);
    assert s[19..23] == Hex(n[16..20]);
    assert s[24..] == Hex(n[20..]);
    assert forall t :: 0 <= t < 8 ==> s[t] == Hex(n[..8])[t];
    assert GuidShaped(s);
    assert UnHex(s[..8]) == n[..8];
    assert UnHex(s[9..13]) == n[8..12];
    assert UnHex(s[14..18]) == n[12..16];
    assert UnHex(s[19..23]) == n[16..20];
    assert UnHex(s[24..]) == n[20..];
    assert n == n[..8] + n[8..12] + n[12..16] + n[16..20] + n[20..];
  }

  /** The key determines the date, the GUID and the name it was generated from: two files
      get the same key only when all three agree, and the name is embedded verbatim. */
  lemma StorageKeyRoundTrip(today: Date, guid: Guid, name: string)
    requires today.Valid() && guid.Valid()
    ensures ParseStorageKey(GenerateStorageKey(today, guid, name)) == Some(KeyParts(today, guid, name))
  {
    var key := GenerateStorageKey(today, guid, name);
    DateRoundTrip(today);
    GuidRoundTrip(guid);
  }
}
