/** How the metadata files write bytes and numbers: percent escapes
  * (crates/trashd-common/src/trashinfo.rs, `encode_path` and `decode_percent`, and
  * their twins in directorysizes.rs) and decimal integers. */
module TextCodec {
  import opened Wrappers
  import opened Bytes

  // ---------------------------------------------------------------- characters as bytes

  function CharBytes(c: char): (r: Text)
    ensures r != []
    ensures (c as int) < 0x80 <==> r == [c as int]
  {
    var n := c as int;
    if n < 0x80 then [n]
    else if n < 0x800 then [0xC0 + n / 64, 0x80 + n % 64]
    else if n < 0x1_0000 then [0xE0 + n / 4096, 0x80 + n / 64 % 64, 0x80 + n % 64]
    else [0xF0 + n / 262144, 0x80 + n / 4096 % 64, 0x80 + n / 64 % 64, 0x80 + n % 64]
  }

  /** The number a character of UTF-8 stands for (section 3 of RFC 3629). */
  function CodePoint(s: Text): int
    requires 1 <= |s| <= 4
  {
    if |s| == 1 then s[0]
    else if |s| == 2 then 0x40 * Low(s[0], 0x20) + Low(s[1], 0x40)
    else if |s| == 3 then 0x1000 * Low(s[0], 0x10) + 0x40 * Low(s[1], 0x40) + Low(s[2], 0x40)
    else 0x4_0000 * Low(s[0], 8) + 0x1000 * Low(s[1], 0x40) + 0x40 * Low(s[2], 0x40) + Low(s[3], 0x40)
  }

  function Low(b: int, weight: nat): int
    requires weight > 0
  {
    b % weight
  }

  lemma LowOf(head: int, bits: nat, weight: nat)
    requires (head == 0xC0 && weight == 0x20) || (head == 0xE0 && weight == 0x10)
             || (head == 0xF0 && weight == 8) || (head == 0x80 && weight == 0x40)
    requires bits < weight
    ensures Low(head + bits, weight) == bits
  {
  }

  lemma TwoBytes(n: nat)
    requires 0x80 <= n < 0x800
    ensures var s := [0xC0 + n / 64, 0x80 + n % 64];
            CharLength(s) == 2 && CodePoint(s) == n
  {
    hide Low;
    LowOf(0xC0, n / 64, 0x20);
    LowOf(0x80, n % 64, 0x40);
  }

  lemma ThreeBytes(n: nat)
    requires 0x800 <= n < 0xD800 || 0xE000 <= n < 0x1_0000
    ensures var s := [0xE0 + n / 4096, 0x80 + n / 64 % 64, 0x80 + n % 64];
            CharLength(s) == 3 && CodePoint(s) == n
  {
    hide Low;
    var q := n / 64;
    assert q / 64 == n / 4096 && n == 64 * q + n % 64 && q == 64 * (n / 4096) + q % 64;
    LowOf(0xE0, n / 4096, 0x10);
    LowOf(0x80, q % 64, 0x40);
    LowOf(0x80, n % 64, 0x40);
  }

  lemma FourBytes(n: nat)
    requires 0x1_0000 <= n < 0x11_0000
    ensures var s := [0xF0 + n / 262144, 0x80 + n / 4096 % 64, 0x80 + n / 64 % 64, 0x80 + n % 64];
            CharLength(s) == 4 && CodePoint(s) == n
  {
    hide Low;
    var q, p := n / 64, n / 4096;
    assert q / 64 == p && p / 64 == n / 262144;
    assert n == 64 * q + n % 64 && q == 64 * p + q % 64 && p == 64 * (n / 262144) + p % 64;
    LowOf(0xF0, n / 262144, 8);
    LowOf(0x80, p % 64, 0x40);
    LowOf(0x80, q % 64, 0x40);
    LowOf(0x80, n % 64, 0x40);
  }

  /** A character is written as the one valid form of its number. */
  lemma CharBytesAreUtf8(c: char)
    ensures CharLength(CharBytes(c)) == |CharBytes(c)| && CodePoint(CharBytes(c)) == c as int
  {
    hide CodePoint, CharLength;
    var n := c as int;
    if n < 0x80 {
      OneByte(n);
    } else if n < 0x800 {
      TwoBytes(n);
    } else if n < 0x1_0000 {
      ThreeBytes(n);
    } else {
      FourBytes(n);
    }
  }

  lemma OneByte(n: nat)
    requires n < 0x80
    ensures CharLength([n]) == 1 && CodePoint([n]) == n
  {
  }

  /** The bytes of a string. */
  function StringBytes(s: string): Text {
    if s == "" then [] else CharBytes(s[0]) + StringBytes(s[1..])
  }

  lemma {:induction false} StringBytesAppend(a: string, b: string)
    ensures StringBytes(a + b) == StringBytes(a) + StringBytes(b)
  {
    if a == "" {
      assert a + b == b;
    } else {
      assert (a + b)[1..] == a[1..] + b;
      StringBytesAppend(a[1..], b);
    }
  }

  // ---------------------------------------------------------------- percent escapes

  predicate IsUnreserved(b: u8) {
    || 65 <= b <= 90 || 97 <= b <= 122 || 48 <= b <= 57
    || b == 45 || b == 46 || b == 95 || b == 126
  }

  const PERCENT: u8 := 37

  function HexUpper(d: nat): char
    requires d < 16
  {
    if d < 10 then (48 + d) as char else (55 + d) as char
  }

  predicate IsHexDigit(b: u8) {
    48 <= b <= 57 || 65 <= b <= 70 || 97 <= b <= 102
  }

  function HexDigitValue(b: u8): (d: u8)
    requires IsHexDigit(b)
    ensures d < 16
  {
    if b <= 57 then b - 48 else if b <= 70 then b - 55 else b - 87
  }

  /** What is written as it is: letters, digits and four marks (section 2.3 of RFC 3986). */
  lemma UnreservedAre(b: u8)
    ensures var c := b as char;
            IsUnreserved(b) <==>
            'A' <= c <= 'Z' || 'a' <= c <= 'z' || '0' <= c <= '9' || c == '-' || c == '.' || c == '_' || c == '~'
  {
  }

  /** Escapes are written with upper-case digits, and read with either. */
  lemma HexDigitsAre(d: nat)
    requires d < 16
    ensures HexUpper(d) == "0123456789ABCDEF"[d]
    ensures var upper, lower := "0123456789ABCDEF"[d] as int, "0123456789abcdef"[d] as int;
            IsHexDigit(upper) && HexDigitValue(upper) == d && IsHexDigit(lower) && HexDigitValue(lower) == d
  {
  }

  lemma HexDigitsOnly(b: u8)
    ensures var c := b as char; IsHexDigit(b) <==> '0' <= c <= '9' || 'A' <= c <= 'F' || 'a' <= c <= 'f'
  {
  }

  function EncodeByte(b: u8, keepSlash: bool): string {
    if IsUnreserved(b) || (keepSlash && b == SLASH) then [b as char]
    else ['%', HexUpper(b / 16), HexUpper(b % 16)]
  }

  function Encode(bytes: Text, keepSlash: bool): string {
    if bytes == [] then "" else EncodeByte(bytes[0], keepSlash) + Encode(bytes[1..], keepSlash)
  }

  lemma {:induction false} EncodeAppend(a: Text, b: Text, keepSlash: bool)
    ensures Encode(a + b, keepSlash) == Encode(a, keepSlash) + Encode(b, keepSlash)
  {
    if a == [] {
      assert a + b == b;
    } else {
      assert (a + b)[1..] == a[1..] + b;
      EncodeAppend(a[1..], b, keepSlash);
    }
  }

  /** encode_path and encode_name. */
  method EncodeText(bytes: Text, keepSlash: bool) returns (encoded: string)
    ensures encoded == Encode(bytes, keepSlash)
  {
    encoded := "";
    for i := 0 to |bytes|
      invariant encoded == Encode(bytes[..i], keepSlash)
    {
      var b := bytes[i];
      assert bytes[..i + 1] == bytes[..i] + [b];
      EncodeAppend(bytes[..i], [b], keepSlash);
      if IsUnreserved(b) || (keepSlash && b == SLASH) {
        encoded := encoded + [b as char];
      } else {
        encoded := encoded + ['%', HexUpper(b / 16), HexUpper(b % 16)];
      }
    }
    assert bytes[..|bytes|] == bytes;
  }

  /** Whether a full escape starts at `i`. */
  predicate EscapeAt(bytes: Text, i: nat) {
    i + 2 < |bytes| && bytes[i] == PERCENT && IsHexDigit(bytes[i + 1]) && IsHexDigit(bytes[i + 2])
  }

  /** What the escape or plain byte at `i` stands for, and how long it is. */
  function UnitAt(bytes: Text, i: nat): (r: (u8, nat))
    requires i < |bytes|
    ensures 0 < r.1 <= |bytes| - i
  {
    if EscapeAt(bytes, i) then (16 * HexDigitValue(bytes[i + 1]) + HexDigitValue(bytes[i + 2]), 3) else (bytes[i], 1)
  }

  /** decode_percent: anything but a full escape stays literal. */
  function Decode(bytes: Text): Text
    decreases |bytes|
  {
    if bytes == [] then []
    else
      var (b, n) := UnitAt(bytes, 0);
      [b] + Decode(bytes[n..])
  }

  lemma DecodeAt(bytes: Text, i: nat, before: Text)
    requires i < |bytes|
    ensures var (b, n) := UnitAt(bytes, i);
            before + Decode(bytes[i..]) == before + [b] + Decode(bytes[i + n..])
  {
    var rest := bytes[i..];
    var (b, n) := UnitAt(bytes, i);
    assert UnitAt(rest, 0) == (b, n);
    assert rest[n..] == bytes[i + n..];
  }

  method DecodeText(bytes: Text) returns (decoded: Text)
    ensures decoded == Decode(bytes)
  {
    decoded := [];
    var i := 0;
    while i < |bytes|
      invariant 0 <= i <= |bytes|
      invariant decoded + Decode(bytes[i..]) == Decode(bytes)
    {
      DecodeAt(bytes, i, decoded);
      if bytes[i] == PERCENT && i + 2 < |bytes| && IsHexDigit(bytes[i + 1]) && IsHexDigit(bytes[i + 2]) {
        decoded := decoded + [16 * HexDigitValue(bytes[i + 1]) + HexDigitValue(bytes[i + 2])];
        i := i + 3;
      } else {
        decoded := decoded + [bytes[i]];
        i := i + 1;
      }
    }
  }

  lemma EncodeByteBytes(b: u8, keepSlash: bool, rest: Text)
    ensures var s := StringBytes(EncodeByte(b, keepSlash));
            Decode(s + rest) == [b] + Decode(rest)
  {
    var e := EncodeByte(b, keepSlash);
    if IsUnreserved(b) || (keepSlash && b == SLASH) {
      assert StringBytes(e) == CharBytes(e[0]) + StringBytes(e[1..]) == [b];
      assert ([b] + rest)[1..] == rest;
    } else {
      var h, l := HexUpper(b / 16), HexUpper(b % 16);
      assert e[1..] == [h, l] && e[1..][1..] == [l] && e[1..][1..][1..] == "";
      assert StringBytes([l]) == CharBytes(l);
      assert StringBytes([h, l]) == CharBytes(h) + CharBytes(l);
      assert StringBytes(e) == [PERCENT, h as int, l as int];
      var s := StringBytes(e) + rest;
      assert s[0] == PERCENT && s[1] == h as int && s[2] == l as int && s[3..] == rest;
    }
  }

  /** What was encoded decodes to the same bytes, whatever follows. */
  lemma {:induction false} EncodeDecodes(bytes: Text, keepSlash: bool)
    ensures Decode(StringBytes(Encode(bytes, keepSlash))) == bytes
  {
    if bytes != [] {
      var first, rest := EncodeByte(bytes[0], keepSlash), Encode(bytes[1..], keepSlash);
      StringBytesAppend(first, rest);
      EncodeByteBytes(bytes[0], keepSlash, StringBytes(rest));
      EncodeDecodes(bytes[1..], keepSlash);
    }
  }

  /** Only printable ASCII without separators comes out of the encoder. */
  predicate IsEncodedChar(c: char) {
    c == '%' || c == '/' || (c as int < 0x80 && IsUnreserved(c as int))
  }

  lemma {:induction false} EncodeAlphabet(bytes: Text, keepSlash: bool)
    ensures forall i :: 0 <= i < |Encode(bytes, keepSlash)| ==>
              IsEncodedChar(Encode(bytes, keepSlash)[i]) && (!keepSlash ==> Encode(bytes, keepSlash)[i] != '/')
  {
    if bytes != [] {
      EncodeAlphabet(bytes[1..], keepSlash);
    }
  }

  // ---------------------------------------------------------------- decimal numbers

  predicate IsDigit(c: char) {
    '0' <= c <= '9'
  }

  function Digits(n: nat): (s: string)
    ensures s != "" && forall i :: 0 <= i < |s| ==> IsDigit(s[i])
  {
    if n < 10 then [(48 + n) as char] else Digits(n / 10) + [(48 + n % 10) as char]
  }

  function DigitsValue(s: string): Option<nat> {
    if s == "" then Some(0)
    else if !IsDigit(s[|s| - 1]) then None
    else
      match DigitsValue(s[..|s| - 1])
      case None => None
      case Some(v) => Some(10 * v + (s[|s| - 1] as int - 48))
  }

  /** `str::parse` for an unsigned type with `limit` values. */
  function ParseUnsigned(s: string, limit: nat): Option<nat> {
    var body := if s != "" && s[0] == '+' then s[1..] else s;
    if body == "" then None
    else
      match DigitsValue(body)
      case Some(v) => if v < limit then Some(v) else None
      case None => None
  }

  lemma {:induction false} DigitsRoundTrip(n: nat)
    ensures DigitsValue(Digits(n)) == Some(n)
  {
    var s := Digits(n);
    if n >= 10 {
      DigitsRoundTrip(n / 10);
      assert s[..|s| - 1] == Digits(n / 10);
    } else {
      assert s[..|s| - 1] == "";
    }
  }

  /** A number is read back if it fits the type. */
  lemma ParseDigits(n: nat, limit: nat)
    ensures ParseUnsigned(Digits(n), limit) == if n < limit then Some(n) else None
    ensures ParseUnsigned("+" + Digits(n), limit) == if n < limit then Some(n) else None
  {
    DigitsRoundTrip(n);
    assert IsDigit(Digits(n)[0]);
    assert ("+" + Digits(n))[1..] == Digits(n);
  }
}
