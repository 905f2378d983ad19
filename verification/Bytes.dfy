/** Machine integers, byte strings and UTF-8 (section 4 of RFC 3629). */
module Bytes {

  type u8 = x: int | 0 <= x < 0x100
  type u32 = x: int | 0 <= x < 0x1_0000_0000
  type u64 = x: int | 0 <= x < 0x1_0000_0000_0000_0000

  type Text = seq<u8>

  const LF: u8 := 10
  const CR: u8 := 13
  const SPACE: u8 := 32
  const DOT: u8 := 46
  const SLASH: u8 := 47
  const BACKSLASH: u8 := 92

  predicate IsAbsolute(path: Text) {
    path != [] && path[0] == SLASH
  }

  /** A lower-case hexadecimal digit. */
  function HexLower(d: nat): (c: u8)
    requires d < 16
    ensures 48 <= c <= 57 || 97 <= c <= 102
  {
    if d < 10 then 48 + d else 87 + d
  }

  predicate IsTail(s: Text, i: nat) {
    i < |s| && 0x80 <= s[i] <= 0xBF
  }

  /** How many bytes the first character of `s` takes; 0 when `s` does not start with one. */
  function CharLength(s: Text): (n: nat)
    requires s != []
    ensures n <= |s|
    ensures n > 1 ==> forall i :: 0 <= i < n ==> s[i] >= 0x80
  {
    var b := s[0];
    if b < 0x80 then 1
    else if 0xC2 <= b <= 0xDF && IsTail(s, 1) then 2
    else if 0xE0 <= b <= 0xEF && IsTail(s, 1) && IsTail(s, 2)
            && (b == 0xE0 ==> s[1] >= 0xA0) && (b == 0xED ==> s[1] <= 0x9F) then 3
    else if 0xF0 <= b <= 0xF4 && IsTail(s, 1) && IsTail(s, 2) && IsTail(s, 3)
            && (b == 0xF0 ==> s[1] >= 0x90) && (b == 0xF4 ==> s[1] <= 0x8F) then 4
    else 0
  }

  predicate IsUtf8(s: Text)
    decreases |s|
  {
    s == [] || (CharLength(s) > 0 && IsUtf8(s[CharLength(s)..]))
  }

  /** Cutting valid text just after an ASCII byte leaves valid text. */
  lemma {:induction false} SuffixAfterAscii(s: Text, i: nat)
    requires IsUtf8(s) && i < |s| && s[i] < 0x80
    ensures IsUtf8(s[i + 1..])
    decreases |s|
  {
    var n := CharLength(s);
    if i + 1 == n {
      assert s[n..] == s[i + 1..];
    } else {
      assert n <= i;
      SuffixAfterAscii(s[n..], i - n);
      assert s[n..][i - n + 1..] == s[i + 1..];
    }
  }

  /** A character boundary, as `is_char_boundary` sees it. */
  predicate IsBoundary(s: Text, i: nat) {
    i == 0 || i == |s| || (i < |s| && !(0x80 <= s[i] <= 0xBF))
  }

  /** Valid text cut at a boundary is valid on the left. */
  lemma {:induction false} PrefixAtBoundary(s: Text, i: nat)
    requires IsUtf8(s) && i <= |s| && IsBoundary(s, i)
    ensures IsUtf8(s[..i])
    decreases |s|
  {
    if i > 0 {
      var n := CharLength(s);
      assert n <= i;
      if i < |s| { assert s[n..][i - n] == s[i] || i == n; }
      if i > n || i == |s| || n == i {
        if n < i { assert IsBoundary(s[n..], i - n); }
        PrefixAtBoundary(s[n..], i - n);
        assert s[..i][n..] == s[n..][..i - n];
        assert CharLength(s[..i]) == n;
      }
    }
  }
}
