/** One bounded read of `/proc/<pid>/stat` (crates/trashd-common/src/proc_stat.rs): the name may
  * hold anything, the line may be cut, and a cut parent PID must not pass for a whole one. */
module ProcStat {
  import opened Wrappers
  import opened Bytes
  import opened TextCodec

  const OPEN: u8 := '(' as int
  const CLOSE: u8 := ')' as int

  /** `is_ascii_whitespace`. */
  predicate IsBlank(b: u8) {
    b == 32 || b == 9 || b == 10 || b == 12 || b == 13
  }

  function FirstOf(s: Text, b: u8): (k: nat)
    ensures k <= |s| && (forall i :: 0 <= i < k ==> s[i] != b) && (k < |s| ==> s[k] == b)
  {
    if s == [] || s[0] == b then 0 else 1 + FirstOf(s[1..], b)
  }

  /** The last occurrence, or the length when there is none. */
  function LastOf(s: Text, b: u8): (k: nat)
    ensures k <= |s| && (k < |s| ==> s[k] == b && forall i :: k < i < |s| ==> s[i] != b)
    ensures k == |s| ==> b !in s
  {
    if s == [] then 0
    else if s[|s| - 1] == b then |s| - 1
    else var k := LastOf(s[..|s| - 1], b); if k == |s| - 1 then |s| else k
  }

  /** The next byte that is not blank. */
  function SkipBlanks(s: Text, i: nat): (k: nat)
    requires i <= |s|
    ensures i <= k <= |s| && (forall j :: i <= j < k ==> IsBlank(s[j])) && (k < |s| ==> !IsBlank(s[k]))
    decreases |s| - i
  {
    if i == |s| || !IsBlank(s[i]) then i else SkipBlanks(s, i + 1)
  }

  function FieldEnd(s: Text, i: nat): (k: nat)
    requires i <= |s|
    ensures i <= k <= |s| && (forall j :: i <= j < k ==> !IsBlank(s[j])) && (k < |s| ==> IsBlank(s[k]))
    decreases |s| - i
  {
    if i == |s| || IsBlank(s[i]) then i else FieldEnd(s, i + 1)
  }

  /** Bytes as characters; what is not ASCII is no digit either way. */
  function Latin(s: Text): (r: string)
    ensures |r| == |s| && forall i :: 0 <= i < |s| ==> r[i] == s[i] as char
  {
    seq(|s|, i requires 0 <= i < |s| => s[i] as char)
  }

  /** The second field of what follows the name. */
  function ParentField(rest: Text, filled: bool): Option<nat> {
    var i := SkipBlanks(rest, 0);
    if i == |rest| then None
    else
      var j := SkipBlanks(rest, FieldEnd(rest, i));
      if j == |rest| then None
      else
        var k := FieldEnd(rest, j);
        if filled && k == |rest| then None else ParseUnsigned(Latin(rest[j..k]), 0x1_0000_0000)
  }

  /** parse_stat_prefix: the name's bytes, and the parent. */
  function Parsed(stat: Text, filled: bool): Option<(Text, nat)> {
    var first, end := FirstOf(stat, OPEN), LastOf(stat, CLOSE);
    if first == |stat| || end == |stat| || first + 1 > end then None
    else
      match ParentField(stat[end + 1..], filled)
      case None => None
      case Some(parent) => Some((stat[first + 1..end], parent))
  }

  // ---------------------------------------------------------------- what the kernel writes

  function Ascii(s: string): (r: Text)
    requires forall i :: 0 <= i < |s| ==> s[i] as int < 0x80
    ensures |r| == |s| && forall i :: 0 <= i < |s| ==> r[i] == s[i] as int
  {
    seq(|s|, i requires 0 <= i < |s| => s[i] as int)
  }

  /** A stat line: `pid (comm) state ppid ` and more fields. */
  datatype Stat = Stat(pid: nat, comm: Text, state: u8, parent: nat, more: Text)

  predicate WellFormed(s: Stat) {
    && !IsBlank(s.state) && s.state != CLOSE && CLOSE !in s.more && s.parent < 0x1_0000_0000
  }

  function Head(s: Stat): Text {
    Ascii(Digits(s.pid)) + [SPACE, OPEN] + s.comm + [CLOSE]
  }

  function AfterName(s: Stat): Text {
    [SPACE, s.state, SPACE] + Ascii(Digits(s.parent)) + [SPACE] + s.more
  }

  function StatLine(s: Stat): Text {
    Head(s) + AfterName(s)
  }

  /** Where the parent PID ends in the line. */
  function ParentEnd(s: Stat): nat {
    |Head(s)| + 3 + |Digits(s.parent)|
  }

  lemma DigitBytes(n: nat, i: nat)
    requires i < |Digits(n)|
    ensures 48 <= Ascii(Digits(n))[i] <= 57
  {
    assert IsDigit(Digits(n)[i]);
  }

  lemma LatinOfAscii(s: string)
    requires forall i :: 0 <= i < |s| ==> s[i] as int < 0x80
    ensures Latin(Ascii(s)) == s
  {
  }

  lemma FirstIs(s: Text, b: u8, k: nat)
    requires k < |s| && s[k] == b && forall i :: 0 <= i < k ==> s[i] != b
    ensures FirstOf(s, b) == k
  {
  }

  lemma LastIs(s: Text, b: u8, k: nat)
    requires k < |s| && s[k] == b && forall i :: k < i < |s| ==> s[i] != b
    ensures LastOf(s, b) == k
  {
    assert b in s;
  }

  /** The name is found whatever it contains, however the rest is cut. */
  lemma NameIsFound(s: Stat, rest: Text)
    requires CLOSE !in rest
    ensures var line := Head(s) + rest;
            && |Head(s)| >= |Digits(s.pid)| + 3
            && FirstOf(line, OPEN) + 1 == |Digits(s.pid)| + 2 && LastOf(line, CLOSE) + 1 == |Head(s)|
            && line[|Digits(s.pid)| + 2..|Head(s)| - 1] == s.comm && line[|Head(s)|..] == rest
  {
    var line, n := Head(s) + rest, |Digits(s.pid)|;
    forall i | 0 <= i < n + 1 ensures line[i] != OPEN {
      if i < n { DigitBytes(s.pid, i); }
    }
    FirstIs(line, OPEN, n + 1);
    forall i | |Head(s)| - 1 < i < |line| ensures line[i] != CLOSE {
      assert line[i] == rest[i - |Head(s)|];
    }
    LastIs(line, CLOSE, |Head(s)| - 1);
  }

  lemma BlanksAt(s: Text, i: nat, k: nat)
    requires i <= k <= |s| && (forall j :: i <= j < k ==> IsBlank(s[j])) && (k < |s| ==> !IsBlank(s[k]))
    ensures SkipBlanks(s, i) == k
  {
  }

  lemma FieldAt(s: Text, i: nat, k: nat)
    requires i <= k <= |s| && (forall j :: i <= j < k ==> !IsBlank(s[j])) && (k < |s| ==> IsBlank(s[k]))
    ensures FieldEnd(s, i) == k
  {
  }

  /** The rest of the line, cut anywhere: the parent is read exactly when a byte follows it. */
  lemma CutParent(s: Stat, n: nat)
    requires WellFormed(s) && n <= |AfterName(s)|
    ensures ParentField(AfterName(s)[..n], true) ==
            if n > 3 + |Digits(s.parent)| then Some(s.parent) else None
  {
    var digits := Ascii(Digits(s.parent));
    var rest, end := AfterName(s)[..n], 3 + |digits|;
    forall i | 3 <= i < n && i < end ensures !IsBlank(rest[i]) {
      DigitBytes(s.parent, i - 3);
      assert rest[i] == digits[i - 3];
    }
    if n <= 1 {
      BlanksAt(rest, 0, n);
    } else {
      BlanksAt(rest, 0, 1);
      FieldAt(rest, 1, 2);
      if n <= 3 {
        BlanksAt(rest, 2, n);
      } else {
        BlanksAt(rest, 2, 3);
        if n <= end {
          FieldAt(rest, 3, n);
        } else {
          assert rest[end] == SPACE;
          FieldAt(rest, 3, end);
          assert rest[3..end] == digits;
          LatinOfAscii(Digits(s.parent));
          ParseDigits(s.parent, 0x1_0000_0000);
        }
      }
    }
  }

  /** A filled buffer: for every name and every cut behind it, the answer is the whole line's name
    * and parent, or nothing; nothing exactly when the cut leaves no byte after the parent. */
  lemma FilledBufferNeverShortens(s: Stat, n: nat)
    requires WellFormed(s) && |Head(s)| <= n <= |StatLine(s)|
    ensures Parsed(StatLine(s)[..n], true) == if n > ParentEnd(s) then Some((s.comm, s.parent)) else None
  {
    hide ParentField, AfterName, FirstOf, LastOf, WellFormed, Digits, Head;
    var m := n - |Head(s)|;
    var rest := AfterName(s)[..m];
    assert StatLine(s)[..n] == Head(s) + rest;
    assert CLOSE !in rest by { NoCloseBehind(s, m); }
    NameIsFound(s, rest);
    CutParent(s, m);
  }

  lemma NoCloseBehind(s: Stat, m: nat)
    requires WellFormed(s) && m <= |AfterName(s)|
    ensures CLOSE !in AfterName(s)[..m]
  {
    var digits := Ascii(Digits(s.parent));
    forall i | 0 <= i < |AfterName(s)| ensures AfterName(s)[i] != CLOSE {
      if 3 <= i < 3 + |digits| {
        DigitBytes(s.parent, i - 3);
        assert AfterName(s)[i] == digits[i - 3];
      } else if i > 3 + |digits| {
        assert AfterName(s)[i] == s.more[i - 4 - |digits|];
      }
    }
  }

  lemma FillingOnlyRefuses(stat: Text)
    ensures Parsed(stat, true).Some? ==> Parsed(stat, false) == Parsed(stat, true)
  {
  }

  /** A whole line, in a buffer with room to spare, is always read. */
  lemma WholeLineIsRead(s: Stat)
    requires WellFormed(s)
    ensures Parsed(StatLine(s), false) == Some((s.comm, s.parent))
  {
    hide Parsed;
    FilledBufferNeverShortens(s, |StatLine(s)|);
    FillingOnlyRefuses(StatLine(s));
    assert StatLine(s)[..|StatLine(s)|] == StatLine(s);
  }
}
