/** Looking a path up in the mount table (crates/trashd-common/src/mounts.rs and
  * crates/trashd-preload/src/lib.rs): the first match of a table sorted by length is the strict
  * maximum of an unsorted scan, and the kernel's escapes are undone. */
module Mounts {
  import opened Wrappers
  import opened Bytes
  import opened LineText

  const TAB: u8 := 9

  // ---------------------------------------------------------------- octal escapes

  predicate IsOctal(b: u8) {
    48 <= b <= 55
  }

  predicate EscapeAt(s: Text, i: nat) {
    i + 4 <= |s| && s[i] == BACKSLASH && IsOctal(s[i + 1]) && IsOctal(s[i + 2]) && IsOctal(s[i + 3])
  }

  /** Three octal digits in eight bits: what does not fit is shifted out. */
  function OctalValue(a: u8, b: u8, c: u8): u8
    requires IsOctal(a) && IsOctal(b) && IsOctal(c)
  {
    ((a as int - 48) * 64 + (b as int - 48) * 8 + (c as int - 48)) % 0x100
  }

  /** unescape_octal: whatever is not a full escape stays. */
  function Unescaped(s: Text): Text
    decreases |s|
  {
    if s == [] then []
    else if EscapeAt(s, 0) then [OctalValue(s[1], s[2], s[3])] + Unescaped(s[4..])
    else [s[0]] + Unescaped(s[1..])
  }

  lemma UnescapedAt(s: Text, i: nat, before: Text)
    requires i < |s|
    ensures before + Unescaped(s[i..]) ==
            if EscapeAt(s, i) then before + [OctalValue(s[i + 1], s[i + 2], s[i + 3])] + Unescaped(s[i + 4..])
            else before + [s[i]] + Unescaped(s[i + 1..])
  {
    var rest := s[i..];
    assert EscapeAt(rest, 0) <==> EscapeAt(s, i);
    assert rest[1..] == s[i + 1..];
    if EscapeAt(s, i) { assert rest[4..] == s[i + 4..]; }
  }

  method UnescapeOctal(field: Text) returns (result: Text)
    ensures result == Unescaped(field)
  {
    result := [];
    var i := 0;
    assert field[0..] == field;
    assert Unescaped(field[|field|..]) == [];
    hide Unescaped;
    while i < |field|
      invariant 0 <= i <= |field|
      invariant result + Unescaped(field[i..]) == Unescaped(field)
    {
      UnescapedAt(field, i, result);
      if field[i] == BACKSLASH && i + 4 <= |field|
         && IsOctal(field[i + 1]) && IsOctal(field[i + 2]) && IsOctal(field[i + 3]) {
        result := result + [OctalValue(field[i + 1], field[i + 2], field[i + 3])];
        i := i + 4;
      } else {
        result := result + [field[i]];
        i := i + 1;
      }
    }
  }

  /** What the kernel escapes in a mount path: space, tab, line feed and backslash. */
  function EscapedByte(b: u8): Text {
    if b == SPACE then [BACKSLASH, 48, 52, 48]
    else if b == TAB then [BACKSLASH, 48, 49, 49]
    else if b == LF then [BACKSLASH, 48, 49, 50]
    else if b == BACKSLASH then [BACKSLASH, 49, 51, 52]
    else [b]
  }

  function Escaped(path: Text): Text {
    if path == [] then [] else EscapedByte(path[0]) + Escaped(path[1..])
  }

  lemma UnescapesByte(b: u8, rest: Text)
    ensures Unescaped(EscapedByte(b) + rest) == [b] + Unescaped(rest)
  {
    var s := EscapedByte(b) + rest;
    if |EscapedByte(b)| == 4 {
      assert s[4..] == rest;
    } else {
      assert s[0] == b && s[1..] == rest;
    }
  }

  /** Every mount path comes back byte for byte, and its field holds no separator. */
  lemma {:induction false} EscapesAreUndone(path: Text)
    ensures Unescaped(Escaped(path)) == path
    ensures SPACE !in Escaped(path) && TAB !in Escaped(path) && LF !in Escaped(path)
  {
    if path != [] {
      UnescapesByte(path[0], Escaped(path[1..]));
      EscapesAreUndone(path[1..]);
    }
  }

  /** Any byte in three octal digits behind a backslash is read as that byte. */
  lemma OctalIsUndone(b: u8, rest: Text)
    ensures Unescaped([BACKSLASH, 48 + b / 64, 48 + b / 8 % 8, 48 + b % 8] + rest) == [b] + Unescaped(rest)
  {
    var s := [BACKSLASH, 48 + b / 64, 48 + b / 8 % 8, 48 + b % 8] + rest;
    assert s[4..] == rest;
    assert b == b / 64 * 64 + b / 8 % 8 * 8 + b % 8;
  }

  // ---------------------------------------------------------------- component-wise prefixes

  /** The named components: empty ones and `.` do not count. */
  function Named(pieces: seq<Text>): seq<Text> {
    if pieces == [] then []
    else (if pieces[0] == [] || pieces[0] == [DOT] then [] else [pieces[0]]) + Named(pieces[1..])
  }

  function Components(path: Text): seq<Text> {
    Named(Split(path, SLASH))
  }

  /** `Path::starts_with` for an absolute path. */
  predicate StartsWith(path: Text, prefix: Text) {
    prefix == [] || (IsAbsolute(prefix) && Components(prefix) <= Components(path))
  }

  // ---------------------------------------------------------------- two ways to look up

  /** The most specific mount: a matching one that no other match outdoes in length, and the first
    * of those. */
  predicate IsMostSpecific(table: seq<Text>, path: Text, k: nat) {
    && k < |table| && StartsWith(path, table[k])
    && forall j :: 0 <= j < |table| && StartsWith(path, table[j]) ==>
         |table[j]| < |table[k]| || (|table[j]| == |table[k]| && k <= j)
  }

  predicate NoneMatches(table: seq<Text>, path: Text) {
    forall j :: 0 <= j < |table| ==> !StartsWith(path, table[j])
  }

  predicate IsAnswer(table: seq<Text>, path: Text, r: Option<nat>) {
    match r case None => NoneMatches(table, path) case Some(k) => IsMostSpecific(table, path, k)
  }

  /** There is only one right answer. */
  lemma OneAnswer(table: seq<Text>, path: Text, r: Option<nat>, s: Option<nat>)
    requires IsAnswer(table, path, r) && IsAnswer(table, path, s)
    ensures r == s
  {
    hide StartsWith;
  }

  /** The preload's scan: a match replaces the best so far only when it is strictly longer. No
    * mount path is empty, since no field is. */
  method ScanForLongest(table: seq<Text>, path: Text) returns (best: Option<nat>)
    requires forall i :: 0 <= i < |table| ==> table[i] != []
    ensures IsAnswer(table, path, best)
  {
    best := None;
    var bestLen := 0;
    for i := 0 to |table|
      invariant bestLen == if best.Some? then (if best.value < i then |table[best.value]| else 0) else 0
      invariant best.Some? ==> best.value < i
      invariant IsAnswer(table[..i], path, best)
    {
      MoreRows(table, path, i, best);
      if StartsWith(path, table[i]) && |table[i]| > bestLen {
        best, bestLen := Some(i), |table[i]|;
      }
    }
    assert table[..|table|] == table;
  }

  /** One more row: the best so far, or the new one when it is a longer match. */
  lemma MoreRows(table: seq<Text>, path: Text, i: nat, was: Option<nat>)
    requires i < |table| && IsAnswer(table[..i], path, was)
    ensures IsAnswer(table[..i + 1], path,
                     if StartsWith(path, table[i]) && (was.None? || |table[i]| > |table[was.value]|)
                     then Some(i) else was)
  {
    hide StartsWith;
    var s, t := table[..i], table[..i + 1];
    forall j | 0 <= j < i ensures t[j] == s[j] { }
    forall j | 0 <= j < |t| && StartsWith(path, t[j])
      ensures j == i || StartsWith(path, s[j])
    {
    }
  }

  /** An order that sorts by length, longest first, and leaves equal lengths as they stood. */
  predicate Precedes(table: seq<Text>, i: nat, j: nat)
    requires i < |table| && j < |table|
  {
    |table[i]| > |table[j]| || (|table[i]| == |table[j]| && i < j)
  }

  /** One row in its place: behind every row that is at least as long. */
  function Inserted(table: seq<Text>, order: seq<nat>, k: nat): (r: seq<nat>)
    requires k < |table| && forall i :: 0 <= i < |order| ==> order[i] < |table|
    ensures forall x :: x in r <==> x == k || x in order
    ensures forall i :: 0 <= i < |r| ==> r[i] < |table|
  {
    if order == [] || |table[order[0]]| < |table[k]| then [k] + order
    else [order[0]] + Inserted(table, order[1..], k)
  }

  /** `sort_by_key(Reverse(len))`. */
  function SortedByLength(table: seq<Text>, n: nat): (order: seq<nat>)
    requires n <= |table|
    ensures forall i :: 0 <= i < |order| ==> order[i] < |table|
    decreases n
  {
    if n == 0 then [] else Inserted(table, SortedByLength(table, n - 1), n - 1)
  }

  predicate InOrder(table: seq<Text>, order: seq<nat>)
    requires forall i :: 0 <= i < |order| ==> order[i] < |table|
  {
    forall i, j :: 0 <= i < j < |order| ==> Precedes(table, order[i], order[j])
  }

  lemma {:induction false} InsertKeepsOrder(table: seq<Text>, order: seq<nat>, k: nat)
    requires k < |table| && forall i :: 0 <= i < |order| ==> order[i] < k
    requires InOrder(table, order)
    ensures InOrder(table, Inserted(table, order, k))
  {
    if order != [] && |table[order[0]]| >= |table[k]| {
      var rest := order[1..];
      InsertKeepsOrder(table, rest, k);
      var r := Inserted(table, rest, k);
      forall j | 0 <= j < |r| ensures Precedes(table, order[0], r[j]) {
        assert r[j] in r;
        if r[j] != k {
          var i :| 0 <= i < |rest| && rest[i] == r[j];
          assert order[i + 1] == r[j];
        }
      }
    }
  }

  lemma {:induction false} SortIsStable(table: seq<Text>, n: nat)
    requires n <= |table|
    ensures InOrder(table, SortedByLength(table, n))
    ensures forall k: nat :: k in SortedByLength(table, n) <==> k < n
    decreases n
  {
    if n > 0 {
      var before := SortedByLength(table, n - 1);
      SortIsStable(table, n - 1);
      forall i | 0 <= i < |before| ensures before[i] < n - 1 {
        assert before[i] in before;
      }
      InsertKeepsOrder(table, before, n - 1);
    }
  }

  /** find_mount_point of the common crate: the first match in the sorted table. */
  method FindMountPoint(table: seq<Text>, path: Text) returns (r: Option<nat>)
    ensures IsAnswer(table, path, r)
  {
    var order := SortedByLength(table, |table|);
    SortIsStable(table, |table|);
    for i := 0 to |order|
      invariant forall j :: 0 <= j < i ==> !StartsWith(path, table[order[j]])
    {
      if StartsWith(path, table[order[i]]) {
        forall k: nat | k < |table| && StartsWith(path, table[k])
          ensures |table[k]| < |table[order[i]]| || (|table[k]| == |table[order[i]]| && order[i] <= k)
        {
          assert k in order;
          var j :| 0 <= j < |order| && order[j] == k;
          if j > i { assert Precedes(table, order[i], order[j]); }
        }
        return Some(order[i]);
      }
    }
    forall k: nat | k < |table| ensures !StartsWith(path, table[k]) {
      assert k in order;
    }
    r := None;
  }

  /** A path without empty or dot components, and without a slash at its end. */
  predicate IsCanonical(path: Text) {
    IsAbsolute(path) && path == Rejoined(Components(path))
  }

  function Rejoined(parts: seq<Text>): Text {
    if parts == [] then [SLASH]
    else if |parts| == 1 then [SLASH] + parts[0]
    else [SLASH] + parts[0] + Rejoined(parts[1..])
  }

  predicate IsPart(part: Text) {
    part != [] && part != [DOT] && SLASH !in part
  }

  lemma {:induction false} NamedAppend(a: seq<Text>, b: seq<Text>)
    ensures Named(a + b) == Named(a) + Named(b)
  {
    if a == [] {
      assert a + b == b;
    } else {
      assert (a + b)[1..] == a[1..] + b;
      NamedAppend(a[1..], b);
    }
  }

  /** Behind a slash, further components come after those before it. */
  lemma ComponentsJoin(a: Text, b: Text)
    ensures Components(a + [SLASH] + b) == Components(a) + Components(b)
  {
    hide Split, Named;
    SplitJoined(a, SLASH, b);
    NamedAppend(Split(a, SLASH), Split(b, SLASH));
  }

  lemma OneComponent(part: Text)
    requires SLASH !in part
    ensures Components(part) == if part == [] || part == [DOT] then [] else [part]
  {
    SplitWhole(part, SLASH);
    assert [part][1..] == [] && Named([]) == [];
    assert Named([part]) == (if part == [] || part == [DOT] then [] else [part]) + Named([part][1..]);
  }

  /** Every list of names is the components of the path they make. */
  lemma {:induction false} ComponentsOfRejoined(parts: seq<Text>)
    requires forall i :: 0 <= i < |parts| ==> IsPart(parts[i])
    ensures Components(Rejoined(parts)) == parts
  {
    hide Components;
    OneComponent([]);
    if parts == [] {
      ComponentsJoin([], []);
      assert [] + [SLASH] + [] == [SLASH];
    } else {
      OneComponent(parts[0]);
      ComponentsJoin([], parts[0]);
      assert [] + [SLASH] + parts[0] == [SLASH] + parts[0];
      if |parts| > 1 {
        var rest := Rejoined(parts[1..]);
        ComponentsOfRejoined(parts[1..]);
        assert rest[0] == SLASH && rest == [SLASH] + rest[1..];
        ComponentsJoin([], rest[1..]);
        assert [] + [SLASH] + rest[1..] == rest;
        ComponentsJoin([SLASH] + parts[0], rest[1..]);
        assert Rejoined(parts) == [SLASH] + parts[0] + [SLASH] + rest[1..];
      }
    }
  }

  lemma {:induction false} RejoinedPrefix(a: seq<Text>, b: seq<Text>)
    requires a != [] && a < b
    ensures Rejoined(a) + [SLASH] <= Rejoined(b)
  {
    assert a[0] == b[0];
    var x, y := Rejoined(a), Rejoined(b);
    if |a| > 1 {
      assert a[1..] < b[1..] by {
        assert b[..|a|] == a;
      }
      RejoinedPrefix(a[1..], b[1..]);
      assert x == [SLASH] + a[0] + Rejoined(a[1..]) && y == [SLASH] + a[0] + Rejoined(b[1..]);
    } else {
      assert Rejoined(b[1..])[0] == SLASH;
      assert y == x + Rejoined(b[1..]);
    }
  }

  /** Between canonical paths: a path starts with the root, with itself, and with what a slash follows
    * in it, and with nothing else; `/media/usb2` does not start with `/media/usb`. */
  lemma StartsWithMeans(path: Text, prefix: Text)
    requires IsCanonical(path) && IsCanonical(prefix)
    ensures StartsWith(path, prefix) <==> prefix == [SLASH] || path == prefix || prefix + [SLASH] <= path
  {
    hide Components;
    var a, b := Components(prefix), Components(path);
    OneComponent([]);
    ComponentsJoin([], []);
    assert [] + [SLASH] + [] == [SLASH];
    if a <= b && a != [] && a != b { RejoinedPrefix(a, b); }
    if prefix + [SLASH] <= path {
      var rest := path[|prefix| + 1..];
      assert path == prefix + [SLASH] + rest;
      ComponentsJoin(prefix, rest);
      assert b == a + Components(rest);
      assert a <= b;
    }
    assert prefix == [SLASH] ==> a == [];
    assert prefix == [SLASH] ==> StartsWith(path, prefix);
    assert path == prefix ==> StartsWith(path, prefix);
    assert a <= b && a == [] ==> prefix == [SLASH];
    assert a == b ==> path == prefix;
  }

  lemma {:induction false} LongerHasMoreParts(a: seq<Text>, b: seq<Text>)
    requires a <= b && |a| < |b| && forall i :: 0 <= i < |b| ==> b[i] != []
    ensures |Rejoined(a)| < |Rejoined(b)|
  {
    if a != [] {
      assert a[1..] <= b[1..] by {
        assert forall i :: 0 <= i < |a| ==> a[i] == b[i];
      }
      if |a| > 1 {
        LongerHasMoreParts(a[1..], b[1..]);
      }
    }
  }

  lemma {:induction false} NamedAreNotEmpty(pieces: seq<Text>)
    ensures forall i :: 0 <= i < |Named(pieces)| ==> Named(pieces)[i] != []
  {
    if pieces != [] { NamedAreNotEmpty(pieces[1..]); }
  }

  /** The most specific mount is a longest component-wise prefix: on canonical paths no match has more
    * components. */
  lemma MostSpecificIsDeepest(table: seq<Text>, path: Text, k: nat, j: nat)
    requires IsMostSpecific(table, path, k) && j < |table| && StartsWith(path, table[j])
    requires IsCanonical(table[k]) && IsCanonical(table[j])
    ensures Components(table[j]) <= Components(table[k])
  {
    var a, b := Components(table[k]), Components(table[j]);
    NamedAreNotEmpty(Split(table[j], SLASH));
    assert a <= Components(path) && b <= Components(path);
    if |a| < |b| {
      assert a <= b;
      LongerHasMoreParts(a, b);
    }
  }
}
