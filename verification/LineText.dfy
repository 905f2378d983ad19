/** `str::lines` over bytes or characters: text cut at line feeds, a final line feed ending the
  * last line, and a carriage return dropped only before a line feed. */
module LineText {

  function LineEnd<T(==)>(s: seq<T>, i: nat, lf: T): (k: nat)
    requires i <= |s|
    ensures i <= k <= |s|
    ensures forall j :: i <= j < k ==> s[j] != lf
    ensures k < |s| ==> s[k] == lf
    decreases |s| - i
  {
    if i == |s| || s[i] == lf then i else LineEnd(s, i + 1, lf)
  }

  function DropCr<T(==)>(line: seq<T>, cr: T): seq<T> {
    if line != [] && line[|line| - 1] == cr then line[..|line| - 1] else line
  }

  function Lines<T(==)>(s: seq<T>, lf: T, cr: T): seq<seq<T>>
    decreases |s|
  {
    if s == [] then []
    else
      var k := LineEnd(s, 0, lf);
      if k == |s| then [s] else [DropCr(s[..k], cr)] + Lines(s[k + 1..], lf, cr)
  }

  /** The other direction: every line with its line feed. */
  function Unlines<T>(lines: seq<seq<T>>, lf: T): seq<T> {
    if lines == [] then [] else lines[0] + [lf] + Unlines(lines[1..], lf)
  }

  /** A line that reads back as it was written. */
  predicate IsLine<T(==)>(line: seq<T>, lf: T, cr: T) {
    lf !in line && (line != [] ==> line[|line| - 1] != cr)
  }

  lemma LineEndAt<T>(s: seq<T>, k: nat, lf: T)
    requires k <= |s| && lf !in s[..k] && (k < |s| ==> s[k] == lf)
    ensures LineEnd(s, 0, lf) == k
  {
    forall j | 0 <= j < k ensures s[j] != lf {
      assert s[..k][j] == s[j];
    }
  }

  /** The first line feed ends the first line. */
  lemma FirstLine<T>(s: seq<T>, k: nat, lf: T, cr: T)
    requires k < |s| && s[k] == lf && lf !in s[..k]
    ensures Lines(s, lf, cr) == [DropCr(s[..k], cr)] + Lines(s[k + 1..], lf, cr)
  {
    LineEndAt(s, k, lf);
  }

  /** A first line and the rest. */
  lemma ConsLine<T>(line: seq<T>, rest: seq<T>, lf: T, cr: T)
    requires lf !in line
    ensures Lines(line + [lf] + rest, lf, cr) == [DropCr(line, cr)] + Lines(rest, lf, cr)
  {
    var s := line + [lf] + rest;
    assert s[..|line|] == line && s[|line| + 1..] == rest;
    FirstLine(s, |line|, lf, cr);
  }

  /** A carriage return before the line feed is no part of the line. */
  lemma CrIsDropped<T>(line: seq<T>, rest: seq<T>, lf: T, cr: T)
    requires lf !in line && lf != cr
    ensures Lines(line + [cr, lf] + rest, lf, cr) == [line] + Lines(rest, lf, cr)
  {
    ConsLine(line + [cr], rest, lf, cr);
    assert line + [cr, lf] + rest == line + [cr] + [lf] + rest;
    assert (line + [cr])[..|line|] == line;
  }

  lemma SplitStep<T>(line: seq<T>, rest: seq<T>, m: nat, lf: T, cr: T)
    requires lf !in line && m <= |rest|
    requires Lines(rest, lf, cr) == Lines(rest[..m], lf, cr) + Lines(rest[m..], lf, cr)
    ensures Lines(line + [lf] + rest, lf, cr) == Lines(line + [lf] + rest[..m], lf, cr) + Lines(rest[m..], lf, cr)
  {
    hide Lines;
    ConsLine(line, rest, lf, cr);
    ConsLine(line, rest[..m], lf, cr);
  }

  lemma SplitWhere<T>(s: seq<T>, k: nat, c: nat, lf: T, cr: T)
    requires k < c <= |s| && s[k] == lf && lf !in s[..k]
    requires var rest, m := s[k + 1..], c - k - 1;
             Lines(rest, lf, cr) == Lines(rest[..m], lf, cr) + Lines(rest[m..], lf, cr)
    ensures Lines(s, lf, cr) == Lines(s[..c], lf, cr) + Lines(s[c..], lf, cr)
  {
    hide Lines;
    var line, rest, m := s[..k], s[k + 1..], c - k - 1;
    SplitStep(line, rest, m, lf, cr);
    assert s == line + [lf] + rest;
    assert s[..c] == line + [lf] + rest[..m];
    assert rest[m..] == s[c..];
  }

  lemma NoLines<T>(lf: T, cr: T)
    ensures Lines([], lf, cr) == []
  {
  }

  /** Cutting just after a line feed splits the lines. */
  lemma {:induction false} LinesSplit<T>(s: seq<T>, c: nat, lf: T, cr: T)
    requires c <= |s| && (c > 0 ==> s[c - 1] == lf)
    ensures Lines(s, lf, cr) == Lines(s[..c], lf, cr) + Lines(s[c..], lf, cr)
    decreases c
  {
    hide Lines, LineEnd;
    if c == 0 {
      NoLines(lf, cr);
      assert s[0..] == s;
    } else {
      var k := LineEnd(s, 0, lf);
      var rest, m := s[k + 1..], c - k - 1;
      if k + 1 < c { assert rest[m - 1] == s[c - 1]; }
      LinesSplit(rest, m, lf, cr);
      SplitWhere(s, k, c, lf, cr);
    }
  }

  /** Reading back written lines gives the lines. */
  lemma {:induction false} LinesRoundTrip<T>(lines: seq<seq<T>>, lf: T, cr: T)
    requires forall i :: 0 <= i < |lines| ==> IsLine(lines[i], lf, cr)
    ensures Lines(Unlines(lines, lf), lf, cr) == lines
  {
    if lines != [] {
      var s, n := Unlines(lines, lf), |lines[0]|;
      assert IsLine(lines[0], lf, cr);
      assert s[..n] == lines[0] && s[n] == lf && s[n + 1..] == Unlines(lines[1..], lf);
      FirstLine(s, n, lf, cr);
      LinesRoundTrip(lines[1..], lf, cr);
    }
  }

  lemma {:induction false} UnlinesAppend<T>(a: seq<seq<T>>, b: seq<seq<T>>, lf: T)
    ensures Unlines(a + b, lf) == Unlines(a, lf) + Unlines(b, lf)
  {
    if a == [] {
      assert a + b == b;
    } else {
      assert (a + b)[1..] == a[1..] + b;
      UnlinesAppend(a[1..], b, lf);
    }
  }

  /** `split(sep)`: the pieces between separators. */
  function Split<T(==)>(s: seq<T>, sep: T): (r: seq<seq<T>>)
    ensures r != []
    decreases |s|
  {
    var k := LineEnd(s, 0, sep);
    if k == |s| then [s] else [s[..k]] + Split(s[k + 1..], sep)
  }

  lemma SplitFirst<T>(head: seq<T>, sep: T, tail: seq<T>)
    requires sep !in head
    ensures Split(head + [sep] + tail, sep) == [head] + Split(tail, sep)
  {
    var s, k := head + [sep] + tail, |head|;
    assert s[..k] == head && s[k + 1..] == tail;
    LineEndAt(s, k, sep);
  }

  lemma SplitWhole<T>(s: seq<T>, sep: T)
    requires sep !in s
    ensures Split(s, sep) == [s]
  {
    assert s[..|s|] == s;
    LineEndAt(s, |s|, sep);
  }

  /** Joining with a separator joins the pieces. */
  lemma {:induction false} SplitJoined<T>(a: seq<T>, sep: T, b: seq<T>)
    ensures Split(a + [sep] + b, sep) == Split(a, sep) + Split(b, sep)
    decreases |a|
  {
    hide Split;
    var k := LineEnd(a, 0, sep);
    if k == |a| {
      SplitFirst(a, sep, b);
      SplitWhole(a, sep);
    } else {
      var head, rest := a[..k], a[k + 1..];
      assert a == head + [sep] + rest;
      SplitJoined(rest, sep, b);
      SplitFirst(head, sep, rest);
      SplitFirst(head, sep, rest + [sep] + b);
      assert a + [sep] + b == head + [sep] + (rest + [sep] + b);
    }
  }
}
