/** The wildcard matcher behind never_trash and only_trash patterns
  * (crates/trashd-preload/src/lib.rs, `glob_match` and `class_match`).
  *
  * The matcher walks pattern and text with two cursors and remembers only the
  * last `*` it passed.  Here it is proved to accept exactly the texts that can
  * be cut into one piece per pattern token.
  */
module Glob {

  import opened Wrappers

  // ---------------------------------------------------------------- pattern language

  /** One member of a bracket expression. */
  datatype Item = One(c: char) | Range(lo: char, hi: char)

  /** What one stretch of the pattern asks of the text. */
  datatype Token = Literal(c: char) | AnyChar | Star | Class(negated: bool, items: seq<Item>)

  predicate ItemAccepts(item: Item, c: char) {
    match item
    case One(d) => c == d
    case Range(lo, hi) => lo <= c <= hi
  }

  predicate AnyItemAccepts(items: seq<Item>, c: char) {
    exists i :: 0 <= i < |items| && ItemAccepts(items[i], c)
  }

  /** Whether a token other than `*` accepts this one character. */
  predicate Accepts(token: Token, c: char) {
    match token
    case Literal(d) => c == d
    case AnyChar => true
    case Star => false
    case Class(negated, items) => AnyItemAccepts(items, c) != negated
  }

  /** The members of a bracket expression from `i` on, and the index after its `]`;
    * None when no `]` closes it.  A `]` in first place is an ordinary member. */
  function ClassBody(p: seq<char>, i: nat, first: bool): (r: Option<(seq<Item>, nat)>)
    ensures r.Some? ==> i < r.value.1 <= |p|
    decreases |p| - i
  {
    if i >= |p| then None
    else if p[i] == ']' && !first then Some(([], i + 1))
    else
      var (item, next) := ItemAt(p, i);
      match ClassBody(p, next, false)
      case None => None
      case Some((items, end)) => Some(([item] + items, end))
  }

  function ItemAt(p: seq<char>, i: nat): (r: (Item, nat))
    requires i < |p|
    ensures i < r.1 <= |p|
  {
    if i + 2 < |p| && p[i + 1] == '-' && p[i + 2] != ']'
    then (Range(p[i], p[i + 2]), i + 3)
    else (One(p[i]), i + 1)
  }

  predicate NegatedAt(p: seq<char>, start: nat) {
    start + 1 < |p| && (p[start + 1] == '!' || p[start + 1] == '^')
  }

  /** The bracket expression opened at `start`, with the index after it. */
  function ClassAt(p: seq<char>, start: nat): (r: Option<(Token, nat)>)
    ensures r.Some? ==> start < r.value.1 <= |p| && r.value.0.Class?
  {
    var negated := NegatedAt(p, start);
    match ClassBody(p, if negated then start + 2 else start + 1, true)
    case None => None
    case Some((items, end)) => Some((Class(negated, items), end))
  }

  /** The token that starts at `i` and the index of the next one. */
  function TokenAt(p: seq<char>, i: nat): (r: (Token, nat))
    requires i < |p|
    ensures i < r.1 <= |p|
  {
    match p[i]
    case '*' => (Star, i + 1)
    case '?' => (AnyChar, i + 1)
    case '\\' => if i + 1 < |p| then (Literal(p[i + 1]), i + 2) else (Literal('\\'), i + 1)
    case '[' =>
      (match ClassAt(p, i)
       case Some((token, end)) => (token, end)
       case None => (Literal('['), i + 1))
    case c => (Literal(c), i + 1)
  }

  function TokensFrom(p: seq<char>, i: nat): seq<Token>
    requires i <= |p|
    decreases |p| - i
  {
    if i == |p| then [] else
      var (token, next) := TokenAt(p, i);
      [token] + TokensFrom(p, next)
  }

  function Tokens(p: seq<char>): seq<Token> {
    TokensFrom(p, 0)
  }

  // ---------------------------------------------------------------- meaning

  /** Whether `token` may stand for the whole of `piece`. */
  predicate StandsFor(token: Token, piece: seq<char>) {
    token.Star? || (|piece| == 1 && Accepts(token, piece[0]))
  }

  function Join(pieces: seq<seq<char>>): seq<char> {
    if pieces == [] then [] else pieces[0] + Join(pieces[1..])
  }

  ghost predicate IsCut(tokens: seq<Token>, text: seq<char>, pieces: seq<seq<char>>) {
    && |pieces| == |tokens|
    && Join(pieces) == text
    && forall i :: 0 <= i < |tokens| ==> StandsFor(tokens[i], pieces[i])
  }

  /** The meaning of a pattern: the text can be cut into one piece per token. */
  ghost predicate Matches(tokens: seq<Token>, text: seq<char>) {
    exists pieces :: IsCut(tokens, text, pieces)
  }

  ghost predicate GlobMatches(pattern: seq<char>, text: seq<char>) {
    Matches(Tokens(pattern), text)
  }

  // ---------------------------------------------------------------- laws of the meaning

  lemma MatchesNothing(text: seq<char>)
    ensures Matches([], text) <==> text == []
  {
    assert text == [] ==> IsCut([], text, []);
  }

  lemma PrependPiece(tokens: seq<Token>, piece: seq<char>, rest: seq<char>)
    requires tokens != [] && StandsFor(tokens[0], piece) && Matches(tokens[1..], rest)
    ensures Matches(tokens, piece + rest)
  {
    var pieces :| IsCut(tokens[1..], rest, pieces);
    var all := [piece] + pieces;
    assert all[1..] == pieces;
    forall i | 0 <= i < |tokens| ensures StandsFor(tokens[i], all[i]) {
      if i > 0 { assert tokens[i] == tokens[1..][i - 1]; }
    }
    assert IsCut(tokens, piece + rest, all);
  }

  lemma FirstPiece(tokens: seq<Token>, text: seq<char>) returns (k: nat)
    requires tokens != [] && Matches(tokens, text)
    ensures k <= |text| && StandsFor(tokens[0], text[..k]) && Matches(tokens[1..], text[k..])
  {
    var pieces :| IsCut(tokens, text, pieces);
    k := |pieces[0]|;
    assert text[..k] == pieces[0] && text[k..] == Join(pieces[1..]);
    assert IsCut(tokens[1..], text[k..], pieces[1..]);
  }

  /** A token that is not `*` takes exactly one character. */
  lemma MatchesOne(tokens: seq<Token>, text: seq<char>)
    requires tokens != [] && !tokens[0].Star?
    ensures Matches(tokens, text) <==>
            text != [] && Accepts(tokens[0], text[0]) && Matches(tokens[1..], text[1..])
  {
    if Matches(tokens, text) {
      var k := FirstPiece(tokens, text);
    }
    if text != [] && Accepts(tokens[0], text[0]) && Matches(tokens[1..], text[1..]) {
      PrependPiece(tokens, text[..1], text[1..]);
      assert text[..1] + text[1..] == text;
    }
  }

  /** `*` takes any number of characters. */
  lemma MatchesStar(tokens: seq<Token>, text: seq<char>)
    requires tokens != [] && tokens[0].Star?
    ensures Matches(tokens, text) <==>
            exists k :: 0 <= k <= |text| && Matches(tokens[1..], text[k..])
  {
    if Matches(tokens, text) {
      var k := FirstPiece(tokens, text);
    }
    if k :| 0 <= k <= |text| && Matches(tokens[1..], text[k..]) {
      PrependPiece(tokens, text[..k], text[k..]);
      assert text[..k] + text[k..] == text;
    }
  }

  /** A leading `*` can absorb more: what matches a later suffix matches an earlier one. */
  lemma StarAbsorbs(tokens: seq<Token>, text: seq<char>, from: nat, to: nat)
    requires tokens != [] && tokens[0].Star? && from <= to <= |text|
    requires Matches(tokens, text[to..])
    ensures Matches(tokens, text[from..])
  {
    var k := FirstPiece(tokens, text[to..]);
    assert text[to..][k..] == text[from..][to - from + k..];
    MatchesStar(tokens, text[from..]);
  }

  /** Whether the tokens, none a `*`, accept the characters one by one. */
  predicate OneByOne(tokens: seq<Token>, text: seq<char>) {
    |tokens| == |text| && forall i :: 0 <= i < |tokens| ==> Accepts(tokens[i], text[i])
  }

  predicate StarFree(tokens: seq<Token>) {
    forall i :: 0 <= i < |tokens| ==> !tokens[i].Star?
  }

  /** A star-free run of tokens takes exactly as many characters as it has tokens. */
  lemma {:induction false} MatchesRun(run: seq<Token>, rest: seq<Token>, text: seq<char>)
    requires StarFree(run)
    ensures Matches(run + rest, text) <==>
            |run| <= |text| && OneByOne(run, text[..|run|]) && Matches(rest, text[|run|..])
  {
    if run == [] {
      assert run + rest == rest && text[0..] == text;
    } else {
      var tokens := run + rest;
      MatchesOne(tokens, text);
      assert tokens[1..] == run[1..] + rest;
      if text != [] {
        MatchesRun(run[1..], rest, text[1..]);
        if |run| <= |text| {
          var a, b := text[..|run|], text[1..][..|run| - 1];
          assert b == a[1..];
          assert text[1..][|run| - 1..] == text[|run|..];
          assert OneByOne(run, a) <==> Accepts(run[0], a[0]) && OneByOne(run[1..], b) by {
            if Accepts(run[0], a[0]) && OneByOne(run[1..], b) {
              forall i | 0 <= i < |run| ensures Accepts(run[i], a[i]) {
                if i > 0 { assert run[i] == run[1..][i - 1] && a[i] == b[i - 1]; }
              }
            }
          }
        }
      }
    }
  }

  // ---------------------------------------------------------------- patterns as written

  /** What a bracket expression says does not depend on where it stands. */
  lemma {:induction false} BodyShift(p: seq<char>, d: nat, i: nat, first: bool)
    requires d + i <= |p|
    ensures ClassBody(p, d + i, first) ==
            match ClassBody(p[d..], i, first) case None => None case Some((items, end)) => Some((items, d + end))
    decreases |p| - d - i
  {
    if d + i < |p| {
      assert p[d..][i] == p[d + i];
      var (item, next) := ItemAt(p[d..], i);
      assert ItemAt(p, d + i) == (item, d + next);
      BodyShift(p, d, next, false);
    }
  }

  /** The rest of a pattern is a pattern of its own. */
  lemma TokenShift(p: seq<char>, i: nat)
    requires i < |p|
    ensures var (token, next) := TokenAt(p[i..], 0); TokenAt(p, i) == (token, i + next)
  {
    if p[i] == '[' {
      BodyShift(p, i, if NegatedAt(p, i) then 2 else 1, true);
    }
  }

  lemma {:induction false} TokensShift(p: seq<char>, i: nat)
    requires i <= |p|
    ensures TokensFrom(p, i) == Tokens(p[i..])
    decreases |p| - i
  {
    hide TokenAt;
    if i < |p| {
      var next := TokenAt(p[i..], 0).1;
      TokenShift(p, i);
      TokensShift(p, i + next);
      TokensShiftRest(p, i, next);
    }
  }

  lemma {:induction false} TokensShiftRest(p: seq<char>, i: nat, j: nat)
    requires i + j <= |p|
    ensures TokensFrom(p, i + j) == TokensFrom(p[i..], j)
    decreases |p| - i - j
  {
    hide TokenAt;
    if i + j < |p| {
      var next := TokenAt(p, i + j).1;
      TokenShift(p, i + j);
      TokenShift(p[i..], j);
      assert p[i..][j..] == p[i + j..];
      TokensShiftRest(p, i, next - i);
    }
  }

  /** A pattern whose first token ends at `next`. */
  lemma FirstToken(p: seq<char>, next: nat, t: seq<char>)
    requires p != [] && TokenAt(p, 0).1 == next && !TokenAt(p, 0).0.Star?
    ensures GlobMatches(p, t) <==>
            t != [] && Accepts(TokenAt(p, 0).0, t[0]) && GlobMatches(p[next..], t[1..])
  {
    hide TokenAt, Accepts, Matches;
    TokensShift(p, next);
    MatchesOne(Tokens(p), t);
  }

  lemma EmptyPattern(t: seq<char>)
    ensures GlobMatches([], t) <==> t == []
  {
    MatchesNothing(t);
  }

  lemma WrittenStar(q: seq<char>, t: seq<char>)
    ensures GlobMatches(['*'] + q, t) <==> exists k :: 0 <= k <= |t| && GlobMatches(q, t[k..])
  {
    var p := ['*'] + q;
    TokensShift(p, 1);
    assert p[1..] == q;
    MatchesStar(Tokens(p), t);
    assert Tokens(p)[1..] == Tokens(q);
    hide Tokens, Matches;
    if k :| 0 <= k <= |t| && Matches(Tokens(p)[1..], t[k..]) { assert GlobMatches(q, t[k..]); }
    if k :| 0 <= k <= |t| && GlobMatches(q, t[k..]) { assert Matches(Tokens(p)[1..], t[k..]); }
  }

  /** `?` stands for any one character. */
  lemma WrittenAny(q: seq<char>, t: seq<char>)
    ensures GlobMatches(['?'] + q, t) <==> t != [] && GlobMatches(q, t[1..])
  {
    FirstToken(['?'] + q, 1, t);
    assert (['?'] + q)[1..] == q;
  }

  /** The characters that do not stand for themselves. */
  const SYNTAX: set<char> := {'*', '?', '[', '\\'}

  lemma WrittenPlain(c: char, q: seq<char>, t: seq<char>)
    requires c !in SYNTAX
    ensures GlobMatches([c] + q, t) <==> t != [] && t[0] == c && GlobMatches(q, t[1..])
  {
    FirstToken([c] + q, 1, t);
    assert ([c] + q)[1..] == q;
  }

  /** A backslash makes any character stand for itself. */
  lemma WrittenEscape(c: char, q: seq<char>, t: seq<char>)
    ensures GlobMatches(['\\', c] + q, t) <==> t != [] && t[0] == c && GlobMatches(q, t[1..])
  {
    FirstToken(['\\', c] + q, 2, t);
    assert (['\\', c] + q)[2..] == q;
  }

  lemma LastBackslash(t: seq<char>)
    ensures GlobMatches(['\\'], t) <==> t == ['\\']
  {
    FirstToken(['\\'], 1, t);
    EmptyPattern(t[if t == [] then 0 else 1..]);
    assert t != [] ==> t == [t[0]] + t[1..];
  }

  /** The members of a bracket expression: single characters and ranges, ends included. */
  type Members = seq<(char, char)>

  predicate Falls(members: Members, c: char) {
    exists k :: 0 <= k < |members| && members[k].0 <= c <= members[k].1
  }

  function Written(members: Members): seq<char> {
    if members == [] then []
    else
      var (lo, hi) := members[0];
      (if lo == hi then [lo] else [lo, '-', hi]) + Written(members[1..])
  }

  /** What is written reads as these members: only the first begins with `]`, no range ends in it, and
    * after a single character no dash begins a member unless it is the last. */
  predicate AreWritable(members: Members, first: bool) {
    members == [] ||
    var (lo, hi) := members[0];
    var rest := Written(members[1..]) + [']'];
    && (lo == ']' ==> first)
    && (if lo == hi then !(rest[0] == '-' && rest[1..] != [] && rest[1] != ']') else hi != ']')
    && AreWritable(members[1..], false)
  }

  function Items(members: Members): (r: seq<Item>)
    ensures |r| == |members|
  {
    if members == [] then []
    else
      var (lo, hi) := members[0];
      [if lo == hi then One(lo) else Range(lo, hi)] + Items(members[1..])
  }

  lemma {:induction false} ItemsFall(members: Members, c: char)
    ensures AnyItemAccepts(Items(members), c) <==> Falls(members, c)
  {
    if members != [] {
      var items, rest := Items(members), members[1..];
      ItemsFall(rest, c);
      assert items == [items[0]] + Items(rest);
      if Falls(rest, c) {
        var k :| 0 <= k < |rest| && rest[k].0 <= c <= rest[k].1;
        assert members[k + 1] == rest[k];
      }
      if Falls(members, c) && !ItemAccepts(items[0], c) {
        var k :| 0 <= k < |members| && members[k].0 <= c <= members[k].1;
        assert rest[k - 1] == members[k];
      }
      AnyOfMore(items[0], Items(rest), c);
    }
  }

  lemma AnyOfMore(item: Item, items: seq<Item>, c: char)
    ensures AnyItemAccepts([item] + items, c) <==> ItemAccepts(item, c) || AnyItemAccepts(items, c)
  {
    var all := [item] + items;
    if AnyItemAccepts(items, c) {
      var i :| 0 <= i < |items| && ItemAccepts(items[i], c);
      assert ItemAccepts(all[i + 1], c);
    }
    if ItemAccepts(item, c) { assert ItemAccepts(all[0], c); }
  }

  lemma {:induction false} BodyAsWritten(p: seq<char>, i: nat, first: bool, members: Members, q: seq<char>)
    requires i <= |p| && p[i..] == Written(members) + [']'] + q
    requires AreWritable(members, first) && (first ==> members != [])
    ensures ClassBody(p, i, first) == Some((Items(members), i + |Written(members)| + 1))
    decreases |members|
  {
    if members == [] {
      assert p[i] == p[i..][0];
    } else {
      var (lo, hi) := members[0];
      var head := if lo == hi then [lo] else [lo, '-', hi];
      var rest := Written(members[1..]) + [']'];
      assert p[i..] == head + (rest + q);
      var next := i + |head|;
      assert p[next..] == Written(members[1..]) + [']'] + q;
      assert p[i] == p[i..][0] == lo;
      if lo == hi {
        assert p[i + 1] == p[i..][1] == rest[0];
        if rest[0] == '-' { assert p[i + 2] == p[i..][2] == rest[1]; }
      } else {
        assert p[i + 1] == p[i..][1] && p[i + 2] == p[i..][2];
      }
      BodyAsWritten(p, next, false, members[1..], q);
    }
  }

  /** A bracket expression stands for one character: one that is a member, or after `!` or `^` one
    * that is not. */
  lemma WrittenClass(negation: seq<char>, members: Members, q: seq<char>, t: seq<char>)
    requires members != [] && AreWritable(members, true)
    requires negation == [] || negation == ['!'] || negation == ['^']
    requires negation == [] ==> members[0].0 != '!' && members[0].0 != '^'
    ensures GlobMatches(['['] + negation + Written(members) + [']'] + q, t) <==>
            t != [] && (Falls(members, t[0]) <==> negation == []) && GlobMatches(q, t[1..])
  {
    var p, n := ['['] + negation + Written(members) + [']'] + q, 1 + |negation|;
    assert p[n..] == Written(members) + [']'] + q;
    assert p[n] == p[n..][0] == members[0].0;
    BodyAsWritten(p, n, true, members, q);
    var end := n + |Written(members)| + 1;
    assert TokenAt(p, 0) == (Class(negation != [], Items(members)), end);
    FirstToken(p, end, t);
    assert p[end..] == q;
    if t != [] { ItemsFall(members, t[0]); }
  }

  lemma {:induction false} NeverClosed(p: seq<char>, i: nat, first: bool)
    requires forall k :: i <= k < |p| && (k == i ==> !first) ==> p[k] != ']'
    ensures ClassBody(p, i, first) == None
    decreases |p| - i
  {
    if i < |p| { NeverClosed(p, ItemAt(p, i).1, false); }
  }

  /** A `[` that no `]` closes stands for itself. */
  lemma WrittenUnclosed(q: seq<char>, t: seq<char>)
    requires var first := if q != [] && (q[0] == '!' || q[0] == '^') then 1 else 0;
             forall k :: first < k < |q| ==> q[k] != ']'
    ensures GlobMatches(['['] + q, t) <==> t != [] && t[0] == '[' && GlobMatches(q, t[1..])
  {
    var p := ['['] + q;
    var from := if NegatedAt(p, 0) then 2 else 1;
    forall k | from < k < |p| ensures p[k] != ']' { assert p[k] == q[k - 1]; }
    NeverClosed(p, from, true);
    FirstToken(p, 1, t);
    assert p[1..] == q;
  }

  // ---------------------------------------------------------------- what that comes to

  /** `[lo-hi]` accepts exactly the texts of one character between the two, ends included. */
  lemma RangePattern(lo: char, hi: char, t: seq<char>)
    requires lo != '!' && lo != '^' && hi != ']'
    ensures GlobMatches(['[', lo, '-', hi, ']'], t) <==> |t| == 1 && lo <= t[0] <= hi
  {
    var p := ['[', lo, '-', hi, ']'];
    assert ItemAt(p, 1) == (Range(lo, hi), 4);
    assert ClassBody(p, 4, false) == Some(([], 5));
    assert [Range(lo, hi)] + [] == [Range(lo, hi)];
    assert ClassBody(p, 1, true) == Some(([Range(lo, hi)], 5));
    FirstToken(p, 5, t);
    assert p[5..] == [];
    if t != [] {
      AnyOfMore(Range(lo, hi), [], t[0]);
      EmptyPattern(t[1..]);
    }
  }

  /** `?` accepts exactly the texts of length 1. */
  lemma AnyPattern(t: seq<char>)
    ensures GlobMatches(['?'], t) <==> |t| == 1
  {
    WrittenAny([], t);
    assert ['?'] + [] == ['?'];
    if t != [] { EmptyPattern(t[1..]); }
  }

  function Escaped(s: seq<char>): seq<char> {
    if s == [] then [] else ['\\', s[0]] + Escaped(s[1..])
  }

  /** Escaping every character gives a pattern for exactly that text. */
  lemma {:induction false} EscapedMatchesItself(s: seq<char>, t: seq<char>)
    ensures GlobMatches(Escaped(s), t) <==> t == s
  {
    if s == [] {
      EmptyPattern(t);
    } else {
      WrittenEscape(s[0], Escaped(s[1..]), t);
      if t != [] {
        EscapedMatchesItself(s[1..], t[1..]);
        assert t == [t[0]] + t[1..] && s == [s[0]] + s[1..];
      }
    }
  }

  /** So does a pattern without special characters, and a `[` in it that is not closed. */
  lemma {:induction false} PlainMatchesItself(s: seq<char>, t: seq<char>)
    requires forall k :: 0 <= k < |s| ==> s[k] == '[' || s[k] !in SYNTAX
    requires '[' in s ==> ']' !in s
    ensures GlobMatches(s, t) <==> t == s
  {
    if s == [] {
      EmptyPattern(t);
    } else {
      var q := s[1..];
      assert s == [s[0]] + q;
      if s[0] == '[' { WrittenUnclosed(q, t); } else { WrittenPlain(s[0], q, t); }
      if t != [] {
        PlainMatchesItself(q, t[1..]);
        assert t == [t[0]] + t[1..];
      }
    }
  }

  // ---------------------------------------------------------------- class_match

  datatype ClassMatch = Matched(next: nat) | Unmatched | Unterminated

  /** The verdict on `c` and where the bracket expression ends are read off one parse of
    * the pattern, so the end cannot depend on the character tested. */
  method MatchClass(p: seq<char>, start: nat, c: char) returns (r: ClassMatch)
    requires start < |p|
    ensures match ClassAt(p, start)
            case None => r == Unterminated
            case Some((token, end)) => r == if Accepts(token, c) then Matched(end) else Unmatched
  {
    var i := start + 1;
    var negate := false;
    if i < |p| && (p[i] == '!' || p[i] == '^') {
      negate := true;
      i := i + 1;
    }
    ghost var from := i;
    ghost var seen: seq<Item> := [];
    assert forall items: seq<Item> :: [] + items == items;
    var matched := false;
    var first := true;
    while i < |p|
      invariant start < i && from <= i <= |p|
      invariant matched == AnyItemAccepts(seen, c)
      invariant match ClassBody(p, i, first)
                case None => ClassBody(p, from, true) == None
                case Some((items, end)) => ClassBody(p, from, true) == Some((seen + items, end))
    {
      if p[i] == ']' && !first {
        assert seen + [] == seen;
        return if matched != negate then Matched(i + 1) else Unmatched;
      }
      ghost var (item, next) := ItemAt(p, i);
      SeenOneMore(seen, item, c);
      assert forall items: seq<Item> :: seen + ([item] + items) == seen + [item] + items;
      seen := seen + [item];
      first := false;
      if i + 2 < |p| && p[i + 1] == '-' && p[i + 2] != ']' {
        if c >= p[i] && c <= p[i + 2] {
          matched := true;
        }
        i := i + 3;
      } else {
        if p[i] == c {
          matched := true;
        }
        i := i + 1;
      }
    }
    return Unterminated;
  }

  lemma SeenOneMore(seen: seq<Item>, item: Item, c: char)
    ensures AnyItemAccepts(seen + [item], c) <==> AnyItemAccepts(seen, c) || ItemAccepts(item, c)
  {
    var all := seen + [item];
    if AnyItemAccepts(seen, c) {
      var i :| 0 <= i < |seen| && ItemAccepts(seen[i], c);
      assert ItemAccepts(all[i], c);
    }
    if ItemAccepts(item, c) {
      assert ItemAccepts(all[|seen|], c);
    }
  }

  // ---------------------------------------------------------------- glob_match

  /** What remains to be matched from pattern index `pi` and text index `ti`. */
  ghost predicate Remaining(p: seq<char>, t: seq<char>, pi: nat, ti: nat) {
    pi <= |p| && ti <= |t| && Matches(TokensFrom(p, pi), t[ti..])
  }

  /** Some later start for the text after the last `*` still works. */
  ghost predicate LaterStart(p: seq<char>, t: seq<char>, starPi: nat, starTi: nat) {
    var after := starPi + 1;
    exists k :: starTi < k <= |t| && Remaining(p, t, after, k)
  }

  /** The tokens passed since the last `*`: star-free, and accepted one by one. */
  ghost predicate PassedSinceStar(p: seq<char>, t: seq<char>, starPi: nat, starTi: nat, pi: nat, ti: nat) {
    && starPi < pi <= |p| && starTi <= ti <= |t|
    && exists run :: Passed(p, t, starPi, starTi, pi, ti, run)
  }

  ghost predicate Passed(p: seq<char>, t: seq<char>, starPi: nat, starTi: nat, pi: nat, ti: nat, run: seq<Token>)
    requires starPi < pi <= |p| && starTi <= ti <= |t|
  {
    && StarFree(run) && OneByOne(run, t[starTi..ti])
    && TokensFrom(p, starPi + 1) == run + TokensFrom(p, pi)
  }

  /** Reaching a new `*` makes the alternatives of the previous one redundant: this is why
    * one remembered `*` is enough. */
  lemma NewStarSubsumes(p: seq<char>, t: seq<char>, starPi: nat, starTi: nat, pi: nat, ti: nat)
    requires PassedSinceStar(p, t, starPi, starTi, pi, ti)
    requires pi < |p| && p[pi] == '*'
    requires LaterStart(p, t, starPi, starTi)
    ensures Remaining(p, t, pi, ti)
  {
    var run :| Passed(p, t, starPi, starTi, pi, ti, run);
    var after := starPi + 1;
    var k :| starTi < k <= |t| && Remaining(p, t, after, k);
    MatchesRun(run, TokensFrom(p, pi), t[k..]);
    assert t[k..][|run|..] == t[k + |run|..];
    StarAbsorbs(TokensFrom(p, pi), t, ti, k + |run|);
  }

  /** Passing one accepted character keeps what is known since the last `*`. */
  lemma PassOne(p: seq<char>, t: seq<char>, starPi: nat, starTi: nat, pi: nat, ti: nat)
    requires PassedSinceStar(p, t, starPi, starTi, pi, ti)
    requires pi < |p| && ti < |t| && !TokenAt(p, pi).0.Star? && Accepts(TokenAt(p, pi).0, t[ti])
    ensures PassedSinceStar(p, t, starPi, starTi, TokenAt(p, pi).1, ti + 1)
  {
    var run :| Passed(p, t, starPi, starTi, pi, ti, run);
    var (token, next) := TokenAt(p, pi);
    var longer := run + [token];
    assert TokensFrom(p, starPi + 1) == longer + TokensFrom(p, next) by {
      assert TokensFrom(p, pi) == [token] + TokensFrom(p, next);
      assert run + ([token] + TokensFrom(p, next)) == run + [token] + TokensFrom(p, next);
    }
    assert t[starTi..ti + 1] == t[starTi..ti] + [t[ti]];
    assert OneByOne(longer, t[starTi..ti + 1]);
    assert Passed(p, t, starPi, starTi, next, ti + 1, longer);
  }

  lemma StepOne(p: seq<char>, t: seq<char>, pi: nat, ti: nat)
    requires pi < |p| && ti <= |t| && !TokenAt(p, pi).0.Star?
    ensures Remaining(p, t, pi, ti) <==>
            ti < |t| && Accepts(TokenAt(p, pi).0, t[ti]) && Remaining(p, t, TokenAt(p, pi).1, ti + 1)
  {
    MatchesOne(TokensFrom(p, pi), t[ti..]);
    if ti < |t| {
      assert t[ti..][1..] == t[ti + 1..];
    }
  }

  lemma StepStar(p: seq<char>, t: seq<char>, pi: nat, ti: nat)
    requires pi < |p| && ti <= |t| && p[pi] == '*'
    ensures Remaining(p, t, pi, ti) <==> Remaining(p, t, pi + 1, ti) || LaterStart(p, t, pi, ti)
    ensures PassedSinceStar(p, t, pi, ti, pi + 1, ti)
  {
    var tokens := TokensFrom(p, pi);
    assert tokens[1..] == TokensFrom(p, pi + 1);
    MatchesStar(tokens, t[ti..]);
    if k :| 0 <= k <= |t[ti..]| && Matches(tokens[1..], t[ti..][k..]) {
      assert t[ti..][k..] == t[ti + k..];
      assert Remaining(p, t, pi + 1, ti + k);
    }
    var after := pi + 1;
    if k :| ti <= k <= |t| && Remaining(p, t, after, k) {
      assert t[ti..][k - ti..] == t[k..];
    }
    assert Passed(p, t, pi, ti, pi + 1, ti, []);
  }

  lemma RestartLater(p: seq<char>, t: seq<char>, starPi: nat, starTi: nat)
    requires starPi < |p| && starTi < |t|
    ensures LaterStart(p, t, starPi, starTi) <==>
            Remaining(p, t, starPi + 1, starTi + 1) || LaterStart(p, t, starPi, starTi + 1)
    ensures PassedSinceStar(p, t, starPi, starTi + 1, starPi + 1, starTi + 1)
  {
    assert Passed(p, t, starPi, starTi + 1, starPi + 1, starTi + 1, []);
  }

  /** The iterative matcher: total, and true exactly for the texts the pattern means. */
  method GlobMatch(p: seq<char>, t: seq<char>) returns (r: bool)
    ensures r <==> GlobMatches(p, t)
  {
    var pi: nat, ti: nat := 0, 0;
    var star := false;
    var starPi: nat, starTi: nat := 0, 0;
    assert t[0..] == t;
    while true
      invariant pi <= |p| && ti <= |t|
      invariant !star ==> (GlobMatches(p, t) <==> Remaining(p, t, pi, ti))
      invariant star ==> starPi < |p| && PassedSinceStar(p, t, starPi, starTi, pi, ti)
      invariant star ==> (GlobMatches(p, t) <==> Remaining(p, t, pi, ti) || LaterStart(p, t, starPi, starTi))
      decreases if star then |p| - starPi else |p| + 1, |t| - starTi, |p| - pi
    {
      if pi < |p| {
        if p[pi] == '*' {
          if star && LaterStart(p, t, starPi, starTi) {
            NewStarSubsumes(p, t, starPi, starTi, pi, ti);
          }
          StepStar(p, t, pi, ti);
          star, starPi, starTi := true, pi, ti;
          pi := pi + 1;
          continue;
        }
        StepOne(p, t, pi, ti);
        ghost var (token, next) := TokenAt(p, pi);
        if star && ti < |t| && Accepts(token, t[ti]) {
          PassOne(p, t, starPi, starTi, pi, ti);
        }
        if p[pi] == '?' && ti < |t| {
          pi, ti := pi + 1, ti + 1;
          continue;
        } else if p[pi] == '\\' && pi + 1 < |p| {
          if ti < |t| && p[pi + 1] == t[ti] {
            pi, ti := pi + 2, ti + 1;
            continue;
          }
        } else if p[pi] == '[' && ti < |t| {
          var verdict := MatchClass(p, pi, t[ti]);
          if verdict.Matched? {
            pi, ti := verdict.next, ti + 1;
            continue;
          } else if verdict.Unterminated? && t[ti] == '[' {
            pi, ti := pi + 1, ti + 1;
            continue;
          }
        } else if ti < |t| && p[pi] == t[ti] {
          pi, ti := pi + 1, ti + 1;
          continue;
        }
      }
      if pi == |p| {
        MatchesNothing(t[ti..]);
        assert t[ti..] == [] <==> ti == |t|;
      }
      if pi == |p| && ti == |t| {
        return true;
      }
      if star && starTi < |t| {
        RestartLater(p, t, starPi, starTi);
        starTi := starTi + 1;
        pi, ti := starPi + 1, starTi;
        continue;
      }
      return false;
    }
  }
}
