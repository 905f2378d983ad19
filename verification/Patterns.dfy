/** never_trash/only_trash pattern rules (crates/trashd-common/src/config.rs,
  * `pattern_matches`, and its twin in crates/trashd-preload/src/lib.rs).
  *
  * The rule proper is: glob the whole path, or, for a relative pattern, globs
  * any tail that starts after a `/`.  Three literal forms are answered without
  * the matcher; two of them are proved to change nothing, the third to add
  * exactly the descendants of a named component.
  */
module Patterns {
  import opened Wrappers
  import opened Glob
  import opened LineText

  predicate IsPlain(s: seq<char>) {
    forall i :: 0 <= i < |s| ==> s[i] !in SYNTAX
  }

  predicate StartsWith(s: seq<char>, prefix: seq<char>) {
    prefix <= s
  }

  predicate EndsWith(s: seq<char>, suffix: seq<char>) {
    |suffix| <= |s| && s[|s| - |suffix|..] == suffix
  }

  // ---------------------------------------------------------------- the rule and its fast forms

  /** The rule without fast paths. */
  ghost predicate GeneralRule(pattern: seq<char>, path: seq<char>) {
    || GlobMatches(pattern, path)
    || (&& !StartsWith(pattern, "/") && !StartsWith(pattern, "*")
        && exists i :: 0 <= i < |path| && path[i] == '/' && GlobMatches(pattern, After(path, i)))
  }

  function After(path: seq<char>, i: nat): seq<char>
    requires i < |path|
  {
    path[i + 1..]
  }

  predicate IsPrefixForm(pattern: seq<char>) {
    pattern != [] && pattern[|pattern| - 1] == '*' && IsPlain(pattern[..|pattern| - 1])
  }

  predicate IsComponentForm(pattern: seq<char>) {
    && !IsPrefixForm(pattern)
    && StartsWith(pattern, "*/") && |pattern| > 2 && '/' !in pattern[2..] && IsPlain(pattern[2..])
  }

  predicate IsSuffixForm(pattern: seq<char>) {
    && !IsPrefixForm(pattern) && !IsComponentForm(pattern)
    && StartsWith(pattern, "*") && IsPlain(pattern[1..])
  }

  /** The verdict on an already expanded pattern. */
  ghost predicate Verdict(pattern: seq<char>, path: seq<char>) {
    if IsPrefixForm(pattern) then
      var prefix := pattern[..|pattern| - 1];
      || StartsWith(path, prefix)
      || (&& !StartsWith(prefix, "/")
          && exists i :: 0 <= i < |path| && path[i] == '/' && StartsWith(After(path, i), prefix))
    else if IsComponentForm(pattern) then
      pattern[2..] in Split(path, '/')
    else if IsSuffixForm(pattern) then
      EndsWith(path, pattern[1..])
    else
      GeneralRule(pattern, path)
  }

  /** `Path::join`: an absolute right side replaces the left one. */
  function JoinPath(home: seq<char>, rest: seq<char>): seq<char> {
    if StartsWith(rest, "/") then rest
    else if home == [] || home[|home| - 1] == '/' then home + rest
    else home + "/" + rest
  }

  function Expand(pattern: seq<char>, home: Option<seq<char>>): Option<seq<char>> {
    if StartsWith(pattern, "~/") then
      (match home
       case None => None
       case Some(dir) => Some(JoinPath(dir, pattern[2..])))
    else Some(pattern)
  }

  ghost predicate PatternMatches(pattern: seq<char>, path: seq<char>, home: Option<seq<char>>) {
    match Expand(pattern, home)
    case None => false
    case Some(expanded) => Verdict(expanded, path)
  }

  // ---------------------------------------------------------------- literal text as tokens

  function Literals(s: seq<char>): (tokens: seq<Token>)
    ensures |tokens| == |s| && StarFree(tokens)
  {
    seq(|s|, i requires 0 <= i < |s| => Literal(s[i]))
  }

  lemma NoLiterals()
    ensures Literals([]) == []
  {
  }

  lemma LiteralsCons(c: char, s: seq<char>)
    ensures Literals([c] + s) == [Literal(c)] + Literals(s)
  {
  }

  lemma PlainToken(p: seq<char>, i: nat)
    requires i < |p| && p[i] !in SYNTAX
    ensures TokensFrom(p, i) == [Literal(p[i])] + TokensFrom(p, i + 1)
  {
  }

  lemma {:induction false} PlainTokens(p: seq<char>, i: nat, j: nat)
    requires i <= j <= |p| && IsPlain(p[i..j])
    ensures TokensFrom(p, i) == Literals(p[i..j]) + TokensFrom(p, j)
    decreases j - i
  {
    hide TokensFrom, Literals;
    if i == j {
      NoLiterals();
      assert p[i..j] == [];
    } else {
      var rest := p[i + 1..j];
      assert p[i] == p[i..j][0];
      assert p[i..j] == [p[i]] + rest;
      assert IsPlain(rest);
      PlainTokens(p, i + 1, j);
      PlainToken(p, i);
      LiteralsCons(p[i], rest);
    }
  }

  lemma LiteralRun(s: seq<char>, rest: seq<Token>, text: seq<char>)
    ensures Matches(Literals(s) + rest, text) <==> s <= text && Matches(rest, text[|s|..])
  {
    MatchesRun(Literals(s), rest, text);
    if |s| <= |text| {
      var head := text[..|s|];
      if OneByOne(Literals(s), head) {
        forall i | 0 <= i < |s| ensures s[i] == head[i] {
          assert Accepts(Literals(s)[i], head[i]);
        }
      }
    }
  }

  lemma StarAlone(text: seq<char>)
    ensures Matches([Star], text)
  {
    MatchesStar([Star], text);
    assert text[|text|..] == [] && [Star][1..] == [];
    MatchesNothing([]);
    assert Matches([Star][1..], text[|text|..]);
  }

  lemma PrefixGlob(pattern: seq<char>, text: seq<char>)
    requires IsPrefixForm(pattern)
    ensures GlobMatches(pattern, text) <==> StartsWith(text, pattern[..|pattern| - 1])
  {
    var n := |pattern| - 1;
    PlainTokens(pattern, 0, n);
    assert TokensFrom(pattern, n) == [Star];
    assert pattern[0..n] == pattern[..n];
    LiteralRun(pattern[..n], [Star], text);
    if pattern[..n] <= text {
      StarAlone(text[n..]);
    }
  }

  lemma SuffixGlob(suffix: seq<char>, text: seq<char>)
    requires IsPlain(suffix)
    ensures GlobMatches(['*'] + suffix, text) <==> EndsWith(text, suffix)
  {
    var p := ['*'] + suffix;
    assert p[1..|p|] == suffix;
    PlainTokens(p, 1, |p|);
    assert Literals(suffix) + [] == Literals(suffix);
    var tokens := Tokens(p);
    assert tokens[1..] == Literals(suffix) + [];
    MatchesStar(tokens, text);
    forall k | 0 <= k <= |text|
      ensures Matches(tokens[1..], text[k..]) <==> |text| - k == |suffix| && text[k..] == suffix
    {
      LiteralRun(suffix, [], text[k..]);
      if suffix <= text[k..] {
        MatchesNothing(text[k..][|suffix|..]);
      }
    }
    if EndsWith(text, suffix) {
      assert Matches(tokens[1..], text[|text| - |suffix|..]);
    }
  }

  // ---------------------------------------------------------------- main results

  /** Every fast form but the component one is only an optimisation. */
  lemma FastPathsChangeNothing(pattern: seq<char>, path: seq<char>)
    requires !IsComponentForm(pattern)
    ensures Verdict(pattern, path) <==> GeneralRule(pattern, path)
  {
    if IsPrefixForm(pattern) {
      PrefixGlob(pattern, path);
      forall i | 0 <= i < |path|
        ensures GlobMatches(pattern, After(path, i)) <==> StartsWith(After(path, i), pattern[..|pattern| - 1])
      {
        PrefixGlob(pattern, After(path, i));
      }
      if |pattern| > 1 {
        assert pattern[0] == pattern[..|pattern| - 1][0] && pattern[0] !in SYNTAX;
      }
    } else if IsSuffixForm(pattern) {
      assert pattern == ['*'] + pattern[1..];
      SuffixGlob(pattern[1..], path);
    }
  }

  /** At this offset the path has this component, whole. */
  predicate ComponentAt(path: seq<char>, name: seq<char>, i: nat) {
    var end := i + |name|;
    && end <= |path| && path[i..end] == name
    && (i == 0 || path[i - 1] == '/') && (end == |path| || path[end] == '/')
  }

  ghost predicate HasComponent(path: seq<char>, name: seq<char>) {
    exists i: nat :: ComponentAt(path, name, i)
  }

  lemma LaterComponent(path: seq<char>, k: nat, name: seq<char>, i: nat)
    requires k < |path| && path[k] == '/'
    ensures ComponentAt(path, name, k + 1 + i) <==> ComponentAt(After(path, k), name, i)
  {
    var rest, j := After(path, k), k + 1 + i;
    if j + |name| <= |path| {
      assert rest[i..i + |name|] == path[j..j + |name|];
    }
  }

  lemma FirstComponent(path: seq<char>, name: seq<char>)
    requires '/' !in name
    ensures ComponentAt(path, name, 0) <==> name == path[..LineEnd(path, 0, '/')]
  {
    if ComponentAt(path, name, 0) {
      assert path[..|name|] == name;
      LineEndAt(path, |name|, '/');
    }
  }

  lemma OtherComponent(path: seq<char>, name: seq<char>, i: nat)
    requires i > 0 && ComponentAt(path, name, i)
    ensures LineEnd(path, 0, '/') < i
  {
  }

  lemma RestHasComponent(path: seq<char>, name: seq<char>, k: nat)
    requires k < |path| && path[k] == '/' && HasComponent(After(path, k), name)
    ensures HasComponent(path, name)
  {
    hide ComponentAt;
    var i: nat :| ComponentAt(After(path, k), name, i);
    LaterComponent(path, k, name, i);
  }

  lemma ComponentInRest(path: seq<char>, name: seq<char>, k: nat, j: nat)
    requires k < |path| && path[k] == '/' && ComponentAt(path, name, k + 1 + j)
    ensures HasComponent(After(path, k), name)
  {
    hide ComponentAt;
    LaterComponent(path, k, name, j);
    assert ComponentAt(After(path, k), name, j);
  }

  /** The first component, or one of the rest. */
  lemma ComponentsSplit(path: seq<char>, name: seq<char>, k: nat)
    requires '/' !in name && k == LineEnd(path, 0, '/')
    ensures HasComponent(path, name) <==> name == path[..k] || (k < |path| && HasComponent(After(path, k), name))
  {
    hide ComponentAt, LineEnd;
    FirstComponent(path, name);
    if k < |path| && HasComponent(After(path, k), name) { RestHasComponent(path, name, k); }
    if HasComponent(path, name) && name != path[..k] {
      var i: nat :| ComponentAt(path, name, i);
      OtherComponent(path, name, i);
      ComponentInside(path, name, i);
      ComponentInRest(path, name, k, i - k - 1);
    }
  }

  /** The pieces between the slashes are the components. */
  lemma {:induction false} PiecesAreComponents(path: seq<char>, name: seq<char>)
    requires '/' !in name
    ensures name in Split(path, '/') <==> HasComponent(path, name)
    decreases |path|
  {
    hide HasComponent;
    var k := LineEnd(path, 0, '/');
    ComponentsSplit(path, name, k);
    if k < |path| {
      PiecesAreComponents(After(path, k), name);
      var tail := Split(After(path, k), '/');
      assert Split(path, '/') == [path[..k]] + tail;
    } else {
      assert path[..k] == path;
    }
  }

  lemma ComponentInside(path: seq<char>, name: seq<char>, i: nat)
    requires ComponentAt(path, name, i)
    ensures i <= |path|
  {
  }

  /** `*` + `/name` is the one form with a wider verdict than the rule: the rule accepts only
    * paths that end in `/name`, the verdict every path with a component `name`. */
  lemma ComponentFormWidens(pattern: seq<char>, path: seq<char>)
    requires IsComponentForm(pattern)
    ensures Verdict(pattern, path) <==> HasComponent(path, pattern[2..])
    ensures GeneralRule(pattern, path) <==> EndsWith(path, pattern[1..])
    ensures GeneralRule(pattern, path) ==> Verdict(pattern, path)
  {
    var name := pattern[2..];
    PiecesAreComponents(path, name);
    assert pattern[1..] == ['/'] + name;
    assert pattern == ['*'] + pattern[1..];
    SuffixGlob(pattern[1..], path);
    if EndsWith(path, pattern[1..]) {
      var head := path[..|path| - |pattern[1..]|];
      assert path == head + ['/'] + name;
      SplitJoined(head, '/', name);
      SplitWhole(name, '/');
    }
  }

  /** The wider verdict is what protects everything below the named directory. */
  lemma ComponentCoversDescendants(name: seq<char>, above: seq<char>, below: seq<char>)
    requires name != [] && '/' !in name && IsPlain(name)
    ensures PatternMatches("*/" + name, above + "/" + name + "/" + below, None)
    ensures PatternMatches("*/" + name, name + "/" + below, None)
  {
    var pattern := "*/" + name;
    assert pattern[|pattern| - 1] == name[|name| - 1];
    assert pattern[2..] == name && pattern[0] == '*' && pattern[1] == '/';
    assert IsPlain(pattern[2..]) && name[|name| - 1] !in SYNTAX;
    assert Expand(pattern, None) == Some(pattern);
    SplitJoined(above + "/" + name, '/', below);
    SplitJoined(above, '/', name);
    assert (above + "/" + name) + "/" + below == above + "/" + name + "/" + below;
    SplitJoined(name, '/', below);
    SplitWhole(name, '/');
  }

  /** The whole function, home expansion included: a named component anywhere in the path, or else
    * the general rule. */
  lemma PatternMatchesMeaning(pattern: seq<char>, path: seq<char>, home: Option<seq<char>>)
    ensures PatternMatches(pattern, path, home) <==>
            match Expand(pattern, home)
            case None => false
            case Some(p) => if IsComponentForm(p) then HasComponent(path, p[2..]) else GeneralRule(p, path)
  {
    if Expand(pattern, home).Some? {
      var expanded := Expand(pattern, home).value;
      if IsComponentForm(expanded) {
        ComponentFormWidens(expanded, path);
      } else {
        FastPathsChangeNothing(expanded, path);
      }
    }
  }
}
