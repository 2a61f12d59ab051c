/** Include and exclude rules: the compiler from shell patterns to regular expressions, the
    meaning of what it compiles to, and the matching of rules (barman/fs.py). */
module Glob {
  import opened Wrappers
  import opened Sequences

  // ---------------------------------------------------------------- patterns and their meaning

  datatype Token = Char(c: char) | AnyChar | WithinName | AcrossNames

  function Tokens(pattern: string): seq<Token> {
    if pattern == "" then []
    else if "**" <= pattern then [AcrossNames] + Tokens(pattern[2..])
    else [if pattern[0] == '*' then WithinName else if pattern[0] == '?' then AnyChar else Char(pattern[0])]
         + Tokens(pattern[1..])
  }

  /** What a wildcard may stand for: "*" for anything without a slash, "**" for anything. */
  predicate StandsFor(token: Token, text: string) {
    match token
    case Char(c) => text == [c]
    case AnyChar => |text| == 1
    case WithinName => '/' !in text
    case AcrossNames => true
  }

  function Join(texts: seq<string>): string { if texts == [] then "" else texts[0] + Join(texts[1..]) }

  predicate Divides(texts: seq<string>, tokens: seq<Token>, path: string) {
    && |texts| == |tokens| && Join(texts) == path
    && forall i :: 0 <= i < |texts| ==> StandsFor(tokens[i], texts[i])
  }

  /** The documented meaning: the path can be divided so that each part is what its token stands for. */
  ghost predicate WildcardMatch(pattern: string, path: string) {
    exists texts :: Divides(texts, Tokens(pattern), path)
  }

  // ---------------------------------------------------------------- regular expressions

  datatype Atom = Lit(c: char) | Dot | Except(c: char)

  datatype Piece = One(atom: Atom) | Star(atom: Atom)

  predicate AtomMatches(a: Atom, c: char) {
    match a
    case Lit(x) => c == x
    case Dot => true
    case Except(x) => c != x
  }

  /** Matching from the first to the last character; a star takes none or some. */
  predicate Matches(pieces: seq<Piece>, text: string)
    decreases |pieces|, |text|
  {
    if pieces == [] then text == ""
    else
      match pieces[0]
      case One(a) => text != "" && AtomMatches(a, text[0]) && Matches(pieces[1..], text[1..])
      case Star(a) => Matches(pieces[1..], text) || (text != "" && AtomMatches(a, text[0]) && Matches(pieces, text[1..]))
  }

  predicate IsMeta(c: char) {
    || c == '\\' || c == '.' || c == '^' || c == '$' || c == '*' || c == '+' || c == '?'
    || c == '{' || c == '}' || c == '[' || c == ']' || c == '|' || c == '(' || c == ')'
  }

  predicate IsAlphanumeric(c: char) { 'a' <= c <= 'z' || 'A' <= c <= 'Z' || '0' <= c <= '9' }

  /** One atom at the beginning of a regular expression, and its length. */
  function ParseAtom(r: string): (result: Option<(Atom, nat)>)
    ensures result.Some? ==> 0 < result.value.1 <= |r|
  {
    if r == "" then None
    else if r[0] == '\\' then
      if |r| >= 2 && !IsAlphanumeric(r[1]) then Some((Lit(r[1]), 2)) else None
    else if r[0] == '.' then Some((Dot, 1))
    else if r[0] == '[' then
      if |r| >= 4 && r[1] == '^' && !IsMeta(r[2]) && r[3] == ']' then Some((Except(r[2]), 4)) else None
    else if IsMeta(r[0]) then None
    else Some((Lit(r[0]), 1))
  }

  function ParsePieces(r: string): Option<seq<Piece>>
    decreases |r|
  {
    if r == "" then Some([])
    else
      var atom := ParseAtom(r);
      if atom.None? then None
      else
        var starred := atom.value.1 < |r| && r[atom.value.1] == '*';
        var rest := ParsePieces(r[atom.value.1 + (if starred then 1 else 0)..]);
        if rest.None? then None
        else Some([if starred then Star(atom.value.0) else One(atom.value.0)] + rest.value)
  }

  /** A regular expression in which dots match newlines, matched up to the end of the text. */
  function ParseRegexp(r: string): Option<seq<Piece>> {
    if |r| >= 6 && r[..4] == "(?s)" && r[|r| - 2..] == "\\Z" then ParsePieces(r[4..|r| - 2]) else None
  }

  predicate RegexpMatches(r: string, text: string) {
    ParseRegexp(r).Some? && Matches(ParseRegexp(r).value, text)
  }

  // ---------------------------------------------------------------- the compiler

  /** The characters that `re.escape` puts a backslash before. */
  predicate IsSpecial(c: char) {
    || IsMeta(c) || c == '-' || c == '&' || c == '~' || c == '#' || c == ' '
    || c == '\t' || c == '\n' || c == '\r' || c == '\U{0B}' || c == '\U{0C}'
  }

  function Escaped(c: char): string { if IsSpecial(c) then ['\\', c] else [c] }

  function Emitted(token: Token): string {
    match token
    case Char(c) => Escaped(c)
    case AnyChar => "."
    case WithinName => "[^/]*"
    case AcrossNames => ".*"
  }

  function Body(tokens: seq<Token>): string { if tokens == [] then "" else Emitted(tokens[0]) + Body(tokens[1..]) }

  function Translated(pattern: string): string { "(?s)" + Body(Tokens(pattern)) + "\\Z" }

  function FirstLength(rest: string): nat { if "**" <= rest then 2 else 1 }

  function FirstEmitted(rest: string): string
    requires rest != ""
  {
    if "**" <= rest then ".*" else if rest[0] == '*' then "[^/]*" else if rest[0] == '?' then "." else Escaped(rest[0])
  }

  lemma BodyStep(rest: string)
    requires rest != ""
    ensures FirstLength(rest) <= |rest|
    ensures Body(Tokens(rest)) == FirstEmitted(rest) + Body(Tokens(rest[FirstLength(rest)..]))
  {
    assert Tokens(rest)[1..] == Tokens(rest[FirstLength(rest)..]);
  }

  method TranslateToRegexp(pattern: string) returns (regexp: string)
    ensures regexp == Translated(pattern)
  {
    var i, n := 0, |pattern|;
    var res := "";
    while i < n
      invariant 0 <= i <= n
      invariant res + Body(Tokens(pattern[i..])) == Body(Tokens(pattern))
    {
      ghost var rest, before := pattern[i..], res;
      ghost var later := rest[FirstLength(rest)..];
      BodyStep(rest);
      var c := pattern[i];
      i := i + 1;
      if "**" <= pattern[i - 1..] {
        res := res + ".*";
        i := i + 1;
      } else if c == '*' {
        res := res + "[^/]*";
      } else if c == '?' {
        res := res + ".";
      } else {
        res := res + Escaped(c);
      }
      Associative(before, FirstEmitted(rest), Body(Tokens(later)));
      assert pattern[i..] == later;
    }
    regexp := "(?s)" + res + "\\Z";
  }

  function PieceOf(token: Token): Piece {
    match token
    case Char(c) => One(Lit(c))
    case AnyChar => One(Dot)
    case WithinName => Star(Except('/'))
    case AcrossNames => Star(Dot)
  }

  function PiecesOf(tokens: seq<Token>): seq<Piece> {
    if tokens == [] then [] else [PieceOf(tokens[0])] + PiecesOf(tokens[1..])
  }

  lemma EmittedHead(token: Token)
    requires token.Char? ==> token.c != '*'
    ensures Emitted(token) != "" && Emitted(token)[0] != '*'
  {
  }

  /** No literal is a star: the pattern has no way to quote one. */
  lemma {:induction false} NoLiteralStars(pattern: string)
    ensures forall i :: 0 <= i < |Tokens(pattern)| && Tokens(pattern)[i].Char? ==> Tokens(pattern)[i].c !in "*?"
  {
    if pattern != "" { NoLiteralStars(if "**" <= pattern then pattern[2..] else pattern[1..]); }
  }

  /** What parsing makes of an atom at the front, with or without a star. */
  lemma AtomParses(r: string, atom: Atom, length: nat, starred: bool, rest: string)
    requires r != "" && ParseAtom(r) == Some((atom, length)) && length <= |r|
    requires starred == (length < |r| && r[length] == '*') && r[length + (if starred then 1 else 0)..] == rest
    ensures ParsePieces(r) == (if ParsePieces(rest).None? then None
                               else Some([if starred then Star(atom) else One(atom)] + ParsePieces(rest).value))
  {
  }

  lemma SpecialIsNoLetter(c: char)
    requires IsSpecial(c)
    ensures !IsAlphanumeric(c)
  {
  }

  lemma CharParses(c: char, r: string, rest: string)
    requires c != '*' && (rest == "" || rest[0] != '*') && r == Escaped(c) + rest
    ensures ParsePieces(r) == (if ParsePieces(rest).None? then None else Some([One(Lit(c))] + ParsePieces(rest).value))
  {
    hide ParsePieces;
    assert r[|Escaped(c)|..] == rest;
    if IsSpecial(c) {
      SpecialIsNoLetter(c);
      hide IsSpecial, IsAlphanumeric;
      assert r[0] == '\\' && r[1] == c;
      AtomParses(r, Lit(c), 2, false, rest);
    } else {
      assert r[0] == c;
      AtomParses(r, Lit(c), 1, false, rest);
    }
  }

  lemma WithinNameParses(r: string, rest: string)
    requires r == "[^/]*" + rest
    ensures ParsePieces(r) == (if ParsePieces(rest).None? then None else Some([Star(Except('/'))] + ParsePieces(rest).value))
  {
    hide ParsePieces;
    assert r[0] == '[' && r[1] == '^' && r[2] == '/' && r[3] == ']' && r[4] == '*';
    assert r[5..] == rest;
    AtomParses(r, Except('/'), 4, true, rest);
  }

  lemma DotParses(r: string, rest: string)
    requires (rest == "" || rest[0] != '*') && r == "." + rest
    ensures ParsePieces(r) == (if ParsePieces(rest).None? then None else Some([One(Dot)] + ParsePieces(rest).value))
  {
    hide ParsePieces;
    assert r[1..] == rest;
    AtomParses(r, Dot, 1, false, rest);
  }

  lemma DotStarParses(r: string, rest: string)
    requires r == ".*" + rest
    ensures ParsePieces(r) == (if ParsePieces(rest).None? then None else Some([Star(Dot)] + ParsePieces(rest).value))
  {
    hide ParsePieces;
    assert r[0] == '.' && r[1] == '*';
    assert r[2..] == rest;
    AtomParses(r, Dot, 1, true, rest);
  }

  lemma EmittedParses(token: Token, rest: string)
    requires token.Char? ==> token.c != '*'
    requires rest == "" || rest[0] != '*'
    ensures var r := Emitted(token) + rest;
      ParsePieces(r) == (if ParsePieces(rest).None? then None else Some([PieceOf(token)] + ParsePieces(rest).value))
  {
    var r := Emitted(token) + rest;
    hide ParsePieces;
    match token
    case Char(c) => CharParses(c, r, rest);
    case AnyChar => DotParses(r, rest);
    case WithinName => WithinNameParses(r, rest);
    case AcrossNames => DotStarParses(r, rest);
  }

  lemma {:induction false} BodyParses(tokens: seq<Token>)
    requires forall i :: 0 <= i < |tokens| && tokens[i].Char? ==> tokens[i].c !in "*?"
    ensures ParsePieces(Body(tokens)) == Some(PiecesOf(tokens))
  {
    if tokens != [] {
      var rest := tokens[1..];
      BodyParses(rest);
      if rest != [] { EmittedHead(rest[0]); }
      EmittedParses(tokens[0], Body(rest));
    }
  }

  // ---------------------------------------------------------------- the compiler preserves meaning

  lemma {:induction false} MatchDivides(tokens: seq<Token>, text: string) returns (texts: seq<string>)
    requires Matches(PiecesOf(tokens), text)
    ensures Divides(texts, tokens, text)
    decreases |tokens|, |text|
  {
    if tokens == [] {
      texts := [];
    } else {
      var pieces, rest := PiecesOf(tokens), tokens[1..];
      assert pieces[1..] == PiecesOf(rest);
      if pieces[0].One? {
        var t := MatchDivides(rest, text[1..]);
        texts := [text[..1]] + t;
        assert texts[1..] == t;
      } else if Matches(PiecesOf(rest), text) {
        var t := MatchDivides(rest, text);
        texts := [""] + t;
        assert texts[1..] == t;
      } else {
        var t := MatchDivides(tokens, text[1..]);
        texts := [[text[0]] + t[0]] + t[1..];
        assert texts[1..] == t[1..];
        assert Join(texts) == [text[0]] + Join(t);
      }
    }
  }

  lemma {:induction false} DivisionMatches(tokens: seq<Token>, text: string, texts: seq<string>)
    requires Divides(texts, tokens, text)
    ensures Matches(PiecesOf(tokens), text)
    decreases |tokens|, |text|
  {
    if tokens != [] {
      var pieces, first, rest := PiecesOf(tokens), texts[0], texts[1..];
      assert pieces[1..] == PiecesOf(tokens[1..]);
      assert StandsFor(tokens[0], first);
      if pieces[0].One? {
        assert text[1..] == Join(rest);
        DivisionMatches(tokens[1..], text[1..], rest);
      } else if first == "" {
        assert text == Join(rest);
        DivisionMatches(tokens[1..], text, rest);
      } else {
        var shorter := [first[1..]] + rest;
        assert shorter[1..] == rest;
        assert text[1..] == first[1..] + Join(rest);
        assert text[0] == first[0];
        DivisionMatches(tokens, text[1..], shorter);
      }
    }
  }

  /** The compiled expression is a regular expression, and it matches exactly the paths that the
      documented wildcards describe. */
  lemma TranslationPreservesMeaning(pattern: string, path: string)
    ensures ParseRegexp(Translated(pattern)) == Some(PiecesOf(Tokens(pattern)))
    ensures RegexpMatches(Translated(pattern), path) <==> WildcardMatch(pattern, path)
  {
    var tokens, r := Tokens(pattern), Translated(pattern);
    NoLiteralStars(pattern);
    BodyParses(tokens);
    assert r[..4] == "(?s)";
    assert r[|r| - 2..] == "\\Z";
    assert r[4..|r| - 2] == Body(tokens);
    if Matches(PiecesOf(tokens), path) {
      var texts := MatchDivides(tokens, path);
    }
    if WildcardMatch(pattern, path) {
      var texts :| Divides(texts, tokens, path);
      DivisionMatches(tokens, path, texts);
    }
  }

  // ---------------------------------------------------------------- what the wildcards mean

  lemma FirstToken(pattern: string, token: Token, rest: string, path: string)
    requires Tokens(pattern) == [token] + Tokens(rest)
    ensures WildcardMatch(pattern, path) <==>
      exists k :: 0 <= k <= |path| && StandsFor(token, path[..k]) && WildcardMatch(rest, path[k..])
  {
    var tokens := Tokens(rest);
    assert Tokens(pattern)[1..] == tokens;
    hide Tokens;
    if WildcardMatch(pattern, path) {
      var texts :| Divides(texts, Tokens(pattern), path);
      var k := |texts[0]|;
      assert path == texts[0] + Join(texts[1..]);
      assert path[..k] == texts[0] && path[k..] == Join(texts[1..]);
      assert Divides(texts[1..], tokens, path[k..]);
      assert StandsFor(token, path[..k]) && WildcardMatch(rest, path[k..]);
    }
    if k :| 0 <= k <= |path| && StandsFor(token, path[..k]) && WildcardMatch(rest, path[k..]) {
      var texts :| Divides(texts, tokens, path[k..]);
      var all := [path[..k]] + texts;
      assert all[1..] == texts && path == path[..k] + path[k..];
      assert Divides(all, Tokens(pattern), path);
    }
  }

  /** "?" matches any one character and "**" any number of them; every other character but the star
      matches itself. */
  lemma WildcardsMean(pattern: string, c: char, path: string)
    ensures WildcardMatch("", path) <==> path == ""
    ensures WildcardMatch("?" + pattern, path) <==> path != "" && WildcardMatch(pattern, path[1..])
    ensures WildcardMatch("**" + pattern, path) <==> exists k :: 0 <= k <= |path| && WildcardMatch(pattern, path[k..])
    ensures c != '*' && c != '?' ==>
      (WildcardMatch([c] + pattern, path) <==> path != "" && path[0] == c && WildcardMatch(pattern, path[1..]))
  {
    EmptyPattern(path);
    var any, across, letter := "?" + pattern, "**" + pattern, [c] + pattern;
    assert any[1..] == pattern && across[2..] == pattern && letter[1..] == pattern && across[..2] == "**";
    assert any[0] == '?' && letter[0] == c && "**"[0] == '*';
    FirstToken(any, AnyChar, pattern, path);
    FirstToken(across, AcrossNames, pattern, path);
    if c != '*' && c != '?' { FirstToken(letter, Char(c), pattern, path); }
    hide WildcardMatch, Tokens;
    if path != "" { assert path[..1] == [path[0]]; }
  }

  lemma EmptyPattern(path: string)
    ensures WildcardMatch("", path) <==> path == ""
  {
    if path == "" { assert Divides([], Tokens(""), path); }
  }

  /** A single star matches any number of characters within a name. */
  lemma StarMeans(pattern: string, path: string)
    requires pattern == "" || pattern[0] != '*'
    ensures WildcardMatch("*" + pattern, path) <==>
      exists k :: 0 <= k <= |path| && '/' !in path[..k] && WildcardMatch(pattern, path[k..])
  {
    var star := "*" + pattern;
    assert star[1..] == pattern;
    FirstToken(star, WithinName, pattern, path);
  }

  // ---------------------------------------------------------------- rules

  /** A rule without its trailing slash. */
  function Trimmed(rule: string): string
    requires rule != ""
  {
    if rule[|rule| - 1] == '/' then rule[..|rule| - 1] else rule
  }

  /** Indexing the empty rule raises an error; so does a lone slash applied to a directory. */
  predicate Malformed(rule: string, isDir: bool) { rule == "" || (rule == "/" && isDir) }

  /** An anchored rule has to match the whole path; another one also what follows some slash. */
  ghost predicate RuleApplies(rule: string, path: string, isDir: bool) {
    rule != "" && (rule[|rule| - 1] == '/' ==> isDir) && Trimmed(rule) != "" &&
    var trimmed := Trimmed(rule);
    if trimmed[0] == '/' then WildcardMatch(trimmed[1..], path)
    else WildcardMatch(trimmed, path) || exists k :: 0 <= k < |path| && path[k] == '/' && WildcardMatch(trimmed, path[k + 1..])
  }

  /** What the slashes at the ends of a rule mean: the last makes it a rule for directories, the
      first ties it to the beginning of the path; without it, it may begin after any slash. */
  lemma SlashesMean(rule: string, path: string, isDir: bool)
    requires rule != "" && rule[0] != '/' && rule[|rule| - 1] != '/'
    ensures RuleApplies("/" + rule, path, isDir) <==> WildcardMatch(rule, path)
    ensures RuleApplies(rule, path, isDir) <==>
      WildcardMatch(rule, path) || exists k :: 0 <= k < |path| && path[k] == '/' && WildcardMatch(rule, path[k + 1..])
    ensures RuleApplies(rule + "/", path, isDir) <==> isDir && RuleApplies(rule, path, isDir)
    ensures RuleApplies("/" + rule + "/", path, isDir) <==> isDir && RuleApplies("/" + rule, path, isDir)
  {
    hide WildcardMatch;
    var rooted := "/" + rule;
    assert rooted[1..] == rule && rooted[|rooted| - 1] == rule[|rule| - 1];
    assert (rule + "/")[..|rule|] == rule && (rooted + "/")[..|rooted|] == rooted;
  }

  method WildcardMatchPath(path: string, pattern: string) returns (found: bool)
    ensures found <==> WildcardMatch(pattern, path)
  {
    var regexp := TranslateToRegexp(pattern);
    TranslationPreservesMeaning(pattern, path);
    found := RegexpMatches(regexp, path);
  }

  lemma AfterSlashDivides(texts: seq<string>, tokens: seq<Token>, path: string) returns (k: nat)
    requires Divides(texts, [AcrossNames, Char('/')] + tokens, path)
    ensures k < |path| && path[k] == '/' && Divides(texts[2..], tokens, path[k + 1..])
  {
    var all := [AcrossNames, Char('/')] + tokens;
    k := |texts[0]|;
    assert StandsFor(all[1], texts[1]);
    assert texts[1..][1..] == texts[2..] && texts[1..][0] == texts[1];
    assert Join(texts[1..]) == "/" + Join(texts[2..]);
    assert path[k..] == "/" + Join(texts[2..]);
    assert path[k + 1..] == path[k..][1..];
    forall i | 0 <= i < |texts[2..]| ensures StandsFor(tokens[i], texts[2..][i]) {
      assert StandsFor(all[i + 2], texts[i + 2]);
    }
  }

  lemma BeforeSlashDivides(texts: seq<string>, tokens: seq<Token>, path: string, k: nat)
    requires k < |path| && path[k] == '/' && Divides(texts, tokens, path[k + 1..])
    ensures Divides([path[..k], "/"] + texts, [AcrossNames, Char('/')] + tokens, path)
  {
    var all := [path[..k], "/"] + texts;
    assert all[1..] == ["/"] + texts && all[1..][1..] == texts;
    assert Join(all) == path[..k] + ("/" + path[k + 1..]);
    assert path == path[..k] + ("/" + path[k + 1..]);
  }

  lemma TokensOfUnanchored(pattern: string)
    ensures Tokens("**/" + pattern) == [AcrossNames, Char('/')] + Tokens(pattern)
  {
    var whole, rest := "**/" + pattern, "/" + pattern;
    assert whole[..2] == "**" && whole[2..] == rest;
    assert "**" <= whole;
    assert rest[0] == '/' && rest[1..] == pattern;
    assert Tokens(rest) == [Char('/')] + Tokens(pattern);
  }

  /** Matching "**" and a slash before a pattern is matching the pattern after some slash. */
  lemma UnanchoredMeansAfterSomeSlash(pattern: string, path: string)
    ensures WildcardMatch("**/" + pattern, path)
       <==> exists k :: 0 <= k < |path| && path[k] == '/' && WildcardMatch(pattern, path[k + 1..])
  {
    var tokens := Tokens(pattern);
    TokensOfUnanchored(pattern);
    if WildcardMatch("**/" + pattern, path) {
      var texts :| Divides(texts, Tokens("**/" + pattern), path);
      var k := AfterSlashDivides(texts, tokens, path);
      assert WildcardMatch(pattern, path[k + 1..]);
    }
    if k :| 0 <= k < |path| && path[k] == '/' && WildcardMatch(pattern, path[k + 1..]) {
      var texts :| Divides(texts, tokens, path[k + 1..]);
      BeforeSlashDivides(texts, tokens, path, k);
    }
  }

  predicate WellFormed(rules: seq<string>, isDir: bool) { forall n :: 0 <= n < |rules| ==> !Malformed(rules[n], isDir) }

  ghost predicate NoneApplies(rules: seq<string>, path: string, isDir: bool) {
    forall n :: 0 <= n < |rules| ==> !RuleApplies(rules[n], path, isDir)
  }

  /** Rules are tried in turn: the first that applies decides, unless a malformed one comes first. */
  ghost predicate IsVerdict(result: Result<bool, string>, rules: seq<string>, path: string, isDir: bool) {
    match result
    case Ok(true) =>
      (exists n :: 0 <= n < |rules| && RuleApplies(rules[n], path, isDir) && WellFormed(rules[..n], isDir))
    case Ok(false) => WellFormed(rules, isDir) && NoneApplies(rules, path, isDir)
    case Err(e) =>
      e == "IndexError" &&
      (exists n :: 0 <= n < |rules| && Malformed(rules[n], isDir) && NoneApplies(rules[..n], path, isDir))
  }

  method MatchRule(rule0: string, path: string, isDir: bool) returns (result: Result<bool, string>)
    ensures result.Err? <==> Malformed(rule0, isDir)
    ensures result.Err? ==> result.error == "IndexError"
    ensures result.Ok? ==> (result.value <==> RuleApplies(rule0, path, isDir))
  {
    var rule := rule0;
    if rule == "" {
      return Err("IndexError");
    }
    if rule[|rule| - 1] == '/' {
      if !isDir {
        return Ok(false);
      }
      rule := rule[..|rule| - 1];
    }
    if rule == "" {
      assert rule0 == "/";
      return Err("IndexError");
    }
    assert rule == Trimmed(rule0);
    var anchored := false;
    if rule[0] == '/' {
      rule := rule[1..];
      anchored := true;
    }
    var found := WildcardMatchPath(path, rule);
    if found {
      return Ok(true);
    }
    if !anchored {
      UnanchoredMeansAfterSomeSlash(rule, path);
      found := WildcardMatchPath(path, "**/" + rule);
      if found {
        return Ok(true);
      }
    }
    return Ok(false);
  }

  method MatchPath(rules: seq<string>, path: string, isDir: bool) returns (result: Result<bool, string>)
    ensures IsVerdict(result, rules, path, isDir)
  {
    hide RuleApplies, Malformed;
    for n := 0 to |rules|
      invariant WellFormed(rules[..n], isDir) && NoneApplies(rules[..n], path, isDir)
    {
      var found := MatchRule(rules[n], path, isDir);
      if found.Err? || found.value {
        return found;
      }
      assert rules[..n + 1] == rules[..n] + [rules[n]];
    }
    assert rules[..|rules|] == rules;
    return Ok(false);
  }

  function Listed(rules: Option<seq<string>>): seq<string> { if rules.Some? then rules.value else [] }

  /** Of a list of rules there is only one verdict. */
  lemma VerdictIsUnique(a: Result<bool, string>, b: Result<bool, string>, rules: seq<string>, path: string, isDir: bool)
    requires IsVerdict(a, rules, path, isDir) && IsVerdict(b, rules, path, isDir)
    ensures a == b
  {
    hide RuleApplies, Malformed;
    if n :| 0 <= n < |rules| && RuleApplies(rules[n], path, isDir) && WellFormed(rules[..n], isDir) {
      if m :| 0 <= m < |rules| && Malformed(rules[m], isDir) && NoneApplies(rules[..m], path, isDir) {
        AppliesOrMalformed(rules[n], path, isDir);
        var earlier := rules[..if n < m then m else n];
        assert earlier[if n < m then n else m] == rules[if n < m then n else m];
      }
    }
  }

  lemma AppliesOrMalformed(rule: string, path: string, isDir: bool)
    ensures !(RuleApplies(rule, path, isDir) && Malformed(rule, isDir))
  {
  }

  /** Of every list of rules there is one. */
  lemma {:induction false} VerdictExists(rules: seq<string>, path: string, isDir: bool) returns (v: Result<bool, string>)
    ensures IsVerdict(v, rules, path, isDir)
  {
    hide RuleApplies, Malformed;
    if rules == [] {
      v := Ok(false);
    } else {
      var init, last := rules[..|rules| - 1], rules[|rules| - 1];
      v := VerdictExists(init, path, isDir);
      if v == Ok(false) {
        if Malformed(last, isDir) {
          v := Err("IndexError");
        } else if RuleApplies(last, path, isDir) {
          v := Ok(true);
        } else {
          assert rules == init + [last];
        }
      } else {
        LongerVerdict(v, init, last, rules, path, isDir);
      }
    }
  }

  lemma LongerVerdict(v: Result<bool, string>, init: seq<string>, last: string, rules: seq<string>, path: string, isDir: bool)
    requires IsVerdict(v, init, path, isDir) && v != Ok(false) && rules == init + [last]
    ensures IsVerdict(v, rules, path, isDir)
  {
    hide RuleApplies, Malformed;
    if v.Ok? {
      var n :| 0 <= n < |init| && RuleApplies(init[n], path, isDir) && WellFormed(init[..n], isDir);
      assert rules[n] == init[n] && rules[..n] == init[..n];
    } else {
      var n :| 0 <= n < |init| && Malformed(init[n], isDir) && NoneApplies(init[..n], path, isDir);
      assert rules[n] == init[n] && rules[..n] == init[..n];
    }
  }

  /** Included paths are accepted, then excluded ones rejected, and all others accepted; a
      malformed rule raises only when it is reached. Each list has exactly one verdict, so
      this fixes the result. */
  method PathAllowed(exclude: Option<seq<string>>, include_: Option<seq<string>>, path: string, isDir: bool)
    returns (result: Result<bool, string>)
    ensures forall included, excluded ::
      IsVerdict(included, Listed(include_), path, isDir) && IsVerdict(excluded, Listed(exclude), path, isDir) ==>
        && (included == Ok(true) ==> result == Ok(true))
        && (included.Err? ==> result == included)
        && (included == Ok(false) && excluded.Ok? ==> result == Ok(!excluded.value))
        && (included == Ok(false) && excluded.Err? ==> result == excluded)
  {
    hide RuleApplies, Malformed, WellFormed, NoneApplies, IsVerdict;
    var included, excluded := Ok(false), Ok(false);
    NothingMatches(path, isDir);
    if include_.Some? && include_.value != [] {
      included := MatchPath(include_.value, path, isDir);
    }
    OnlyVerdict(included, Listed(include_), path, isDir);
    if included.Err? || included.value {
      return included;
    }
    if exclude.Some? && exclude.value != [] {
      excluded := MatchPath(exclude.value, path, isDir);
    }
    OnlyVerdict(excluded, Listed(exclude), path, isDir);
    if excluded.Err? {
      return excluded;
    }
    return Ok(!excluded.value);
  }

  lemma OnlyVerdict(v: Result<bool, string>, rules: seq<string>, path: string, isDir: bool)
    requires IsVerdict(v, rules, path, isDir)
    ensures forall r :: IsVerdict(r, rules, path, isDir) ==> r == v
  {
    hide IsVerdict;
    forall r | IsVerdict(r, rules, path, isDir) ensures r == v { VerdictIsUnique(r, v, rules, path, isDir); }
  }

  lemma NothingMatches(path: string, isDir: bool)
    ensures IsVerdict(Ok(false), [], path, isDir)
  {
  }
}
