/** Quoting command lines (barman/command_wrappers.py, barman/fs.py) against the tokens a shell
    makes of them: sections 2.2.1, 2.2.2 and 2.3 of the POSIX.1-2017 Shell Command Language. */
module ShellQuote {
  import opened Wrappers
  import opened Sequences

  // ---------------------------------------------------------------- quoting

  function Escaped(arg: string): string {
    if arg == "" then "" else (if arg[0] == '\'' then "'\\''" else [arg[0]]) + Escaped(arg[1..])
  }

  function Quote(arg: string): string { if arg == "|" then arg else "'" + Escaped(arg) + "'" }

  function Joined(args: seq<string>): string
    requires args != []
  {
    if |args| == 1 then Quote(args[0]) else Quote(args[0]) + " " + Joined(args[1..])
  }

  function FullCommandQuote(command: string, args: seq<string>): string {
    if args == [] then command else command + " " + Joined(args)
  }

  // ---------------------------------------------------------------- the shell's tokens

  /** A word after quote removal; `literal` if every character of it was quoted, so that no
      expansion applies to it. */
  datatype Token = Word(text: string, literal: bool) | Operator(text: string)

  datatype Mode = Between | InWord(text: string, literal: bool) | InOperator(text: string)

  predicate IsOperator(s: string) {
    s in {"|", "&", ";", "<", ">", "(", ")", "&&", "||", ";;", "<<", ">>", "<&", ">&", "<>", "<<-", ">|"}
  }

  /** The token that ends here, if any. */
  function Ended(m: Mode): seq<Token> {
    match m
    case Between => []
    case InWord(text, literal) => [Word(text, literal)]
    case InOperator(text) => [Operator(text)]
  }

  /** A word goes on; an operator ends where a word begins. */
  function EndedByWord(m: Mode): seq<Token> { if m.InOperator? then Ended(m) else [] }

  function Extended(m: Mode, text: string, quoted: bool): Mode {
    if m.InWord? then InWord(m.text + text, m.literal && quoted) else InWord(text, quoted)
  }

  function Prepend(tokens: seq<Token>, r: Option<seq<Token>>): Option<seq<Token>> {
    if r.None? then None else Some(tokens + r.value)
  }

  /** None for an unfinished quotation and for what is outside the cited sections: double
      quotes, expansions and comments. */
  function Lex(s: string, m: Mode): Option<seq<Token>>
    decreases |s|
  {
    if s == "" then Some(Ended(m))
    else if m.InOperator? && IsOperator(m.text + s[..1]) then Lex(s[1..], InOperator(m.text + s[..1]))
    else if s[0] == '\\' then
      if |s| < 2 then None
      else if s[1] == '\n' then Lex(s[2..], m)
      else Prepend(EndedByWord(m), Lex(s[2..], Extended(m, s[1..2], true)))
    else if s[0] == '\'' then
      var end := 1 + IndexOf(s[1..], '\'');
      if end == |s| then None
      else Prepend(EndedByWord(m), Lex(s[end + 1..], Extended(m, s[1..end], true)))
    else if s[0] in "\"$`" || (s[0] == '#' && !m.InWord?) then None
    else if IsOperator(s[..1]) then Prepend(Ended(m), Lex(s[1..], InOperator(s[..1])))
    else if s[0] == '\n' then Prepend(Ended(m) + [Operator("\n")], Lex(s[1..], Between))
    else if s[0] in " \t" then Prepend(Ended(m), Lex(s[1..], Between))
    else Prepend(EndedByWord(m), Lex(s[1..], Extended(m, s[..1], false)))
  }

  function Tokenize(s: string): Option<seq<Token>> { Lex(s, Between) }

  // ---------------------------------------------------------------- a blank separates

  lemma {:induction false} IndexOfLonger(s: string, c: char, rest: string)
    requires IndexOf(s, c) < |s|
    ensures IndexOf(s + rest, c) == IndexOf(s, c)
  {
    if s[0] != c {
      IndexOfLonger(s[1..], c, rest);
      assert (s + rest)[1..] == s[1..] + rest;
    }
  }

  lemma PrependTwice(a: seq<Token>, b: seq<Token>, r: Option<seq<Token>>)
    ensures Prepend(a, Prepend(b, r)) == Prepend(a + b, r)
  {
    if r.Some? { assert a + (b + r.value) == (a + b) + r.value; }
  }

  /** Where the first part of a command line has tokens of its own, a blank after it
      starts afresh. */
  lemma {:induction false} BlankSeparates(a: string, m: Mode, b: string)
    requires Lex(a, m).Some?
    ensures Lex(a + " " + b, m) == Prepend(Lex(a, m).value, Lex(b, Between))
    decreases |a|
  {
    var s := a + " " + b;
    if a == "" {
      assert s[..1] == " " && s[1..] == b;
      if m.InOperator? { NoOperatorEndsInBlank(m.text); }
    } else {
      assert s[0] == a[0] && s[..1] == a[..1];
      assert s[1..] == a[1..] + " " + b;
      if m.InOperator? && IsOperator(m.text + a[..1]) {
        BlankSeparates(a[1..], InOperator(m.text + a[..1]), b);
      } else if a[0] == '\\' {
        BackslashSeparates(a, m, b);
      } else if a[0] == '\'' {
        QuotationSeparates(a, m, b);
      } else {
        OthersSeparate(a, m, b);
      }
    }
  }

  lemma NoOperatorEndsInBlank(text: string)
    ensures !IsOperator(text + " ")
  {
    var s := text + " ";
    assert s[|text|] == ' ';
  }

  lemma {:induction false} BackslashSeparates(a: string, m: Mode, b: string)
    requires a != "" && a[0] == '\\' && !(m.InOperator? && IsOperator(m.text + a[..1])) && Lex(a, m).Some?
    ensures Lex(a + " " + b, m) == Prepend(Lex(a, m).value, Lex(b, Between))
    decreases |a|, 0
  {
    var s := a + " " + b;
    assert s[0] == a[0] && s[..1] == a[..1] && s[1] == a[1] && s[1..2] == a[1..2];
    assert s[2..] == a[2..] + " " + b;
    if a[1] == '\n' {
      BlankSeparates(a[2..], m, b);
    } else {
      var next := Extended(m, a[1..2], true);
      BlankSeparates(a[2..], next, b);
      PrependTwice(EndedByWord(m), Lex(a[2..], next).value, Lex(b, Between));
    }
  }

  lemma {:induction false} QuotationSeparates(a: string, m: Mode, b: string)
    requires a != "" && a[0] == '\'' && !(m.InOperator? && IsOperator(m.text + a[..1])) && Lex(a, m).Some?
    ensures Lex(a + " " + b, m) == Prepend(Lex(a, m).value, Lex(b, Between))
    decreases |a|, 0
  {
    var s, end := a + " " + b, 1 + IndexOf(a[1..], '\'');
    assert s[0] == a[0] && s[..1] == a[..1];
    assert s[1..] == a[1..] + (" " + b);
    IndexOfLonger(a[1..], '\'', " " + b);
    assert s[1..end] == a[1..end];
    assert s[end + 1..] == a[end + 1..] + " " + b;
    var next := Extended(m, a[1..end], true);
    BlankSeparates(a[end + 1..], next, b);
    PrependTwice(EndedByWord(m), Lex(a[end + 1..], next).value, Lex(b, Between));
  }

  lemma {:induction false} OthersSeparate(a: string, m: Mode, b: string)
    requires a != "" && a[0] != '\'' && a[0] != '\\' && !(m.InOperator? && IsOperator(m.text + a[..1])) && Lex(a, m).Some?
    ensures Lex(a + " " + b, m) == Prepend(Lex(a, m).value, Lex(b, Between))
    decreases |a|, 0
  {
    var s := a + " " + b;
    assert s[0] == a[0] && s[..1] == a[..1];
    assert s[1..] == a[1..] + " " + b;
    var next, ended :=
      if IsOperator(a[..1]) then InOperator(a[..1])
      else if a[0] == '\n' || a[0] in " \t" then Between
      else Extended(m, a[..1], false),
      if IsOperator(a[..1]) then Ended(m)
      else if a[0] == '\n' then Ended(m) + [Operator("\n")]
      else if a[0] in " \t" then Ended(m)
      else EndedByWord(m);
    BlankSeparates(a[1..], next, b);
    PrependTwice(ended, Lex(a[1..], next).value, Lex(b, Between));
  }

  // ---------------------------------------------------------------- quoted arguments

  lemma {:induction false} EscapedPlain(p: string, rest: string)
    requires '\'' !in p
    ensures Escaped(p + rest) == p + Escaped(rest)
  {
    if p == "" {
      assert p + rest == rest;
    } else {
      assert (p + rest)[0] == p[0] && (p + rest)[1..] == p[1..] + rest;
      EscapedPlain(p[1..], rest);
      assert [p[0]] + (p[1..] + Escaped(rest)) == p + Escaped(rest);
    }
  }

  lemma EscapedApostrophe(rest: string)
    ensures Escaped("'" + rest) == "'\\''" + Escaped(rest)
  {
    assert ("'" + rest)[1..] == rest;
  }

  lemma {:induction false} QuotationEnds(text: string, rest: string)
    requires '\'' !in text
    ensures IndexOf(text + "'" + rest, '\'') == |text|
  {
    if text == "" {
      assert text + "'" + rest == "'" + rest;
    } else {
      QuotationEnds(text[1..], rest);
      assert (text + "'" + rest)[1..] == text[1..] + "'" + rest;
      assert (text + "'" + rest)[0] == text[0];
    }
  }

  /** A quotation without apostrophes adds its text to the word. */
  lemma QuotationAdds(text: string, m: Mode, rest: string)
    requires '\'' !in text && !m.InOperator?
    ensures Lex("'" + text + "'" + rest, m) == Lex(rest, Extended(m, text, true))
  {
    var s := "'" + text + "'" + rest;
    QuotationEnds(text, rest);
    assert s[1..] == text + "'" + rest;
    assert s[0] == '\'' && s[1..1 + |text|] == text && s[|text| + 2..] == rest;
    if Lex(rest, Extended(m, text, true)).Some? {
      assert [] + Lex(rest, Extended(m, text, true)).value == Lex(rest, Extended(m, text, true)).value;
    }
  }

  lemma EscapedQuoteAdds(m: Mode, rest: string)
    requires !m.InOperator?
    ensures Lex("\\'" + rest, m) == Lex(rest, Extended(m, "'", true))
  {
    var s := "\\'" + rest;
    assert s[0] == '\\' && s[1] == '\'' && s[1..2] == "'" && s[2..] == rest;
    if Lex(rest, Extended(m, "'", true)).Some? {
      assert [] + Lex(rest, Extended(m, "'", true)).value == Lex(rest, Extended(m, "'", true)).value;
    }
  }

  lemma SplitQuotation(p: string, e: string, rest: string)
    ensures "'" + (p + "'\\''" + e) + "'" + rest == "'" + p + "'" + ("\\'" + ("'" + e + "'" + rest))
  {
    assert "'\\''" == "'" + "\\'" + "'";
  }

  lemma ExtendedTwice(m: Mode, p: string, q: string)
    ensures Extended(Extended(m, p, true), q, true) == Extended(m, p + q, true)
  {
    if m.InWord? { assert (m.text + p) + q == m.text + (p + q); }
  }

  /** Whatever the argument, its quoted form adds exactly the argument to the word, literally. */
  lemma {:induction false} QuotedAdds(arg: string, m: Mode, rest: string)
    requires !m.InOperator?
    ensures Lex("'" + Escaped(arg) + "'" + rest, m) == Lex(rest, Extended(m, arg, true))
    decreases |arg|
  {
    hide Lex, Escaped;
    var k := IndexOf(arg, '\'');
    var p := arg[..k];
    if k == |arg| {
      EmptyEscaped();
      EscapedPlain(p, "");
      assert p + "" == arg;
      QuotationAdds(arg, m, rest);
    } else {
      var more := arg[k + 1..];
      assert arg == p + ("'" + more);
      EscapedPlain(p, "'" + more);
      EscapedApostrophe(more);
      AcrossApostrophe(p, more, arg, m, rest);
      QuotedAdds(more, Extended(Extended(m, p, true), "'", true), rest);
    }
  }

  lemma EmptyEscaped()
    ensures Escaped("") == ""
  {
  }

  /** The text before an apostrophe and the apostrophe itself join the word. */
  lemma AcrossApostrophe(p: string, more: string, arg: string, m: Mode, rest: string)
    requires !m.InOperator? && '\'' !in p && arg == p + ("'" + more) && Escaped(arg) == p + ("'\\''" + Escaped(more))
    ensures var m2 := Extended(Extended(m, p, true), "'", true);
      !m2.InOperator? && Extended(m2, more, true) == Extended(m, arg, true)
      && Lex("'" + Escaped(arg) + "'" + rest, m) == Lex("'" + Escaped(more) + "'" + rest, m2)
  {
    hide Lex, Escaped;
    var e := Escaped(more);
    var tail := "'" + e + "'" + rest;
    assert p + ("'\\''" + e) == p + "'\\''" + e;
    SplitQuotation(p, e, rest);
    QuotationAdds(p, m, "\\'" + tail);
    EscapedQuoteAdds(Extended(m, p, true), tail);
    ExtendedTwice(m, p, "'");
    ExtendedTwice(m, p + "'", more);
    assert p + "'" + more == arg;
  }

  /** The token that an argument becomes: itself, except that a lone bar is left a pipe. */
  function TokenOf(arg: string): Token { if arg == "|" then Operator("|") else Word(arg, true) }

  function TokensOf(args: seq<string>): seq<Token> {
    if args == [] then [] else [TokenOf(args[0])] + TokensOf(args[1..])
  }

  lemma QuoteIsOneToken(arg: string)
    ensures Tokenize(Quote(arg)) == Some([TokenOf(arg)])
  {
    if arg == "|" {
      assert "|"[..1] == "|" && "|"[1..] == "";
      var pipe := [Operator("|")];
      assert [] + pipe == pipe;
    } else {
      QuotedAdds(arg, Between, "");
      assert Quote(arg) + "" == Quote(arg);
    }
  }

  lemma {:induction false} JoinedTokens(args: seq<string>)
    requires args != []
    ensures Tokenize(Joined(args)) == Some(TokensOf(args))
  {
    QuoteIsOneToken(args[0]);
    if |args| > 1 {
      JoinedTokens(args[1..]);
      BlankSeparates(Quote(args[0]), Between, Joined(args[1..]));
    } else {
      assert [TokenOf(args[0])] + TokensOf(args[1..]) == [TokenOf(args[0])];
    }
  }

  /** The tokens of a full command line are those of the command followed by the arguments. */
  lemma FullCommandTokens(command: string, args: seq<string>)
    requires Tokenize(command).Some?
    ensures Tokenize(FullCommandQuote(command, args)) == Some(Tokenize(command).value + TokensOf(args))
  {
    if args == [] {
      assert Tokenize(command).value + [] == Tokenize(command).value;
    } else {
      JoinedTokens(args);
      BlankSeparates(command, Between, Joined(args));
    }
  }

  function Literals(args: seq<string>): seq<Token> {
    seq(|args|, i requires 0 <= i < |args| => Word(args[i], true))
  }

  lemma {:induction false} LiteralUnlessBar(args: seq<string>)
    ensures TokensOf(args) == Literals(args) <==> "|" !in args
  {
    if args != [] {
      LiteralUnlessBar(args[1..]);
      assert Literals(args) == [Word(args[0], true)] + Literals(args[1..]);
      assert args == [args[0]] + args[1..];
      if TokensOf(args) == Literals(args) {
        assert TokensOf(args)[0] == Literals(args)[0];
        assert TokensOf(args)[1..] == Literals(args)[1..];
      }
    }
  }

  /** The shell sees exactly the arguments, each one word and safe from expansion, if and only if
      none of them is a lone bar. */
  lemma QuotingRoundTrips(command: string, args: seq<string>)
    requires Tokenize(command).Some?
    ensures Tokenize(FullCommandQuote(command, args)) == Some(Tokenize(command).value + Literals(args)) <==> "|" !in args
  {
    FullCommandTokens(command, args);
    LiteralUnlessBar(args);
    var words := Tokenize(command).value;
    if words + TokensOf(args) == words + Literals(args) {
      assert (words + TokensOf(args))[|words|..] == TokensOf(args);
      assert (words + Literals(args))[|words|..] == Literals(args);
    }
  }

  // ---------------------------------------------------------------- remote commands

  /** The command line given to the local shell to have the remote shell run a command. */
  function RemoteCommand(ssh: string, options: seq<string>, command: string, args: seq<string>): string {
    FullCommandQuote(ssh, options + [FullCommandQuote(command, args)])
  }

  /** Through both shells: the local one passes the quoted command on as one last word, and the
      remote one finds in it the command and exactly the arguments. */
  lemma RemoteRoundTrips(ssh: string, options: seq<string>, command: string, args: seq<string>)
    requires Tokenize(ssh).Some? && Tokenize(command).Some?
    requires "|" !in options && "|" !in args && command != "|"
    ensures Tokenize(RemoteCommand(ssh, options, command, args))
         == Some(Tokenize(ssh).value + Literals(options) + [Word(FullCommandQuote(command, args), true)])
    ensures Tokenize(FullCommandQuote(command, args)) == Some(Tokenize(command).value + Literals(args))
  {
    var inner := FullCommandQuote(command, args);
    QuotingRoundTrips(command, args);
    assert inner != "|" by {
      if args != [] { assert inner[|command|] == ' '; }
    }
    QuotingRoundTrips(ssh, options + [inner]);
    assert Literals(options + [inner]) == Literals(options) + [Word(inner, true)];
    assert Tokenize(ssh).value + (Literals(options) + [Word(inner, true)])
        == Tokenize(ssh).value + Literals(options) + [Word(inner, true)];
  }
}
