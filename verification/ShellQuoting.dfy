/** Every command can be written: quoting as for a POSIX shell is read back unchanged, whatever the arguments hold. */
module ShellQuoting {
  import opened Wrappers
  import opened Tokenizer
  import opened QuotingRoundTrip

  // A quote inside single quotes is written by closing them, escaping it and opening them again.
  function Body(a: Text): Text {
    if a == [] then []
    else (if a[0] == SINGLE then [SINGLE, BACKSLASH, SINGLE, SINGLE] else [a[0]]) + Body(a[1..])
  }

  function SingleQuoted(a: Text): Text {
    [SINGLE] + Body(a) + [SINGLE]
  }

  function Line(name: Text, args: seq<Text>): Text {
    if args == [] then name else Line(name, args[..|args| - 1]) + [SPACE] + SingleQuoted(args[|args| - 1])
  }

  function InSingle(tokens: seq<Text>, token: Text): Lex {
    Lex(tokens, token, Some(SINGLE), true)
  }

  lemma TakeOne(st: Lex, c: CodeUnit, more: Text, st': Lex)
    requires Turn(st, [c] + more) == Ok((st', 1))
    ensures Scan(st, [c] + more) == Scan(st', more)
  {
    assert ([c] + more)[1..] == more;
  }

  // Inside single quotes nothing but a single quote means anything.
  lemma ScanLiteral(tokens: seq<Text>, token: Text, c: CodeUnit, more: Text)
    requires c != SINGLE
    ensures Scan(InSingle(tokens, token), [c] + more) == Scan(InSingle(tokens, token + [c]), more)
  {
    TakeOne(InSingle(tokens, token), c, more, InSingle(tokens, token + [c]));
  }

  // Closed, escaped, opened again: the token gains one quote.
  lemma ScanEscapedQuote(tokens: seq<Text>, token: Text, more: Text)
    ensures Scan(InSingle(tokens, token), [SINGLE, BACKSLASH, SINGLE, SINGLE] + more) ==
            Scan(InSingle(tokens, token + [SINGLE]), more)
  {
    var bare, bare' := Lex(tokens, token, None, true), Lex(tokens, token + [SINGLE], None, true);
    var s1, s2 := [BACKSLASH, SINGLE, SINGLE] + more, [SINGLE] + more;
    assert [SINGLE, BACKSLASH, SINGLE, SINGLE] + more == [SINGLE] + s1;
    TakeOne(InSingle(tokens, token), SINGLE, s1, bare);
    assert s1[0] == BACKSLASH && s1[1] == SINGLE && s1[2..] == s2;
    assert Turn(bare, s1) == Ok((bare', 2));
    TakeOne(bare', SINGLE, more, InSingle(tokens, token + [SINGLE]));
  }

  lemma {:induction false} ScanBody(tokens: seq<Text>, token: Text, a: Text, more: Text)
    ensures Scan(InSingle(tokens, token), Body(a) + more) == Scan(InSingle(tokens, token + a), more)
    decreases |a|
  {
    if a == [] {
      assert Body(a) + more == more && token + a == token;
    } else {
      var rest := Body(a[1..]) + more;
      if a[0] == SINGLE {
        ScanEscapedQuote(tokens, token, rest);
        Assoc([SINGLE, BACKSLASH, SINGLE, SINGLE], Body(a[1..]), more);
      } else {
        ScanLiteral(tokens, token, a[0], rest);
        Assoc([a[0]], Body(a[1..]), more);
      }
      ScanBody(tokens, token + [a[0]], a[1..], more);
      assert token + [a[0]] + a[1..] == token + a;
    }
  }

  lemma ScanSingleQuoted(tokens: seq<Text>, a: Text, more: Text)
    ensures Scan(Lex(tokens, [], None, false), SingleQuoted(a) + more) == Scan(Lex(tokens, a, None, true), more)
  {
    var rest := Body(a) + ([SINGLE] + more);
    assert SingleQuoted(a) + more == [SINGLE] + rest;
    TakeOne(Lex(tokens, [], None, false), SINGLE, rest, InSingle(tokens, []));
    ScanBody(tokens, [], a, [SINGLE] + more);
    assert [] + a == a;
    TakeOne(InSingle(tokens, a), SINGLE, more, Lex(tokens, a, None, true));
  }

  // After the line, one token is open and the others are complete.
  lemma {:induction false} ScanLine(name: Text, args: seq<Text>, more: Text)
    requires name != [] && Bare(name)
    ensures Scan(START, Line(name, args) + more) ==
              Scan(if args == [] then Lex([], name, None, true)
                   else Lex([name] + args[..|args| - 1], args[|args| - 1], None, true), more)
    decreases |args|
  {
    if args == [] {
      ScanName([], name, more);
      assert [] + name == name;
    } else {
      var before, a := args[..|args| - 1], args[|args| - 1];
      var quoted := SingleQuoted(a) + more;
      assert Line(name, args) + more == Line(name, before) + ([SPACE] + quoted);
      ScanLine(name, before, [SPACE] + quoted);
      if before == [] {
        ScanSpace([], name, quoted);
        assert [] + [name] == [name] + before;
      } else {
        ScanSpace([name] + before[..|before| - 1], before[|before| - 1], quoted);
        assert [name] + before[..|before| - 1] + [before[|before| - 1]] == [name] + before;
      }
      ScanSingleQuoted([name] + before, a, more);
    }
  }

  // ----- names -----

  const CAPITALS := "ABCDEFGHIJKLMNOPQRSTUVWXYZ"
  const SMALL := "abcdefghijklmnopqrstuvwxyz"

  // c is d, or the capital of d.
  ghost predicate SameLetter(c: CodeUnit, d: CodeUnit) {
    c == d || exists k :: 0 <= k < 26 && c == CAPITALS[k] as int && d == SMALL[k] as int
  }

  ghost predicate SameLetters(t: Text, name: Text) {
    |t| == |name| && forall i | 0 <= i < |t| :: SameLetter(t[i], name[i])
  }

  lemma Alphabet(k: nat)
    requires k < 26
    ensures CAPITALS[k] as int == 65 + k && SMALL[k] as int == 97 + k
  {
    assert CAPITALS[k] == ['A', 'B', 'C', 'D', 'E', 'F', 'G', 'H', 'I', 'J', 'K', 'L', 'M',
                           'N', 'O', 'P', 'Q', 'R', 'S', 'T', 'U', 'V', 'W', 'X', 'Y', 'Z'][k];
  }

  lemma AnyCase(t: Text, name: Text)
    requires NameOk(name) && SameLetters(t, name)
    ensures Lower(t) == name && Bare(t)
  {
    forall i | 0 <= i < |t|
      ensures Lower(t)[i] == name[i] && (t[i] == name[i] || 65 <= t[i] <= 90)
    {
      assert SameLetter(t[i], name[i]);
      if t[i] != name[i] {
        var k: int :| 0 <= k < 26 && t[i] == CAPITALS[k] as int && name[i] == SMALL[k] as int;
        Alphabet(k);
      }
    }
  }

  // The names that are accepted are exactly those listed: the pattern for names refuses none of them.
  lemma AllowlistedExactly(t: Text)
    ensures Allowlisted(t) <==> exists n | n in EXTERNAL_COMMANDS + {"echo", "pwd"} :: Spells(n, t)
  {
    forall n | n in EXTERNAL_COMMANDS + {"echo", "pwd"} && Spells(n, t)
      ensures NameOk(t)
    {
      ListedNameOk(n);
      assert forall i | 0 <= i < |t| :: t[i] == n[i] as int;
    }
  }

  predicate NameChar(c: char) {
    'a' <= c <= 'z' || '0' <= c <= '9'
  }

  lemma ListedNameOk(n: string)
    requires n in EXTERNAL_COMMANDS + {"echo", "pwd"}
    ensures n != "" && forall i | 0 <= i < |n| :: NameChar(n[i])
  {
  }

  // For every allowlisted name, in capitals or not, and every list of arguments there is a command line that is read as
  // just these.
  lemma EveryCommandCanBeWritten(t: Text, name: Text, args: seq<Text>)
    requires Allowlisted(name) && SameLetters(t, name)
    ensures Parse(Line(t, args)) == Ok(Command(name, args))
  {
    AnyCase(t, name);
    ScanLine(t, args, []);
    assert Line(t, args) + [] == Line(t, args);
    if args != [] {
      assert [t] + args[..|args| - 1] + [args[|args| - 1]] == [t] + args;
    }
    assert ([t] + args)[1..] == args && [] + [t] == [t] + [];
  }
}
