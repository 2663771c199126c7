/** Tokenizing what the caller prints gives the arguments back. */
module QuotingRoundTrip {
  import opened Wrappers
  import opened Tokenizer

  // What the tokenizer reads from a quoted character: the quoting inverts the escapes of quotes and
  // backslashes and leaves every other escape standing.
  function ReadHead(a: Text): Text
    requires a != []
  {
    if a[0] == DOUBLE || a[0] == BACKSLASH then [a[0]] else Piece(a)
  }

  function Read(a: Text): Text
    decreases |a|
  {
    if a == [] then [] else ReadHead(a) + Read(a[Width(a)..])
  }

  // No control character and no unpaired surrogate.
  predicate Clean(a: Text) {
    forall i | 0 <= i < |a| :: CleanAt(a, i)
  }

  predicate CleanAt(a: Text, i: nat)
    requires i < |a|
  {
    && a[i] >= 32
    && (High(a[i]) ==> i + 1 < |a| && Low(a[i + 1]))
    && (Low(a[i]) ==> i > 0 && High(a[i - 1]))
  }

  // The head of a text is read back as it is.
  predicate CleanHead(a: Text)
    requires a != []
  {
    a[0] >= 32 && (High(a[0]) ==> Width(a) == 2) && !Low(a[0])
  }

  lemma CleanTail(a: Text)
    requires a != [] && Clean(a)
    ensures CleanHead(a) && Clean(a[Width(a)..])
  {
    var n := Width(a);
    var b := a[n..];
    assert CleanAt(a, 0);
    assert |a| > 1 ==> CleanAt(a, 1);
    assert !High(a[n - 1]);
    forall i | 0 <= i < |b|
      ensures CleanAt(b, i)
    {
      assert CleanAt(a, i + n);
    }
  }

  lemma CleanCons(a: Text)
    requires a != [] && CleanHead(a) && Clean(a[Width(a)..])
    ensures Clean(a)
  {
    var n := Width(a);
    var b := a[n..];
    forall i | 0 <= i < |a|
      ensures CleanAt(a, i)
    {
      if i >= n {
        assert CleanAt(b, i - n);
      }
    }
  }

  // An argument is read back as it is exactly when it is clean; otherwise something longer is read.
  lemma {:induction false} ReadIffClean(a: Text)
    ensures |Read(a)| >= |a| && (Read(a) == a <==> Clean(a)) && (!Clean(a) ==> |Read(a)| > |a|)
    decreases |a|
  {
    if a != [] {
      var n := Width(a);
      if Clean(a) {
        CleanTail(a);
      } else if CleanHead(a) && Clean(a[n..]) {
        CleanCons(a);
      }
      ReadIffClean(a[n..]);
      HeadIffClean(a);
      assert a == a[..n] + a[n..];
    }
  }

  lemma HeadIffClean(a: Text)
    requires a != []
    ensures if CleanHead(a) then ReadHead(a) == a[..Width(a)] else |ReadHead(a)| > Width(a)
  {
  }

  // ----- inside double quotes -----

  function InQuotes(tokens: seq<Text>, token: Text): Lex {
    Lex(tokens, token, Some(DOUBLE), true)
  }

  // Text the tokenizer takes literally inside double quotes.
  predicate Inert(t: Text) {
    forall i | 0 <= i < |t| :: InertAt(t, i)
  }

  predicate InertAt(t: Text, i: nat)
    requires i < |t|
  {
    t[i] != DOUBLE && (t[i] == BACKSLASH ==> i + 1 < |t| && t[i + 1] != DOUBLE && t[i + 1] != BACKSLASH)
  }

  lemma InertTail(t: Text)
    requires t != [] && Inert(t)
    ensures Inert(t[1..])
  {
    forall i | 0 <= i < |t[1..]|
      ensures InertAt(t[1..], i)
    {
      assert InertAt(t, i + 1);
    }
  }

  lemma {:induction false} ScanInert(tokens: seq<Text>, token: Text, t: Text, more: Text)
    requires Inert(t)
    ensures Scan(InQuotes(tokens, token), t + more) == Scan(InQuotes(tokens, token + t), more)
    decreases |t|
  {
    if t == [] {
      assert t + more == more && token + t == token;
    } else {
      var s := t + more;
      assert InertAt(t, 0);
      assert s[0] == t[0] && s[1..] == t[1..] + more && (|t| > 1 ==> s[1] == t[1]);
      assert Turn(InQuotes(tokens, token), s) == Ok((InQuotes(tokens, token + [t[0]]), 1));
      InertTail(t);
      ScanInert(tokens, token + [t[0]], t[1..], more);
      assert token + [t[0]] + t[1..] == token + t;
    }
  }

  lemma ScanEscaped(tokens: seq<Text>, token: Text, c: CodeUnit, more: Text)
    requires c == DOUBLE || c == BACKSLASH
    ensures Scan(InQuotes(tokens, token), [BACKSLASH, c] + more) == Scan(InQuotes(tokens, token + [c]), more)
  {
    var s := [BACKSLASH, c] + more;
    assert s[0] == BACKSLASH && s[1] == c && s[2..] == more;
    assert Turn(InQuotes(tokens, token), s) == Ok((InQuotes(tokens, token + [c]), 2));
  }

  lemma PieceInert(a: Text)
    requires a != [] && a[0] != DOUBLE && a[0] != BACKSLASH
    ensures Inert(Piece(a))
  {
  }

  lemma Assoc<T>(a: seq<T>, b: seq<T>, c: seq<T>)
    ensures a + b + c == a + (b + c)
  {
  }

  lemma ScanPiece(tokens: seq<Text>, token: Text, a: Text, more: Text)
    requires a != []
    ensures Scan(InQuotes(tokens, token), Piece(a) + more) == Scan(InQuotes(tokens, token + ReadHead(a)), more)
  {
    if a[0] == DOUBLE || a[0] == BACKSLASH {
      ScanEscaped(tokens, token, a[0], more);
    } else {
      PieceInert(a);
      ScanInert(tokens, token, Piece(a), more);
    }
  }

  lemma ScanClosingQuote(tokens: seq<Text>, token: Text, more: Text)
    ensures Scan(InQuotes(tokens, token), [DOUBLE] + more) == Scan(Lex(tokens, token, None, true), more)
  {
    var s := [DOUBLE] + more;
    assert s[0] == DOUBLE && s[1..] == more;
    assert Turn(InQuotes(tokens, token), s) == Ok((Lex(tokens, token, None, true), 1));
  }

  lemma {:induction false} ScanArgument(tokens: seq<Text>, token: Text, a: Text, more: Text)
    ensures Scan(InQuotes(tokens, token), Escape(a) + ([DOUBLE] + more)) ==
            Scan(Lex(tokens, token + Read(a), None, true), more)
    decreases |a|
  {
    if a == [] {
      ScanClosingQuote(tokens, token, more);
      assert Escape(a) + ([DOUBLE] + more) == [DOUBLE] + more && token + Read(a) == token;
    } else {
      var rest := a[Width(a)..];
      var tail := Escape(rest) + ([DOUBLE] + more);
      Assoc(Piece(a), Escape(rest), [DOUBLE] + more);
      ScanPiece(tokens, token, a, tail);
      ScanArgument(tokens, token + ReadHead(a), rest, more);
      Assoc(token, ReadHead(a), Read(rest));
    }
  }

  lemma ScanQuoted(tokens: seq<Text>, a: Text, more: Text)
    ensures Scan(Lex(tokens, [], None, false), Quote(a) + more) == Scan(Lex(tokens, Read(a), None, true), more)
  {
    var s := Quote(a) + more;
    assert s[0] == DOUBLE && s[1..] == Escape(a) + [DOUBLE] + more;
    Assoc(Escape(a), [DOUBLE], more);
    assert Turn(Lex(tokens, [], None, false), s) == Ok((InQuotes(tokens, []), 1));
    ScanArgument(tokens, [], a, more);
    assert [] + Read(a) == Read(a);
  }

  lemma ScanSpace(tokens: seq<Text>, token: Text, more: Text)
    ensures Scan(Lex(tokens, token, None, true), [SPACE] + more) == Scan(Lex(tokens + [token], [], None, false), more)
  {
    var s := [SPACE] + more;
    assert s[0] == SPACE && s[1..] == more;
    assert Turn(Lex(tokens, token, None, true), s) == Ok((Lex(tokens + [token], [], None, false), 1));
  }

  // ----- the whole line -----

  function ReadAll(args: seq<Text>): (rs: seq<Text>)
    ensures |rs| == |args| && forall i | 0 <= i < |args| :: rs[i] == Read(args[i])
  {
    seq(|args|, i requires 0 <= i < |args| => Read(args[i]))
  }

  lemma {:induction false} ScanArguments(tokens: seq<Text>, args: seq<Text>)
    requires args != []
    ensures var r := Scan(Lex(tokens, [], None, false), JoinQuoted(args));
            r.Ok? && r.value.quote == None && r.value.started && Flush(r.value) == tokens + ReadAll(args)
    decreases |args|
  {
    var a := args[0];
    if |args| == 1 {
      ScanQuoted(tokens, a, []);
      assert JoinQuoted(args) == Quote(a) + [];
      assert ReadAll(args) == [Read(a)];
    } else {
      var rest := args[1..];
      Assoc(Quote(a), [SPACE], JoinQuoted(rest));
      ScanQuoted(tokens, a, [SPACE] + JoinQuoted(rest));
      ScanSpace(tokens, Read(a), JoinQuoted(rest));
      ScanArguments(tokens + [Read(a)], rest);
      Assoc(tokens, [Read(a)], ReadAll(rest));
      assert ReadAll(args) == [Read(a)] + ReadAll(rest);
    }
  }

  // Text that means only itself to the tokenizer, quoted or not.
  predicate Bare(t: Text) {
    forall i | 0 <= i < |t| :: !IsSpace(t[i]) && !IsShellOperator(t[i]) && t[i] !in {SINGLE, DOUBLE, BACKSLASH}
  }

  lemma NameIsBare(name: Text)
    requires NameOk(name)
    ensures Bare(name)
  {
  }

  lemma {:induction false} ScanName(token: Text, name: Text, more: Text)
    requires Bare(name)
    ensures name != [] ==>
              Scan(Lex([], token, None, token != []), name + more) == Scan(Lex([], token + name, None, true), more)
    decreases |name|
  {
    if name != [] {
      var s := name + more;
      var token' := token + [name[0]];
      assert s[0] == name[0] && s[1..] == name[1..] + more;
      assert Turn(Lex([], token, None, token != []), s) == Ok((Lex([], token', None, true), 1));
      if |name| == 1 {
        assert name == [name[0]] && name[1..] + more == more;
      } else {
        ScanName(token', name[1..], more);
        Assoc(token, [name[0]], name[1..]);
        assert [name[0]] + name[1..] == name;
      }
    }
  }

  lemma NoTrim(s: Text)
    requires s != [] && !IsSpace(s[0]) && !IsSpace(s[|s| - 1])
    ensures TrimEnd(TrimStart(s)) == s && TrimEnd(TrimStart(s + [SPACE])) == s
  {
    assert TrimStart(s + [SPACE]) == s + [SPACE];
    assert (s + [SPACE])[..|s|] == s;
  }

  lemma JoinEnds(args: seq<Text>)
    requires args != []
    ensures var j := JoinQuoted(args); j != [] && j[|j| - 1] == DOUBLE
  {
  }

  // The line as it is left after trimming.
  lemma LineIs(interpreter: Text, script: Text, args: seq<Text>)
    requires NameOk(interpreter)
    ensures CommandLine(interpreter, script, args) == interpreter + ([SPACE] + JoinQuoted([script] + args))
  {
    var all := [script] + args;
    var line := interpreter + ([SPACE] + JoinQuoted(all));
    JoinEnds(all);
    assert line[0] == interpreter[0] && line[|line| - 1] == DOUBLE;
    NoTrim(line);
    assert all[1..] == args;
    Untrimmed(interpreter, Quote(script), JoinQuoted(args));
    if args == [] {
      assert Quote(script) + [SPACE] + [] == Quote(script) + [SPACE];
    }
  }

  lemma Untrimmed(name: Text, script: Text, rest: Text)
    ensures name + [SPACE] + script + [SPACE] + rest == name + ([SPACE] + (script + [SPACE] + rest))
    ensures rest == [] ==> name + [SPACE] + script + [SPACE] + rest == name + ([SPACE] + script) + [SPACE]
  {
  }

  lemma LowerName(name: Text)
    requires NameOk(name)
    ensures Lower(name) == name
  {
  }

  // Whatever the arguments hold, the line is tokenized into the interpreter and one token an argument.
  lemma LineTokens(interpreter: Text, script: Text, args: seq<Text>)
    requires NameOk(interpreter)
    ensures Parse(CommandLine(interpreter, script, args)) ==
              if Allowlisted(interpreter) then Ok(Command(interpreter, ReadAll([script] + args)))
              else Err(NotAllowlisted)
  {
    var all := [script] + args;
    LineIs(interpreter, script, args);
    NameIsBare(interpreter);
    ScanName([], interpreter, [SPACE] + JoinQuoted(all));
    assert [] + interpreter == interpreter;
    ScanSpace([], interpreter, JoinQuoted(all));
    assert [] + [interpreter] == [interpreter];
    ScanArguments([interpreter], all);
    LowerName(interpreter);
    assert ([interpreter] + ReadAll(all))[1..] == ReadAll(all);
  }

  // The round trip: for every allowlisted executable the arguments come back as they were exactly when none
  // of them holds a control character or an unpaired surrogate.
  lemma RoundTripIffClean(interpreter: Text, script: Text, args: seq<Text>)
    requires Allowlisted(interpreter)
    ensures Parse(CommandLine(interpreter, script, args)) == Ok(Command(interpreter, [script] + args)) <==>
              Clean(script) && forall a | a in args :: Clean(a)
  {
    var all := [script] + args;
    LineTokens(interpreter, script, args);
    ReadAllIffClean(all);
    assert forall a :: a in all <==> a == script || a in args;
  }

  lemma ReadAllIffClean(all: seq<Text>)
    ensures ReadAll(all) == all <==> forall a | a in all :: Clean(a)
  {
    forall i | 0 <= i < |all|
      ensures ReadAll(all)[i] == all[i] <==> Clean(all[i])
    {
      ReadIffClean(all[i]);
    }
    if forall a | a in all :: Clean(a) {
      assert forall i | 0 <= i < |all| :: all[i] in all && ReadAll(all)[i] == all[i];
      assert ReadAll(all) == all;
    }
    if ReadAll(all) == all {
      forall a | a in all
        ensures Clean(a)
      {
        var i :| 0 <= i < |all| && all[i] == a;
        assert ReadAll(all)[i] == all[i];
      }
    }
  }

  lemma SpellsOne(m: string, n: string, t: Text)
    requires Spells(m, t) && Spells(n, t)
    ensures m == n
  {
  }

  lemma BashIsNotListed(bash: Text)
    requires Spells("bash", bash)
    ensures !Allowlisted(bash)
  {
    forall n | n in EXTERNAL_COMMANDS + {"echo", "pwd"}
      ensures !Spells(n, bash)
    {
      if Spells(n, bash) {
        SpellsOne(n, "bash", bash);
        assert false;
      }
    }
  }

  // The default interpreter is not on the list, so its scripts are refused whatever their arguments.
  lemma BashIsRefused(bash: Text, script: Text, args: seq<Text>)
    requires Spells("bash", bash)
    ensures Parse(CommandLine(bash, script, args)) == Err(NotAllowlisted)
  {
    BashIsNotListed(bash);
    assert NameOk(bash);
    LineTokens(bash, script, args);
  }
}
