/** What the tokenizer does, said of the positions of the text: which of them are quoted, escaped, separators or
    operators, and what the words are. */
module TokenizerMeaning {
  import opened Wrappers
  import opened Tokenizer

  // ----- positions -----

  // What a backslash escapes: outside quotes white space, quotes and backslashes; in double quotes double quotes and
  // backslashes; in single quotes nothing.
  ghost predicate Escapable(quote: Option<CodeUnit>, c: CodeUnit) {
    match quote
    case None => IsSpace(c) || c == SINGLE || c == DOUBLE || c == BACKSLASH
    case Some(q) => q == DOUBLE && (c == DOUBLE || c == BACKSLASH)
  }

  // The quote that is open before position i.
  ghost function QuoteAt(s: Text, i: nat): Option<CodeUnit>
    requires i <= |s|
    decreases i, 1
  {
    if i == 0 then None
    else
      var before := QuoteAt(s, i - 1);
      if EscapedAt(s, i - 1) then before
      else if before == None && (s[i - 1] == SINGLE || s[i - 1] == DOUBLE) then Some(s[i - 1])
      else if before == Some(s[i - 1]) then None
      else before
  }

  ghost predicate EscapedAt(s: Text, i: nat)
    requires i < |s|
    decreases i, 0
  {
    i > 0 && s[i - 1] == BACKSLASH && !EscapedAt(s, i - 1) && Escapable(QuoteAt(s, i - 1), s[i])
  }

  // Neither quoted nor escaped.
  ghost predicate Plain(s: Text, i: nat)
    requires i < |s|
  {
    QuoteAt(s, i) == None && !EscapedAt(s, i)
  }

  ghost predicate Separator(s: Text, i: nat)
    requires i < |s|
  {
    Plain(s, i) && IsSpace(s[i])
  }

  // The line breaks are in the list of operators too, but they are white space first.
  ghost predicate Operator(s: Text, i: nat)
    requires i < |s|
  {
    Plain(s, i) && IsShellOperator(s[i]) && !IsSpace(s[i])
  }

  // A quote that opens or closes, or a backslash that escapes what follows.
  ghost predicate Mark(s: Text, i: nat)
    requires i < |s|
  {
    || (!EscapedAt(s, i) && QuoteAt(s, i + 1) != QuoteAt(s, i))
    || (i + 1 < |s| && EscapedAt(s, i + 1))
  }

  // ----- words -----

  // The words before position n, and the one it stands in, if it stands in one. A word is the text between separators
  // without its marks; quotes with nothing between them make a word too.
  datatype Split = Split(words: seq<Text>, current: Option<Text>)

  ghost function SplitAt(s: Text, n: nat): Split
    requires n <= |s|
  {
    if n == 0 then Split([], None)
    else
      var before := SplitAt(s, n - 1);
      if Separator(s, n - 1) then Split(Complete(before), None)
      else
        before.(current := Some(before.current.UnwrapOr([]) + if Mark(s, n - 1) then [] else [s[n - 1]]))
  }

  ghost function Complete(p: Split): seq<Text> {
    match p.current
    case None => p.words
    case Some(word) => p.words + [word]
  }

  ghost function Words(s: Text): seq<Text> {
    Complete(SplitAt(s, |s|))
  }

  // ----- the scan -----

  ghost function StateAt(s: Text, n: nat): Lex
    requires n <= |s|
  {
    var p := SplitAt(s, n);
    Lex(p.words, p.current.UnwrapOr([]), QuoteAt(s, n), p.current.Some?)
  }

  ghost predicate IsFirstOperator(s: Text, n: nat, i: int) {
    n <= i < |s| && Operator(s, i) && forall k | n <= k < i :: !Operator(s, k)
  }

  // One turn of the scan stops at an operator or moves on past an escaped position.
  lemma TurnAt(s: Text, n: nat)
    requires n < |s| && !EscapedAt(s, n)
    ensures Turn(StateAt(s, n), s[n..]) ==
              if Operator(s, n) then Err(ShellOperator(s[n]))
              else if n + 1 < |s| && EscapedAt(s, n + 1) then Ok((StateAt(s, n + 2), 2))
              else Ok((StateAt(s, n + 1), 1))
  {
    var rest := s[n..];
    assert rest[0] == s[n] && (|rest| > 1 ==> rest[1] == s[n + 1]);
    assert StateAt(s, n).token + [] == StateAt(s, n).token;
    if n + 1 < |s| && EscapedAt(s, n + 1) {
      assert QuoteAt(s, n + 1) == QuoteAt(s, n) && QuoteAt(s, n + 2) == QuoteAt(s, n);
      EscapedIsLiteral(s, n);
    }
  }

  lemma NextIsNotEscaped(s: Text, n: nat)
    requires n < |s| && !EscapedAt(s, n)
    ensures n + 1 < |s| && EscapedAt(s, n + 1) ==>
              !Operator(s, n) && !Operator(s, n + 1) && (n + 2 < |s| ==> !EscapedAt(s, n + 2))
  {
  }

  lemma EscapedIsLiteral(s: Text, n: nat)
    requires n + 1 < |s| && !EscapedAt(s, n) && EscapedAt(s, n + 1)
    ensures SplitAt(s, n + 2) ==
              SplitAt(s, n).(current := Some(SplitAt(s, n).current.UnwrapOr([]) + [s[n + 1]]))
  {
    var word := SplitAt(s, n).current.UnwrapOr([]);
    assert !Separator(s, n) && Mark(s, n) && !Separator(s, n + 1) && !Mark(s, n + 1);
    assert word + [] == word;
  }

  lemma {:induction false} ScanAt(s: Text, n: nat)
    requires n <= |s| && (n < |s| ==> !EscapedAt(s, n))
    ensures forall i | IsFirstOperator(s, n, i) :: Scan(StateAt(s, n), s[n..]) == Err(ShellOperator(s[i]))
    ensures (forall i | n <= i < |s| :: !Operator(s, i)) ==> Scan(StateAt(s, n), s[n..]) == Ok(StateAt(s, |s|))
    decreases |s| - n
  {
    hide Turn, StateAt, Operator, EscapedAt;
    if n < |s| {
      var step := if n + 1 < |s| && EscapedAt(s, n + 1) then 2 else 1;
      TurnAt(s, n);
      NextIsNotEscaped(s, n);
      if Operator(s, n) {
        assert Scan(StateAt(s, n), s[n..]) == Err(ShellOperator(s[n]));
      } else {
        ScanAt(s, n + step);
        assert s[n..][step..] == s[n + step..];
        assert forall i | IsFirstOperator(s, n, i) :: IsFirstOperator(s, n + step, i);
      }
    }
  }

  ghost predicate HasOperator(s: Text) {
    exists i: nat :: i < |s| && Operator(s, i)
  }

  lemma {:induction false} FirstOperator(s: Text, n: nat) returns (i: nat)
    requires n <= |s| && exists k: nat :: n <= k < |s| && Operator(s, k)
    ensures IsFirstOperator(s, n, i)
    decreases |s| - n
  {
    if n < |s| && Operator(s, n) {
      i := n;
    } else {
      i := FirstOperator(s, n + 1);
    }
  }

  // What every command line is read as: it is refused for the first operator that is neither quoted nor escaped;
  // without one, for a quote left open, for having no word, or for a first word that is not on the list; otherwise it
  // is read as its words.
  lemma TokenizesExactly(s: Text)
    ensures forall i | IsFirstOperator(s, 0, i) :: Parse(s) == Err(ShellOperator(s[i]))
    ensures !HasOperator(s) ==>
              Parse(s) ==
                if QuoteAt(s, |s|) != None then Err(UnterminatedQuote)
                else if Words(s) == [] then Err(EmptyCommand)
                else if !Allowlisted(Lower(Words(s)[0])) then Err(NotAllowlisted)
                else Ok(Command(Lower(Words(s)[0]), Words(s)[1..]))
  {
    ScanAt(s, 0);
    assert s[0..] == s && StateAt(s, 0) == START;
    assert !HasOperator(s) ==> forall i | 0 <= i < |s| :: !Operator(s, i);
    assert Flush(StateAt(s, |s|)) == Words(s);
  }

  // A command is refused for a shell operator exactly when it holds one outside quotes, and the error names the first
  // of them. In a command that is read every operator stands inside quotes.
  lemma NoOperatorPasses(s: Text)
    ensures HasOperator(s) <==> Parse(s).Err? && Parse(s).error.ShellOperator?
    ensures HasOperator(s) ==> exists i :: IsFirstOperator(s, 0, i) && Parse(s) == Err(ShellOperator(s[i]))
    ensures Parse(s).Ok? ==>
              forall i | 0 <= i < |s| && IsShellOperator(s[i]) && !IsSpace(s[i]) :: QuoteAt(s, i) != None
  {
    TokenizesExactly(s);
    if HasOperator(s) {
      var i := FirstOperator(s, 0);
      assert IsFirstOperator(s, 0, i);
    }
    forall i | 0 <= i < |s| && IsShellOperator(s[i]) && !IsSpace(s[i]) && QuoteAt(s, i) == None
      ensures HasOperator(s)
    {
      assert Operator(s, i);
    }
  }

  // ----- characters -----

  // The characters that are refused, those that separate, and those that quote and escape. The spaces from U+2000 to
  // U+200A separate too.
  lemma Characters(c: CodeUnit)
    ensures IsShellOperator(c) <==>
            c in {'|' as int, '&' as int, ';' as int, '<' as int, '>' as int, '`' as int, '$' as int, '(' as int,
                  ')' as int, '\r' as int, '\n' as int}
    ensures IsSpace(c) <==>
            0x2000 <= c < 0x200B ||
            c in {' ' as int, '\t' as int, '\n' as int, '\r' as int, '\U{000B}' as int, '\U{000C}' as int,
                  '\U{00A0}' as int, '\U{FEFF}' as int, '\U{1680}' as int, '\U{2028}' as int, '\U{2029}' as int,
                  '\U{202F}' as int, '\U{205F}' as int, '\U{3000}' as int}
    ensures SPACE == ' ' as int && SINGLE == '\'' as int && DOUBLE == '\"' as int && BACKSLASH == '\\' as int
  {
  }

  // ----- white space -----

  lemma {:induction false} SameRoles(s: Text, at: nat, c: CodeUnit, n: nat)
    requires at < |s| && Separator(s, at) && IsSpace(c) && n <= |s|
    ensures QuoteAt(s[at := c], n) == QuoteAt(s, n)
    ensures n < |s| ==> EscapedAt(s[at := c], n) == EscapedAt(s, n)
  {
    if n > 0 {
      SameRoles(s, at, c, n - 1);
      if n > 1 {
        SameRoles(s, at, c, n - 2);
      }
    }
  }

  lemma {:induction false} SameSplit(s: Text, at: nat, c: CodeUnit, n: nat)
    requires at < |s| && Separator(s, at) && IsSpace(c) && n <= |s|
    ensures SplitAt(s[at := c], n) == SplitAt(s, n)
  {
    if n > 0 {
      SameSplit(s, at, c, n - 1);
      SameRoles(s, at, c, n - 1);
      SameRoles(s, at, c, n);
      if n < |s| {
        SameRoles(s, at, c, n + 1);
      }
    }
  }

  // White space between words is all the same, line breaks included, although these are listed as operators to refuse.
  lemma LineBreaksSeparate(s: Text, at: nat, c: CodeUnit)
    requires at < |s| && Separator(s, at) && IsSpace(c)
    ensures Parse(s[at := c]) == Parse(s)
  {
    var t := s[at := c];
    forall i: nat | i < |s|
      ensures Operator(t, i) <==> Operator(s, i)
    {
      SameRoles(s, at, c, i);
    }
    SameRoles(s, at, c, |s|);
    SameSplit(s, at, c, |s|);
    TokenizesExactly(s);
    TokenizesExactly(t);
    if HasOperator(s) {
      var i := FirstOperator(s, 0);
      assert IsFirstOperator(s, 0, i) && IsFirstOperator(t, 0, i) && t[i] == s[i];
    }
  }
}
