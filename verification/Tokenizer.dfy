/** The command tokenizer of server/cliToolEngine.ts and the quoting its caller prints. Text is UTF-16: a
    sequence of code units, some of which may be unpaired surrogates. */
module Tokenizer {
  import opened Wrappers

  type CodeUnit = c: int | 0 <= c < 0x1_0000
  type Text = seq<CodeUnit>

  const SPACE: CodeUnit := 32
  const DOUBLE: CodeUnit := 34
  const SINGLE: CodeUnit := 39
  const BACKSLASH: CodeUnit := 92

  predicate IsSpace(c: CodeUnit) {
    || 9 <= c <= 13 || c == 32 || c == 0xA0 || c == 0x1680 || 0x2000 <= c <= 0x200A
    || c == 0x2028 || c == 0x2029 || c == 0x202F || c == 0x205F || c == 0x3000 || c == 0xFEFF
  }

  // | & ; < > ` $ ( ) and the line breaks
  predicate IsShellOperator(c: CodeUnit) {
    c in {124, 38, 59, 60, 62, 96, 36, 40, 41, 13, 10}
  }

  const EXTERNAL_COMMANDS := {
    "awk", "cat", "convert", "ffmpeg", "find", "git", "grep", "head", "jq",
    "ls", "node", "npm", "npx", "pandoc", "pdftotext", "python", "python3",
    "sed", "sort", "tail", "tar", "tsx", "uniq", "unzip", "wc", "which"}

  datatype Error = ShellOperator(c: CodeUnit) | UnterminatedQuote | EmptyCommand | NotAllowlisted

  datatype Command = Command(executable: Text, args: seq<Text>)

  datatype Lex = Lex(tokens: seq<Text>, token: Text, quote: Option<CodeUnit>, started: bool)

  const START := Lex([], [], None, false)

  // One token so far, if one was started.
  function Flush(st: Lex): seq<Text> {
    if st.started then st.tokens + [st.token] else st.tokens
  }

  function Take(st: Lex, c: CodeUnit): Lex {
    st.(token := st.token + [c], started := true)
  }

  // One turn of the scan: the new state and how many code units it used.
  function Turn(st: Lex, s: Text): Result<(Lex, nat), Error>
    requires s != []
    ensures var r := Turn(st, s); r.Ok? ==> 1 <= r.value.1 <= |s|
  {
    var c := s[0];
    if st.quote.Some? then
      if c == st.quote.value then Ok((st.(quote := None, started := true), 1))
      else if c == BACKSLASH && st.quote.value == DOUBLE && |s| > 1 && (s[1] == DOUBLE || s[1] == BACKSLASH) then
        Ok((Take(st, s[1]), 2))
      else Ok((Take(st, c), 1))
    else if c == SINGLE || c == DOUBLE then Ok((st.(quote := Some(c), started := true), 1))
    else if IsSpace(c) then
      Ok((if st.started then st.(tokens := st.tokens + [st.token], token := [], started := false) else st, 1))
    else if IsShellOperator(c) then Err(ShellOperator(c))
    else if c == BACKSLASH && |s| > 1 && (IsSpace(s[1]) || s[1] == BACKSLASH || s[1] == SINGLE || s[1] == DOUBLE) then
      Ok((Take(st, s[1]), 2))
    else Ok((Take(st, c), 1))
  }

  function Scan(st: Lex, s: Text): Result<Lex, Error>
    decreases |s|
  {
    if s == [] then Ok(st)
    else
      match Turn(st, s)
      case Err(e) => Err(e)
      case Ok(p) => Scan(p.0, s[p.1..])
  }

  // Lower case as far as it matters here: the only characters outside ASCII whose lower case is an ASCII
  // letter are the Kelvin sign and, followed by a combining dot, the dotted capital I.
  function Lower(t: Text): Text {
    seq(|t|, i requires 0 <= i < |t| => if 65 <= t[i] <= 90 then t[i] + 32 else if t[i] == 0x212A then 107 else t[i])
  }

  predicate NameStart(c: CodeUnit) {
    97 <= c <= 122 || 48 <= c <= 57
  }

  predicate NameOk(t: Text) {
    t != [] && NameStart(t[0]) && forall i | 0 <= i < |t| :: NameStart(t[i]) || t[i] == 46 || t[i] == 95 || t[i] == 45
  }

  predicate Spells(name: string, t: Text) {
    |name| == |t| && forall i | 0 <= i < |t| :: name[i] as int == t[i]
  }

  predicate Allowlisted(t: Text) {
    NameOk(t) && exists n | n in EXTERNAL_COMMANDS + {"echo", "pwd"} :: Spells(n, t)
  }

  function Finish(st: Lex): Result<Command, Error> {
    var tokens := Flush(st);
    if st.quote.Some? then Err(UnterminatedQuote)
    else if tokens == [] then Err(EmptyCommand)
    else if !Allowlisted(Lower(tokens[0])) then Err(NotAllowlisted)
    else Ok(Command(Lower(tokens[0]), tokens[1..]))
  }

  function Parse(command: Text): Result<Command, Error> {
    match Scan(START, command)
    case Err(e) => Err(e)
    case Ok(st) => Finish(st)
  }

  // The loop over the command line.
  method ParseStructuredCommand(command: Text) returns (result: Result<Command, Error>)
    ensures result == Parse(command)
  {
    var tokens: seq<Text> := [];
    var token: Text := [];
    var quote: Option<CodeUnit> := None;
    var tokenStarted := false;
    var index := 0;
    while index < |command|
      invariant index <= |command|
      invariant Scan(Lex(tokens, token, quote, tokenStarted), command[index..]) == Scan(START, command)
    {
      ghost var st, rest := Lex(tokens, token, quote, tokenStarted), command[index..];
      ghost var turn := Turn(st, rest);
      assert rest[0] == command[index] && (|rest| > 1 ==> rest[1] == command[index + 1]);
      assert turn.Ok? ==> rest[turn.value.1..] == command[index + turn.value.1..];
      var character := command[index];
      if quote.Some? {
        if character == quote.value {
          quote := None;
          tokenStarted := true;
        } else if character == BACKSLASH && quote.value == DOUBLE && index + 1 < |command| &&
                  (command[index + 1] == DOUBLE || command[index + 1] == BACKSLASH) {
          token := token + [command[index + 1]];
          index := index + 1;
          tokenStarted := true;
        } else {
          token := token + [character];
          tokenStarted := true;
        }
      } else if character == SINGLE || character == DOUBLE {
        quote := Some(character);
        tokenStarted := true;
      } else if IsSpace(character) {
        if tokenStarted {
          tokens := tokens + [token];
          token := [];
          tokenStarted := false;
        }
      } else if IsShellOperator(character) {
        return Err(ShellOperator(character));
      } else if character == BACKSLASH {
        if index + 1 < |command| &&
           (IsSpace(command[index + 1]) || command[index + 1] in {BACKSLASH, SINGLE, DOUBLE}) {
          token := token + [command[index + 1]];
          index := index + 1;
        } else {
          token := token + [character];
        }
        tokenStarted := true;
      } else {
        token := token + [character];
        tokenStarted := true;
      }
      index := index + 1;
    }
    if quote.Some? {
      return Err(UnterminatedQuote);
    }
    if tokenStarted {
      tokens := tokens + [token];
    }
    if |tokens| == 0 {
      return Err(EmptyCommand);
    }
    var executable := Lower(tokens[0]);
    if !Allowlisted(executable) {
      return Err(NotAllowlisted);
    }
    return Ok(Command(executable, tokens[1..]));
  }

  // ----- what the caller prints -----

  predicate High(c: CodeUnit) {
    0xD800 <= c <= 0xDBFF
  }

  predicate Low(c: CodeUnit) {
    0xDC00 <= c <= 0xDFFF
  }

  function HexDigit(d: int): CodeUnit
    requires 0 <= d < 16
  {
    if d < 10 then 48 + d else 87 + d
  }

  function UnicodeEscape(c: CodeUnit): Text {
    [BACKSLASH, 117, HexDigit(c / 4096), HexDigit(c / 256 % 16), HexDigit(c / 16 % 16), HexDigit(c % 16)]
  }

  // The letter of a short escape, if the character has one: backspace, tab, newline, form feed, return.
  function ShortEscape(c: CodeUnit): Option<CodeUnit> {
    if c == 8 then Some(98) else if c == 9 then Some(116) else if c == 10 then Some(110)
    else if c == 12 then Some(102) else if c == 13 then Some(114) else None
  }

  // The number of code units of the first character.
  function Width(a: Text): (n: nat)
    requires a != []
    ensures 1 <= n <= |a|
  {
    if High(a[0]) && |a| > 1 && Low(a[1]) then 2 else 1
  }

  // How the first character appears inside a JSON string.
  function Piece(a: Text): Text
    requires a != []
  {
    var c := a[0];
    if c == DOUBLE || c == BACKSLASH then [BACKSLASH, c]
    else if ShortEscape(c).Some? then [BACKSLASH, ShortEscape(c).value]
    else if c < 32 then UnicodeEscape(c)
    else if Width(a) == 2 then a[..2]
    else if High(c) || Low(c) then UnicodeEscape(c)
    else [c]
  }

  function Escape(a: Text): Text
    decreases |a|
  {
    if a == [] then [] else Piece(a) + Escape(a[Width(a)..])
  }

  function Quote(a: Text): Text {
    [DOUBLE] + Escape(a) + [DOUBLE]
  }

  function JoinQuoted(args: seq<Text>): Text {
    if args == [] then []
    else if |args| == 1 then Quote(args[0])
    else Quote(args[0]) + [SPACE] + JoinQuoted(args[1..])
  }

  function TrimStart(s: Text): Text {
    if s != [] && IsSpace(s[0]) then TrimStart(s[1..]) else s
  }

  function TrimEnd(s: Text): Text {
    if s != [] && IsSpace(s[|s| - 1]) then TrimEnd(s[..|s| - 1]) else s
  }

  // The command line for an interpreter, a script and its arguments.
  function CommandLine(interpreter: Text, script: Text, args: seq<Text>): Text {
    TrimEnd(TrimStart(interpreter + [SPACE] + Quote(script) + [SPACE] + JoinQuoted(args)))
  }
}
