/** The quoting that is printed is JSON's: a JSON reader gives every text back, whatever it holds. What is lost on the
    way through the tokenizer is lost because it reads fewer escapes. */
module JsonQuoting {
  import opened Tokenizer
  import opened QuotingRoundTrip

  function HexValue(c: CodeUnit): int {
    if 48 <= c <= 57 then c - 48 else if 97 <= c <= 102 then c - 87 else 0
  }

  // A code unit as the four low halves of it; what does not fit in 16 bits does not occur.
  function FromHex(a: CodeUnit, b: CodeUnit, c: CodeUnit, d: CodeUnit): CodeUnit {
    (4096 * HexValue(a) + 256 * HexValue(b) + 16 * HexValue(c) + HexValue(d)) % 0x1_0000
  }

  // The character behind a backslash: b, t, n, f and r are control characters, anything else is itself.
  function Named(c: CodeUnit): CodeUnit {
    if c == 98 then 8 else if c == 116 then 9 else if c == 110 then 10
    else if c == 102 then 12 else if c == 114 then 13 else c
  }

  // What a JSON reader makes of the inside of a string (section 7 of RFC 8259).
  function Unescape(t: Text): Text
    decreases |t|
  {
    if t == [] then []
    else if t[0] != BACKSLASH || |t| == 1 then [t[0]] + Unescape(t[1..])
    else if t[1] == 117 && |t| >= 6 then [FromHex(t[2], t[3], t[4], t[5])] + Unescape(t[6..])
    else [Named(t[1])] + Unescape(t[2..])
  }

  lemma HexDigitValue(d: int)
    requires 0 <= d < 16
    ensures HexValue(HexDigit(d)) == d
  {
  }

  lemma Quarters(c: CodeUnit)
    ensures c == 4096 * (c / 4096) + 256 * (c / 256 % 16) + 16 * (c / 16 % 16) + c % 16
    ensures 0 <= c / 4096 < 16
  {
    var x, y, z := c / 4096, c / 256, c / 16;
    assert y / 16 == x && y == 16 * (y / 16) + y % 16;
    assert z / 16 == y && z == 16 * (z / 16) + z % 16;
  }

  lemma HexDigits(c: CodeUnit)
    ensures FromHex(HexDigit(c / 4096), HexDigit(c / 256 % 16), HexDigit(c / 16 % 16), HexDigit(c % 16)) == c
  {
    hide HexValue, HexDigit;
    Quarters(c);
    HexDigitValue(c / 4096);
    HexDigitValue(c / 256 % 16);
    HexDigitValue(c / 16 % 16);
    HexDigitValue(c % 16);
  }

  lemma UnescapePlain(c: CodeUnit, more: Text)
    requires c != BACKSLASH
    ensures Unescape([c] + more) == [c] + Unescape(more)
  {
    assert ([c] + more)[1..] == more;
  }

  lemma UnescapeHex(c: CodeUnit, more: Text)
    ensures Unescape(UnicodeEscape(c) + more) == [c] + Unescape(more)
  {
    var s := UnicodeEscape(c) + more;
    HexDigits(c);
    assert s[..6] == UnicodeEscape(c) && s[6..] == more;
    assert s[0] == BACKSLASH && s[1] == 117 && s[2] == UnicodeEscape(c)[2] && s[3] == UnicodeEscape(c)[3] &&
           s[4] == UnicodeEscape(c)[4] && s[5] == UnicodeEscape(c)[5];
  }

  lemma UnescapeNamed(c: CodeUnit, more: Text)
    requires c != 117
    ensures Unescape([BACKSLASH, c] + more) == [Named(c)] + Unescape(more)
  {
    var s := [BACKSLASH, c] + more;
    assert s[0] == BACKSLASH && s[1] == c && s[2..] == more;
  }

  lemma UnescapePiece(a: Text, more: Text)
    requires a != []
    ensures Unescape(Piece(a) + more) == a[..Width(a)] + Unescape(more)
  {
    var c := a[0];
    if c == DOUBLE || c == BACKSLASH {
      UnescapeNamed(c, more);
    } else if ShortEscape(c).Some? {
      UnescapeNamed(ShortEscape(c).value, more);
    } else if c < 32 || ((High(c) || Low(c)) && Width(a) == 1) {
      UnescapeHex(c, more);
    } else {
      UnescapePlain(c, if Width(a) == 2 then [a[1]] + more else more);
      if Width(a) == 2 {
        UnescapePlain(a[1], more);
        assert Piece(a) + more == [c] + ([a[1]] + more);
        assert [c] + ([a[1]] + Unescape(more)) == a[..2] + Unescape(more);
      }
    }
  }

  // A JSON reader gives every text back.
  lemma {:induction false} UnescapeEscape(a: Text)
    ensures Unescape(Escape(a)) == a
    decreases |a|
  {
    if a != [] {
      var rest := a[Width(a)..];
      UnescapePiece(a, Escape(rest));
      UnescapeEscape(rest);
      assert a == a[..Width(a)] + rest;
    }
  }

  // Surrogates are told by their upper six bits: 110110 for a first one, 110111 for a second one.
  lemma Surrogates(c: CodeUnit)
    ensures High(c) <==> c / 0x400 == 0x36
    ensures Low(c) <==> c / 0x400 == 0x37
  {
  }

  // Which characters are escaped, and how: quotes, backslashes, backspace, tab, newline, form feed and return by one
  // character, the other control characters and unpaired surrogates by their number, and nothing else.
  lemma EscapedExactly(a: Text)
    requires a != []
    ensures var short := a[0] in {8, 9, 10, 12, 13, DOUBLE, BACKSLASH};
            var paired := |a| > 1 && High(a[0]) && Low(a[1]);
            var long := !short && (a[0] < 32 || (!paired && (High(a[0]) || Low(a[0]))));
            && (short <==> |Piece(a)| == 2 && Piece(a)[0] == BACKSLASH) && (long <==> |Piece(a)| == 6)
            && (!short && !long ==> Piece(a) == if paired then a[..2] else a[..1])
  {
  }

  lemma PieceIsClean(a: Text)
    requires a != []
    ensures Clean(Piece(a)) && Piece(a) != []
  {
  }

  lemma CleanConcat(s: Text, t: Text)
    requires Clean(s) && Clean(t)
    ensures Clean(s + t)
  {
    forall i | 0 <= i < |s + t|
      ensures CleanAt(s + t, i)
    {
      if i < |s| {
        assert CleanAt(s, i);
      } else {
        assert CleanAt(t, i - |s|);
      }
    }
  }

  // What is printed holds no control character and no unpaired surrogate, whatever the text holds.
  lemma {:induction false} EscapedIsClean(a: Text)
    ensures Clean(Escape(a))
    decreases |a|
  {
    if a != [] {
      var rest := a[Width(a)..];
      PieceIsClean(a);
      EscapedIsClean(rest);
      CleanConcat(Piece(a), Escape(rest));
    }
  }
}
