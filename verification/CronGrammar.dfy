/** Exactly which texts the cron parser accepts, and as what: its leniency towards signs, leading spaces, trailing
    characters and a second dash included. */
module CronGrammar {
  import opened Wrappers
  import opened CronField
  import opened CronPrinting
  import opened CronExpression

  // White space, as in regular expressions and in trimming; the spaces from U+2000 to U+200A are meant too.
  lemma WhiteSpace(c: char)
    ensures IsSpace(c) <==>
            || 0x2000 <= c as int < 0x200B
            || c in {' ', '\t', '\n', '\r', '\U{000B}', '\U{000C}', '\U{00A0}', '\U{FEFF}', '\U{1680}', '\U{2028}',
                     '\U{2029}', '\U{202F}', '\U{205F}', '\U{3000}'}
  {
  }

  // ----- numbers -----

  ghost predicate Negates(sign: string) {
    sign == "-"
  }

  ghost predicate Signs(sign: string) {
    sign == "" || sign == "+" || sign == "-"
  }

  // White space, a sign or none, digits, and then anything but a digit: the digits, with the sign.
  ghost predicate Shape(s: string, lead: string, sign: string, digits: string, junk: string) {
    && s == lead + sign + digits + junk && Spaces(lead) && Signs(sign)
    && digits != "" && Digits(digits) && (junk == "" || !IsDigit(junk[0]))
  }

  ghost predicate ReadsAs(s: string, n: int) {
    exists lead, sign, digits, junk ::
      Shape(s, lead, sign, digits, junk) && n == if Negates(sign) then -Decimal(digits) else Decimal(digits)
  }

  lemma {:induction false} LeadOf(s: string) returns (lead: string)
    ensures s == lead + TrimStart(s) && Spaces(lead)
  {
    if s != "" && IsSpace(s[0]) {
      var rest := LeadOf(s[1..]);
      lead := [s[0]] + rest;
      assert lead + TrimStart(s) == [s[0]] + (rest + TrimStart(s[1..]));
    } else {
      lead := "";
    }
  }

  lemma {:induction false} PrefixAndJunk(s: string) returns (junk: string)
    ensures s == DigitPrefix(s) + junk && Digits(DigitPrefix(s)) && (junk == "" || !IsDigit(junk[0]))
  {
    if s != "" && IsDigit(s[0]) {
      junk := PrefixAndJunk(s[1..]);
      assert s == [s[0]] + s[1..];
    } else {
      junk := s;
    }
  }

  lemma {:induction false} PrefixOfDigits(digits: string, junk: string)
    requires Digits(digits) && (junk == "" || !IsDigit(junk[0]))
    ensures DigitPrefix(digits + junk) == digits
  {
    if digits == "" {
      assert digits + junk == junk;
    } else {
      assert (digits + junk)[1..] == digits[1..] + junk;
      PrefixOfDigits(digits[1..], junk);
    }
  }

  lemma ShapeIsRead(s: string, lead: string, sign: string, digits: string, junk: string)
    requires Shape(s, lead, sign, digits, junk)
    ensures ParseInt(s) == Some(if Negates(sign) then -Decimal(digits) else Decimal(digits))
  {
    var rest := sign + digits + junk;
    assert s == lead + rest && IsDigit(digits[0]);
    SkipSpaces(lead, rest);
    assert !IsSpace(rest[0]) by {
      assert rest[0] == if sign == "" then digits[0] else sign[0];
    }
    assert TrimStart(s) == rest;
    PrefixOfDigits(digits, junk);
    if sign == "" {
      assert rest == digits + junk && rest[0] == digits[0];
    } else {
      assert rest[1..] == digits + junk && rest[0] == sign[0];
    }
  }

  lemma ShapeOf(s: string) returns (lead: string, sign: string, digits: string, junk: string)
    requires ParseInt(s).Some?
    ensures Shape(s, lead, sign, digits, junk)
  {
    hide Decimal, TrimStart, DigitPrefix;
    lead := LeadOf(s);
    var t := TrimStart(s);
    var signed := t != "" && (t[0] == '-' || t[0] == '+');
    var body := if signed then t[1..] else t;
    sign := if signed then [t[0]] else "";
    digits := DigitPrefix(body);
    junk := PrefixAndJunk(body);
    assert t == sign + body;
    assert lead + (sign + (digits + junk)) == lead + sign + digits + junk;
  }

  // A text is read as a number exactly when it has that shape; nothing else matters.
  lemma ParseIntExactly(s: string, n: int)
    ensures ParseInt(s) == Some(n) <==> ReadsAs(s, n)
  {
    if ReadsAs(s, n) {
      var lead, sign, digits, junk :| Shape(s, lead, sign, digits, junk) &&
        n == if Negates(sign) then -Decimal(digits) else Decimal(digits);
      ShapeIsRead(s, lead, sign, digits, junk);
    }
    if ParseInt(s) == Some(n) {
      var lead, sign, digits, junk := ShapeOf(s);
      ShapeIsRead(s, lead, sign, digits, junk);
    }
  }

  // ----- one element of a list -----

  // Without a slash the step is one; with one, what comes after the first slash reads as a step of at least one.
  ghost predicate StepReads(token: string, base: string, stepped: bool, step: int) {
    && '/' !in base
    && if stepped then base + "/" <= token && step >= 1 && ReadsAs(token[|base| + 1..], step)
       else token == base && step == 1
  }

  // The text between the first dash and the second, or the end.
  ghost predicate SecondPart(range: string, a: string, b: string) {
    '-' !in a && '-' !in b && (range == a + "-" + b || a + "-" + b + "-" <= range)
  }

  ghost predicate RangeReads(base: string, min: int, max: int, lo: int, hi: int) {
    min <= lo <= hi <= max && exists a, b :: SecondPart(base, a, b) && ReadsAs(a, lo) && ReadsAs(b, hi)
  }

  // A star stands for everything, two numbers for all from one to the other, one number for itself or, with a step, for
  // all from there.
  ghost predicate BaseReads(base: string, stepped: bool, min: int, max: int, lo: int, hi: int) {
    if base == "*" then lo == min && hi == max
    else if '-' in base then RangeReads(base, min, max, lo, hi)
    else min <= lo <= max && ReadsAs(base, lo) && hi == if stepped then max else lo
  }

  ghost predicate ElementReads(token: string, min: int, max: int, sp: Span) {
    exists base, stepped :: StepReads(token, base, stepped, sp.step) &&
                            BaseReads(base, stepped, min, max, sp.start, sp.end)
  }

  lemma CutAtSlash(token: string, base: string)
    requires '/' !in base && base + "/" <= token
    ensures IndexOf(token, '/') == |base| && token[..|base|] == base
  {
    assert token[|base|] == (base + "/")[|base|] && token[..|base|] == base;
    IndexOfIs(token, '/', |base|);
  }

  lemma NoSlash(token: string)
    requires '/' !in token
    ensures IndexOf(token, '/') == |token|
  {
  }

  lemma SplitParts(range: string, a: string, b: string)
    requires SecondPart(range, a, b)
    ensures '-' in range && Split(range, '-')[0] == a && Split(range, '-')[1] == b
  {
    assert a + "-" <= range && range[|a|] == (a + "-")[|a|] && range[..|a|] == a;
    IndexOfIs(range, '-', |a|);
    var rest := range[|a| + 1..];
    if range == a + "-" + b {
      assert rest == b;
      NoMore(b);
    } else {
      assert b + "-" <= rest by {
        assert range[..|a + "-" + b + "-"|] == a + "-" + b + "-";
        assert rest[..|b| + 1] == b + "-";
      }
      assert rest[|b|] == (b + "-")[|b|] && rest[..|b|] == b;
      IndexOfIs(rest, '-', |b|);
    }
  }

  lemma NoMore(b: string)
    requires '-' !in b
    ensures Split(b, '-') == [b]
  {
    assert b[..|b|] == b;
  }

  lemma PartsOfSplit(range: string) returns (a: string, b: string)
    requires '-' in range
    ensures a == Split(range, '-')[0] && b == Split(range, '-')[1] && SecondPart(range, a, b)
  {
    hide Split, SecondPart;
    var rest := FirstCut(range);
    a := Split(range, '-')[0];
    if '-' in rest {
      var last := FirstCut(rest);
      b := Split(rest, '-')[0];
      TwoDashes(range, a, b, last);
    } else {
      NoMore(rest);
      b := rest;
      OneDash(range, a, b);
    }
  }

  lemma OneDash(range: string, a: string, b: string)
    requires range == a + "-" + b && '-' !in a && '-' !in b
    ensures SecondPart(range, a, b)
  {
  }

  lemma TwoDashes(range: string, a: string, b: string, last: string)
    requires range == a + "-" + (b + "-" + last) && '-' !in a && '-' !in b
    ensures SecondPart(range, a, b)
  {
    assert range == a + "-" + b + "-" + last;
  }

  lemma FirstCut(s: string) returns (rest: string)
    requires '-' in s
    ensures Split(s, '-') == [Split(s, '-')[0]] + Split(rest, '-')
    ensures '-' !in Split(s, '-')[0] && s == Split(s, '-')[0] + "-" + rest
  {
    var i := IndexOf(s, '-');
    rest := s[i + 1..];
    assert s[..i] + "-" + rest == s;
  }

  lemma RangeExactly(base: string, min: int, max: int, lo: int, hi: int)
    requires '-' in base
    ensures var parts := Split(base, '-');
            RangeReads(base, min, max, lo, hi) <==>
            ParseInt(parts[0]) == Some(lo) && ParseInt(parts[1]) == Some(hi) && min <= lo <= hi <= max
  {
    var a, b := PartsOfSplit(base);
    ParseIntExactly(a, lo);
    ParseIntExactly(b, hi);
    if RangeReads(base, min, max, lo, hi) {
      var a', b' :| SecondPart(base, a', b') && ReadsAs(a', lo) && ReadsAs(b', hi);
      SplitParts(base, a', b');
    }
  }

  // The first slash decides: there is one way to read the step.
  lemma StepExactly(token: string, base: string, stepped: bool, step: int)
    ensures StepReads(token, base, stepped, step) <==>
            var i := IndexOf(token, '/');
            && base == token[..i] && stepped == (i < |token|)
            && (if stepped then ParseInt(token[i + 1..]) == Some(step) && step >= 1 else step == 1)
  {
    var i := IndexOf(token, '/');
    if StepReads(token, base, stepped, step) {
      if stepped {
        CutAtSlash(token, base);
        ParseIntExactly(token[|base| + 1..], step);
      } else {
        NoSlash(token);
        assert token[..i] == token;
      }
    }
    if i < |token| {
      assert token[..i] + "/" <= token;
      ParseIntExactly(token[i + 1..], step);
    } else {
      assert token[..i] == token;
    }
  }

  lemma BaseExactly(base: string, stepped: bool, min: int, max: int, lo: int, hi: int)
    ensures BaseReads(base, stepped, min, max, lo, hi) <==>
            if base == "*" then lo == min && hi == max
            else if '-' in base then
              ParseInt(Split(base, '-')[0]) == Some(lo) && ParseInt(Split(base, '-')[1]) == Some(hi) &&
              min <= lo <= hi <= max
            else ParseInt(base) == Some(lo) && min <= lo <= max && hi == if stepped then max else lo
  {
    if base != "*" && '-' in base {
      RangeExactly(base, min, max, lo, hi);
    } else {
      ParseIntExactly(base, lo);
    }
  }

  // An element is accepted exactly when it reads as a span, and then it stands for that span.
  lemma ElementExactly(token: string, min: int, max: int, sp: Span)
    ensures SpanOf(token, min, max) == Ok(sp) <==> ElementReads(token, min, max, sp)
  {
    hide StepReads, BaseReads, ParseInt, Split;
    var i := IndexOf(token, '/');
    assert token[..|token|] == token;
    forall base, stepped
      ensures StepReads(token, base, stepped, sp.step) && BaseReads(base, stepped, min, max, sp.start, sp.end) ==>
                SpanOf(token, min, max) == Ok(sp)
    {
      StepExactly(token, base, stepped, sp.step);
      BaseExactly(base, stepped, min, max, sp.start, sp.end);
    }
    if SpanOf(token, min, max) == Ok(sp) {
      StepExactly(token, token[..i], i < |token|, sp.step);
      BaseExactly(token[..i], i < |token|, min, max, sp.start, sp.end);
      assert StepReads(token, token[..i], i < |token|, sp.step);
    }
  }

  // What is refused is refused for its step, if that does not read, then for its range, if it has a dash, then for its
  // value.
  lemma RefusedExactly(token: string, min: int, max: int)
    requires SpanOf(token, min, max).Err?
    ensures SpanOf(token, min, max).error ==
              if forall base, stepped, step :: !StepReads(token, base, stepped, step) then InvalidStep
              else if exists base, stepped, step :: StepReads(token, base, stepped, step) && '-' in base then
                InvalidRange
              else InvalidValue
  {
    hide StepReads, ParseInt, Split;
    var i := IndexOf(token, '/');
    assert token[..|token|] == token;
    forall base, stepped, step
      ensures StepReads(token, base, stepped, step) <==>
              && base == token[..i] && stepped == (i < |token|)
              && (if stepped then ParseInt(token[i + 1..]) == Some(step) && step >= 1 else step == 1)
    {
      StepExactly(token, base, stepped, step);
    }
    var step := if i < |token| then ParseInt(token[i + 1..]) else Some(1);
    if step.Some? && step.value >= 1 {
      assert StepReads(token, token[..i], i < |token|, step.value);
    }
  }

  // ----- lists, and the fields of an expression -----

  // Splitting loses nothing, and no part holds the separator.
  lemma {:induction false} SplitExactly(s: string, c: char)
    ensures Join(Split(s, c), c) == s && forall p | p in Split(s, c) :: c !in p
    decreases |s|
  {
    var i := IndexOf(s, c);
    if i < |s| {
      SplitExactly(s[i + 1..], c);
      var parts := Split(s, c);
      assert parts[1..] == Split(s[i + 1..], c);
      assert s == s[..i] + [c] + s[i + 1..];
    }
  }

  lemma FieldStep(before: seq<string>, last: string, min: int, max: int)
    requires min <= max
    ensures var all := FieldValues(before + [last], min, max);
            && (all.Ok? <==> FieldValues(before, min, max).Ok? && SpanOf(Trim(last), min, max).Ok?)
            && (all.Ok? ==> forall v :: v in all.value <==>
                              v in FieldValues(before, min, max).value || Covers(Trim(last), min, max, v))
  {
    var parts := before + [last];
    assert parts[..|parts| - 1] == before && parts[|parts| - 1] == last;
    if SpanOf(Trim(last), min, max).Ok? {
      SpanIsProper(Trim(last), min, max);
    }
  }

  // A field is accepted exactly when all its elements are, and then it holds every value one of them stands for.
  lemma {:induction false} FieldExactly(parts: seq<string>, min: int, max: int)
    requires min <= max
    ensures FieldValues(parts, min, max).Ok? <==> forall p | p in parts :: SpanOf(Trim(p), min, max).Ok?
    ensures FieldValues(parts, min, max).Ok? ==>
              forall v :: v in FieldValues(parts, min, max).value <==>
                          exists p :: p in parts && Covers(Trim(p), min, max, v)
  {
    if parts != [] {
      hide FieldValues, SpanOf, Covers;
      var before, last := parts[..|parts| - 1], parts[|parts| - 1];
      assert parts == before + [last];
      FieldStep(before, last, min, max);
      FieldExactly(before, min, max);
    }
  }

  ghost predicate Covers(token: string, min: int, max: int, v: int) {
    exists sp: Span :: SpanOf(token, min, max) == Ok(sp) && sp.step >= 1 && sp.start <= v <= sp.end &&
                       (v - sp.start) % sp.step == 0
  }

  // Trimming takes white space off both ends, and all of it.
  lemma TrimExactly(s: string) returns (lead: string, trail: string)
    ensures s == lead + Trim(s) + trail && Spaces(lead) && Spaces(trail)
    ensures Trim(s) != "" ==> !IsSpace(Trim(s)[0]) && !IsSpace(Trim(s)[|Trim(s)| - 1])
  {
    lead := LeadOf(s);
    trail := TrailOf(TrimStart(s));
    TrimStartStops(s);
    TrimEndKeepsStart(TrimStart(s));
  }

  lemma {:induction false} TrailOf(s: string) returns (trail: string)
    ensures s == TrimEnd(s) + trail && Spaces(trail)
    ensures TrimEnd(s) != "" ==> !IsSpace(TrimEnd(s)[|TrimEnd(s)| - 1])
  {
    if s != "" && IsSpace(s[|s| - 1]) {
      var rest := TrailOf(s[..|s| - 1]);
      trail := rest + [s[|s| - 1]];
      assert s == s[..|s| - 1] + [s[|s| - 1]];
    } else {
      trail := "";
    }
  }

  lemma {:induction false} TrimStartStops(s: string)
    ensures TrimStart(s) != "" ==> !IsSpace(TrimStart(s)[0])
  {
    if s != "" && IsSpace(s[0]) {
      TrimStartStops(s[1..]);
    }
  }

  lemma {:induction false} TrimEndKeepsStart(s: string)
    ensures TrimEnd(s) != "" ==> s != "" && TrimEnd(s)[0] == s[0]
  {
    if s != "" && IsSpace(s[|s| - 1]) {
      TrimEndKeepsStart(s[..|s| - 1]);
    }
  }

  // The words of a trimmed text are what stands between its runs of white space.
  lemma {:induction false} WordsExactly(s: string) returns (gaps: seq<string>)
    requires s != "" ==> !IsSpace(s[0]) && !IsSpace(s[|s| - 1])
    ensures |Words(s)| == |gaps| + 1 && Gaps(gaps) && s == Spaced(Words(s), gaps)
    ensures s != "" ==> forall w | w in Words(s) :: Word(w)
    decreases |s|
  {
    var i := FirstSpace(s);
    FirstSpaceStops(s);
    if i == |s| {
      gaps := [];
    } else {
      var gap, rest := FirstGap(s);
      hide TrimStart, FirstSpace;
      var more := WordsExactly(rest);
      gaps := [gap] + more;
      assert gaps[1..] == more && Words(s)[1..] == Words(rest);
      assert forall w | w in Words(s) :: w == s[..i] || w in Words(rest);
    }
  }

  // Up to the second word.
  lemma FirstGap(s: string) returns (gap: string, rest: string)
    requires s != "" && !IsSpace(s[0]) && !IsSpace(s[|s| - 1]) && FirstSpace(s) < |s|
    ensures rest != "" && !IsSpace(rest[0]) && !IsSpace(rest[|rest| - 1]) && |rest| < |s|
    ensures Gap(gap) && Words(s) == [s[..FirstSpace(s)]] + Words(rest) && s == s[..FirstSpace(s)] + gap + rest
  {
    var i := FirstSpace(s);
    var lead := LeadOf(s[i + 1..]);
    rest := TrimStart(s[i + 1..]);
    gap := [s[i]] + lead;
    hide TrimStart, FirstSpace, TrimEnd;
    TrimStartStops(s[i + 1..]);
    AllSpacesEnd(s, i, lead, rest);
    assert s == s[..i] + [s[i]] + s[i + 1..];
  }

  lemma AllSpacesEnd(s: string, i: nat, lead: string, rest: string)
    requires i < |s| && IsSpace(s[i]) && !IsSpace(s[|s| - 1]) && s[i + 1..] == lead + rest && Spaces(lead)
    ensures rest != "" && rest[|rest| - 1] == s[|s| - 1]
  {
    assert i + 1 < |s| && s[i + 1..][|s| - i - 2] == s[|s| - 1];
  }

  lemma {:induction false} FirstSpaceStops(s: string)
    ensures forall k | 0 <= k < FirstSpace(s) :: !IsSpace(s[k])
    ensures s != "" && !IsSpace(s[0]) ==> FirstSpace(s) > 0
  {
    if s != "" && !IsSpace(s[0]) {
      FirstSpaceStops(s[1..]);
      assert forall k | 0 < k < FirstSpace(s) :: s[k] == s[1..][k - 1];
    }
  }

  // ----- expressions -----

  // The element reads as a progression that holds v.
  ghost predicate Denotes(token: string, min: int, max: int, v: int) {
    exists sp: Span :: ElementReads(token, min, max, sp) && sp.step >= 1 && sp.start <= v <= sp.end &&
                       (v - sp.start) % sp.step == 0
  }

  // Every element of the list reads, and the field holds exactly the values one of them denotes.
  ghost predicate FieldReads(field: string, min: int, max: int, values: set<int>) {
    var parts := Split(field, ',');
    && (forall p | p in parts :: exists sp: Span :: ElementReads(Trim(p), min, max, sp))
    && forall v :: v in values <==> exists p :: p in parts && Denotes(Trim(p), min, max, v)
  }

  lemma PartReadsExactly(token: string, min: int, max: int)
    ensures SpanOf(token, min, max).Ok? <==> exists sp: Span :: ElementReads(token, min, max, sp)
    ensures forall v :: Covers(token, min, max, v) <==> Denotes(token, min, max, v)
  {
    hide ElementReads, SpanOf;
    forall sp: Span
      ensures SpanOf(token, min, max) == Ok(sp) <==> ElementReads(token, min, max, sp)
    {
      ElementExactly(token, min, max, sp);
    }
    if SpanOf(token, min, max).Ok? {
      assert ElementReads(token, min, max, SpanOf(token, min, max).value);
    }
  }

  lemma FieldReadsExactly(field: string, min: int, max: int, values: set<int>)
    requires min <= max
    ensures Field(field, min, max) == Ok(values) <==> FieldReads(field, min, max, values)
  {
    hide ElementReads, SpanOf, Covers, Denotes, FieldValues;
    var parts := Split(field, ',');
    FieldExactly(parts, min, max);
    forall p | p in parts
      ensures SpanOf(Trim(p), min, max).Ok? <==> exists sp: Span :: ElementReads(Trim(p), min, max, sp)
      ensures forall v :: Covers(Trim(p), min, max, v) <==> Denotes(Trim(p), min, max, v)
    {
      PartReadsExactly(Trim(p), min, max);
    }
    if FieldReads(field, min, max, values) {
      forall v
        ensures v in values <==> v in FieldValues(parts, min, max).value
      {
        if p :| p in parts && Denotes(Trim(p), min, max, v) {
          assert Covers(Trim(p), min, max, v);
        }
        if p :| p in parts && Covers(Trim(p), min, max, v) {
          assert Denotes(Trim(p), min, max, v);
        }
      }
      assert values == FieldValues(parts, min, max).value;
    }
  }

  // The expression is these words, with white space between them and perhaps around them.
  ghost predicate IsWritten(expr: string, words: seq<string>) {
    && words != [] && (forall w | w in words :: Word(w))
    && exists lead, gaps, trail :: Around(expr, lead, words, gaps, trail)
  }

  ghost predicate Around(expr: string, lead: string, words: seq<string>, gaps: seq<string>, trail: string) {
    && |words| == |gaps| + 1 && Gaps(gaps) && Spaces(lead) && Spaces(trail)
    && expr == lead + Spaced(words, gaps) + trail
  }

  // Five fields in their bounds; in the last one seven means Sunday, which is zero; the day fields are wildcards when
  // they are a bare star.
  ghost predicate ExpressionReads(words: seq<string>, c: Cron) {
    && |words| == 5
    && FieldReads(words[0], 0, 59, c.minute) && FieldReads(words[1], 0, 23, c.hour)
    && FieldReads(words[2], 1, 31, c.dom) && FieldReads(words[3], 1, 12, c.month)
    && (exists days :: FieldReads(words[4], 0, 7, days) &&
                       forall v :: v in c.dow <==> (v in days && v != 7) || (v == 0 && 7 in days))
    && c.domIsWildcard == (words[2] == "*") && c.dowIsWildcard == (words[4] == "*")
  }

  lemma FoldExactly(days: set<int>, dow: set<int>)
    ensures dow == FoldSunday(days) <==> forall v :: v in dow <==> (v in days && v != 7) || (v == 0 && 7 in days)
  {
    forall v
      ensures v in FoldSunday(days) <==> (v in days && v != 7) || (v == 0 && 7 in days)
    {
      if v in days && v != 7 {
        assert Weekday(v) == v;
      }
      if v == 0 && 7 in days {
        assert Weekday(7) == 0;
      }
    }
    if forall v :: v in dow <==> (v in days && v != 7) || (v == 0 && 7 in days) {
      assert dow == FoldSunday(days);
    }
  }

  lemma FieldsExactly(f: seq<string>, c: Cron)
    requires |f| == 5
    ensures ParsedFields(f) == Ok(c) <==> ExpressionReads(f, c)
  {
    hide FieldReads, Field;
    FieldReadsExactly(f[0], 0, 59, c.minute);
    FieldReadsExactly(f[1], 0, 23, c.hour);
    FieldReadsExactly(f[2], 1, 31, c.dom);
    FieldReadsExactly(f[3], 1, 12, c.month);
    forall days
      ensures Field(f[4], 0, 7) == Ok(days) <==> FieldReads(f[4], 0, 7, days)
      ensures c.dow == FoldSunday(days) <==>
                forall v :: v in c.dow <==> (v in days && v != 7) || (v == 0 && 7 in days)
    {
      FieldReadsExactly(f[4], 0, 7, days);
      FoldExactly(days, c.dow);
    }
    if ParsedFields(f) == Ok(c) {
      assert FieldReads(f[4], 0, 7, Field(f[4], 0, 7).value);
    }
  }

  lemma WrittenWords(expr: string, words: seq<string>)
    requires IsWritten(expr, words)
    ensures Words(Trim(expr)) == words
  {
    var lead, gaps, trail :| Around(expr, lead, words, gaps, trail);
    WordsAreFound(lead, words, gaps, trail);
  }

  lemma WordsAreWritten(expr: string)
    requires Trim(expr) != ""
    ensures IsWritten(expr, Words(Trim(expr)))
  {
    var lead, trail := TrimExactly(expr);
    var gaps := WordsExactly(Trim(expr));
    assert Around(expr, lead, Words(Trim(expr)), gaps, trail);
  }

  // Which expressions are accepted, and as what: exactly those that are five words of white-space-separated text whose
  // fields all read in their bounds.
  lemma AcceptedExactly(expr: string, c: Cron)
    ensures Parsed(expr) == Ok(c) <==> exists words :: IsWritten(expr, words) && ExpressionReads(words, c)
  {
    hide ExpressionReads, IsWritten, ParsedFields, Trim, Words;
    var words := Words(Trim(expr));
    if |words| == 5 {
      FieldsExactly(words, c);
    }
    if w :| IsWritten(expr, w) && ExpressionReads(w, c) {
      WrittenWords(expr, w);
      FiveWords(w, c);
    }
    if Parsed(expr) == Ok(c) {
      if Trim(expr) == "" {
        NoWords();
      }
      WordsAreWritten(expr);
    }
  }

  lemma FiveWords(words: seq<string>, c: Cron)
    requires ExpressionReads(words, c)
    ensures |words| == 5
  {
  }

  lemma NoWords()
    ensures |Words("")| == 1
  {
  }
}
