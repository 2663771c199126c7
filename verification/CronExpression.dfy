/** parseCron of server/cronScheduler.ts: five fields, the rule for the two day fields, and the round trip of a whole
    printed expression. */
module CronExpression {
  import opened Wrappers
  import opened CronField
  import opened CronPrinting

  // What the parser keeps of an expression. The two flags say that the day fields were a bare star.
  datatype Cron = Cron(minute: set<int>, hour: set<int>, dom: set<int>, month: set<int>, dow: set<int>,
                       domIsWildcard: bool, dowIsWildcard: bool)

  // The parts of a date that an expression looks at; weekday 0 is Sunday.
  datatype Civil = Civil(minute: int, hour: int, day: int, month: int, weekday: int)

  // Splitting at runs of white space.
  function Words(s: string): (words: seq<string>)
    ensures words != []
    decreases |s|
  {
    var i := FirstSpace(s);
    if i == |s| then [s]
    else
      TrimStartShrinks(s[i + 1..]);
      [s[..i]] + Words(TrimStart(s[i + 1..]))
  }

  function FirstSpace(s: string): (i: nat)
    ensures i <= |s| && (i < |s| ==> IsSpace(s[i]))
  {
    if s == "" || IsSpace(s[0]) then 0 else 1 + FirstSpace(s[1..])
  }

  lemma {:induction false} TrimStartShrinks(s: string)
    ensures |TrimStart(s)| <= |s|
  {
    if s != "" && IsSpace(s[0]) {
      TrimStartShrinks(s[1..]);
    }
  }

  // Seven is Sunday too.
  function Weekday(v: int): int {
    if v == 7 then 0 else v
  }

  function FoldSunday(values: set<int>): set<int> {
    set v | v in values :: Weekday(v)
  }

  function ParsedFields(f: seq<string>): Result<Cron, Error>
    requires |f| == 5
  {
    var minute, hour, dom := Field(f[0], 0, 59), Field(f[1], 0, 23), Field(f[2], 1, 31);
    var month, dow := Field(f[3], 1, 12), Field(f[4], 0, 7);
    if minute.Err? then Err(minute.error)
    else if hour.Err? then Err(hour.error)
    else if dom.Err? then Err(dom.error)
    else if month.Err? then Err(month.error)
    else if dow.Err? then Err(dow.error)
    else Ok(Cron(minute.value, hour.value, dom.value, month.value, FoldSunday(dow.value), f[2] == "*", f[4] == "*"))
  }

  function Parsed(expr: string): Result<Cron, Error> {
    var fields := Words(Trim(expr));
    if |fields| != 5 then Err(WrongFieldCount(|fields|)) else ParsedFields(fields)
  }

  predicate DayMatches(c: Cron, t: Civil) {
    if c.domIsWildcard && c.dowIsWildcard then true
    else if !c.domIsWildcard && !c.dowIsWildcard then t.day in c.dom || t.weekday in c.dow
    else if !c.domIsWildcard then t.day in c.dom
    else t.weekday in c.dow
  }

  predicate Matches(c: Cron, t: Civil) {
    t.minute in c.minute && t.hour in c.hour && t.month in c.month && DayMatches(c, t)
  }

  // ----- the parser -----

  lemma EmptyOrNot(s: set<int>)
    ensures s == {} || exists v :: v in s
  {
    if forall v | v in s :: false {
      assert s == {};
    }
  }

  method FoldDays(raw: set<int>) returns (dow: set<int>)
    ensures dow == FoldSunday(raw)
  {
    dow := {};
    var left := raw;
    while left != {}
      invariant left <= raw
      invariant dow == FoldSunday(raw - left)
      decreases |left|
    {
      EmptyOrNot(left);
      var v :| v in left;
      assert raw - (left - {v}) == (raw - left) + {v};
      dow := dow + {if v == 7 then 0 else v};
      left := left - {v};
    }
    assert raw - left == raw;
  }

  method ParseCron(expr: string) returns (r: Result<Cron, Error>)
    ensures r == Parsed(expr)
  {
    var fields := Words(Trim(expr));
    if |fields| != 5 {
      return Err(WrongFieldCount(|fields|));
    }
    var minute := ParseField(fields[0], 0, 59);
    if minute.Err? { return Err(minute.error); }
    var hour := ParseField(fields[1], 0, 23);
    if hour.Err? { return Err(hour.error); }
    var dom := ParseField(fields[2], 1, 31);
    if dom.Err? { return Err(dom.error); }
    var month := ParseField(fields[3], 1, 12);
    if month.Err? { return Err(month.error); }
    var dowRaw := ParseField(fields[4], 0, 7);
    if dowRaw.Err? { return Err(dowRaw.error); }
    var dow := FoldDays(dowRaw.value);
    return Ok(Cron(minute.value, hour.value, dom.value, month.value, dow, fields[2] == "*", fields[4] == "*"));
  }

  // What every accepted expression satisfies: no field is empty, all are in bounds, and a bare star day field
  // allows every day.
  predicate Within(values: set<int>, min: int, max: int) {
    values != {} && forall v | v in values :: min <= v <= max
  }

  predicate Proper(c: Cron) {
    && Within(c.minute, 0, 59) && Within(c.hour, 0, 23) && Within(c.dom, 1, 31) && Within(c.month, 1, 12)
    && Within(c.dow, 0, 6)
    && (c.domIsWildcard ==> c.dom == Progression(1, 31, 1))
    && (c.dowIsWildcard ==> c.dow == Progression(0, 6, 1))
  }

  lemma StarIsEverything(min: nat, max: nat)
    requires min <= max
    ensures Field("*", min, max) == Ok(Progression(min, max, 1))
  {
    FieldRoundTrip([Any], min, max);
    assert PrintAll([Any]) == ["*"];
    StarValues(min, max);
  }

  lemma StarValues(min: nat, max: nat)
    requires min <= max
    ensures Values([Any], min, max) == Progression(min, max, 1)
  {
    var any := Any;
    assert any in [any] && Meaning(any, min, max) == Span(min, max, 1);
  }

  lemma Everything(v: int, min: int, max: int)
    requires min <= v <= max
    ensures v in Progression(min, max, 1)
  {
  }

  lemma FoldedDays(raw: set<int>)
    requires Within(raw, 0, 7)
    ensures Within(FoldSunday(raw), 0, 6)
    ensures raw == Progression(0, 7, 1) ==> FoldSunday(raw) == Progression(0, 6, 1)
  {
    forall v | v in raw && v <= 6
      ensures v in FoldSunday(raw)
    {
      assert Weekday(v) == v;
    }
    assert |raw| > 0 && exists v {:trigger v in raw} :: v in raw;
    var v :| v in raw;
    assert Weekday(v) in FoldSunday(raw);
  }

  lemma ParsedIsProper(expr: string)
    requires Parsed(expr).Ok?
    ensures Proper(Parsed(expr).value)
  {
    ProperFields(Words(Trim(expr)));
  }

  lemma ProperField(token: string, min: nat, max: nat)
    requires min <= max && Field(token, min, max).Ok?
    ensures Within(Field(token, min, max).value, min, max)
    ensures token == "*" ==> Field(token, min, max).value == Progression(min, max, 1)
  {
    AcceptedFieldsAreProper(Split(token, ','), min, max);
    StarIsEverything(min, max);
  }

  lemma ProperFields(f: seq<string>)
    requires |f| == 5 && ParsedFields(f).Ok?
    ensures Proper(ParsedFields(f).value)
  {
    ProperField(f[0], 0, 59);
    ProperField(f[1], 0, 23);
    ProperField(f[2], 1, 31);
    ProperField(f[3], 1, 12);
    ProperField(f[4], 0, 7);
    FoldedDays(Field(f[4], 0, 7).value);
  }

  // ----- whole expressions -----

  datatype Schedule = Schedule(minute: seq<Item>, hour: seq<Item>, dom: seq<Item>, month: seq<Item>, dow: seq<Item>)

  predicate ItemsInRange(items: seq<Item>, min: nat, max: nat) {
    items != [] && forall i | i in items :: InRange(i, min, max)
  }

  predicate WellFormed(s: Schedule) {
    && ItemsInRange(s.minute, 0, 59) && ItemsInRange(s.hour, 0, 23) && ItemsInRange(s.dom, 1, 31)
    && ItemsInRange(s.month, 1, 12) && ItemsInRange(s.dow, 0, 7)
  }

  function Printed(s: Schedule): (f: seq<string>)
    ensures |f| == 5
  {
    [PrintField(s.minute), PrintField(s.hour), PrintField(s.dom), PrintField(s.month), PrintField(s.dow)]
  }

  predicate Spaces(s: string) {
    forall i | 0 <= i < |s| :: IsSpace(s[i])
  }

  predicate Gap(s: string) {
    s != "" && Spaces(s)
  }

  predicate Gaps(gaps: seq<string>) {
    forall g | g in gaps :: Gap(g)
  }

  // Words with white space between them.
  function Spaced(words: seq<string>, gaps: seq<string>): string
    requires |words| == |gaps| + 1
  {
    if gaps == [] then words[0] else words[0] + gaps[0] + Spaced(words[1..], gaps[1..])
  }

  // The minutes a schedule means, said in terms of its items: a bare star in either day field makes both required,
  // otherwise either one is enough.
  ghost predicate Fires(s: Schedule, t: Civil)
    requires WellFormed(s)
  {
    var domHit := t.day in Values(s.dom, 1, 31);
    var dowHit := t.weekday in Values(s.dow, 0, 7) || (t.weekday == 0 && 7 in Values(s.dow, 0, 7));
    && t.minute in Values(s.minute, 0, 59) && t.hour in Values(s.hour, 0, 23) && t.month in Values(s.month, 1, 12)
    && if s.dom == [Any] || s.dow == [Any] then domHit && dowHit else domHit || dowHit
  }

  predicate Word(s: string) {
    s != "" && forall i | 0 <= i < |s| :: !IsSpace(s[i])
  }

  lemma {:induction false} SkipSpaces(gap: string, rest: string)
    requires Spaces(gap)
    ensures TrimStart(gap + rest) == TrimStart(rest)
  {
    if gap == "" {
      assert gap + rest == rest;
    } else {
      assert (gap + rest)[1..] == gap[1..] + rest;
      SkipSpaces(gap[1..], rest);
    }
  }

  lemma {:induction false} DropSpaces(front: string, gap: string)
    requires Spaces(gap)
    ensures TrimEnd(front + gap) == TrimEnd(front)
  {
    if gap == "" {
      assert front + gap == front;
    } else {
      assert (front + gap)[..|front| + |gap| - 1] == front + gap[..|gap| - 1];
      DropSpaces(front, gap[..|gap| - 1]);
    }
  }

  lemma {:induction false} FirstSpaceIs(s: string, k: nat)
    requires k <= |s| && (forall i | 0 <= i < k :: !IsSpace(s[i])) && (k < |s| ==> IsSpace(s[k]))
    ensures FirstSpace(s) == k
  {
    if k > 0 {
      assert !IsSpace(s[0]);
      FirstSpaceIs(s[1..], k - 1);
    }
  }

  // The ends of spaced words are not spaces.
  lemma {:induction false} SpacedEnds(words: seq<string>, gaps: seq<string>)
    requires |words| == |gaps| + 1 && (forall w | w in words :: Word(w))
    ensures var s := Spaced(words, gaps);
            s != "" && !IsSpace(s[0]) && !IsSpace(s[|s| - 1])
  {
    assert Word(words[0]);
    if gaps != [] {
      SpacedEnds(words[1..], gaps[1..]);
    }
  }

  lemma {:induction false} WordsOfSpaced(words: seq<string>, gaps: seq<string>)
    requires |words| == |gaps| + 1 && (forall w | w in words :: Word(w)) && Gaps(gaps)
    ensures Words(Spaced(words, gaps)) == words
  {
    var s, w := Spaced(words, gaps), words[0];
    assert Word(w);
    if gaps == [] {
      FirstSpaceIs(s, |w|);
    } else {
      var gap, rest := gaps[0], Spaced(words[1..], gaps[1..]);
      assert Gap(gap);
      assert s == w + gap + rest && s[|w|] == gap[0];
      FirstSpaceIs(s, |w|);
      assert s[|w| + 1..] == gap[1..] + rest;
      SkipSpaces(gap[1..], rest);
      SpacedEnds(words[1..], gaps[1..]);
      WordsOfSpaced(words[1..], gaps[1..]);
      assert s[..|w|] == w && [w] + words[1..] == words;
    }
  }

  lemma WordsAreFound(lead: string, words: seq<string>, gaps: seq<string>, trail: string)
    requires |words| == |gaps| + 1 && (forall w | w in words :: Word(w)) && Gaps(gaps) && Spaces(lead) && Spaces(trail)
    ensures Words(Trim(lead + Spaced(words, gaps) + trail)) == words
  {
    var s := Spaced(words, gaps);
    SpacedEnds(words, gaps);
    assert lead + s + trail == lead + (s + trail);
    SkipSpaces(lead, s + trail);
    assert TrimStart(s + trail) == s + trail;
    DropSpaces(s, trail);
    WordsOfSpaced(words, gaps);
  }

  lemma {:induction false} JoinedChars(items: seq<Item>)
    requires items != []
    ensures Word(PrintField(items))
    ensures PrintField(items) == "*" <==> items == [Any]
  {
    PrintChars(items[0]);
    PrintedStar(items[0]);
    var p := Print(items[0]);
    if |items| == 1 {
      assert PrintAll(items) == [p];
      assert items == [items[0]];
    } else {
      JoinedChars(items[1..]);
      assert PrintAll(items)[1..] == PrintAll(items[1..]);
      assert PrintField(items) == p + [','] + PrintField(items[1..]);
    }
  }

  lemma PrintedStar(item: Item)
    ensures Print(item) == "*" <==> item == Any
  {
    if item.Value? || item.ValueStep? {
      DecChars(item.n);
      DigitsAreNoStar(item.n);
    } else if item.Range? || item.RangeStep? {
      DecChars(item.lo);
    }
  }

  // For every well-formed schedule, however its printed fields are spaced, parsing succeeds, and the parsed
  // expression matches a date exactly when the schedule means it.
  lemma ExpressionRoundTrip(s: Schedule, lead: string, gaps: seq<string>, trail: string, t: Civil)
    requires WellFormed(s) && |gaps| == 4 && Gaps(gaps) && Spaces(lead) && Spaces(trail)
    requires 1 <= t.day <= 31 && 0 <= t.weekday <= 6
    ensures var r := Parsed(lead + Spaced(Printed(s), gaps) + trail);
            r.Ok? && (Matches(r.value, t) <==> Fires(s, t))
  {
    PrintedWords(s);
    WordsAreFound(lead, Printed(s), gaps, trail);
    PrintedFields(s);
    DayFields(s, t);
  }

  ghost function Meant(s: Schedule): Cron
    requires WellFormed(s)
  {
    Cron(Values(s.minute, 0, 59), Values(s.hour, 0, 23), Values(s.dom, 1, 31), Values(s.month, 1, 12),
         FoldSunday(Values(s.dow, 0, 7)), s.dom == [Any], s.dow == [Any])
  }

  lemma PrintedFields(s: Schedule)
    requires WellFormed(s)
    ensures ParsedFields(Printed(s)) == Ok(Meant(s))
  {
    PrintedWords(s);
    FieldRoundTrip(s.minute, 0, 59);
    FieldRoundTrip(s.hour, 0, 23);
    FieldRoundTrip(s.dom, 1, 31);
    FieldRoundTrip(s.month, 1, 12);
    FieldRoundTrip(s.dow, 0, 7);
  }

  lemma PrintedWords(s: Schedule)
    requires WellFormed(s)
    ensures forall w | w in Printed(s) :: Word(w)
    ensures (PrintField(s.dom) == "*" <==> s.dom == [Any]) && (PrintField(s.dow) == "*" <==> s.dow == [Any])
  {
    JoinedChars(s.minute);
    JoinedChars(s.hour);
    JoinedChars(s.dom);
    JoinedChars(s.month);
    JoinedChars(s.dow);
  }

  lemma DayFields(s: Schedule, t: Civil)
    requires WellFormed(s) && 1 <= t.day <= 31 && 0 <= t.weekday <= 6
    ensures s.dom == [Any] ==> t.day in Values(s.dom, 1, 31)
    ensures s.dow == [Any] ==> t.weekday in Values(s.dow, 0, 7)
    ensures var raw := Values(s.dow, 0, 7);
            t.weekday in FoldSunday(raw) <==> t.weekday in raw || (t.weekday == 0 && 7 in raw)
  {
    StarValues(1, 31);
    StarValues(0, 7);
    Everything(t.day, 1, 31);
    Everything(t.weekday, 0, 7);
    var raw := Values(s.dow, 0, 7);
    if t.weekday in raw {
      assert Weekday(t.weekday) in FoldSunday(raw);
    }
    if 7 in raw {
      assert Weekday(7) in FoldSunday(raw);
    }
  }
}
