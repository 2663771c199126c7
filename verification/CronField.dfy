/** The cron field parser of server/cronScheduler.ts, with the leniency of parseInt. */
module CronField {
  import opened Wrappers
  import opened Modular

  datatype Error = InvalidStep | InvalidRange | InvalidValue | WrongFieldCount(count: nat)

  predicate IsSpace(c: char) {
    || '\t' <= c <= '\r' || c == ' ' || c == '\U{00A0}' || c == '\U{1680}' || '\U{2000}' <= c <= '\U{200A}'
    || c == '\U{2028}' || c == '\U{2029}' || c == '\U{202F}' || c == '\U{205F}' || c == '\U{3000}' || c == '\U{FEFF}'
  }

  predicate IsDigit(c: char) {
    '0' <= c <= '9'
  }

  function TrimStart(s: string): string {
    if s != "" && IsSpace(s[0]) then TrimStart(s[1..]) else s
  }

  function TrimEnd(s: string): string {
    if s != "" && IsSpace(s[|s| - 1]) then TrimEnd(s[..|s| - 1]) else s
  }

  function Trim(s: string): string {
    TrimEnd(TrimStart(s))
  }

  // The position of the first c, or the length.
  function IndexOf(s: string, c: char): (i: nat)
    ensures i <= |s| && (i < |s| ==> s[i] == c) && c !in s[..i]
  {
    if s == "" || s[0] == c then 0
    else
      var i := IndexOf(s[1..], c);
      assert s[..i + 1] == [s[0]] + s[1..][..i];
      1 + i
  }

  function Split(s: string, c: char): (parts: seq<string>)
    ensures parts != [] && (c in s ==> |parts| >= 2)
    decreases |s|
  {
    var i := IndexOf(s, c);
    if i == |s| then
      assert s[..i] == s;
      [s]
    else [s[..i]] + Split(s[i + 1..], c)
  }

  function DigitPrefix(s: string): string {
    if s != "" && IsDigit(s[0]) then [s[0]] + DigitPrefix(s[1..]) else ""
  }

  function Decimal(digits: string): int {
    if digits == "" then 0
    else 10 * Decimal(digits[..|digits| - 1]) + (digits[|digits| - 1] as int - '0' as int)
  }

  // Leading spaces and a sign are skipped, whatever follows the digits is ignored.
  function ParseInt(s: string): Option<int> {
    var t := TrimStart(s);
    var signed := t != "" && (t[0] == '-' || t[0] == '+');
    var digits := DigitPrefix(if signed then t[1..] else t);
    if digits == "" then None
    else if signed && t[0] == '-' then Some(-Decimal(digits))
    else Some(Decimal(digits))
  }

  predicate OnGrid(v: int, start: int, step: int)
    requires step >= 1
  {
    (v - start) % step == 0
  }

  // start, start + step, ... up to end.
  function Progression(start: int, end: int, step: int): set<int>
    requires step >= 1
  {
    set v: int | start <= v <= end && OnGrid(v, start, step)
  }

  datatype Span = Span(start: int, end: int, step: int)

  // What one list element of a field says.
  function SpanOf(token: string, min: int, max: int): Result<Span, Error> {
    var slash := IndexOf(token, '/');
    var stepped := slash < |token|;
    var step := if stepped then ParseInt(token[slash + 1..]) else Some(1);
    if step.None? || step.value < 1 then Err(InvalidStep)
    else
      var range := if stepped then token[..slash] else token;
      if range == "*" then Ok(Span(min, max, step.value))
      else if '-' in range then
        var parts := Split(range, '-');
        var s, e := ParseInt(parts[0]), ParseInt(parts[1]);
        if s.None? || e.None? || s.value < min || e.value > max || s.value > e.value then Err(InvalidRange)
        else Ok(Span(s.value, e.value, step.value))
      else
        var v := ParseInt(range);
        if v.None? || v.value < min || v.value > max then Err(InvalidValue)
        else if stepped then Ok(Span(v.value, max, step.value))
        else Ok(Span(v.value, v.value, 1))
  }

  lemma SpanIsProper(token: string, min: int, max: int)
    requires min <= max && SpanOf(token, min, max).Ok?
    ensures var sp := SpanOf(token, min, max).value;
            sp.step >= 1 && min <= sp.start <= sp.end <= max
  {
  }

  // The values of a whole field, from its list elements.
  function FieldValues(parts: seq<string>, min: int, max: int): Result<set<int>, Error>
    requires min <= max
  {
    if parts == [] then Ok({})
    else
      match FieldValues(parts[..|parts| - 1], min, max)
      case Err(e) => Err(e)
      case Ok(values) =>
        match SpanOf(Trim(parts[|parts| - 1]), min, max)
        case Err(e) => Err(e)
        case Ok(sp) =>
          SpanIsProper(Trim(parts[|parts| - 1]), min, max);
          Ok(values + Progression(sp.start, sp.end, sp.step))
  }

  function Field(token: string, min: int, max: int): Result<set<int>, Error>
    requires min <= max
  {
    FieldValues(Split(token, ','), min, max)
  }

  // Whatever is accepted denotes at least one value, and only values in bounds.
  lemma {:induction false} AcceptedFieldsAreProper(parts: seq<string>, min: int, max: int)
    requires min <= max && FieldValues(parts, min, max).Ok?
    ensures forall v | v in FieldValues(parts, min, max).value :: min <= v <= max
    ensures parts != [] ==> FieldValues(parts, min, max).value != {}
  {
    if parts != [] {
      AcceptedFieldsAreProper(parts[..|parts| - 1], min, max);
      SpanIsProper(Trim(parts[|parts| - 1]), min, max);
      var sp := SpanOf(Trim(parts[|parts| - 1]), min, max).value;
      assert OnGrid(sp.start, sp.start, sp.step);
      assert sp.start in Progression(sp.start, sp.end, sp.step);
    }
  }

  // ----- the parsing loops -----

  lemma NextOnGrid(start: int, v: int, step: int)
    requires step >= 1 && OnGrid(v, start, step)
    ensures OnGrid(v + step, start, step)
    ensures forall u | v < u < v + step :: !OnGrid(u, start, step)
  {
    ShiftUp(v - start, 1, step);
    assert v + step - start == v - start + step * 1;
    forall u | v < u < v + step
      ensures !OnGrid(u, start, step)
    {
      Near(v - start, u - start, step);
    }
  }

  lemma NextInProgression(start: int, v: int, end: int, step: int)
    requires step >= 1 && start <= v <= end && OnGrid(v, start, step)
    ensures OnGrid(v + step, start, step)
    ensures Progression(start, Min(v + step - 1, end), step) == Progression(start, v - 1, step) + {v}
  {
    NextOnGrid(start, v, step);
  }

  function Min(a: int, b: int): int {
    if a < b then a else b
  }

  method ParseSingleField(token: string, min: int, max: int, out: set<int>) returns (r: Result<set<int>, Error>)
    requires min <= max
    ensures match SpanOf(token, min, max)
            case Err(e) => r == Err(e)
            case Ok(sp) => sp.step >= 1 && r == Ok(out + Progression(sp.start, sp.end, sp.step))
  {
    var slashIdx := IndexOf(token, '/');
    var step := 1;
    var rangeToken := token;
    if slashIdx < |token| {
      var stepValue := ParseInt(token[slashIdx + 1..]);
      if stepValue.None? || stepValue.value < 1 {
        return Err(InvalidStep);
      }
      step := stepValue.value;
      rangeToken := token[..slashIdx];
    }
    var start, end: int;
    if rangeToken == "*" {
      start, end := min, max;
    } else if '-' in rangeToken {
      var parts := Split(rangeToken, '-');
      var s, e := ParseInt(parts[0]), ParseInt(parts[1]);
      if s.None? || e.None? || s.value < min || e.value > max || s.value > e.value {
        return Err(InvalidRange);
      }
      start, end := s.value, e.value;
    } else {
      var val := ParseInt(rangeToken);
      if val.None? || val.value < min || val.value > max {
        return Err(InvalidValue);
      }
      if slashIdx == |token| {
        assert Progression(val.value, val.value, 1) == {val.value};
        return Ok(out + {val.value});
      }
      start, end := val.value, max;
    }
    var values := AddProgression(start, end, step, out);
    return Ok(values);
  }

  method AddProgression(start: int, end: int, step: int, out: set<int>) returns (values: set<int>)
    requires step >= 1 && start <= end
    ensures values == out + Progression(start, end, step)
  {
    values := out;
    var v := start;
    while v <= end
      invariant start <= v && OnGrid(v, start, step)
      invariant values == out + Progression(start, Min(v - 1, end), step)
      decreases end - v
    {
      NextInProgression(start, v, end, step);
      values := values + {v};
      v := v + step;
    }
  }

  method ParseField(token: string, min: int, max: int) returns (r: Result<set<int>, Error>)
    requires min <= max
    ensures r == Field(token, min, max)
  {
    var values: set<int> := {};
    var parts := Split(token, ',');
    for n := 0 to |parts|
      invariant FieldValues(parts[..n], min, max) == Ok(values)
    {
      assert parts[..n + 1][..n] == parts[..n];
      var one := ParseSingleField(Trim(parts[n]), min, max, values);
      if one.Err? {
        FirstErrorWins(parts, n + 1, min, max);
        return Err(one.error);
      }
      values := one.value;
    }
    assert parts[..|parts|] == parts;
    return Ok(values);
  }

  lemma {:induction false} FirstErrorWins(parts: seq<string>, n: nat, min: int, max: int)
    requires min <= max && n <= |parts| && FieldValues(parts[..n], min, max).Err?
    ensures FieldValues(parts, min, max) == FieldValues(parts[..n], min, max)
    decreases |parts| - n
  {
    if n == |parts| {
      assert parts[..n] == parts;
    } else {
      assert parts[..n + 1][..n] == parts[..n];
      FirstErrorWins(parts, n + 1, min, max);
    }
  }
}
