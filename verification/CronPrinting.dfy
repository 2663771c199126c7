/** Printing cron fields, and that parsing what was printed gives what was meant. */
module CronPrinting {
  import opened Wrappers
  import opened CronField

  datatype Item =
    | Any                                    // *
    | Value(n: nat)                          // N
    | Range(lo: nat, hi: nat)                // N-M
    | AnyStep(step: nat)                     // */S
    | ValueStep(n: nat, step: nat)           // N/S
    | RangeStep(lo: nat, hi: nat, step: nat) // N-M/S

  predicate InRange(item: Item, min: nat, max: nat) {
    match item
    case Any => true
    case Value(n) => min <= n <= max
    case Range(lo, hi) => min <= lo <= hi <= max
    case AnyStep(s) => s >= 1
    case ValueStep(n, s) => min <= n <= max && s >= 1
    case RangeStep(lo, hi, s) => min <= lo <= hi <= max && s >= 1
  }

  // The arithmetic progression an item stands for.
  function Meaning(item: Item, min: nat, max: nat): (sp: Span)
    requires InRange(item, min, max)
    ensures sp.step >= 1
  {
    match item
    case Any => Span(min, max, 1)
    case Value(n) => Span(n, n, 1)
    case Range(lo, hi) => Span(lo, hi, 1)
    case AnyStep(s) => Span(min, max, s)
    case ValueStep(n, s) => Span(n, max, s)
    case RangeStep(lo, hi, s) => Span(lo, hi, s)
  }

  function Dec(n: nat): string {
    if n < 10 then [('0' as int + n) as char] else Dec(n / 10) + [('0' as int + n % 10) as char]
  }

  function PrintBase(item: Item): string {
    match item
    case Any => "*"
    case AnyStep(_) => "*"
    case Value(n) => Dec(n)
    case ValueStep(n, _) => Dec(n)
    case Range(lo, hi) => Dec(lo) + "-" + Dec(hi)
    case RangeStep(lo, hi, _) => Dec(lo) + "-" + Dec(hi)
  }

  function Print(item: Item): string {
    if item.AnyStep? || item.ValueStep? || item.RangeStep? then PrintBase(item) + "/" + Dec(item.step)
    else PrintBase(item)
  }

  function Join(parts: seq<string>, c: char): string {
    if parts == [] then ""
    else if |parts| == 1 then parts[0]
    else parts[0] + [c] + Join(parts[1..], c)
  }

  function PrintAll(items: seq<Item>): (ps: seq<string>)
    ensures |ps| == |items| && forall i | 0 <= i < |items| :: ps[i] == Print(items[i])
  {
    seq(|items|, i requires 0 <= i < |items| => Print(items[i]))
  }

  function PrintField(items: seq<Item>): string {
    Join(PrintAll(items), ',')
  }

  // The values a list of items stands for.
  ghost function Values(items: seq<Item>, min: nat, max: nat): set<int>
    requires forall i | i in items :: InRange(i, min, max)
  {
    set i, v | i in items &&
        v in Progression(Meaning(i, min, max).start, Meaning(i, min, max).end, Meaning(i, min, max).step) :: v
  }

  // ----- numbers -----

  predicate Digits(s: string) {
    forall i | 0 <= i < |s| :: IsDigit(s[i])
  }

  lemma {:induction false} DecIsDecimal(n: nat)
    ensures Dec(n) != "" && Digits(Dec(n)) && Decimal(Dec(n)) == n
  {
    if n >= 10 {
      DecIsDecimal(n / 10);
      assert Dec(n)[..|Dec(n)| - 1] == Dec(n / 10);
    } else {
      assert Dec(n)[..0] == "";
    }
  }

  lemma {:induction false} PrefixIsAll(s: string)
    requires Digits(s)
    ensures DigitPrefix(s) == s
  {
    if s != "" {
      PrefixIsAll(s[1..]);
    }
  }

  lemma ParseDec(n: nat)
    ensures ParseInt(Dec(n)) == Some(n)
  {
    DecIsDecimal(n);
    assert IsDigit(Dec(n)[0]);
    PrefixIsAll(Dec(n));
  }

  // ----- cutting at a character -----

  lemma {:induction false} IndexOfIs(s: string, c: char, k: nat)
    requires k < |s| && s[k] == c && c !in s[..k]
    ensures IndexOf(s, c) == k
  {
    if k > 0 {
      assert s[0] in s[..k];
      assert s[..k] == [s[0]] + s[1..][..k - 1];
      IndexOfIs(s[1..], c, k - 1);
    }
  }

  lemma {:induction false} IndexOfNone(s: string, c: char)
    requires c !in s
    ensures IndexOf(s, c) == |s|
  {
    if s != "" {
      assert s[0] in s && s == [s[0]] + s[1..];
      IndexOfNone(s[1..], c);
    }
  }

  lemma CutAt(a: string, c: char, b: string)
    requires c !in a
    ensures IndexOf(a + [c] + b, c) == |a| && (a + [c] + b)[..|a|] == a && (a + [c] + b)[|a| + 1..] == b
    ensures Split(a + [c] + b, c) == [a] + Split(b, c)
  {
    var s := a + [c] + b;
    assert s[..|a|] == a && s[|a| + 1..] == b && s[|a|] == c;
    IndexOfIs(s, c, |a|);
  }

  lemma NoCut(a: string, c: char)
    requires c !in a
    ensures IndexOf(a, c) == |a| && Split(a, c) == [a]
  {
    IndexOfNone(a, c);
    assert a[..|a|] == a;
  }

  lemma {:induction false} SplitJoin(parts: seq<string>, c: char)
    requires parts != [] && forall p | p in parts :: c !in p
    ensures Split(Join(parts, c), c) == parts
  {
    if |parts| == 1 {
      NoCut(parts[0], c);
    } else {
      SplitJoin(parts[1..], c);
      CutAt(parts[0], c, Join(parts[1..], c));
      assert [parts[0]] + parts[1..] == parts;
    }
  }

  // ----- one item -----

  // Printed fields are made of digits, stars, slashes and hyphens.
  predicate FieldChars(s: string) {
    forall i | 0 <= i < |s| :: IsDigit(s[i]) || s[i] == '*' || s[i] == '/' || s[i] == '-'
  }

  lemma FieldCharsConcat(a: string, b: string)
    requires FieldChars(a) && FieldChars(b)
    ensures FieldChars(a + b)
  {
  }

  lemma DecChars(n: nat)
    ensures Dec(n) != "" && FieldChars(Dec(n)) && '/' !in Dec(n)
  {
    DecIsDecimal(n);
  }

  lemma BaseChars(item: Item)
    ensures PrintBase(item) != "" && FieldChars(PrintBase(item)) && '/' !in PrintBase(item)
  {
    if item.Value? || item.ValueStep? {
      DecChars(item.n);
    } else if item.Range? || item.RangeStep? {
      DecChars(item.lo);
      DecChars(item.hi);
      FieldCharsConcat(Dec(item.lo), "-");
      FieldCharsConcat(Dec(item.lo) + "-", Dec(item.hi));
    }
  }

  lemma PrintChars(item: Item)
    ensures Print(item) != "" && FieldChars(Print(item)) && ',' !in Print(item)
    ensures '/' !in PrintBase(item)
  {
    BaseChars(item);
    if item.AnyStep? || item.ValueStep? || item.RangeStep? {
      DecChars(item.step);
      FieldCharsConcat(PrintBase(item), "/");
      FieldCharsConcat(PrintBase(item) + "/", Dec(item.step));
    }
  }

  lemma NothingToTrim(s: string)
    requires s != "" && FieldChars(s)
    ensures Trim(s) == s
  {
    assert !IsSpace(s[0]) && !IsSpace(s[|s| - 1]);
  }

  lemma DigitsAreNoStar(n: nat)
    ensures Dec(n) != "*" && '-' !in Dec(n)
  {
    DecIsDecimal(n);
    assert IsDigit(Dec(n)[0]);
  }

  lemma ParseRange(lo: nat, hi: nat)
    ensures var r := Dec(lo) + "-" + Dec(hi);
            '-' in r && r != "*" && Split(r, '-') == [Dec(lo), Dec(hi)]
  {
    DigitsAreNoStar(lo);
    DigitsAreNoStar(hi);
    DecIsDecimal(lo);
    CutAt(Dec(lo), '-', Dec(hi));
    NoCut(Dec(hi), '-');
    assert (Dec(lo) + "-" + Dec(hi))[|Dec(lo)|] == '-';
  }

  // Parsing a printed item gives its progression.
  lemma ItemRoundTrip(item: Item, min: nat, max: nat)
    requires InRange(item, min, max)
    ensures SpanOf(Print(item), min, max) == Ok(Meaning(item, min, max))
  {
    PrintChars(item);
    var base := PrintBase(item);
    if item.AnyStep? || item.ValueStep? || item.RangeStep? {
      CutAt(base, '/', Dec(item.step));
      ParseDec(item.step);
    } else {
      NoCut(base, '/');
    }
    BaseRoundTrip(item);
  }

  lemma BaseRoundTrip(item: Item)
    ensures var base := PrintBase(item);
            && (item.Value? || item.ValueStep? ==> base != "*" && '-' !in base && ParseInt(base) == Some(item.n))
            && (item.Range? || item.RangeStep? ==>
                  base != "*" && '-' in base && Split(base, '-') == [Dec(item.lo), Dec(item.hi)] &&
                  ParseInt(Dec(item.lo)) == Some(item.lo) && ParseInt(Dec(item.hi)) == Some(item.hi))
  {
    if item.Value? || item.ValueStep? {
      DigitsAreNoStar(item.n);
      ParseDec(item.n);
    } else if item.Range? || item.RangeStep? {
      ParseRange(item.lo, item.hi);
      ParseDec(item.lo);
      ParseDec(item.hi);
    }
  }

  // ----- a whole field -----

  lemma {:induction false} PartsRoundTrip(items: seq<Item>, min: nat, max: nat)
    requires min <= max && forall i | i in items :: InRange(i, min, max)
    ensures FieldValues(PrintAll(items), min, max) == Ok(Values(items, min, max))
  {
    if items == [] {
      assert PrintAll(items) == [];
      assert Values(items, min, max) == {};
    } else {
      var before, last := items[..|items| - 1], items[|items| - 1];
      assert items == before + [last];
      PartsRoundTrip(before, min, max);
      assert PrintAll(items)[..|items| - 1] == PrintAll(before);
      PrintChars(last);
      NothingToTrim(Print(last));
      ItemRoundTrip(last, min, max);
      var sp := Meaning(last, min, max);
      assert Values(items, min, max) == Values(before, min, max) + Progression(sp.start, sp.end, sp.step);
    }
  }

  // For every nonempty list of items in range, parsing the printed field gives exactly the union of their
  // progressions, which is never empty and within bounds.
  lemma FieldRoundTrip(items: seq<Item>, min: nat, max: nat)
    requires min <= max && items != [] && forall i | i in items :: InRange(i, min, max)
    ensures Field(PrintField(items), min, max) == Ok(Values(items, min, max))
    ensures Values(items, min, max) != {} && forall v | v in Values(items, min, max) :: min <= v <= max
  {
    var ps := PrintAll(items);
    forall p | p in ps
      ensures ',' !in p
    {
      var i :| 0 <= i < |ps| && ps[i] == p;
      PrintChars(items[i]);
    }
    SplitJoin(ps, ',');
    PartsRoundTrip(items, min, max);
    AcceptedFieldsAreProper(ps, min, max);
  }
}
