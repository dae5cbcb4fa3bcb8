/** Cron expressions of five fields. */
module CronSpecs {
  import opened Wrappers
  import opened Integers
  import opened Text
  import opened CronFields

  datatype CronSpec = CronSpec(minute: CronField, hour: CronField, dom: CronField, month: CronField, dow: CronField)

  const MONTHS: Aliases := map[
    "jan" := 1, "january" := 1, "feb" := 2, "february" := 2, "mar" := 3, "march" := 3, "apr" := 4, "april" := 4,
    "may" := 5, "jun" := 6, "june" := 6, "jul" := 7, "july" := 7, "aug" := 8, "august" := 8, "sep" := 9, "sept" := 9,
    "september" := 9, "oct" := 10, "october" := 10, "nov" := 11, "november" := 11, "dec" := 12, "december" := 12]

  const WEEKDAYS: Aliases := map[
    "sun" := 0, "sunday" := 0, "mon" := 1, "monday" := 1, "tue" := 2, "tues" := 2, "tuesday" := 2, "wed" := 3,
    "wednesday" := 3, "thu" := 4, "thur" := 4, "thurs" := 4, "thursday" := 4, "fri" := 5, "friday" := 5,
    "sat" := 6, "saturday" := 6]

  /** The field a text stands for. */
  ghost function FieldOf(raw: string, min: int, max: int, aliases: Aliases): Result<CronField, CronError>
    requires 0 <= min <= max <= LIMIT
  {
    match ParseParts(Split(raw, ','), min, max, aliases)
    case Err(e) => Err(e)
    case Ok(ps) => Ok(CronField(FieldCollects(ps, max), raw == "*"))
  }

  /** Some value of the field lies within its bounds, and "*" has all of them. */
  ghost predicate Usable(f: CronField, lo: int, hi: int) {
    && (exists v :: v in f.values && lo <= v <= hi)
    && (f.wildcard ==> forall v :: lo <= v <= hi ==> v in f.values)
  }

  /** No part of the field has a step that overflows. */
  ghost predicate StepsFit(raw: string, min: int, max: int, aliases: Aliases)
    requires 0 <= min <= max <= LIMIT
  {
    var parts := Split(raw, ',');
    forall i :: 0 <= i < |parts| && ParsePart(parts[i], min, max, aliases).Ok? ==>
      StaysInRange(ParsePart(parts[i], min, max, aliases).value)
  }

  lemma StepsFitParsed(raw: string, min: int, max: int, aliases: Aliases, ps: seq<Progression>)
    requires 0 <= min <= max <= LIMIT && ParseParts(Split(raw, ','), min, max, aliases) == Ok(ps)
    ensures StepsFit(raw, min, max, aliases) <==> forall i :: 0 <= i < |ps| ==> StaysInRange(ps[i])
  {
    hide ParsePart, ParseParts, StaysInRange;
    var parts := Split(raw, ',');
    if StepsFit(raw, min, max, aliases) {
      forall i | 0 <= i < |ps| ensures StaysInRange(ps[i]) {
        assert ParsePart(parts[i], min, max, aliases) == Ok(ps[i]);
      }
    } else {
      var i :| 0 <= i < |parts| && ParsePart(parts[i], min, max, aliases).Ok? &&
               !StaysInRange(ParsePart(parts[i], min, max, aliases).value);
      assert !StaysInRange(ps[i]);
    }
  }

  /** The values of every accepted field lie within its bounds exactly when its steps fit. */
  lemma AcceptedRangeIff(raw: string, min: int, max: int, aliases: Aliases)
    requires 0 <= min <= max <= LIMIT && FieldOf(raw, min, max, aliases).Ok? && (max == 7 ==> min == 0)
    ensures Bounded(FieldOf(raw, min, max, aliases).value.values, min, Highest(max)) <==>
            StepsFit(raw, min, max, aliases)
  {
    var ps := ParseParts(Split(raw, ','), min, max, aliases).value;
    PartsWithin(Split(raw, ','), min, max, aliases);
    hide ParsePart, ParseParts, FieldCollects, StaysInRange, StepsFit, Bounded;
    FieldRangeIff(ps, min, max);
    StepsFitParsed(raw, min, max, aliases, ps);
  }

  lemma PartsWithin(parts: seq<string>, min: int, max: int, aliases: Aliases)
    requires 0 <= min <= max <= LIMIT && ParseParts(parts, min, max, aliases).Ok?
    ensures var ps := ParseParts(parts, min, max, aliases).value; AllProper(ps) && AllWithin(ps, min, max)
  {
    hide ParsePart, ParseParts;
    var ps := ParseParts(parts, min, max, aliases).value;
    forall i | 0 <= i < |ps| ensures Proper(ps[i]) && min <= ps[i].start && ps[i].end <= max {
      assert ParsePart(parts[i], min, max, aliases) == Ok(ps[i]);
    }
  }

  lemma StarParses(min: int, max: int, aliases: Aliases)
    requires 0 <= min <= max <= LIMIT
    ensures ParseParts(Split("*", ','), min, max, aliases) == Ok([Progression(min, max, 1)])
  {
    assert Split("*", ',') == ["*"] && Split("*", '/') == ["*"];
    assert TrimSpace("*") == "*";
    assert ParsePart("*", min, max, aliases) == Ok(Progression(min, max, 1));
    assert ParseParts([], min, max, aliases) == Ok([]);
    assert ["*"][1..] == [] && ["*"][0] == "*";
    assert [Progression(min, max, 1)] + [] == [Progression(min, max, 1)];
  }

  /** The start of a part is always among the values. */
  lemma StartCollected(ps: seq<Progression>, max: int)
    requires AllProper(ps) && ps != []
    ensures Fold(ps[0].start, max) in FieldCollects(ps, max)
  {
    assert ps[0].start in Sweep(ps[0].start, ps[0].end, ps[0].step);
    assert Fold(ps[0].start, max) in Swept(ps[0], max);
  }

  lemma AcceptedUsable(raw: string, min: int, max: int, aliases: Aliases, lo: int, hi: int)
    requires 0 <= min <= max <= LIMIT && FieldOf(raw, min, max, aliases).Ok?
    requires lo == min && hi == if max == 7 then 6 else max
    requires max == 7 ==> min == 0
    ensures Usable(FieldOf(raw, min, max, aliases).value, lo, hi)
  {
    var ps := ParseParts(Split(raw, ','), min, max, aliases).value;
    StartCollected(ps, max);
    assert ParsePart(Split(raw, ',')[0], min, max, aliases) == Ok(ps[0]);
    assert lo <= Fold(ps[0].start, max) <= hi;
    if raw == "*" {
      StarParses(min, max, aliases);
      StarCollects(min, max, lo, hi);
    }
  }

  lemma StarCollects(min: int, max: int, lo: int, hi: int)
    requires 0 <= min <= max <= LIMIT && lo == min && hi <= max
    requires max == 7 ==> hi <= 6
    ensures forall v :: lo <= v <= hi ==> v in FieldCollects([Progression(min, max, 1)], max)
  {
    var p := Progression(min, max, 1);
    PartExactIff(p, max);
    assert [p][1..] == [];
    forall v | lo <= v <= hi ensures v in FieldCollects([p], max) {
      assert InSteps(p.start, v, 1);
      assert Fold(v, max) == v && v in Denoted(p, max);
    }
  }

  /** What every accepted expression guarantees. */
  ghost predicate WellFormed(c: CronSpec) {
    && Usable(c.minute, 0, 59) && Usable(c.hour, 0, 23)
    && Usable(c.dom, 1, 31) && Usable(c.month, 1, 12) && Usable(c.dow, 0, 6)
  }

  /** What an expression stands for: its five fields, or the first error. */
  ghost function SpecOf(fields: seq<string>): Result<CronSpec, CronError> {
    if |fields| != 5 then Err(FieldCount)
    else
      match FieldOf(fields[0], 0, 59, map[])
      case Err(e) => Err(e)
      case Ok(minute) =>
        match FieldOf(fields[1], 0, 23, map[])
        case Err(e) => Err(e)
        case Ok(hour) =>
          match FieldOf(fields[2], 1, 31, map[])
          case Err(e) => Err(e)
          case Ok(dom) =>
            match FieldOf(fields[3], 1, 12, MONTHS)
            case Err(e) => Err(e)
            case Ok(month) =>
              match FieldOf(fields[4], 0, 7, WEEKDAYS)
              case Err(e) => Err(e)
              case Ok(dow) => Ok(CronSpec(minute, hour, dom, month, dow))
  }

  /** All values of all fields lie within their bounds. */
  ghost predicate AllInRange(c: CronSpec) {
    && Bounded(c.minute.values, 0, 59) && Bounded(c.hour.values, 0, 23)
    && Bounded(c.dom.values, 1, 31) && Bounded(c.month.values, 1, 12) && Bounded(c.dow.values, 0, 6)
  }

  ghost predicate AllStepsFit(fields: seq<string>)
    requires |fields| == 5
  {
    && StepsFit(fields[0], 0, 59, map[]) && StepsFit(fields[1], 0, 23, map[])
    && StepsFit(fields[2], 1, 31, map[]) && StepsFit(fields[3], 1, 12, MONTHS) && StepsFit(fields[4], 0, 7, WEEKDAYS)
  }

  /** Every field of an accepted expression has a value within its bounds, and has no other exactly when the
      steps fit. */
  lemma AcceptedWellFormed(fields: seq<string>)
    requires SpecOf(fields).Ok?
    ensures WellFormed(SpecOf(fields).value)
    ensures AllInRange(SpecOf(fields).value) <==> AllStepsFit(fields)
  {
    hide FieldOf, Usable, Bounded, StepsFit;
    AcceptedRangeIff(fields[0], 0, 59, map[]);
    AcceptedRangeIff(fields[1], 0, 23, map[]);
    AcceptedRangeIff(fields[2], 1, 31, map[]);
    AcceptedRangeIff(fields[3], 1, 12, MONTHS);
    AcceptedRangeIff(fields[4], 0, 7, WEEKDAYS);
    AcceptedUsable(fields[0], 0, 59, map[], 0, 59);
    AcceptedUsable(fields[1], 0, 23, map[], 0, 23);
    AcceptedUsable(fields[2], 1, 31, map[], 1, 31);
    AcceptedUsable(fields[3], 1, 12, MONTHS, 1, 12);
    AcceptedUsable(fields[4], 0, 7, WEEKDAYS, 0, 6);
  }

  method ParseField(raw: string, min: int, max: int, aliases: Aliases) returns (r: Result<CronField, CronError>)
    requires 0 <= min <= max <= LIMIT
    ensures r == FieldOf(raw, min, max, aliases)
  {
    r := ParseCronField(raw, min, max, aliases);
  }

  method ParseCron(expr: string) returns (r: Result<CronSpec, CronError>)
    ensures r == SpecOf(Fields(expr))
    ensures r.Ok? ==> WellFormed(r.value)
  {
    var fields := Fields(expr);
    if |fields| != 5 {
      return Err(FieldCount);
    }
    var minute := ParseField(fields[0], 0, 59, map[]);
    if minute.Err? { return Err(minute.error); }
    var hour := ParseField(fields[1], 0, 23, map[]);
    if hour.Err? { return Err(hour.error); }
    var dom := ParseField(fields[2], 1, 31, map[]);
    if dom.Err? { return Err(dom.error); }
    var month := ParseField(fields[3], 1, 12, MONTHS);
    if month.Err? { return Err(month.error); }
    var dow := ParseField(fields[4], 0, 7, WEEKDAYS);
    if dow.Err? { return Err(dow.error); }
    AcceptedWellFormed(fields);
    return Ok(CronSpec(minute.value, hour.value, dom.value, month.value, dow.value));
  }

  // ----- texts

  /** A value within bounds, written in decimal, is read back. */
  lemma DecimalValue(n: nat)
    requires n <= MAX64
    ensures CronValue(Decimal(n), map[]) == Ok(n)
  {
    AtoiDecimal(n);
    NumeralPlain(Decimal(n));
  }

  lemma DecimalRange(n: nat, min: int, max: int)
    requires min <= n <= max <= MAX64
    ensures CronRange(Decimal(n), min, max, map[]) == Ok((n, n))
  {
    DecimalValue(n);
    NumeralPlain(Decimal(n));
  }

  lemma StepTextSplits(a: string, b: string)
    requires Numeral(a) && Numeral(b)
    ensures var text := a + "/" + b;
      TrimSpace(text) == text && text != "" && Split(text, '/') == [a, b] && Split(text, ',') == [text]
  {
    NumeralPlain(a);
    NumeralPlain(b);
    SpacelessTrims(a + "/" + b);
    SplitAfter(a, b, '/');
    assert a + ['/'] + b == a + "/" + b;
    assert [a] + [b] == [a, b];
  }

  /** "n/k" stands for the progression from n, to n, by k. */
  lemma StepTextParses(n: nat, k: nat, min: int, max: int)
    requires 0 <= min <= n <= max <= LIMIT && 1 <= k <= MAX64
    ensures ParsePart(Decimal(n) + "/" + Decimal(k), min, max, map[]) == Ok(Progression(n, n, k))
  {
    StepTextSplits(Decimal(n), Decimal(k));
    AtoiDecimal(k);
    DecimalRange(n, min, max);
    hide Decimal, CronRange, Atoi, TrimSpace, Split;
  }

  /** The minute field "5/9223372036854775807" is accepted, and matches minutes 3 and 1 as well. */
  lemma OverflowAccepted()
    ensures var f := FieldOf(Decimal(5) + "/" + Decimal(MAX64), 0, 59, map[]);
      f.Ok? && {5, 3, 1} <= f.value.values
  {
    var text := Decimal(5) + "/" + Decimal(MAX64);
    StepTextSplits(Decimal(5), Decimal(MAX64));
    StepTextParses(5, MAX64, 0, 59);
    OverflowAddsMinutes();
    hide Decimal, ParsePart, Split, Swept;
    var p := Progression(5, 5, MAX64);
    OnePart(text, p);
  }

  lemma OnePart(text: string, p: Progression)
    requires Split(text, ',') == [text] && ParsePart(text, 0, 59, map[]) == Ok(p)
    ensures FieldOf(text, 0, 59, map[]) == Ok(CronField(Swept(p, 59), text == "*"))
  {
    hide ParsePart, Split, Swept;
    assert [text][1..] == [] && ParseParts([], 0, 59, map[]) == Ok([]);
    assert ParseParts([text], 0, 59, map[]) == Ok([p] + []);
    assert [p] + [] == [p] && [p][1..] == [];
    assert FieldCollects([p], 59) == Swept(p, 59) + {} == Swept(p, 59);
  }
}
