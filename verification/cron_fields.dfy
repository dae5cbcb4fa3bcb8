/** Five-field cron expressions: what a field denotes, and what the parser builds. */
module CronFields {
  import opened Wrappers
  import opened Integers
  import opened Text

  datatype CronError =
    | FieldCount | EmptyPart | BadStep | BadStepExpression | BadRange | BadValue | Descending | OutsideBounds

  type Aliases = map<string, int>

  /** The values start, start + step, ... up to end. */
  datatype Progression = Progression(start: int, end: int, step: int)

  /** The largest bound of any field. */
  const LIMIT: int := 59

  predicate Proper(p: Progression) {
    0 <= p.start <= p.end <= LIMIT && 1 <= p.step <= MAX64
  }

  // ----- the text of a part

  function CronValue(raw: string, aliases: Aliases): Result<int, CronError> {
    var key := ToLower(TrimSpace(raw));
    if key in aliases then Ok(aliases[key])
    else
      match Atoi(key)
      case Some(v) => Ok(v)
      case None => Err(BadValue)
  }

  /** The bounds a part gives. */
  function CronRange(raw: string, min: int, max: int, aliases: Aliases): (r: Result<(int, int), CronError>)
    requires min <= max
    ensures r.Ok? ==> min <= r.value.0 <= r.value.1 <= max
  {
    if raw == "*" || raw == "" then Ok((min, max))
    else if '-' in raw then
      var parts := Split(raw, '-');
      if |parts| != 2 then Err(BadRange)
      else
        match CronValue(parts[0], aliases)
        case Err(e) => Err(e)
        case Ok(start) =>
          match CronValue(parts[1], aliases)
          case Err(e) => Err(e)
          case Ok(end) =>
            if start > end then Err(Descending)
            else if start < min || end > max then Err(OutsideBounds)
            else Ok((start, end))
    else
      match CronValue(raw, aliases)
      case Err(e) => Err(e)
      case Ok(v) => if v < min || v > max then Err(OutsideBounds) else Ok((v, v))
  }

  /** One comma-separated part, as a progression. */
  function ParsePart(raw: string, min: int, max: int, aliases: Aliases): (r: Result<Progression, CronError>)
    requires 0 <= min <= max <= LIMIT
    ensures r.Ok? ==> Proper(r.value) && min <= r.value.start && r.value.end <= max
  {
    var part := TrimSpace(raw);
    var pieces := Split(part, '/');
    if part == "" then Err(EmptyPart)
    else if |pieces| > 2 then Err(BadStepExpression)
    else
      var step := if |pieces| == 2 then Atoi(pieces[1]) else Some(1);
      if step.None? || step.value <= 0 then Err(BadStep)
      else
        match CronRange(pieces[0], min, max, aliases)
        case Err(e) => Err(e)
        case Ok((start, end)) => Ok(Progression(start, end, step.value))
  }

  /** Sunday may be written 7. */
  function Fold(v: int, max: int): int {
    if max == 7 && v == 7 then 0 else v
  }

  predicate InSteps(start: int, u: int, step: int)
    requires step > 0
  {
    (u - start) % step == 0
  }

  /** What a part denotes: the values from start to end congruent to start modulo the step. */
  function Denoted(p: Progression, max: int): set<int>
    requires Proper(p)
  {
    set u | p.start <= u <= p.end && InSteps(p.start, u, p.step) :: Fold(u, max)
  }

  // ----- the loop over a part, in 64-bit arithmetic

  /** A step so large that adding it to a value within bounds can leave the int64 range. */
  predicate Giant(end: int, step: int) {
    step > MAX64 - end
  }

  /** Values the loop variable can take. After an overflow it is far below zero, and then small again. */
  predicate OnCourse(v: int, end: int, step: int) {
    && 0 <= end <= LIMIT && 1 <= step <= MAX64
    && (v > end ||
        (!Giant(end, step) && 0 <= v) ||
        (Giant(end, step) && (-120 <= v || -(TWO64 / 2) <= v < LIMIT - TWO64 / 2)))
    && (Giant(end, step) && v < -120 ==> v + step >= -120 && v + step <= end)
  }

  /** Where a value below zero is heading. */
  function Heading(v: int, step: int): int {
    if v < -120 then v + step else v
  }

  /** The values the loop visits from v on. */
  function Sweep(v: int, end: int, step: int): set<int>
    requires OnCourse(v, end, step)
    decreases if v > end then 0 else if Giant(end, step) then Heading(v, step) + 200 else end - v + 1,
              if v < -120 then 1 else 0
  {
    if v > end then {} else {v} + Sweep(Wrap64(v + step), end, step)
  }

  function Folded(values: set<int>, max: int): set<int> {
    set u | u in values :: Fold(u, max)
  }

  function Swept(p: Progression, max: int): set<int>
    requires Proper(p)
  {
    Folded(Sweep(p.start, p.end, p.step), max)
  }

  /** The first step does not leave the int64 range. No later one does then: a second step is taken only
      when the step is within the bounds of the field. */
  predicate StaysInRange(p: Progression) {
    p.start + p.step <= MAX64
  }

  lemma MultiplesApart(k: int, d: int)
    requires d > 0
    ensures k >= 1 ==> k * d >= d
    ensures k <= -1 ==> k * d <= -d
  {
    if k >= 1 {
      assert (k - 1) * d >= 0;
    } else if k <= -1 {
      assert (-1 - k) * d >= 0;
    }
  }

  lemma DivUnique(a: int, d: int, q: int, r: int)
    requires d > 0 && 0 <= r < d && a == q * d + r
    ensures a / d == q && a % d == r
  {
    var x, y := a / d, a % d;
    assert a == x * d + y;
    assert (x - q) * d == x * d - q * d;
    MultiplesApart(x - q, d);
  }

  lemma ModMinus(a: int, d: int)
    requires d > 0
    ensures (a - d) % d == a % d
  {
    assert a - d == (a / d - 1) * d + a % d;
    DivUnique(a - d, d, a / d - 1, a % d);
  }

  /** Values congruent to v above v are at least a step away. */
  lemma StepAway(u: int, v: int, step: int)
    requires step > 0 && u > v && (u - v) % step == 0
    ensures u >= v + step && (u - (v + step)) % step == 0
  {
    if u - v < step {
      DivUnique(u - v, step, 0, u - v);
    }
    ModMinus(u - v, step);
  }

  lemma {:induction false} SweepEnumerates(v: int, end: int, step: int)
    requires OnCourse(v, end, step) && 0 <= v && v + step <= MAX64
    ensures Sweep(v, end, step) == set u | v <= u <= end && InSteps(v, u, step)
    decreases if v <= end then end - v + 1 else 0
  {
    if v <= end {
      var w := v + step;
      assert Wrap64(w) == w;
      if w <= end {
        SweepEnumerates(w, end, step);
      }
      assert Sweep(w, end, step) == set u | w <= u <= end && InSteps(w, u, step);
      forall u: int ensures u in Sweep(v, end, step) <==> v <= u <= end && InSteps(v, u, step) {
        if v < u <= end && InSteps(v, u, step) {
          StepAway(u, v, step);
        }
        if w <= u {
          ModMinus(u - v, step);
        }
      }
    }
  }

  /** The loop over a part yields what the part denotes exactly when its first step does not overflow. */
  lemma PartExactIff(p: Progression, max: int)
    requires Proper(p)
    ensures Swept(p, max) == Denoted(p, max) <==> StaysInRange(p)
    ensures !StaysInRange(p) ==> exists u :: u in Swept(p, max) && u < 0
  {
    if StaysInRange(p) {
      SweepEnumerates(p.start, p.end, p.step);
    } else {
      var u := Wrap64(p.start + p.step);
      assert u in Sweep(u, p.end, p.step) && u in Sweep(p.start, p.end, p.step);
      assert Fold(u, max) == u && u in Swept(p, max) && u < 0;
    }
  }

  /** With a step of 2^63-1, the loop from 5 also visits 3 and 1. */
  lemma OverflowAddsMinutes()
    ensures Proper(Progression(5, 5, MAX64)) && {5, 3, 1} <= Swept(Progression(5, 5, MAX64), LIMIT)
    ensures Denoted(Progression(5, 5, MAX64), LIMIT) == {5}
  {
    var s := Sweep(5, 5, MAX64);
    assert s == {5} + Sweep(5 + MAX64 - TWO64, 5, MAX64);
    assert Sweep(5 + MAX64 - TWO64, 5, MAX64) == {5 + MAX64 - TWO64} + Sweep(3, 5, MAX64);
    assert Sweep(3, 5, MAX64) == {3} + Sweep(3 + MAX64 - TWO64, 5, MAX64);
    assert Sweep(3 + MAX64 - TWO64, 5, MAX64) == {3 + MAX64 - TWO64} + Sweep(1, 5, MAX64);
    assert 1 in Sweep(1, 5, MAX64);
    assert Fold(5, LIMIT) == 5 && Fold(3, LIMIT) == 3 && Fold(1, LIMIT) == 1;
  }

  // ----- whole fields

  datatype CronField = CronField(values: set<int>, wildcard: bool)

  /** The progressions of the parts, or the first error. */
  function ParseParts(parts: seq<string>, min: int, max: int, aliases: Aliases): (r: Result<seq<Progression>, CronError>)
    requires 0 <= min <= max <= LIMIT
    ensures r.Ok? ==> |r.value| == |parts| && forall i :: 0 <= i < |parts| ==>
      ParsePart(parts[i], min, max, aliases) == Ok(r.value[i])
    ensures r.Err? ==> exists i :: 0 <= i < |parts| && ParsePart(parts[i], min, max, aliases) == Err(r.error)
  {
    if parts == [] then Ok([])
    else
      match ParsePart(parts[0], min, max, aliases)
      case Err(e) => Err(e)
      case Ok(p) =>
        match ParseParts(parts[1..], min, max, aliases)
        case Err(e) =>
          assert exists i :: 0 <= i < |parts[1..]| && ParsePart(parts[1..][i], min, max, aliases) == Err(e);
          Err(e)
        case Ok(ps) => Ok([p] + ps)
  }

  ghost predicate AllProper(ps: seq<Progression>) {
    forall i :: 0 <= i < |ps| ==> Proper(ps[i])
  }

  /** What a field denotes: the union over its parts. */
  ghost function FieldDenotes(ps: seq<Progression>, max: int): set<int>
    requires AllProper(ps)
  {
    if ps == [] then {} else Denoted(ps[0], max) + FieldDenotes(ps[1..], max)
  }

  /** What the loops over its parts collect. */
  ghost function FieldCollects(ps: seq<Progression>, max: int): set<int>
    requires AllProper(ps)
  {
    if ps == [] then {} else Swept(ps[0], max) + FieldCollects(ps[1..], max)
  }

  lemma {:induction false} CollectsAppend(ps: seq<Progression>, p: Progression, max: int)
    requires AllProper(ps) && Proper(p)
    ensures FieldCollects(ps + [p], max) == FieldCollects(ps, max) + Swept(p, max)
  {
    if ps == [] {
      assert ps + [p] == [p];
    } else {
      CollectsAppend(ps[1..], p, max);
      assert (ps + [p])[1..] == ps[1..] + [p];
    }
  }

  lemma FoldedAdd(values: set<int>, v: int, max: int)
    ensures Folded(values + {v}, max) == Folded(values, max) + {Fold(v, max)}
  {
  }

  /** The loop of one part, as the source runs it. */
  method SweepPart(p: Progression, max: int, collected: set<int>) returns (values: set<int>)
    requires Proper(p)
    ensures values == collected + Swept(p, max)
  {
    values := collected;
    var value := p.start;
    ghost var seen: set<int> := {};
    while value <= p.end
      invariant OnCourse(value, p.end, p.step)
      invariant Sweep(p.start, p.end, p.step) == seen + Sweep(value, p.end, p.step)
      invariant values == collected + Folded(seen, max)
      decreases if value > p.end then 0
                else if Giant(p.end, p.step) then Heading(value, p.step) + 200 else p.end - value + 1,
                if value < -120 then 1 else 0
    {
      var normalized := value;
      if max == 7 && value == 7 {
        normalized := 0;
      }
      values := values + {normalized};
      FoldedAdd(seen, value, max);
      seen := seen + {value};
      value := Wrap64(value + p.step);
    }
    assert Sweep(value, p.end, p.step) == {};
  }

  /** The first parts parse to `done`. */
  ghost predicate ParsedTo(parts: seq<string>, done: seq<Progression>, min: int, max: int, aliases: Aliases)
    requires 0 <= min <= max <= LIMIT
  {
    |done| <= |parts| && AllProper(done) &&
    forall i :: 0 <= i < |done| ==> ParsePart(parts[i], min, max, aliases) == Ok(done[i])
  }

  lemma {:induction false} AllParsed(parts: seq<string>, done: seq<Progression>, min: int, max: int, aliases: Aliases)
    requires 0 <= min <= max <= LIMIT && ParsedTo(parts, done, min, max, aliases)
    ensures |done| == |parts| ==> ParseParts(parts, min, max, aliases) == Ok(done)
    ensures |done| < |parts| && ParsePart(parts[|done|], min, max, aliases).Err? ==>
      ParseParts(parts, min, max, aliases) == Err(ParsePart(parts[|done|], min, max, aliases).error)
  {
    hide ParsePart;
    if done != [] {
      assert ParsePart(parts[0], min, max, aliases) == Ok(done[0]);
      AllParsed(parts[1..], done[1..], min, max, aliases);
      assert [done[0]] + done[1..] == done;
    }
  }

  /** One turn of the loop over the parts. */
  method TakePart(parts: seq<string>, ghost done: seq<Progression>, min: int, max: int, aliases: Aliases, i: nat,
                  collected: set<int>)
    returns (e: Option<CronError>, values: set<int>, ghost more: seq<Progression>)
    requires 0 <= min <= max <= LIMIT && i == |done| < |parts| && ParsedTo(parts, done, min, max, aliases)
    requires collected == FieldCollects(done, max)
    ensures e.Some? ==> ParseParts(parts, min, max, aliases) == Err(e.value)
    ensures e.None? ==> |more| == i + 1 && ParsedTo(parts, more, min, max, aliases) && values == FieldCollects(more, max)
  {
    var p := ParsePart(parts[i], min, max, aliases);
    if p.Err? {
      AllParsed(parts, done, min, max, aliases);
      return Some(p.error), {}, [];
    }
    values := SweepPart(p.value, max, collected);
    CollectsAppend(done, p.value, max);
    e, more := None, done + [p.value];
  }

  /** The parser accepts a field when every part parses, and collects the parts' loops. */
  method ParseCronField(raw: string, min: int, max: int, aliases: Aliases) returns (r: Result<CronField, CronError>)
    requires 0 <= min <= max <= LIMIT
    ensures var ps := ParseParts(Split(raw, ','), min, max, aliases);
      if ps.Err? then r == Err(ps.error)
      else r == Ok(CronField(FieldCollects(ps.value, max), raw == "*"))
  {
    var parts := Split(raw, ',');
    var values: set<int> := {};
    ghost var done: seq<Progression> := [];
    for i := 0 to |parts|
      invariant |done| == i && ParsedTo(parts, done, min, max, aliases) && values == FieldCollects(done, max)
    {
      var e;
      e, values, done := TakePart(parts, done, min, max, aliases, i, values);
      if e.Some? {
        return Err(e.value);
      }
    }
    AllParsed(parts, done, min, max, aliases);
    return Ok(CronField(values, raw == "*"));
  }

  lemma DenotedBounds(p: Progression, min: int, max: int)
    requires Proper(p) && min <= p.start && p.end <= max
    ensures forall v :: v in Denoted(p, max) ==> v >= 0 && (min <= v <= max || (max == 7 && v == 0))
  {
  }

  /** A field's values are exactly what it denotes, exactly when no part has an overflowing step. */
  lemma {:induction false} FieldExactIff(ps: seq<Progression>, max: int)
    requires AllProper(ps)
    ensures FieldCollects(ps, max) == FieldDenotes(ps, max) <==> forall i :: 0 <= i < |ps| ==> StaysInRange(ps[i])
    ensures (exists v :: v in FieldCollects(ps, max) && v < 0) <==> exists i :: 0 <= i < |ps| && !StaysInRange(ps[i])
    ensures forall v :: v in FieldDenotes(ps, max) ==> v >= 0
  {
    if ps != [] {
      FieldExactIff(ps[1..], max);
      PartExactIff(ps[0], max);
      DenotedBounds(ps[0], 0, if ps[0].end <= max then max else ps[0].end);
    }
  }

  /** The largest value of a field: Sunday is 0 in the end. */
  function Highest(max: int): int {
    if max == 7 then 6 else max
  }

  ghost predicate Bounded(values: set<int>, lo: int, hi: int) {
    forall v :: v in values ==> lo <= v <= hi
  }

  ghost predicate AllWithin(ps: seq<Progression>, min: int, max: int) {
    forall i :: 0 <= i < |ps| ==> min <= ps[i].start && ps[i].end <= max
  }

  lemma {:induction false} DenotesWithin(ps: seq<Progression>, min: int, max: int)
    requires AllProper(ps) && AllWithin(ps, min, max) && (max == 7 ==> min == 0)
    ensures Bounded(FieldDenotes(ps, max), min, Highest(max))
  {
    if ps != [] {
      DenotesWithin(ps[1..], min, max);
    }
  }

  /** The values of a field lie within its bounds exactly when no part has an overflowing step. */
  lemma FieldRangeIff(ps: seq<Progression>, min: int, max: int)
    requires AllProper(ps) && AllWithin(ps, min, max) && 0 <= min && (max == 7 ==> min == 0)
    ensures Bounded(FieldCollects(ps, max), min, Highest(max)) <==>
            forall i :: 0 <= i < |ps| ==> StaysInRange(ps[i])
  {
    hide FieldCollects, FieldDenotes;
    FieldExactIff(ps, max);
    DenotesWithin(ps, min, max);
  }
}
