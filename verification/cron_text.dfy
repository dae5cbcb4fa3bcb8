/** Written cron expressions, and what the parser makes of each of them. */
module CronTexts {
  import opened Wrappers
  import opened Integers
  import opened Text
  import opened CronFields
  import opened CronSpecs

  // ----- an expression before it is written

  datatype Atom = Number(n: nat) | Name(text: string)

  datatype Span = Whole | At(a: Atom) | Between(a: Atom, b: Atom)

  datatype Part = Part(span: Span, step: Option<nat>)

  /** Letters only, of either case. */
  predicate Letters(s: string) {
    s != "" && forall i :: 0 <= i < |s| ==> 'a' <= s[i] <= 'z' || 'A' <= s[i] <= 'Z'
  }

  predicate Sayable(a: Atom) {
    a.Name? ==> Letters(a.text)
  }

  predicate SayableSpan(s: Span) {
    (s.At? ==> Sayable(s.a)) && (s.Between? ==> Sayable(s.a) && Sayable(s.b))
  }

  ghost function AtomText(a: Atom): string {
    match a
    case Number(n) => Decimal(n)
    case Name(text) => text
  }

  ghost function SpanText(s: Span): string {
    match s
    case Whole => "*"
    case At(a) => AtomText(a)
    case Between(a, b) => AtomText(a) + ['-'] + AtomText(b)
  }

  ghost function PartText(p: Part): string {
    SpanText(p.span) + if p.step.Some? then ['/'] + Decimal(p.step.value) else ""
  }

  /** The texts of some parts, in order. */
  ghost function PartTexts(ps: seq<Part>): seq<string> {
    seq(|ps|, i requires 0 <= i < |ps| => PartText(ps[i]))
  }

  ghost function FieldText(ps: seq<Part>): string {
    Join(PartTexts(ps), ',')
  }

  // ----- what it stands for

  /** A number is itself, as far as 64 bits go; a name, in any case, is what its lower-case form is an alias of. */
  ghost function Worth(a: Atom, aliases: Aliases): Result<int, CronError> {
    match a
    case Number(n) => if n <= MAX64 then Ok(n) else Err(BadValue)
    case Name(text) => if ToLower(text) in aliases then Ok(aliases[ToLower(text)]) else Err(BadValue)
  }

  /** Both ends of a span, which must not descend and must lie within the bounds. */
  ghost predicate SpanIs(s: Span, min: int, max: int, aliases: Aliases, lo: int, hi: int) {
    && min <= lo <= hi <= max
    && (s.Whole? ==> lo == min && hi == max)
    && (s.At? ==> Worth(s.a, aliases) == Ok(lo) && hi == lo)
    && (s.Between? ==> Worth(s.a, aliases) == Ok(lo) && Worth(s.b, aliases) == Ok(hi))
  }

  /** Why a span is refused: a value that is none, the wrong order, or a value out of bounds; the first applies. */
  ghost predicate SpanRefused(s: Span, min: int, max: int, aliases: Aliases, e: CronError) {
    && !s.Whole?
    && var first, last := Worth(s.a, aliases), if s.At? then Worth(s.a, aliases) else Worth(s.b, aliases);
       if first.Err? || last.Err? then e == BadValue
       else if first.value > last.value then e == Descending
       else e == OutsideBounds && (first.value < min || last.value > max)
  }

  /** The step written, or 1. */
  ghost function StepOf(p: Part): nat {
    if p.step.Some? then p.step.value else 1
  }

  /** What a part is read as. A bad step is reported before a bad span. */
  ghost predicate ReadAs(p: Part, min: int, max: int, aliases: Aliases, r: Result<Progression, CronError>) {
    if !(1 <= StepOf(p) <= MAX64) then r == Err(BadStep)
    else if r.Ok? then SpanIs(p.span, min, max, aliases, r.value.start, r.value.end) && r.value.step == StepOf(p)
    else SpanRefused(p.span, min, max, aliases, r.error)
  }

  // ----- reading atoms

  ghost predicate Blank(s: string) {
    forall i :: 0 <= i < |s| ==> IsSpace(s[i])
  }

  /** Neither white space nor a character with a meaning of its own. */
  ghost predicate Plain(s: string) {
    s != "" && forall i :: 0 <= i < |s| ==> s[i] != ',' && s[i] != '/' && s[i] != '-' && !IsSpace(s[i])
  }

  lemma AtomPlain(a: Atom)
    requires Sayable(a)
    ensures Plain(AtomText(a)) && AtomText(a)[0] != '*'
  {
  }

  /** White space around a word is dropped. */
  lemma {:induction false} Trimmed(left: string, s: string, right: string)
    requires Blank(left) && Blank(right) && s != "" && !IsSpace(s[0]) && !IsSpace(s[|s| - 1])
    ensures TrimSpace(left + s + right) == s
    decreases |left| + |right|
  {
    var text := left + s + right;
    if left != "" {
      assert text[0] == left[0] && text[1..] == left[1..] + s + right;
      Trimmed(left[1..], s, right);
    } else {
      assert text == s + right && TrimLeft(text) == text;
      TrimmedRight(s, right);
    }
  }

  lemma {:induction false} TrimmedRight(s: string, right: string)
    requires Blank(right) && s != "" && !IsSpace(s[|s| - 1])
    ensures TrimRight(s + right) == s
  {
    var text := s + right;
    if right != "" {
      assert text[|text| - 1] == right[|right| - 1] && text[..|text| - 1] == s + right[..|right| - 1];
      TrimmedRight(s, right[..|right| - 1]);
    } else {
      assert text == s;
    }
  }

  /** And of white space alone nothing is left. */
  lemma {:induction false} BlankTrims(s: string)
    requires Blank(s)
    ensures TrimSpace(s) == ""
  {
    if s != "" {
      BlankTrims(s[1..]);
    }
  }

  lemma LettersNoNumber(s: string)
    requires Letters(s)
    ensures Letters(ToLower(s)) && Atoi(ToLower(s)) == None
  {
    var t := ToLower(s);
    assert forall i :: 0 <= i < |t| ==> t[i] == LowerChar(s[i]);
    assert !('0' <= t[|t| - 1] <= '9');
  }

  /** The same letters, where the text may use capitals. */
  predicate Spells(text: string, k: string) {
    |text| == |k| && forall i :: 0 <= i < |k| ==>
      'a' <= k[i] <= 'z' && (text[i] == k[i] || text[i] as int == k[i] as int - 32)
  }

  lemma LowerSpells(text: string, k: string)
    requires Letters(text)
    ensures ToLower(text) == k <==> Spells(text, k)
  {
    var t := ToLower(text);
    assert |t| == |text| && forall i :: 0 <= i < |t| ==> t[i] == LowerChar(text[i]);
    assert Spells(text, t);
    if Spells(text, k) {
      assert forall i :: 0 <= i < |k| ==> t[i] == k[i];
    }
  }

  /** Aliases are words. */
  ghost predicate AllNames(aliases: Aliases) {
    forall k :: k in aliases ==> Letters(k)
  }

  lemma NumberReads(n: nat)
    ensures Atoi(Decimal(n)) == if n <= MAX64 then Some(n) else None
  {
    DigitsDecimal(n);
  }

  /** A number or a name is read as what it is worth, with any white space around it. */
  lemma AtomReads(left: string, a: Atom, right: string, aliases: Aliases)
    requires Sayable(a) && AllNames(aliases) && Blank(left) && Blank(right)
    ensures CronValue(left + AtomText(a) + right, aliases) == Worth(a, aliases)
  {
    AtomPlain(a);
    Trimmed(left, AtomText(a), right);
    if a.Number? {
      NumberReads(a.n);
      NumeralPlain(AtomText(a));
      assert !Letters(AtomText(a)) by {
        assert '0' <= AtomText(a)[0] <= '9';
      }
    } else {
      LettersNoNumber(a.text);
    }
  }

  lemma AtomReadsBare(a: Atom, aliases: Aliases)
    requires Sayable(a) && AllNames(aliases)
    ensures CronValue(AtomText(a), aliases) == Worth(a, aliases)
  {
    AtomReads("", a, "", aliases);
    assert "" + AtomText(a) + "" == AtomText(a);
  }

  // ----- reading parts

  lemma SpanReads(s: Span, min: int, max: int, aliases: Aliases)
    requires SayableSpan(s) && AllNames(aliases) && min <= max
    ensures var r := CronRange(SpanText(s), min, max, aliases);
      if r.Ok? then SpanIs(s, min, max, aliases, r.value.0, r.value.1)
      else SpanRefused(s, min, max, aliases, r.error)
  {
    hide CronValue, Worth, Split, CronRange;
    match s
    case Whole => assert CronRange("*", min, max, aliases) == Ok((min, max)) by { WholeReads(min, max, aliases); }
    case At(a) => AtReads(a, min, max, aliases);
    case Between(a, b) => BetweenReads(a, b, min, max, aliases);
  }

  lemma WholeReads(min: int, max: int, aliases: Aliases)
    requires min <= max
    ensures CronRange("*", min, max, aliases) == Ok((min, max))
  {
  }

  lemma AtReads(a: Atom, min: int, max: int, aliases: Aliases)
    requires Sayable(a) && AllNames(aliases) && min <= max
    ensures var r := CronRange(AtomText(a), min, max, aliases);
      if r.Ok? then SpanIs(At(a), min, max, aliases, r.value.0, r.value.1)
      else SpanRefused(At(a), min, max, aliases, r.error)
  {
    AtomPlain(a);
    AtomReadsBare(a, aliases);
    WorthErrs(a, aliases);
    hide CronValue, Worth, Split, AtomText, Letters;
  }

  lemma BetweenReads(a: Atom, b: Atom, min: int, max: int, aliases: Aliases)
    requires Sayable(a) && Sayable(b) && AllNames(aliases) && min <= max
    ensures var r := CronRange(AtomText(a) + ['-'] + AtomText(b), min, max, aliases);
      if r.Ok? then SpanIs(Between(a, b), min, max, aliases, r.value.0, r.value.1)
      else SpanRefused(Between(a, b), min, max, aliases, r.error)
  {
    AtomPlain(a);
    AtomPlain(b);
    AtomReadsBare(a, aliases);
    AtomReadsBare(b, aliases);
    WorthErrs(a, aliases);
    WorthErrs(b, aliases);
    DashSplits(AtomText(a), AtomText(b));
    hide *;
    BetweenCases(AtomText(a) + ['-'] + AtomText(b), a, b, min, max, aliases);
  }

  lemma DashSplits(a: string, b: string)
    requires Plain(a) && Plain(b) && a[0] != '*'
    ensures var text := a + ['-'] + b; text != "*" && text != "" && '-' in text && Split(text, '-') == [a, b]
  {
    var text := a + ['-'] + b;
    assert text[0] == a[0] && text[|a|] == '-' && '-' !in a && '-' !in b;
    SplitAfter(a, b, '-');
    hide Split, Plain;
    assert [a] + [b] == [a, b];
  }

  lemma BetweenCases(text: string, a: Atom, b: Atom, min: int, max: int, aliases: Aliases)
    requires min <= max && text != "*" && text != "" && '-' in text
    requires Split(text, '-') == [AtomText(a), AtomText(b)]
    requires CronValue(AtomText(a), aliases) == Worth(a, aliases)
    requires CronValue(AtomText(b), aliases) == Worth(b, aliases)
    requires Worth(a, aliases).Err? ==> Worth(a, aliases).error == BadValue
    requires Worth(b, aliases).Err? ==> Worth(b, aliases).error == BadValue
    ensures var r := CronRange(text, min, max, aliases);
      if r.Ok? then SpanIs(Between(a, b), min, max, aliases, r.value.0, r.value.1)
      else SpanRefused(Between(a, b), min, max, aliases, r.error)
  {
    hide CronValue, Worth, AtomText, Split;
  }

  lemma WorthErrs(a: Atom, aliases: Aliases)
    ensures Worth(a, aliases).Err? ==> Worth(a, aliases).error == BadValue
  {
  }

  /** The text of a span or a part: no comma, no white space; a slash only before a step. */
  lemma SpanPlain(s: Span)
    requires SayableSpan(s)
    ensures var t := SpanText(s); t != "" && forall i :: 0 <= i < |t| ==> t[i] != ',' && t[i] != '/' && !IsSpace(t[i])
  {
    if !s.Whole? { AtomPlain(s.a); }
    if s.Between? { AtomPlain(s.b); }
    hide AtomText;
  }

  lemma PartPlain(p: Part)
    requires SayableSpan(p.span)
    ensures var t := PartText(p); t != "" && ',' !in t && forall i :: 0 <= i < |t| ==> !IsSpace(t[i])
  {
    SpanPlain(p.span);
    hide SpanText;
    if p.step.Some? {
      assert Numeral(Decimal(p.step.value));
      hide Decimal;
    }
  }

  lemma PartSplits(p: Part)
    requires SayableSpan(p.span)
    ensures Split(PartText(p), '/') == if p.step.Some? then [SpanText(p.span), Decimal(p.step.value)]
                                       else [SpanText(p.span)]
  {
    SpanPlain(p.span);
    hide SpanText;
    if p.step.Some? {
      assert Numeral(Decimal(p.step.value));
      SlashSplits(SpanText(p.span), Decimal(p.step.value));
      hide Decimal, Split;
      assert PartText(p) == SpanText(p.span) + ['/'] + Decimal(p.step.value);
    } else {
      assert PartText(p) == SpanText(p.span);
    }
  }

  lemma SlashSplits(a: string, d: string)
    requires '/' !in a && Numeral(d)
    ensures Split(a + ['/'] + d, '/') == [a, d]
  {
    NumeralPlain(d);
    SplitAfter(a, d, '/');
    assert [a] + [d] == [a, d];
  }

  /** Every written part is read as what it stands for, with any white space around it. */
  lemma PartReads(left: string, p: Part, right: string, min: int, max: int, aliases: Aliases)
    requires SayableSpan(p.span) && AllNames(aliases) && Blank(left) && Blank(right) && 0 <= min <= max <= LIMIT
    ensures ReadAs(p, min, max, aliases, ParsePart(left + PartText(p) + right, min, max, aliases))
  {
    hide *;
    PartPlain(p);
    PartSplits(p);
    Trimmed(left, PartText(p), right);
    SpanReads(p.span, min, max, aliases);
    PartCases(left + PartText(p) + right, p, min, max, aliases);
  }

  lemma PartCases(text: string, p: Part, min: int, max: int, aliases: Aliases)
    requires 0 <= min <= max <= LIMIT && TrimSpace(text) == PartText(p) != ""
    requires Split(PartText(p), '/') == if p.step.Some? then [SpanText(p.span), Decimal(p.step.value)]
                                        else [SpanText(p.span)]
    requires var r := CronRange(SpanText(p.span), min, max, aliases);
      if r.Ok? then SpanIs(p.span, min, max, aliases, r.value.0, r.value.1)
      else SpanRefused(p.span, min, max, aliases, r.error)
    ensures ReadAs(p, min, max, aliases, ParsePart(text, min, max, aliases))
  {
    if p.step.Some? { NumberReads(p.step.value); }
    hide SpanIs, SpanRefused, CronRange, PartText, SpanText, TrimSpace, Split, Decimal, Atoi;
  }

  /** A number may have a sign. */
  lemma SignedReads(n: nat)
    ensures Atoi(['+'] + Decimal(n)) == if n <= MAX64 then Some(n) else None
    ensures var v: int := 0 - n; Atoi(['-'] + Decimal(n)) == if n <= MAX64 + 1 then Some(v) else None
  {
    DigitsDecimal(n);
    var plus, minus := ['+'] + Decimal(n), ['-'] + Decimal(n);
    assert plus[1..] == Decimal(n) && minus[1..] == Decimal(n);
  }

  /** A span with a signed step. */
  ghost function SignedText(s: Span, sign: char, n: nat): string {
    SpanText(s) + ['/'] + ([sign] + Decimal(n))
  }

  /** A step may have a plus sign; with a minus sign it is refused. */
  lemma SignedSteps(s: Span, n: nat, min: int, max: int, aliases: Aliases)
    requires SayableSpan(s) && AllNames(aliases) && 0 <= min <= max <= LIMIT
    ensures ReadAs(Part(s, Some(n)), min, max, aliases, ParsePart(SignedText(s, '+', n), min, max, aliases))
    ensures ParsePart(SignedText(s, '-', n), min, max, aliases) == Err(BadStep)
  {
    SignedReads(n);
    SpanReads(s, min, max, aliases);
    SignSplits(s, '+', n);
    SignSplits(s, '-', n);
    hide *;
    PlusCases(SignedText(s, '+', n), s, ['+'] + Decimal(n), n, min, max, aliases);
    MinusRefused(SignedText(s, '-', n), SpanText(s), ['-'] + Decimal(n), n, min, max, aliases);
  }

  lemma PlusCases(text: string, s: Span, d: string, n: nat, min: int, max: int, aliases: Aliases)
    requires 0 <= min <= max <= LIMIT && TrimSpace(text) == text != "" && Split(text, '/') == [SpanText(s), d]
    requires Atoi(d) == if n <= MAX64 then Some(n) else None
    requires var r := CronRange(SpanText(s), min, max, aliases);
      if r.Ok? then SpanIs(s, min, max, aliases, r.value.0, r.value.1) else SpanRefused(s, min, max, aliases, r.error)
    ensures ReadAs(Part(s, Some(n)), min, max, aliases, ParsePart(text, min, max, aliases))
  {
    hide SpanIs, SpanRefused, CronRange, SpanText, TrimSpace, Split, Atoi;
  }

  lemma MinusRefused(text: string, a: string, d: string, n: nat, min: int, max: int, aliases: Aliases)
    requires 0 <= min <= max <= LIMIT && TrimSpace(text) == text != "" && Split(text, '/') == [a, d]
    requires var v: int := 0 - n; Atoi(d) == if n <= MAX64 + 1 then Some(v) else None
    ensures ParsePart(text, min, max, aliases) == Err(BadStep)
  {
    hide CronRange, TrimSpace, Split, Atoi;
  }

  lemma SignSplits(s: Span, sign: char, n: nat)
    requires SayableSpan(s) && (sign == '+' || sign == '-')
    ensures var t := SignedText(s, sign, n);
      TrimSpace(t) == t && t != "" && Split(t, '/') == [SpanText(s), [sign] + Decimal(n)]
  {
    var t, d := SpanText(s) + ['/'] + ([sign] + Decimal(n)), [sign] + Decimal(n);
    SpanPlain(s);
    assert Numeral(Decimal(n));
    hide SpanText, Decimal;
    SpacelessTrims(t);
    SplitAfter(SpanText(s), d, '/');
    assert '/' !in d;
    assert [SpanText(s)] + [d] == [SpanText(s), d];
  }

  /** White space is blanks, tabs, line feeds, vertical tabs, form feeds and carriage returns. */
  lemma WhiteSpace(c: char)
    ensures IsSpace(c) <==> c in " \t\n\r" || c as int == 11 || c as int == 12
  {
  }

  /** A part of white space, a second step and a second dash are refused. */
  lemma BlankPartRefused(s: string, min: int, max: int, aliases: Aliases)
    requires Blank(s) && 0 <= min <= max <= LIMIT
    ensures ParsePart(s, min, max, aliases) == Err(EmptyPart)
  {
    BlankTrims(s);
  }

  lemma SecondStepRefused(a: string, b: string, c: string, min: int, max: int, aliases: Aliases)
    requires '/' !in a && '/' !in b && 0 <= min <= max <= LIMIT
    requires TrimSpace(a + ['/'] + (b + ['/'] + c)) == a + ['/'] + (b + ['/'] + c)
    ensures ParsePart(a + ['/'] + (b + ['/'] + c), min, max, aliases) == Err(BadStepExpression)
  {
    SplitAfter(a, b + ['/'] + c, '/');
    SplitAfter(b, c, '/');
    hide TrimSpace, Split;
  }

  lemma SecondDashRefused(a: string, b: string, c: string, min: int, max: int, aliases: Aliases)
    requires '-' !in a && '-' !in b && min <= max
    ensures CronRange(a + ['-'] + (b + ['-'] + c), min, max, aliases) == Err(BadRange)
  {
    SplitAfter(a, b + ['-'] + c, '-');
    SplitAfter(b, c, '-');
    assert (a + ['-'] + (b + ['-'] + c))[|a|] == '-';
    hide Split;
  }

  // ----- reading fields and expressions

  ghost predicate SayableField(ps: seq<Part>) {
    ps != [] && forall i :: 0 <= i < |ps| ==> SayableSpan(ps[i].span)
  }

  /** The progressions that some written parts stand for. */
  ghost predicate FieldReadAs(ps: seq<Part>, min: int, max: int, aliases: Aliases, rs: seq<Progression>) {
    |rs| == |ps| && forall i :: 0 <= i < |ps| ==> ReadAs(ps[i], min, max, aliases, Ok(rs[i]))
  }

  lemma BareReads(p: Part, min: int, max: int, aliases: Aliases)
    requires SayableSpan(p.span) && AllNames(aliases) && 0 <= min <= max <= LIMIT
    ensures ReadAs(p, min, max, aliases, ParsePart(PartText(p), min, max, aliases))
    ensures PartText(p) != "" && ',' !in PartText(p)
  {
    PartReads("", p, "", min, max, aliases);
    PartPlain(p);
    assert "" + PartText(p) + "" == PartText(p);
  }

  lemma PartsRead(ps: seq<Part>, min: int, max: int, aliases: Aliases)
    requires SayableField(ps) && AllNames(aliases) && 0 <= min <= max <= LIMIT
    ensures Split(FieldText(ps), ',') == PartTexts(ps)
    ensures forall i :: 0 <= i < |ps| ==>
      ReadAs(ps[i], min, max, aliases, ParsePart(PartTexts(ps)[i], min, max, aliases))
  {
    hide ReadAs, ParsePart, PartText, Split, Join;
    forall i | 0 <= i < |ps|
      ensures ReadAs(ps[i], min, max, aliases, ParsePart(PartTexts(ps)[i], min, max, aliases))
      ensures ',' !in PartTexts(ps)[i]
    {
      BareReads(ps[i], min, max, aliases);
    }
    SplitJoin(PartTexts(ps), ',');
  }

  /** What a written field is read as: the union of its parts, exactly when no step overflows; a wildcard only
      as "*". */
  ghost predicate FieldMeans(ps: seq<Part>, min: int, max: int, aliases: Aliases, f: CronField,
                             rs: seq<Progression>) {
    && FieldReadAs(ps, min, max, aliases, rs) && AllProper(rs)
    && (f.wildcard <==> ps == [Part(Whole, None)])
    && ((forall v :: v in f.values <==> InSome(rs, v, max)) <==> forall i :: 0 <= i < |rs| ==> StaysInRange(rs[i]))
  }

  ghost predicate InSome(rs: seq<Progression>, v: int, max: int)
    requires AllProper(rs)
  {
    exists i :: 0 <= i < |rs| && v in Denoted(rs[i], max)
  }

  lemma {:induction false} DenotesSome(rs: seq<Progression>, max: int)
    requires AllProper(rs)
    ensures forall v :: v in FieldDenotes(rs, max) <==> InSome(rs, v, max)
  {
    if rs != [] {
      DenotesSome(rs[1..], max);
      hide Denoted, FieldDenotes;
      forall v ensures InSome(rs, v, max) <==> v in Denoted(rs[0], max) || InSome(rs[1..], v, max) {
        if InSome(rs[1..], v, max) {
          var i :| 0 <= i < |rs[1..]| && v in Denoted(rs[1..][i], max);
          assert v in Denoted(rs[i + 1], max);
        }
        if InSome(rs, v, max) {
          var i :| 0 <= i < |rs| && v in Denoted(rs[i], max);
          assert i > 0 ==> v in Denoted(rs[1..][i - 1], max);
        }
      }
      DenotesHead(rs, max);
    }
  }

  lemma DenotesHead(rs: seq<Progression>, max: int)
    requires AllProper(rs) && rs != []
    ensures FieldDenotes(rs, max) == Denoted(rs[0], max) + FieldDenotes(rs[1..], max)
  {
  }

  lemma WildcardText(ps: seq<Part>)
    requires SayableField(ps)
    ensures FieldText(ps) == "*" <==> ps == [Part(Whole, None)]
  {
    if |ps| == 1 {
      var p := ps[0];
      assert FieldText(ps) == PartText(p);
      if !p.span.Whole? {
        AtomPlain(p.span.a);
        assert PartText(p)[0] == AtomText(p.span.a)[0];
      } else if p.step.Some? {
        assert |PartText(p)| >= 2;
      } else {
        assert ps == [Part(Whole, None)] && PartText(p) == "*";
      }
    } else {
      PartPlain(ps[0]);
      CommaText(ps);
    }
  }

  lemma CommaText(ps: seq<Part>)
    requires |ps| > 1
    ensures FieldText(ps) != "*"
  {
    var texts := PartTexts(ps);
    assert FieldText(ps) == texts[0] + [','] + Join(texts[1..], ',');
    assert FieldText(ps)[|texts[0]|] == ',';
  }

  /** The first part that is refused decides. */
  lemma {:induction false} FirstRefusal(parts: seq<string>, min: int, max: int, aliases: Aliases) returns (k: nat)
    requires 0 <= min <= max <= LIMIT && ParseParts(parts, min, max, aliases).Err?
    ensures k < |parts| && ParsePart(parts[k], min, max, aliases) == Err(ParseParts(parts, min, max, aliases).error)
    ensures forall j :: 0 <= j < k ==> ParsePart(parts[j], min, max, aliases).Ok?
  {
    hide ParsePart;
    if ParsePart(parts[0], min, max, aliases).Err? {
      k := 0;
    } else {
      var i := FirstRefusal(parts[1..], min, max, aliases);
      k := i + 1;
    }
  }

  /** Some part of the field is refused with this error, and none before it is. */
  ghost predicate FieldRefused(ps: seq<Part>, min: int, max: int, aliases: Aliases, e: CronError) {
    exists k :: 0 <= k < |ps| && ReadAs(ps[k], min, max, aliases, Err(e)) &&
      forall j :: 0 <= j < k ==> Readable(ps[j], min, max, aliases)
  }

  ghost predicate Readable(p: Part, min: int, max: int, aliases: Aliases) {
    exists r :: ReadAs(p, min, max, aliases, Ok(r))
  }

  ghost predicate FieldReads(ps: seq<Part>, min: int, max: int, aliases: Aliases, r: Result<CronField, CronError>) {
    if r.Ok? then exists rs :: FieldMeans(ps, min, max, aliases, r.value, rs)
    else FieldRefused(ps, min, max, aliases, r.error)
  }

  /** Every written field is read as what it stands for. */
  lemma WrittenFieldReads(ps: seq<Part>, min: int, max: int, aliases: Aliases)
    requires SayableField(ps) && AllNames(aliases) && 0 <= min <= max <= LIMIT
    ensures FieldReads(ps, min, max, aliases, FieldOf(FieldText(ps), min, max, aliases))
  {
    hide ReadAs, ParsePart, PartText, Split, Join, AllNames, SayableField, FieldMeans, ParseParts, FieldText;
    PartsRead(ps, min, max, aliases);
    var texts := PartTexts(ps);
    var r := ParseParts(texts, min, max, aliases);
    if r.Ok? {
      assert FieldReadAs(ps, min, max, aliases, r.value);
      FieldTaken(ps, min, max, aliases, r.value);
    } else {
      var k := FirstRefusal(texts, min, max, aliases);
      forall j | 0 <= j < k ensures Readable(ps[j], min, max, aliases) {
        assert ReadAs(ps[j], min, max, aliases, Ok(ParsePart(texts[j], min, max, aliases).value));
      }
    }
  }

  lemma FieldTaken(ps: seq<Part>, min: int, max: int, aliases: Aliases, rs: seq<Progression>)
    requires 0 <= min <= max <= LIMIT && SayableField(ps) && FieldReadAs(ps, min, max, aliases, rs) && AllProper(rs)
    ensures FieldMeans(ps, min, max, aliases, CronField(FieldCollects(rs, max), FieldText(ps) == "*"), rs)
  {
    WildcardText(ps);
    FieldExactIff(rs, max);
    DenotesSome(rs, max);
    hide FieldReadAs, FieldCollects, FieldDenotes, InSome, FieldText, StaysInRange;
  }

  // ----- whole expressions

  /** Words are cut at each single character of white space. */
  lemma {:induction false} FieldsFromCut(a: string, c: char, s: string, word: string)
    requires IsSpace(c)
    ensures FieldsFrom(a + [c] + s, word) == FieldsFrom(a, word) + FieldsFrom(s, "")
  {
    var text := a + [c] + s;
    if a == "" {
      assert text[1..] == s;
    } else {
      assert text[0] == a[0] && text[1..] == a[1..] + [c] + s;
      if IsSpace(a[0]) {
        FieldsFromCut(a[1..], c, s, "");
      } else {
        FieldsFromCut(a[1..], c, s, word + [a[0]]);
      }
    }
  }

  lemma {:induction false} FieldsFromWord(s: string, word: string)
    requires forall i :: 0 <= i < |s| ==> !IsSpace(s[i])
    ensures FieldsFrom(s, word) == if word + s == "" then [] else [word + s]
  {
    if s != "" {
      FieldsFromWord(s[1..], word + [s[0]]);
      assert word + [s[0]] + s[1..] == word + s;
    } else {
      assert word + s == word;
    }
  }

  /** The words of a text are those before and those after any white space in it; a text without is one word. */
  lemma FieldsMeans(a: string, c: char, s: string)
    requires IsSpace(c)
    ensures Fields(a + [c] + s) == Fields(a) + Fields(s)
    ensures (a != "" && forall i :: 0 <= i < |a| ==> !IsSpace(a[i])) ==> Fields(a) == [a]
    ensures Fields("") == []
  {
    FieldsFromCut(a, c, s, "");
    if forall i :: 0 <= i < |a| ==> !IsSpace(a[i]) {
      FieldsFromWord(a, "");
      assert "" + a == a;
    }
  }

  ghost predicate Words(words: seq<string>) {
    forall i :: 0 <= i < |words| ==> words[i] != "" && forall k :: 0 <= k < |words[i]| ==> !IsSpace(words[i][k])
  }

  lemma {:induction false} FieldsJoin(words: seq<string>)
    requires Words(words)
    ensures Fields(Join(words, ' ')) == words
  {
    if words != [] {
      var rest := Join(words[1..], ' ');
      FieldsMeans(words[0], ' ', rest);
      FieldsJoin(words[1..]);
      assert words == [words[0]] + words[1..];
    }
  }

  lemma {:induction false} FieldTextIsWord(ps: seq<Part>)
    requires SayableField(ps)
    ensures var t := FieldText(ps); t != "" && forall i :: 0 <= i < |t| ==> !IsSpace(t[i])
  {
    PartPlain(ps[0]);
    hide PartText;
    if |ps| > 1 {
      FieldTextIsWord(ps[1..]);
      assert PartTexts(ps)[1..] == PartTexts(ps[1..]);
    }
  }

  /** Five fields as they are written, with a space between them. */
  ghost function ExpressionText(es: seq<seq<Part>>): string {
    Join(FieldTexts(es), ' ')
  }

  ghost function FieldTexts(es: seq<seq<Part>>): seq<string> {
    seq(|es|, i requires 0 <= i < |es| => FieldText(es[i]))
  }

  ghost predicate SayableAll(es: seq<seq<Part>>) {
    forall i :: 0 <= i < |es| ==> SayableField(es[i])
  }

  lemma ExpressionWords(es: seq<seq<Part>>)
    requires SayableAll(es)
    ensures Fields(ExpressionText(es)) == FieldTexts(es)
  {
    hide FieldText, Join, SayableField, Fields;
    forall i | 0 <= i < |es|
      ensures FieldTexts(es)[i] != "" && forall k :: 0 <= k < |FieldTexts(es)[i]| ==> !IsSpace(FieldTexts(es)[i][k])
    {
      FieldTextIsWord(es[i]);
    }
    FieldsJoin(FieldTexts(es));
  }

  /** What an expression of five written fields is read as: field by field, or the first refusal. */
  ghost predicate ExpressionReads(es: seq<seq<Part>>, r: Result<CronSpec, CronError>)
    requires |es| == 5
  {
    if r.Ok? then
      && FieldReads(es[0], 0, 59, map[], Ok(r.value.minute)) && FieldReads(es[1], 0, 23, map[], Ok(r.value.hour))
      && FieldReads(es[2], 1, 31, map[], Ok(r.value.dom)) && FieldReads(es[3], 1, 12, MONTHS, Ok(r.value.month))
      && FieldReads(es[4], 0, 7, WEEKDAYS, Ok(r.value.dow))
    else
      || FieldReads(es[0], 0, 59, map[], Err(r.error)) || FieldReads(es[1], 0, 23, map[], Err(r.error))
      || FieldReads(es[2], 1, 31, map[], Err(r.error)) || FieldReads(es[3], 1, 12, MONTHS, Err(r.error))
      || FieldReads(es[4], 0, 7, WEEKDAYS, Err(r.error))
  }

  /** Every written expression is read as what it stands for; any other number of fields is refused. */
  lemma WrittenExpressionReads(es: seq<seq<Part>>)
    requires SayableAll(es)
    ensures |es| == 5 ==> ExpressionReads(es, SpecOf(Fields(ExpressionText(es))))
    ensures |es| != 5 ==> SpecOf(Fields(ExpressionText(es))) == Err(FieldCount)
  {
    ExpressionWords(es);
    hide FieldText, ExpressionText, FieldReads, FieldOf, Fields, SayableField;
    if |es| == 5 {
      AliasesAreNames();
      hide AllNames;
      WrittenFieldReads(es[0], 0, 59, map[]);
      WrittenFieldReads(es[1], 0, 23, map[]);
      WrittenFieldReads(es[2], 1, 31, map[]);
      WrittenFieldReads(es[3], 1, 12, MONTHS);
      WrittenFieldReads(es[4], 0, 7, WEEKDAYS);
    }
  }

  // ----- names

  const MONTH_NAMES: seq<string> := ["january", "february", "march", "april", "may", "june", "july", "august",
                                     "september", "october", "november", "december"]

  const WEEKDAY_NAMES: seq<string> := ["sunday", "monday", "tuesday", "wednesday", "thursday", "friday", "saturday"]

  /** A name abbreviates another, to three letters at least. */
  predicate Abbreviates(k: string, name: string) {
    3 <= |k| <= |name| && k == name[..|k|]
  }

  lemma AbbreviationLetters(k: string, name: string)
    requires Abbreviates(k, name) && Letters(name)
    ensures Letters(k)
  {
  }

  /** A name of a month stands for the month that it abbreviates. */
  lemma MonthsMean(k: string)
    requires k in MONTHS
    ensures 1 <= MONTHS[k] <= 12 && Abbreviates(k, MONTH_NAMES[MONTHS[k] - 1])
  {
    assert k in {"jan", "january", "feb", "february", "mar", "march", "apr", "april", "may", "jun", "june", "jul",
                 "july", "aug", "august", "sep", "sept", "september", "oct", "october", "nov", "november", "dec",
                 "december"};
  }

  /** A name of a weekday stands for the weekday that it abbreviates. */
  lemma WeekdaysMean(k: string)
    requires k in WEEKDAYS
    ensures 0 <= WEEKDAYS[k] <= 6 && Abbreviates(k, WEEKDAY_NAMES[WEEKDAYS[k]])
  {
  }

  lemma FullNamesAreLetters()
    ensures |MONTH_NAMES| == 12 && forall n :: 0 <= n < 12 ==> Letters(MONTH_NAMES[n])
    ensures |WEEKDAY_NAMES| == 7 && forall n :: 0 <= n < 7 ==> Letters(WEEKDAY_NAMES[n])
  {
  }

  lemma AliasesAreNames()
    ensures AllNames(MONTHS) && AllNames(WEEKDAYS) && AllNames(map[])
  {
    FullNamesAreLetters();
    hide Letters, MONTHS, WEEKDAYS, MONTH_NAMES, WEEKDAY_NAMES;
    forall k | k in MONTHS ensures Letters(k) {
      MonthsMean(k);
      AbbreviationLetters(k, MONTH_NAMES[MONTHS[k] - 1]);
    }
    forall k | k in WEEKDAYS ensures Letters(k) {
      WeekdaysMean(k);
      AbbreviationLetters(k, WEEKDAY_NAMES[WEEKDAYS[k]]);
    }
  }

  /** Every full name is known, and so are its first three letters and four other abbreviations. */
  lemma AllNamesKnown()
    ensures forall n :: 0 <= n < 12 ==> MONTH_NAMES[n] in MONTHS && MONTH_NAMES[n][..3] in MONTHS
    ensures forall n :: 0 <= n < 7 ==> WEEKDAY_NAMES[n] in WEEKDAYS && WEEKDAY_NAMES[n][..3] in WEEKDAYS
    ensures "sept" in MONTHS && "tues" in WEEKDAYS && "thur" in WEEKDAYS && "thurs" in WEEKDAYS
  {
    assert "january"[..3] == "jan" && "february"[..3] == "feb" && "march"[..3] == "mar" && "april"[..3] == "apr";
    assert "may"[..3] == "may" && "june"[..3] == "jun" && "july"[..3] == "jul" && "august"[..3] == "aug";
    assert "september"[..3] == "sep" && "october"[..3] == "oct" && "november"[..3] == "nov" && "december"[..3] == "dec";
    assert "sunday"[..3] == "sun" && "monday"[..3] == "mon" && "tuesday"[..3] == "tue" && "wednesday"[..3] == "wed";
    assert "thursday"[..3] == "thu" && "friday"[..3] == "fri" && "saturday"[..3] == "sat";
  }
}
