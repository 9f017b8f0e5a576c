/** The cron scheduler: `_parse_cron`, `_cron_matches` and the polling loop. */
module Scheduler {
  import opened PyText
  import opened Decimals

  // ---- _parse_field ----

  /** `s.split(c)` */
  function Split(s: string, c: char): (parts: seq<string>)
    ensures parts != []
    ensures forall i :: 0 <= i < |parts| ==> |parts[i]| <= |s| && c !in parts[i]
    ensures |parts| > 1 ==> forall i :: 0 <= i < |parts| ==> |parts[i]| < |s|
  {
    if s == "" then [""]
    else if s[0] == c then [""] + Split(s[1..], c)
    else
      var rest := Split(s[1..], c);
      [[s[0]] + rest[0]] + rest[1..]
  }

  /** `int(s)` for unsigned notation. */
  function ParseInt(s: string): Option<nat> {
    if s != "" && AllDigits(s) then Some(DigitsValue(s)) else None
  }

  /** `range(lo, hi + 1)` as a set */
  function Span(lo: int, hi: int): (r: set<int>)
    ensures forall v :: v in r <==> lo <= v <= hi
    decreases hi - lo + 1
  {
    if hi < lo then {} else Span(lo, hi - 1) + {hi}
  }

  predicate OnStep(v: int, start: int, step: int)
    requires step > 0
  {
    (v - start) % step == 0
  }

  /** `range(start, hi + 1, step)` as a set */
  function Stepped(start: int, hi: int, step: int): (r: set<int>)
    requires step > 0
    ensures forall v :: v in r <==> start <= v <= hi && OnStep(v, start, step)
    decreases hi - start + 1
  {
    if hi < start then {}
    else Stepped(start, hi - 1, step) + (if OnStep(hi, start, step) then {hi} else {})
  }

  ghost function MinOf(s: set<int>): (m: int)
    requires s != {}
    ensures m in s && forall v :: v in s ==> m <= v
  {
    HasMin(s);
    var x :| x in s && forall v :: v in s ==> x <= v;
    x
  }

  lemma {:induction false} HasMin(s: set<int>)
    requires s != {}
    ensures exists x :: x in s && forall v :: v in s ==> x <= v
    decreases |s|
  {
    var y := Element(s);
    if s == {y} {
      assert y in s && forall v :: v in s ==> y <= v;
    } else {
      var rest := s - {y};
      assert s == rest + {y};
      HasMin(rest);
      var x :| x in rest && forall v :: v in rest ==> x <= v;
      var z := if x <= y then x else y;
      assert z in s && forall v :: v in s ==> z <= v;
    }
  }

  lemma Element<T>(s: set<T>) returns (y: T)
    requires s != {}
    ensures y in s
  {
    y :| y in s;
  }

  ghost function ParseField(field: string, lo: int, hi: int): Option<set<int>>
    decreases |field|, 2
  {
    if field == "*" then Some(Span(lo, hi)) else ParseParts(Split(field, ','), |field|, lo, hi)
  }

  ghost function ParseParts(parts: seq<string>, bound: nat, lo: int, hi: int): Option<set<int>>
    requires forall i :: 0 <= i < |parts| ==> |parts[i]| <= bound
    decreases bound, 1, |parts|
  {
    if parts == [] then Some({})
    else
      match ParseParts(parts[..|parts| - 1], bound, lo, hi)
      case None => None
      case Some(values) =>
        match ParsePart(parts[|parts| - 1], lo, hi)
        case None => None
        case Some(more) => Some(values + more)
  }

  // A part is */N, N-M, N, N/S or N-M/S; the last two run on to the end of the field.
  ghost function ParsePart(part: string, lo: int, hi: int): Option<set<int>>
    decreases |part|, 0
  {
    if '/' in part then
      var pieces := Split(part, '/');
      if |pieces| != 2 then None else StepPart(ParseField(pieces[0], lo, hi), ParseInt(pieces[1]), lo, hi)
    else if '-' in part then
      var pieces := Split(part, '-');
      if |pieces| != 2 then None else RangePart(ParseInt(pieces[0]), ParseInt(pieces[1]))
    else
      match ParseInt(part)
      case Some(n) => Some({n as int})
      case None => None
  }

  ghost function StepPart(base: Option<set<int>>, step: Option<nat>, lo: int, hi: int): Option<set<int>> {
    if base.None? || step.None? || step.value == 0 then None
    else Some(Stepped(if base.value == {} then lo else MinOf(base.value), hi, step.value))
  }

  function RangePart(first: Option<nat>, last: Option<nat>): Option<set<int>> {
    if first.None? || last.None? then None else Some(Span(first.value, last.value))
  }

  /** `for v in range(start, hi + 1, step): if v <= hi: values.add(v)` */
  method AddStepped(values0: set<int>, start: int, hi: int, step: int) returns (values: set<int>)
    requires step > 0
    ensures values == values0 + Stepped(start, hi, step)
  {
    values := values0;
    var v := start;
    ghost var k := 0;
    assert Stepped(start, if start - 1 < hi then start - 1 else hi, step) == {};
    hide Stepped, OnStep;
    while v <= hi
      invariant v == start + k * step && k >= 0
      invariant values == values0 + Stepped(start, if v - 1 < hi then v - 1 else hi, step)
      decreases hi - v
    {
      SteppedGrows(start, v, step, k, hi);
      values := values + {v};
      v := v + step;
      k := k + 1;
    }
  }

  /** Between two multiples of the step nothing is added. */
  lemma SteppedGrows(start: int, v: int, step: int, k: int, hi: int)
    requires step > 0 && k >= 0 && v == start + k * step && v <= hi
    ensures Stepped(start, if v + step - 1 < hi then v + step - 1 else hi, step) == Stepped(start, v - 1, step) + {v}
  {
    hide Stepped, OnStep;
    var top := if v + step - 1 < hi then v + step - 1 else hi;
    assert v >= start by { Product(k, step); }
    forall w | v <= w <= top ensures OnStep(w, start, step) <==> w == v {
      OnStepOffset(start, v, step, k, w);
    }
    forall w ensures w in Stepped(start, top, step) <==> w in Stepped(start, v - 1, step) || w == v {
    }
  }

  lemma Product(k: int, step: int)
    requires step > 0 && k >= 0
    ensures k * step >= 0
  {
  }

  lemma OnStepOffset(start: int, v: int, step: int, k: int, w: int)
    requires step > 0 && v == start + k * step && v <= w < v + step
    ensures OnStep(w, start, step) <==> w == v
  {
    Remainder(w - start, step, k, w - v);
  }

  /** A quotient and a remainder below the divisor are the quotient and the remainder. */
  lemma Remainder(n: int, step: int, q: int, r: int)
    requires step > 0 && n == q * step + r && 0 <= r < step
    ensures n % step == r
  {
    var d := q - n / step;
    assert d * step == n % step - r;
    SmallMultiple(d, step);
  }

  lemma SmallMultiple(d: int, step: int)
    requires step > 0 && -step < d * step < step
    ensures d == 0
  {
    if d >= 1 {
      Product(d - 1, step);
    } else if d <= -1 {
      Product(-d - 1, step);
    }
  }

  method ParseFieldValues(field: string, lo: int, hi: int) returns (r: Option<set<int>>)
    ensures r == ParseField(field, lo, hi)
    decreases |field|, 1
  {
    if field == "*" {
      return Some(Span(lo, hi));
    }
    var values: set<int> := {};
    var parts := Split(field, ',');
    for i := 0 to |parts|
      invariant ParseParts(parts[..i], |field|, lo, hi) == Some(values)
      invariant ParseParts(parts, |field|, lo, hi).Some? ==> ParseParts(parts[..i], |field|, lo, hi).Some?
    {
      assert parts[..i + 1][..i] == parts[..i];
      var more := ParsePartValues(parts[i], lo, hi, |field|);
      if more.None? {
        PartsFail(parts, i, |field|, lo, hi);
        return None;
      }
      values := values + more.value;
    }
    assert parts[..|parts|] == parts;
    return Some(values);
  }

  lemma {:induction false} PartsFail(parts: seq<string>, i: nat, bound: nat, lo: int, hi: int)
    requires i < |parts| && ParsePart(parts[i], lo, hi) == None
    requires forall k :: 0 <= k < |parts| ==> |parts[k]| <= bound
    ensures ParseParts(parts, bound, lo, hi) == None
    decreases |parts|
  {
    if i < |parts| - 1 {
      PartsFail(parts[..|parts| - 1], i, bound, lo, hi);
    }
  }

  method ParsePartValues(part: string, lo: int, hi: int, ghost bound: nat) returns (r: Option<set<int>>)
    requires |part| <= bound
    ensures r == ParsePart(part, lo, hi)
    decreases |part|, 0
  {
    if '/' in part {
      var pieces := Split(part, '/');
      if |pieces| != 2 {
        return None;
      }
      var base := ParseFieldValues(pieces[0], lo, hi);
      var step := ParseInt(pieces[1]);
      if base.None? || step.None? || step.value == 0 {
        return None;
      }
      var start := lo;
      if base.value != {} {
        start := Smallest(base.value);
      }
      var values := AddStepped({}, start, hi, step.value);
      assert values == Stepped(start, hi, step.value);
      return Some(values);
    } else if '-' in part {
      var pieces := Split(part, '-');
      if |pieces| != 2 {
        return None;
      }
      var a, b := ParseInt(pieces[0]), ParseInt(pieces[1]);
      if a.None? || b.None? {
        return None;
      }
      return Some(Span(a.value, b.value));
    } else {
      var n := ParseInt(part);
      return if n.Some? then Some({n.value as int}) else None;
    }
  }

  method Smallest(s: set<int>) returns (m: int)
    requires s != {}
    ensures m == MinOf(s)
  {
    ghost var member := Element(s);
    m :| m in s;
    var rest := s - {m};
    while rest != {}
      invariant rest <= s && m in s
      invariant forall v :: v in s ==> v in rest || m <= v
      decreases rest
    {
      member := Element(rest);
      var v :| v in rest;
      if v < m {
        m := v;
      }
      rest := rest - {v};
    }
    assert m <= MinOf(s) <= m;
  }

  // ---- cron expressions as data ----

  datatype Part =
    | Every(step: nat)
    | Value(n: nat)
    | Range(first: nat, last: nat)
    | EveryFrom(n: nat, step: nat)
    | EveryIn(first: nat, last: nat, step: nat)
  datatype Field = Star | List(parts: seq<Part>)

  predicate ValidPart(p: Part) { p.Every? || p.EveryFrom? || p.EveryIn? ==> p.step >= 1 }

  predicate ValidField(f: Field) {
    f.List? ==> f.parts != [] && forall i :: 0 <= i < |f.parts| ==> ValidPart(f.parts[i])
  }

  function PrintPart(p: Part): string {
    match p
    case Every(n) => "*" + "/" + Decimal(n)
    case Value(n) => Decimal(n)
    case Range(a, b) => Decimal(a) + "-" + Decimal(b)
    case EveryFrom(n, step) => Decimal(n) + "/" + Decimal(step)
    case EveryIn(a, b, step) => Decimal(a) + "-" + Decimal(b) + "/" + Decimal(step)
  }

  function PrintParts(parts: seq<Part>): seq<string> {
    if parts == [] then [] else [PrintPart(parts[0])] + PrintParts(parts[1..])
  }

  function JoinBy(pieces: seq<string>, c: char): string
    requires pieces != []
  {
    if |pieces| == 1 then pieces[0] else pieces[0] + [c] + JoinBy(pieces[1..], c)
  }

  function PrintField(f: Field): string
    requires ValidField(f)
  {
    match f
    case Star => "*"
    case List(parts) => JoinBy(PrintParts(parts), ',')
  }

  /** Steps from a value or a range run on to the end of the field, from its beginning if the range is empty. */
  function DenotePart(p: Part, lo: int, hi: int): set<int>
    requires ValidPart(p)
  {
    match p
    case Every(n) => Stepped(lo, hi, n)
    case Value(n) => {n as int}
    case Range(a, b) => Span(a, b)
    case EveryFrom(n, step) => Stepped(n, hi, step)
    case EveryIn(a, b, step) => Stepped(if a <= b then a else lo, hi, step)
  }

  function DenoteParts(parts: seq<Part>, lo: int, hi: int): set<int>
    requires forall i :: 0 <= i < |parts| ==> ValidPart(parts[i])
  {
    if parts == [] then {} else DenoteParts(parts[..|parts| - 1], lo, hi) + DenotePart(parts[|parts| - 1], lo, hi)
  }

  function Denote(f: Field, lo: int, hi: int): set<int>
    requires ValidField(f)
  {
    match f
    case Star => Span(lo, hi)
    case List(parts) => DenoteParts(parts, lo, hi)
  }

  lemma {:induction false} SplitPlain(s: string, c: char)
    requires c !in s
    ensures Split(s, c) == [s]
  {
    if s != "" {
      SplitPlain(s[1..], c);
      assert [s[0]] + s[1..] == s;
    }
  }

  lemma {:induction false} SplitFirst(s: string, c: char, t: string)
    requires c !in s
    ensures Split(s + [c] + t, c) == [s] + Split(t, c)
  {
    var u := s + [c] + t;
    if s == "" {
      assert u[0] == c && u[1..] == t;
    } else {
      assert u[1..] == s[1..] + [c] + t && u[0] == s[0];
      SplitFirst(s[1..], c, t);
      var rest := [s[1..]] + Split(t, c);
      assert [s[0]] + s[1..] == s;
      assert rest[1..] == Split(t, c);
    }
  }

  lemma {:induction false} SplitJoinBy(pieces: seq<string>, c: char)
    requires pieces != [] && forall i :: 0 <= i < |pieces| ==> c !in pieces[i]
    ensures Split(JoinBy(pieces, c), c) == pieces
  {
    if |pieces| == 1 {
      SplitPlain(pieces[0], c);
    } else {
      SplitJoinBy(pieces[1..], c);
      SplitFirst(pieces[0], c, JoinBy(pieces[1..], c));
    }
  }

  lemma DigitsHold(n: nat)
    ensures var d := Decimal(n); '/' !in d && '-' !in d && ',' !in d && '*' !in d && ParseInt(d) == Some(n)
  {
    DecimalValue(n);
  }

  lemma RangePiece(a: nat, b: nat)
    ensures Split(Decimal(a) + "-" + Decimal(b), '-') == [Decimal(a), Decimal(b)]
  {
    DigitsHold(a);
    DigitsHold(b);
    SplitFirst(Decimal(a), '-', Decimal(b));
    SplitPlain(Decimal(b), '-');
    assert Decimal(a) + ['-'] + Decimal(b) == Decimal(a) + "-" + Decimal(b);
  }

  /** A field of one part without commas. */
  lemma OnePartField(part: string, lo: int, hi: int)
    requires ',' !in part && part != "*"
    ensures ParseField(part, lo, hi) == ParsePart(part, lo, hi)
  {
    SplitPlain(part, ',');
    assert [part][..0] == [];
    assert ParseParts([part], |part|, lo, hi) == ParsePart(part, lo, hi) by {
      assert ParseParts([], |part|, lo, hi) == Some({});
      if ParsePart(part, lo, hi).Some? {
        assert {} + ParsePart(part, lo, hi).value == ParsePart(part, lo, hi).value;
      }
    }
  }

  lemma ValuePart(n: nat, lo: int, hi: int)
    ensures ParsePart(Decimal(n), lo, hi) == Some({n as int})
    ensures ParseField(Decimal(n), lo, hi) == Some({n as int})
  {
    hide Split, Decimal, ParseInt;
    DigitsHold(n);
    OnePartField(Decimal(n), lo, hi);
  }

  lemma RangeText(a: nat, b: nat)
    ensures var s := Decimal(a) + "-" + Decimal(b);
            s != "*" && ',' !in s && '/' !in s && '-' in s
  {
    hide Decimal, ParseInt;
    DigitsHold(a);
    DigitsHold(b);
    var s := Decimal(a) + "-" + Decimal(b);
    assert s[|Decimal(a)|] == '-';
  }

  lemma RangeFieldParses(a: nat, b: nat, lo: int, hi: int)
    ensures var s := Decimal(a) + "-" + Decimal(b);
            ParsePart(s, lo, hi) == ParseField(s, lo, hi) == Some(Span(a, b))
  {
    hide Split, Decimal, ParseInt;
    var s := Decimal(a) + "-" + Decimal(b);
    RangeText(a, b);
    DigitsHold(a);
    DigitsHold(b);
    RangePiece(a, b);
    OnePartField(s, lo, hi);
  }

  /** `base/step`. */
  lemma StepParses(base: string, step: nat, lo: int, hi: int)
    requires '/' !in base && ',' !in base
    ensures var s := base + "/" + Decimal(step);
            ParsePart(s, lo, hi) == StepPart(ParseField(base, lo, hi), Some(step), lo, hi) && ',' !in s
  {
    hide Decimal, ParseInt, ParseField, StepPart;
    DigitsHold(step);
    var s := base + "/" + Decimal(step);
    assert s[|base|] == '/' && s == base + ['/'] + Decimal(step);
    SplitFirst(base, '/', Decimal(step));
    SplitPlain(Decimal(step), '/');
    hide Split;
    assert Split(s, '/') == [base, Decimal(step)];
  }

  lemma MinOfSpan(a: int, b: int)
    requires a <= b
    ensures Span(a, b) != {} && MinOf(Span(a, b)) == a
  {
    assert a in Span(a, b);
  }

  lemma PartRoundTrip(p: Part, lo: int, hi: int)
    requires ValidPart(p) && lo <= hi
    ensures ParsePart(PrintPart(p), lo, hi) == Some(DenotePart(p, lo, hi))
    ensures ',' !in PrintPart(p)
  {
    hide Split, Decimal, ParseInt, ParsePart, Stepped, MinOf;
    match p
    case Every(n) =>
      StepParses("*", n, lo, hi);
      MinOfSpan(lo, hi);
      assert ParseField("*", lo, hi) == Some(Span(lo, hi));
    case Value(n) =>
      DigitsHold(n);
      ValuePart(n, lo, hi);
    case Range(a, b) =>
      RangeText(a, b);
      RangeFieldParses(a, b, lo, hi);
    case EveryFrom(n, step) =>
      DigitsHold(n);
      ValuePart(n, lo, hi);
      StepParses(Decimal(n), step, lo, hi);
      assert n as int in {n as int};
      OnlyMember(n);
    case EveryIn(a, b, step) =>
      RangeText(a, b);
      RangeFieldParses(a, b, lo, hi);
      StepParses(Decimal(a) + "-" + Decimal(b), step, lo, hi);
      if a <= b {
        MinOfSpan(a, b);
      } else {
        assert Span(a, b) == {};
      }
  }

  lemma OnlyMember(n: int)
    ensures {n} != {} && MinOf({n}) == n
  {
    assert MinOf({n}) in {n};
  }

  /** What is no number is not accepted, nor is a step of zero. */
  lemma FieldRejects(s: string, base: string, lo: int, hi: int)
    ensures s != "*" && ',' !in s && '/' !in s && '-' !in s && (s == "" || !AllDigits(s)) ==> ParseField(s, lo, hi) == None
    ensures '/' !in base && ',' !in base ==> ParseField(base + "/" + Decimal(0), lo, hi) == None
  {
    if s != "*" && ',' !in s && '/' !in s && '-' !in s && (s == "" || !AllDigits(s)) {
      OnePartField(s, lo, hi);
    }
    if '/' !in base && ',' !in base {
      StepParses(base, 0, lo, hi);
      StepIsNotStar(base);
      OnePartField(base + "/" + Decimal(0), lo, hi);
    }
  }

  lemma StepIsNotStar(base: string)
    ensures base + "/" + Decimal(0) != "*"
  {
    assert (base + "/" + Decimal(0))[|base|] == '/';
    assert |base + "/" + Decimal(0)| >= 2;
  }

  lemma {:induction false} PrintPartsIndexed(parts: seq<Part>)
    ensures |PrintParts(parts)| == |parts|
    ensures forall i :: 0 <= i < |parts| ==> PrintParts(parts)[i] == PrintPart(parts[i])
  {
    hide PrintPart;
    if parts != [] {
      PrintPartsIndexed(parts[1..]);
      assert forall i :: 0 < i < |parts| ==> parts[i] == parts[1..][i - 1];
    }
  }

  lemma {:induction false} PartsRoundTrip(parts: seq<Part>, texts: seq<string>, bound: nat, lo: int, hi: int)
    requires lo <= hi && |texts| == |parts|
    requires forall i :: 0 <= i < |parts| ==> ValidPart(parts[i]) && texts[i] == PrintPart(parts[i]) && |texts[i]| <= bound
    ensures ParseParts(texts, bound, lo, hi) == Some(DenoteParts(parts, lo, hi))
    decreases |parts|
  {
    if parts != [] {
      var n := |parts| - 1;
      PartsRoundTrip(parts[..n], texts[..n], bound, lo, hi);
      PartRoundTrip(parts[n], lo, hi);
    }
  }

  // Every field built from *, */N, N, N-M, N/S, N-M/S and lists of these parses to the set it denotes.
  lemma FieldRoundTrip(f: Field, lo: int, hi: int)
    requires ValidField(f) && lo <= hi
    ensures ParseField(PrintField(f), lo, hi) == Some(Denote(f, lo, hi))
  {
    if f.List? {
      var texts := PrintParts(f.parts);
      var s := PrintField(f);
      PrintPartsIndexed(f.parts);
      forall i | 0 <= i < |texts| ensures ',' !in texts[i] {
        PartRoundTrip(f.parts[i], lo, hi);
      }
      SplitJoinBy(texts, ',');
      assert Split(s, ',') == texts;
      ListIsNotStar(f);
      PartsRoundTrip(f.parts, texts, |s|, lo, hi);
    }
  }

  lemma ListIsNotStar(f: Field)
    requires ValidField(f) && f.List?
    ensures PrintField(f) != "*"
  {
    var texts := PrintParts(f.parts);
    PrintPartsIndexed(f.parts);
    var t := texts[0];
    hide Decimal;
    match f.parts[0]
    case Every(n) => assert |t| >= 3;
    case Value(n) => DigitsHold(n); assert t[0] in t;
    case Range(a, b) => assert |t| >= 3;
    case EveryFrom(n, step) => assert |t| >= 3;
    case EveryIn(a, b, step) => assert |t| >= 3;
  }

  // ---- schedules ----

  /** The fields `_cron_matches` reads from a datetime; weekdays as `datetime.weekday()`. */
  datatype Moment = Moment(minute: int, hour: int, day: int, month: int, weekday: int)

  datatype Cron = Cron(minute: set<int>, hour: set<int>, day: set<int>, month: set<int>, weekday: set<int>)

  /** The five fields of an expression, after `split()`. */
  ghost function ParseCron(fields: seq<string>): Option<Cron> {
    if |fields| != 5 then None
    else
      match (ParseField(fields[0], 0, 59), ParseField(fields[1], 0, 23), ParseField(fields[2], 1, 31),
             ParseField(fields[3], 1, 12), ParseField(fields[4], 0, 6))
      case (Some(m), Some(h), Some(d), Some(mo), Some(w)) => Some(Cron(m, h, d, mo, w))
      case _ => None
  }

  predicate CronMatches(c: Cron, at: Moment) {
    at.minute in c.minute && at.hour in c.hour && at.day in c.day && at.month in c.month && at.weekday in c.weekday
  }

  datatype Expr = Expr(minute: Field, hour: Field, day: Field, month: Field, weekday: Field)

  predicate ValidExpr(e: Expr) {
    ValidField(e.minute) && ValidField(e.hour) && ValidField(e.day) && ValidField(e.month) && ValidField(e.weekday)
  }

  function PrintExpr(e: Expr): seq<string>
    requires ValidExpr(e)
  {
    [PrintField(e.minute), PrintField(e.hour), PrintField(e.day), PrintField(e.month), PrintField(e.weekday)]
  }

  /** What an expression means at a moment. */
  predicate Denotes(e: Expr, at: Moment)
    requires ValidExpr(e)
  {
    && at.minute in Denote(e.minute, 0, 59) && at.hour in Denote(e.hour, 0, 23) && at.day in Denote(e.day, 1, 31)
    && at.month in Denote(e.month, 1, 12) && at.weekday in Denote(e.weekday, 0, 6)
  }

  lemma CronRoundTrip(e: Expr)
    requires ValidExpr(e)
    ensures var c := ParseCron(PrintExpr(e));
            c.Some? && forall at :: CronMatches(c.value, at) <==> Denotes(e, at)
  {
    hide ParseField, PrintField, Denote;
    FieldRoundTrip(e.minute, 0, 59);
    FieldRoundTrip(e.hour, 0, 23);
    FieldRoundTrip(e.day, 1, 31);
    FieldRoundTrip(e.month, 1, 12);
    FieldRoundTrip(e.weekday, 0, 6);
  }

  // ---- the polling loop ----

  /** Times in microseconds; the calendar gives the moment of each minute. */
  const MINUTE := 60_000_000

  type Calendar = int -> Moment

  function MinuteOf(t: int): int { t / MINUTE }

  /** The last run: a time with a time zone, as the loop writes it, or one without, as a database column
      may give it back; comparing the latter with the present time raises. */
  datatype Recorded = Never | At(time: int) | Naive

  datatype Job = Job(cron: Cron, lastRun: Recorded)

  predicate Due(cal: Calendar, job: Job, now: int) {
    && (job.lastRun.Never? || (job.lastRun.At? && MinuteOf(job.lastRun.time) < MinuteOf(now)))
    && CronMatches(job.cron, cal(MinuteOf(now)))
  }

  function PollJob(cal: Calendar, job: Job, now: int): Job {
    if Due(cal, job, now) then job.(lastRun := At(now)) else job
  }

  /** The job table in the order of its keys. */
  datatype Entry = Entry(id: string, job: Job)

  predicate DistinctJobs(jobs: seq<Entry>) {
    forall i, j :: 0 <= i < j < |jobs| ==> jobs[i].id != jobs[j].id
  }

  datatype Passed = Passed(jobs: seq<Entry>, triggered: seq<string>, aborted: bool)

  /** One pass: disabled jobs are dropped, due ones triggered, and a naive recorded run ends the pass. */
  function Pass(cal: Calendar, jobs: seq<Entry>, now: int, enabled: string -> bool): Passed {
    if jobs == [] then Passed([], [], false)
    else
      var e := jobs[0];
      if !enabled(e.id) then Pass(cal, jobs[1..], now, enabled)
      else if e.job.lastRun.Naive? then Passed(jobs, [], true)
      else
        var p := Pass(cal, jobs[1..], now, enabled);
        Passed([Entry(e.id, PollJob(cal, e.job, now))] + p.jobs,
               (if Due(cal, e.job, now) then [e.id] else []) + p.triggered, p.aborted)
  }

  function IndexOf(jobs: seq<Entry>, id: string): (k: nat)
    ensures k <= |jobs|
    ensures k < |jobs| ==> jobs[k].id == id
    ensures forall i :: 0 <= i < k ==> jobs[i].id != id
  {
    if jobs == [] || jobs[0].id == id then 0 else 1 + IndexOf(jobs[1..], id)
  }

  class CronScheduler {
    const calendar: Calendar
    var jobs: seq<Entry>

    ghost predicate Valid() reads this { DistinctJobs(jobs) }

    constructor (calendar: Calendar)
      ensures Valid() && this.calendar == calendar && jobs == []
    {
      this.calendar := calendar;
      jobs := [];
    }

    /** A known job keeps its place in the table. */
    method AddJob(id: string, cron: Cron, lastRun: Recorded)
      requires Valid()
      modifies this
      ensures Valid()
      ensures var k := IndexOf(old(jobs), id);
              jobs == old(jobs)[..k] + [Entry(id, Job(cron, lastRun))] + if k < |old(jobs)| then old(jobs)[k + 1..] else []
    {
      var k := IndexOf(jobs, id);
      jobs := jobs[..k] + [Entry(id, Job(cron, lastRun))] + if k < |jobs| then jobs[k + 1..] else [];
    }

    method RemoveJob(id: string)
      requires Valid()
      modifies this
      ensures Valid() && forall e :: e in jobs <==> e in old(jobs) && e.id != id
    {
      var k := IndexOf(jobs, id);
      if k < |jobs| {
        ghost var was := jobs;
        jobs := jobs[..k] + jobs[k + 1..];
        forall e ensures e in jobs <==> e in was && e.id != id {
          if e in was && e.id != id {
            var i :| 0 <= i < |was| && was[i] == e;
            assert jobs[if i < k then i else i - 1] == e;
          }
        }
      }
    }

    /** One pass over a snapshot of the jobs; an exception ends it and is logged.  A pass that is not
        ended so drops the disabled jobs and triggers the due ones. */
    method Poll(now: int, enabled: string -> bool) returns (triggered: seq<string>, aborted: bool)
      requires Valid()
      modifies this
      ensures Valid() && Passed(jobs, triggered, aborted) == Pass(calendar, old(jobs), now, enabled)
      ensures aborted <==> Stuck(old(jobs), enabled)
      ensures !aborted ==> forall e :: e in jobs <==> IsPolled(calendar, old(jobs), e, now, enabled)
      ensures !aborted ==> forall id :: id in triggered <==> IsTriggered(calendar, old(jobs), id, now, enabled)
    {
      hide Pass, Stuck, IsPolled, IsTriggered, DistinctJobs, CronMatches;
      var snapshot := jobs;
      triggered := [];
      var kept := 0;
      ghost var goal := Pass(calendar, snapshot, now, enabled);
      for i := 0 to |snapshot|
        invariant kept <= |jobs| && jobs[kept..] == snapshot[i..]
        invariant goal == Joined(jobs[..kept], triggered, Pass(calendar, snapshot[i..], now, enabled))
      {
        var e := snapshot[i];
        ghost var before, rest := jobs[..kept], snapshot[i + 1..];
        assert snapshot[i..] == [e] + rest && jobs == before + [e] + rest;
        PassStep(calendar, e, rest, now, enabled, before, triggered);
        if !enabled(e.id) {
          jobs := jobs[..kept] + jobs[kept + 1..];
          assert jobs[..kept] == before && jobs[kept..] == rest;
        } else {
          if e.job.lastRun.Naive? {
            PassIsWhole(calendar, snapshot, now, enabled);
            return triggered, true;
          }
          if !(e.job.lastRun.At? && MinuteOf(e.job.lastRun.time) >= MinuteOf(now)) {
            if CronMatches(e.job.cron, calendar(MinuteOf(now))) {
              jobs := jobs[kept := Entry(e.id, e.job.(lastRun := At(now)))];
              triggered := triggered + [e.id];
            }
          }
          kept := kept + 1;
          assert jobs[..kept] == before + [Entry(e.id, PollJob(calendar, e.job, now))] && jobs[kept..] == rest;
        }
      }
      assert snapshot[|snapshot|..] == [] && jobs[..kept] == jobs;
      PassNone(calendar, now, enabled);
      assert triggered + [] == triggered && jobs + [] == jobs;
      PassIsWhole(calendar, snapshot, now, enabled);
      return triggered, false;
    }
  }

  predicate IsNaive(e: Entry, enabled: string -> bool) { enabled(e.id) && e.job.lastRun.Naive? }

  /** Some enabled job has a naive recorded run. */
  predicate Stuck(jobs: seq<Entry>, enabled: string -> bool) {
    exists i :: 0 <= i < |jobs| && IsNaive(jobs[i], enabled)
  }

  /** `e` is an enabled job of the table after it has been polled. */
  predicate IsPolled(cal: Calendar, jobs: seq<Entry>, e: Entry, now: int, enabled: string -> bool) {
    exists i :: 0 <= i < |jobs| && enabled(jobs[i].id) && e == Entry(jobs[i].id, PollJob(cal, jobs[i].job, now))
  }

  predicate IsTriggered(cal: Calendar, jobs: seq<Entry>, id: string, now: int, enabled: string -> bool) {
    exists i :: 0 <= i < |jobs| && jobs[i].id == id && enabled(id) && Due(cal, jobs[i].job, now)
  }

  /** What a pass does to the table as a whole. */
  lemma {:induction false} PassIsWhole(cal: Calendar, jobs: seq<Entry>, now: int, enabled: string -> bool)
    requires DistinctJobs(jobs)
    ensures var p := Pass(cal, jobs, now, enabled);
            && DistinctJobs(p.jobs) && (p.aborted <==> Stuck(jobs, enabled))
            && (forall id :: Absent(jobs, id) ==> Absent(p.jobs, id))
            && (!p.aborted ==> forall e :: e in p.jobs <==> IsPolled(cal, jobs, e, now, enabled))
            && (!p.aborted ==> forall id :: id in p.triggered <==> IsTriggered(cal, jobs, id, now, enabled))
  {
    hide Due, PollJob;
    if jobs != [] {
      PassIsWhole(cal, jobs[1..], now, enabled);
      FirstOfTable(cal, jobs, now, enabled);
      hide IsPolled, IsTriggered, Stuck, Absent;
      var e, q := jobs[0], Pass(cal, jobs[1..], now, enabled);
      if enabled(e.id) && !e.job.lastRun.Naive? {
        assert Absent(q.jobs, e.id);
        FreshFirst(Entry(e.id, PollJob(cal, e.job, now)), q.jobs);
      }
    }
  }

  lemma FreshFirst(e: Entry, jobs: seq<Entry>)
    requires DistinctJobs(jobs) && Absent(jobs, e.id)
    ensures DistinctJobs([e] + jobs) && forall id :: Absent([e] + jobs, id) <==> id != e.id && Absent(jobs, id)
  {
    var all := [e] + jobs;
    assert all[1..] == jobs;
    assert forall i :: 0 < i < |all| ==> all[i] == jobs[i - 1];
    forall id ensures Absent(all, id) <==> id != e.id && Absent(jobs, id) {
      AbsentFirst(all, id);
    }
  }

  /** The four notions, split at the first job. */
  lemma FirstOfTable(cal: Calendar, jobs: seq<Entry>, now: int, enabled: string -> bool)
    requires jobs != []
    ensures DistinctJobs(jobs) ==> Absent(jobs[1..], jobs[0].id)
    ensures forall id :: Absent(jobs, id) <==> jobs[0].id != id && Absent(jobs[1..], id)
    ensures Stuck(jobs, enabled) <==> IsNaive(jobs[0], enabled) || Stuck(jobs[1..], enabled)
    ensures forall e :: IsPolled(cal, jobs, e, now, enabled) <==>
              (enabled(jobs[0].id) && e == Entry(jobs[0].id, PollJob(cal, jobs[0].job, now)))
              || IsPolled(cal, jobs[1..], e, now, enabled)
    ensures forall id :: IsTriggered(cal, jobs, id, now, enabled) <==>
              (jobs[0].id == id && enabled(id) && Due(cal, jobs[0].job, now))
              || IsTriggered(cal, jobs[1..], id, now, enabled)
  {
    hide Due, PollJob;
    assert forall i :: 0 < i < |jobs| ==> jobs[i] == jobs[1..][i - 1];
    assert forall i :: 0 <= i < |jobs[1..]| ==> jobs[1..][i] == jobs[i + 1];
    StuckFirst(jobs, enabled);
    forall id ensures Absent(jobs, id) <==> jobs[0].id != id && Absent(jobs[1..], id) {
      AbsentFirst(jobs, id);
    }
  }

  function Joined(before: seq<Entry>, triggered: seq<string>, p: Passed): Passed {
    Passed(before + p.jobs, triggered + p.triggered, p.aborted)
  }

  lemma PassNone(cal: Calendar, now: int, enabled: string -> bool)
    ensures Pass(cal, [], now, enabled) == Passed([], [], false)
  {
  }

  lemma PassStep(cal: Calendar, e: Entry, rest: seq<Entry>, now: int, enabled: string -> bool,
                 before: seq<Entry>, triggered: seq<string>)
    ensures Joined(before, triggered, Pass(cal, [e] + rest, now, enabled)) ==
            if !enabled(e.id) then Joined(before, triggered, Pass(cal, rest, now, enabled))
            else if e.job.lastRun.Naive? then Passed(before + [e] + rest, triggered, true)
            else Joined(before + [Entry(e.id, PollJob(cal, e.job, now))],
                       triggered + (if Due(cal, e.job, now) then [e.id] else []), Pass(cal, rest, now, enabled))
  {
    hide Due, PollJob;
    assert ([e] + rest)[1..] == rest;
    var p := Pass(cal, rest, now, enabled);
    Reassociate(before, [Entry(e.id, PollJob(cal, e.job, now))], p.jobs);
    Reassociate(triggered, if Due(cal, e.job, now) then [e.id] else [], p.triggered);
    Reassociate(before, [e], rest);
  }

  // ---- one enabled job over a sequence of polls ----

  function JobAfter(cal: Calendar, job: Job, polls: seq<int>): Job {
    if polls == [] then job else PollJob(cal, JobAfter(cal, job, polls[..|polls| - 1]), polls[|polls| - 1])
  }

  /** How often the polls triggered the job in minute `m`. */
  function TriggersIn(cal: Calendar, job: Job, polls: seq<int>, m: int): nat {
    if polls == [] then 0
    else
      var n := |polls| - 1;
      TriggersIn(cal, job, polls[..n], m)
      + (if MinuteOf(polls[n]) == m && Due(cal, JobAfter(cal, job, polls[..n]), polls[n]) then 1 else 0)
  }

  predicate InOrder(polls: seq<int>) {
    forall i, j :: 0 <= i < j < |polls| ==> polls[i] <= polls[j]
  }

  predicate AtMostAMinuteApart(polls: seq<int>) {
    forall i :: 0 <= i < |polls| - 1 ==> polls[i + 1] - polls[i] <= MINUTE
  }

  predicate PolledIn(polls: seq<int>, m: int) {
    exists i :: 0 <= i < |polls| && MinuteOf(polls[i]) == m
  }

  /** The job last ran, if ever, before minute `m`. */
  predicate RanBefore(job: Job, m: int) {
    job.lastRun.Never? || (job.lastRun.At? && MinuteOf(job.lastRun.time) < m)
  }

  lemma MinuteMonotone(s: int, t: int)
    requires s <= t
    ensures MinuteOf(s) <= MinuteOf(t)
  {
  }

  /** `m` is a minute no earlier than every poll so far. */
  lemma {:induction false} LastRunTells(cal: Calendar, job: Job, polls: seq<int>, m: int)
    requires InOrder(polls) && RanBefore(job, m)
    requires forall i :: 0 <= i < |polls| ==> MinuteOf(polls[i]) <= m
    ensures var j := JobAfter(cal, job, polls);
            && j.cron == job.cron
            && (RanBefore(j, m) <==> TriggersIn(cal, job, polls, m) == 0)
    ensures TriggersIn(cal, job, polls, m) ==
            if PolledIn(polls, m) && CronMatches(job.cron, cal(m)) then 1 else 0
    decreases |polls|
  {
    if polls != [] {
      var n := |polls| - 1;
      var init, t := polls[..n], polls[n];
      LastRunTells(cal, job, init, m);
      if MinuteOf(t) == m {
        assert PolledIn(polls, m);
      } else {
        assert forall i :: 0 <= i < n ==> MinuteOf(polls[i]) <= MinuteOf(t);
      }
    }
  }

  /** Polls after minute `m` add nothing to it. */
  lemma {:induction false} LaterPollsAddNothing(cal: Calendar, job: Job, polls: seq<int>, k: nat, m: int)
    requires k <= |polls| && forall i :: k <= i < |polls| ==> MinuteOf(polls[i]) > m
    ensures TriggersIn(cal, job, polls, m) == TriggersIn(cal, job, polls[..k], m)
    decreases |polls| - k
  {
    if k < |polls| {
      var n := |polls| - 1;
      LaterPollsAddNothing(cal, job, polls[..n], k, m);
      assert polls[..n][..k] == polls[..k];
    } else {
      assert polls[..k] == polls;
    }
  }

  /** The number of polls up to the end of minute `m`. */
  function UpToMinute(polls: seq<int>, m: int): (k: nat)
    requires InOrder(polls)
    ensures k <= |polls|
    ensures forall i :: 0 <= i < k ==> MinuteOf(polls[i]) <= m
    ensures forall i :: k <= i < |polls| ==> MinuteOf(polls[i]) > m
  {
    if polls == [] then 0
    else
      var n := |polls| - 1;
      if MinuteOf(polls[n]) <= m then
        assert forall i :: 0 <= i < n ==> MinuteOf(polls[i]) <= m by {
          forall i | 0 <= i < n ensures MinuteOf(polls[i]) <= m {
            MinuteMonotone(polls[i], polls[n]);
          }
        }
        |polls|
      else UpToMinute(polls[..n], m)
  }

  /** In any minute after the last recorded run the job is triggered exactly once if some poll falls
      into the minute and the expression matches it, and otherwise not at all. */
  lemma TriggersExactly(cal: Calendar, job: Job, polls: seq<int>, m: int)
    requires InOrder(polls) && RanBefore(job, m)
    ensures TriggersIn(cal, job, polls, m) == if PolledIn(polls, m) && CronMatches(job.cron, cal(m)) then 1 else 0
  {
    var k := UpToMinute(polls, m);
    LastRunTells(cal, job, polls[..k], m);
    LaterPollsAddNothing(cal, job, polls, k, m);
    assert PolledIn(polls, m) <==> PolledIn(polls[..k], m) by {
      if PolledIn(polls, m) {
        var i :| 0 <= i < |polls| && MinuteOf(polls[i]) == m;
        assert polls[..k][i] == polls[i];
      }
      if PolledIn(polls[..k], m) {
        var i :| 0 <= i < k && MinuteOf(polls[..k][i]) == m;
        assert polls[i] == polls[..k][i];
      }
    }
  }

  /** No minute sees two triggers, and a minute at or before the last recorded run sees none. */
  lemma {:induction false} NeverTwiceInAMinute(cal: Calendar, job: Job, polls: seq<int>, m: int)
    requires InOrder(polls)
    ensures TriggersIn(cal, job, polls, m) <= 1
    ensures !RanBefore(job, m) ==> TriggersIn(cal, job, polls, m) == 0
  {
    if RanBefore(job, m) {
      TriggersExactly(cal, job, polls, m);
    } else {
      OldMinuteStaysOld(cal, job, polls, m);
    }
  }

  lemma {:induction false} OldMinuteStaysOld(cal: Calendar, job: Job, polls: seq<int>, m: int)
    requires !RanBefore(job, m)
    ensures TriggersIn(cal, job, polls, m) == 0
    ensures !RanBefore(JobAfter(cal, job, polls), m)
    decreases |polls|
  {
    if polls != [] {
      OldMinuteStaysOld(cal, job, polls[..|polls| - 1], m);
    }
  }

  /** Polls at most a minute apart visit every whole minute they span. */
  lemma {:induction false} WholeMinutesArePolled(polls: seq<int>, m: int)
    requires polls != [] && InOrder(polls) && AtMostAMinuteApart(polls)
    requires polls[0] <= m * MINUTE <= polls[|polls| - 1]
    ensures PolledIn(polls, m)
    decreases |polls|
  {
    var n := |polls| - 1;
    if n == 0 {
      assert MinuteOf(polls[0]) == m;
    } else if polls[n - 1] >= m * MINUTE {
      WholeMinutesArePolled(polls[..n], m);
      var i :| 0 <= i < n && MinuteOf(polls[..n][i]) == m;
      assert MinuteOf(polls[i]) == m;
    } else {
      assert m * MINUTE <= polls[n] < m * MINUTE + MINUTE;
      assert MinuteOf(polls[n]) == m;
    }
  }

  // ---- the whole table over a sequence of passes ----

  function JobsAfter(cal: Calendar, jobs: seq<Entry>, enabled: string -> bool, polls: seq<int>): seq<Entry> {
    if polls == [] then jobs
    else Pass(cal, JobsAfter(cal, jobs, enabled, polls[..|polls| - 1]), polls[|polls| - 1], enabled).jobs
  }

  /** How often the passes at `polls` triggered the job `id` in minute `m`. */
  function PassesTriggering(cal: Calendar, jobs: seq<Entry>, enabled: string -> bool, polls: seq<int>, id: string, m: int): nat {
    if polls == [] then 0
    else
      var n := |polls| - 1;
      PassesTriggering(cal, jobs, enabled, polls[..n], id, m)
      + (if MinuteOf(polls[n]) == m
            && id in Pass(cal, JobsAfter(cal, jobs, enabled, polls[..n]), polls[n], enabled).triggered then 1 else 0)
  }

  predicate Absent(jobs: seq<Entry>, id: string) {
    forall i :: 0 <= i < |jobs| ==> jobs[i].id != id
  }

  /** A pass over the jobs before some job: it ends among them exactly if one of them is stuck, it leaves
      them stuck or not as they are, and it has nothing to do with other jobs. */
  lemma {:induction false} PassOver(cal: Calendar, a: seq<Entry>, b: seq<Entry>, now: int, enabled: string -> bool, id: string)
    ensures var p, q := Pass(cal, a, now, enabled), Pass(cal, b, now, enabled);
            && (p.aborted <==> Stuck(a, enabled))
            && (Stuck(p.jobs, enabled) <==> Stuck(a, enabled))
            && (Absent(a, id) ==> Absent(p.jobs, id) && id !in p.triggered)
            && Pass(cal, a + b, now, enabled) == if p.aborted then Passed(p.jobs + b, p.triggered, true)
                                                 else Joined(p.jobs, p.triggered, q)
  {
    hide Due, PollJob;
    if a == [] {
      assert a + b == b;
    } else {
      var e, rest := a[0], a[1..];
      PassOver(cal, rest, b, now, enabled, id);
      assert (a + b)[0] == e && (a + b)[1..] == rest + b && a == [e] + rest;
      StuckFirst(a, enabled);
      AbsentFirst(a, id);
      if enabled(e.id) && !e.job.lastRun.Naive? {
        var e' := Entry(e.id, PollJob(cal, e.job, now));
        var p := Pass(cal, rest, now, enabled);
        PolledIsNotNaive(cal, e.job, now);
        StuckFirst([e'] + p.jobs, enabled);
        AbsentFirst([e'] + p.jobs, id);
        assert ([e'] + p.jobs)[1..] == p.jobs;
        var due := if Due(cal, e.job, now) then [e.id] else [];
        Reassociate([e'], p.jobs, b);
        Reassociate([e'], p.jobs, Pass(cal, b, now, enabled).jobs);
        Reassociate(due, p.triggered, Pass(cal, b, now, enabled).triggered);
      }
    }
  }

  lemma PolledIsNotNaive(cal: Calendar, job: Job, now: int)
    ensures PollJob(cal, job, now).lastRun.Naive? <==> job.lastRun.Naive?
  {
  }

  lemma StuckFirst(jobs: seq<Entry>, enabled: string -> bool)
    requires jobs != []
    ensures Stuck(jobs, enabled) <==> IsNaive(jobs[0], enabled) || Stuck(jobs[1..], enabled)
  {
    if Stuck(jobs, enabled) && !IsNaive(jobs[0], enabled) {
      var i :| 0 <= i < |jobs| && IsNaive(jobs[i], enabled);
      assert jobs[1..][i - 1] == jobs[i];
    }
    if Stuck(jobs[1..], enabled) {
      var i :| 0 <= i < |jobs[1..]| && IsNaive(jobs[1..][i], enabled);
      assert jobs[i + 1] == jobs[1..][i];
    }
  }

  lemma AbsentFirst(jobs: seq<Entry>, id: string)
    requires jobs != []
    ensures Absent(jobs, id) <==> jobs[0].id != id && Absent(jobs[1..], id)
  {
    assert forall i :: 0 < i < |jobs| ==> jobs[i] == jobs[1..][i - 1];
  }

  /** One pass, seen from an enabled job behind the jobs `a` and before the jobs `b`. */
  lemma PassAtJob(cal: Calendar, a: seq<Entry>, e: Entry, b: seq<Entry>, now: int, enabled: string -> bool)
    returns (a': seq<Entry>, b': seq<Entry>)
    requires enabled(e.id) && Absent(a, e.id) && Absent(b, e.id)
    ensures var p, runs := Pass(cal, a + ([e] + b), now, enabled), !Stuck(a, enabled);
            && p.jobs == a' + ([if runs then Entry(e.id, PollJob(cal, e.job, now)) else e] + b')
            && (e.id in p.triggered <==> runs && Due(cal, e.job, now))
    ensures Absent(a', e.id) && Absent(b', e.id) && (Stuck(a', enabled) <==> Stuck(a, enabled))
  {
    hide Due, PollJob, Stuck;
    PassOver(cal, a, [e] + b, now, enabled, e.id);
    PassOver(cal, b, [], now, enabled, e.id);
    a' := Pass(cal, a, now, enabled).jobs;
    b' := if Stuck(a, enabled) || e.job.lastRun.Naive? then b else Pass(cal, b, now, enabled).jobs;
    assert ([e] + b)[1..] == b;
    if e.job.lastRun.Naive? {
      NaiveIsNotDue(cal, e.job, now);
    }
  }

  lemma NaiveIsNotDue(cal: Calendar, job: Job, now: int)
    requires job.lastRun.Naive?
    ensures !Due(cal, job, now) && PollJob(cal, job, now) == job
  {
  }

  /** Behind a stuck job nothing is ever triggered; otherwise the other jobs make no difference. */
  lemma {:induction false} TableKeepsJob(cal: Calendar, a: seq<Entry>, e: Entry, b: seq<Entry>, enabled: string -> bool, polls: seq<int>, m: int)
    returns (a': seq<Entry>, b': seq<Entry>)
    requires enabled(e.id) && Absent(a, e.id) && Absent(b, e.id)
    ensures var jobs, runs := a + ([e] + b), !Stuck(a, enabled);
            && JobsAfter(cal, jobs, enabled, polls)
               == a' + ([if runs then Entry(e.id, JobAfter(cal, e.job, polls)) else e] + b')
            && PassesTriggering(cal, jobs, enabled, polls, e.id, m) == if runs then TriggersIn(cal, e.job, polls, m) else 0
    ensures Absent(a', e.id) && Absent(b', e.id) && (Stuck(a', enabled) <==> Stuck(a, enabled))
    decreases |polls|
  {
    hide Due, PollJob, Stuck, Pass, Absent;
    if polls == [] {
      a', b' := a, b;
    } else {
      var n := |polls| - 1;
      a', b' := TableKeepsJob(cal, a, e, b, enabled, polls[..n], m);
      var now := if Stuck(a, enabled) then e else Entry(e.id, JobAfter(cal, e.job, polls[..n]));
      a', b' := PassAtJob(cal, a', now, b', polls[n], enabled);
    }
  }

  /** A job is blocked by itself or any job before it that is enabled and has a naive recorded run. */
  predicate Blocked(jobs: seq<Entry>, enabled: string -> bool, k: nat)
    requires k < |jobs|
  {
    Stuck(jobs[..k + 1], enabled)
  }

  /** In the whole table a job is triggered as it would be alone, unless it is blocked: then never. */
  lemma JobRunsUnlessBlocked(cal: Calendar, jobs: seq<Entry>, enabled: string -> bool, k: nat, polls: seq<int>, m: int)
    requires DistinctJobs(jobs) && k < |jobs| && enabled(jobs[k].id)
    ensures PassesTriggering(cal, jobs, enabled, polls, jobs[k].id, m)
         == if Blocked(jobs, enabled, k) then 0 else TriggersIn(cal, jobs[k].job, polls, m)
  {
    var a, e, b := jobs[..k], jobs[k], jobs[k + 1..];
    assert jobs == a + ([e] + b);
    var a', b' := TableKeepsJob(cal, a, e, b, enabled, polls, m);
    assert jobs[..k + 1] == a + [e];
    StuckLast(a, e, enabled);
    if e.job.lastRun.Naive? {
      OldMinuteStaysOld(cal, e.job, polls, m);
    }
  }

  lemma StuckLast(a: seq<Entry>, e: Entry, enabled: string -> bool)
    ensures Stuck(a + [e], enabled) <==> Stuck(a, enabled) || IsNaive(e, enabled)
  {
    var all := a + [e];
    if Stuck(a, enabled) {
      var i :| 0 <= i < |a| && IsNaive(a[i], enabled);
      assert all[i] == a[i];
    }
    if IsNaive(e, enabled) {
      assert all[|a|] == e;
    }
  }

  /** The main promise: of a table of jobs polled in time order at most a minute apart, an enabled job
      with a printed expression is triggered exactly once in every whole minute the expression denotes
      and in no other whole minute, if and only if no job up to it is stuck; a blocked one never is. */
  lemma OncePerDenotedMinute(cal: Calendar, jobs: seq<Entry>, enabled: string -> bool, k: nat, e: Expr, polls: seq<int>, m: int)
    requires ValidExpr(e) && polls != [] && InOrder(polls) && AtMostAMinuteApart(polls)
    requires polls[0] <= m * MINUTE <= polls[|polls| - 1]
    requires DistinctJobs(jobs) && k < |jobs| && enabled(jobs[k].id)
    requires ParseCron(PrintExpr(e)) == Some(jobs[k].job.cron)
    requires jobs[k].job.lastRun.At? ==> MinuteOf(jobs[k].job.lastRun.time) < m
    ensures PassesTriggering(cal, jobs, enabled, polls, jobs[k].id, m)
         == if Denotes(e, cal(m)) && !Blocked(jobs, enabled, k) then 1 else 0
  {
    CronRoundTrip(e);
    JobRunsUnlessBlocked(cal, jobs, enabled, k, polls, m);
    if !Blocked(jobs, enabled, k) {
      assert jobs[..k + 1][k] == jobs[k];
      assert !IsNaive(jobs[..k + 1][k], enabled);
      TriggersExactly(cal, jobs[k].job, polls, m);
      WholeMinutesArePolled(polls, m);
    }
  }
}
