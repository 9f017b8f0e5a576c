/** JSON values, and JSON texts as concrete syntax trees.

    A `Json` is what `json.loads` returns.  A `Doc` is one way of writing a value down: it fixes
    the blanks around every structural character (section 2 of RFC 8259) and the spelling of every
    string character (section 7), so quantifying over `Doc` quantifies over every printer. */
module JsonSyntax {
  import opened Decimals

  datatype Exponent = NoExp | Exp(mark: char, sign: string, digits: string)

  /** Section 6.  The digits are kept as written: binary rounding is not modelled. */
  datatype Number = Number(negative: bool, whole: string, frac: string, exp: Exponent)

  datatype Field = Field(key: seq<int>, value: Json)

  /** Strings are sequences of code points; `Lit` is one of the literal names. */
  datatype Json =
    | Lit(word: string)
    | Num(num: Number)
    | Str(points: seq<int>)
    | Arr(items: seq<Json>)
    | Obj(fields: seq<Field>)

  /** One spelled character of a string. */
  datatype Unit = Raw(c: char) | Short(e: char) | Hex(digits: string)

  datatype Doc =
    | DLit(word: string)
    | DNum(num: Number)
    | DStr(units: seq<Unit>)
    | DArr(pad: string, elems: Elems)
    | DObj(pad: string, members: Members)
  datatype Elems = NoElems | Elem(pre: string, value: Doc, post: string, more: Elems)
  datatype Members =
    | NoMembers
    | Member(pre: string, key: seq<Unit>, mid: string, gap: string, value: Doc, post: string, more: Members)

  // ---- characters ----

  predicate IsWs(c: char) { c == ' ' || c == '\t' || c == '\n' || c == '\r' }

  predicate AllWs(s: string) { forall i :: 0 <= i < |s| ==> IsWs(s[i]) }

  predicate IsHex(c: char) { '0' <= c <= '9' || 'a' <= c <= 'f' || 'A' <= c <= 'F' }

  predicate IsHex4(s: string) { |s| == 4 && forall i :: 0 <= i < 4 ==> IsHex(s[i]) }

  predicate IsShort(e: char) {
    e == '"' || e == '\\' || e == '/' || e == 'b' || e == 'f' || e == 'n' || e == 'r' || e == 't'
  }

  /** The names section 3 allows, and the three further ones Python's decoder accepts. */
  const WORDS: seq<string> := ["null", "true", "false", "NaN", "Infinity", "-Infinity"]

  // ---- well-formed concrete syntax ----

  predicate ValidUnit(u: Unit) {
    match u
    case Raw(c) => c >= ' ' && c != '"' && c != '\\'
    case Short(e) => IsShort(e)
    case Hex(d) => IsHex4(d)
  }

  predicate ValidUnits(us: seq<Unit>) { forall i :: 0 <= i < |us| ==> ValidUnit(us[i]) }

  predicate ValidNumber(n: Number) {
    && n.whole != "" && AllDigits(n.whole) && (n.whole[0] == '0' ==> n.whole == "0")
    && AllDigits(n.frac)
    && ValidExponent(n.exp)
  }

  predicate ValidExponent(e: Exponent) {
    match e
    case NoExp => true
    case Exp(mark, sign, digits) =>
      && (mark == 'e' || mark == 'E')
      && (sign == "" || sign == "+" || sign == "-")
      && digits != "" && AllDigits(digits)
  }

  predicate Valid(d: Doc) {
    match d
    case DLit(word) => word in WORDS
    case DNum(n) => ValidNumber(n)
    case DStr(us) => ValidUnits(us)
    case DArr(pad, elems) => AllWs(pad) && ValidElems(elems)
    case DObj(pad, members) => AllWs(pad) && ValidMembers(members)
  }

  predicate ValidElems(es: Elems) {
    es.NoElems? || (AllWs(es.pre) && Valid(es.value) && AllWs(es.post) && ValidElems(es.more))
  }

  predicate ValidMembers(ms: Members) {
    || ms.NoMembers?
    || (&& AllWs(ms.pre) && ValidUnits(ms.key) && AllWs(ms.mid) && AllWs(ms.gap)
        && Valid(ms.value) && AllWs(ms.post) && ValidMembers(ms.more))
  }

  // ---- the text of a concrete syntax tree, followed by the text k ----

  function PutUnits(us: seq<Unit>, k: string): string {
    if us == [] then k
    else match us[0]
      case Raw(c) => [c] + PutUnits(us[1..], k)
      case Short(e) => ['\\'] + ([e] + PutUnits(us[1..], k))
      case Hex(d) => ['\\'] + (['u'] + (d + PutUnits(us[1..], k)))
  }

  function UnitText(u: Unit): string {
    match u
    case Raw(c) => [c]
    case Short(e) => ['\\', e]
    case Hex(d) => ['\\', 'u'] + d
  }

  lemma PutUnitsCons(us: seq<Unit>, k: string)
    requires us != []
    ensures PutUnits(us, k) == UnitText(us[0]) + PutUnits(us[1..], k)
  {
    var tail := PutUnits(us[1..], k);
    match us[0]
    case Raw(c) =>
    case Short(e) => assert ['\\', e] + tail == ['\\'] + ([e] + tail);
    case Hex(d) => assert ['\\', 'u'] + d + tail == ['\\'] + (['u'] + (d + tail));
  }

  lemma UnitTextOnOneLine(u: Unit)
    requires ValidUnit(u)
    ensures '\n' !in UnitText(u)
  {
  }

  function PutExp(e: Exponent, k: string): string {
    match e
    case NoExp => k
    case Exp(mark, sign, digits) => [mark] + (sign + (digits + k))
  }

  function PutNumber(n: Number, k: string): string {
    (if n.negative then "-" else "") + (n.whole + (
      if n.frac == "" then PutExp(n.exp, k) else ['.'] + (n.frac + PutExp(n.exp, k))))
  }

  function PutString(us: seq<Unit>, k: string): string {
    ['"'] + PutUnits(us, ['"'] + k)
  }

  function Put(d: Doc, k: string): string
    decreases d, 0
  {
    match d
    case DLit(word) => word + k
    case DNum(n) => PutNumber(n, k)
    case DStr(us) => PutString(us, k)
    case DArr(pad, elems) => ['['] + (pad + PutElems(elems, [']'] + k))
    case DObj(pad, members) => ['{'] + (pad + PutMembers(members, ['}'] + k))
  }

  function PutElems(es: Elems, k: string): string
    decreases es, 0
  {
    match es
    case NoElems => k
    case Elem(pre, v, post, more) => pre + Put(v, post + PutMoreElems(more, k))
  }

  function PutMoreElems(es: Elems, k: string): string
    decreases es, 1
  {
    if es.NoElems? then k else [','] + PutElems(es, k)
  }

  function PutMembers(ms: Members, k: string): string
    decreases ms, 0
  {
    match ms
    case NoMembers => k
    case Member(pre, key, mid, gap, v, post, more) =>
      pre + PutString(key, mid + ([':'] + (gap + Put(v, post + PutMoreMembers(more, k)))))
  }

  function PutMoreMembers(ms: Members, k: string): string
    decreases ms, 1
  {
    if ms.NoMembers? then k else [','] + PutMembers(ms, k)
  }

  function Text(d: Doc): string { Put(d, "") }

  // ---- the value a concrete syntax tree denotes ----

  function HexDigit(c: char): int
    requires IsHex(c)
  {
    if '0' <= c <= '9' then c as int - '0' as int
    else if 'a' <= c <= 'f' then c as int - 'a' as int + 10
    else c as int - 'A' as int + 10
  }

  function HexValue(s: string): int
    requires IsHex4(s)
  {
    4096 * HexDigit(s[0]) + 256 * HexDigit(s[1]) + 16 * HexDigit(s[2]) + HexDigit(s[3])
  }

  function ShortValue(e: char): int {
    match e
    case 'b' => 8
    case 'f' => 12
    case 'n' => 10
    case 'r' => 13
    case 't' => 9
    case _ => e as int
  }

  predicate HighSurrogate(n: int) { 0xD800 <= n <= 0xDBFF }

  predicate LowSurrogate(n: int) { 0xDC00 <= n <= 0xDFFF }

  /** Code points of a spelled string; a \u pair of surrogates is one code point (section 7). */
  function Decode(us: seq<Unit>): seq<int>
    requires ValidUnits(us)
  {
    if us == [] then []
    else match us[0]
      case Raw(c) => [c as int] + Decode(us[1..])
      case Short(e) => [ShortValue(e)] + Decode(us[1..])
      case Hex(d) =>
        var hi := HexValue(d);
        if HighSurrogate(hi) && |us| > 1 && us[1].Hex? && LowSurrogate(HexValue(us[1].digits)) then
          [0x10000 + (hi - 0xD800) * 0x400 + (HexValue(us[1].digits) - 0xDC00)] + Decode(us[2..])
        else
          [hi] + Decode(us[1..])
  }

  /** Building a `dict`: a repeated key keeps its first position and its last value. */
  function DictSet(fields: seq<Field>, key: seq<int>, value: Json): seq<Field> {
    if fields == [] then [Field(key, value)]
    else if fields[0].key == key then [Field(key, value)] + fields[1..]
    else [fields[0]] + DictSet(fields[1..], key, value)
  }

  function Value(d: Doc): Json
    requires Valid(d)
  {
    match d
    case DLit(word) => Lit(word)
    case DNum(n) => Num(n)
    case DStr(us) => Str(Decode(us))
    case DArr(pad, elems) => Arr(ElemValues(elems))
    case DObj(pad, members) => Obj(MemberFields(members, []))
  }

  function ElemValues(es: Elems): seq<Json>
    requires ValidElems(es)
  {
    if es.NoElems? then [] else [Value(es.value)] + ElemValues(es.more)
  }

  function MemberFields(ms: Members, acc: seq<Field>): seq<Field>
    requires ValidMembers(ms)
  {
    if ms.NoMembers? then acc
    else MemberFields(ms.more, DictSet(acc, Decode(ms.key), Value(ms.value)))
  }

  // ---- the continuation really is appended ----

  lemma {:induction false} PutUnitsAppend(us: seq<Unit>, k: string, t: string)
    ensures PutUnits(us, k + t) == PutUnits(us, k) + t
  {
    if us != [] {
      PutUnitsAppend(us[1..], k, t);
      var tail := PutUnits(us[1..], k);
      match us[0]
      case Raw(c) => assert [c] + (tail + t) == ([c] + tail) + t;
      case Short(e) => assert ['\\'] + ([e] + (tail + t)) == (['\\'] + ([e] + tail)) + t;
      case Hex(d) => assert ['\\'] + (['u'] + (d + (tail + t))) == (['\\'] + (['u'] + (d + tail))) + t;
    }
  }

  lemma PutExpAppend(e: Exponent, k: string, t: string)
    ensures PutExp(e, k + t) == PutExp(e, k) + t
  {
    if e.Exp? {
      assert e.digits + (k + t) == e.digits + k + t;
    }
  }

  lemma PutNumberAppend(n: Number, k: string, t: string)
    ensures PutNumber(n, k + t) == PutNumber(n, k) + t
  {
    PutExpAppend(n.exp, k, t);
  }

  lemma PutStringAppend(us: seq<Unit>, k: string, t: string)
    ensures PutString(us, k + t) == PutString(us, k) + t
  {
    assert ['"'] + (k + t) == (['"'] + k) + t;
    PutUnitsAppend(us, ['"'] + k, t);
  }

  lemma {:induction false} PutAppend(d: Doc, k: string, t: string)
    ensures Put(d, k + t) == Put(d, k) + t
    decreases d
  {
    match d
    case DLit(word) =>
    case DNum(n) => PutNumberAppend(n, k, t);
    case DStr(us) => PutStringAppend(us, k, t);
    case DArr(pad, elems) =>
      assert [']'] + (k + t) == ([']'] + k) + t;
      PutElemsAppend(elems, [']'] + k, t);
    case DObj(pad, members) =>
      assert ['}'] + (k + t) == (['}'] + k) + t;
      PutMembersAppend(members, ['}'] + k, t);
  }

  lemma {:induction false} PutElemsAppend(es: Elems, k: string, t: string)
    ensures PutElems(es, k + t) == PutElems(es, k) + t
    ensures PutMoreElems(es, k + t) == PutMoreElems(es, k) + t
    decreases es
  {
    if es.Elem? {
      PutElemsAppend(es.more, k, t);
      var tail := PutMoreElems(es.more, k);
      assert es.post + (tail + t) == (es.post + tail) + t;
      PutAppend(es.value, es.post + tail, t);
    }
  }

  lemma {:induction false} PutMembersAppend(ms: Members, k: string, t: string)
    ensures PutMembers(ms, k + t) == PutMembers(ms, k) + t
    ensures PutMoreMembers(ms, k + t) == PutMoreMembers(ms, k) + t
    decreases ms
  {
    if ms.Member? {
      PutMembersAppend(ms.more, k, t);
      var tail := PutMoreMembers(ms.more, k);
      assert ms.post + (tail + t) == (ms.post + tail) + t;
      PutAppend(ms.value, ms.post + tail, t);
      var body := [':'] + (ms.gap + Put(ms.value, ms.post + tail));
      assert [':'] + (ms.gap + Put(ms.value, (ms.post + tail) + t)) == body + t;
      assert ms.mid + (body + t) == (ms.mid + body) + t;
      PutStringAppend(ms.key, ms.mid + body, t);
    }
  }

  lemma TextThen(d: Doc, k: string)
    ensures Put(d, k) == Text(d) + k
  {
    assert "" + k == k;
    PutAppend(d, "", k);
  }
}
