/** `json.dumps(value, ensure_ascii=False, ...)`: separators, indentation and the escapes of
    section 7 of RFC 8259, as a choice of concrete syntax tree. */
module JsonPrinter {
  import opened JsonSyntax
  import opened ExtractJson

  /** `Inline` takes the blanks after a comma and after a colon, `Indented` the step. */
  datatype Style = Inline(itemGap: string, keyGap: string) | Indented(step: nat)

  const COMPACT := Inline("", "")

  predicate ValidStyle(style: Style) {
    style.Inline? ==> AllWs(style.itemGap) && AllWs(style.keyGap)
  }

  function Spaces(n: nat): (s: string)
    ensures AllWs(s)
  {
    seq(n, _ => ' ')
  }

  function Lead(style: Style, depth: nat, first: bool): (s: string)
    requires ValidStyle(style)
    ensures AllWs(s)
  {
    match style
    case Inline(gap, _) => if first then "" else gap
    case Indented(step) => "\n" + Spaces(step * depth)
  }

  function Trail(style: Style, depth: nat, last: bool): (s: string)
    requires ValidStyle(style)
    ensures AllWs(s)
  {
    if style.Indented? && last then "\n" + Spaces(style.step * depth) else ""
  }

  function KeyGap(style: Style): (s: string)
    requires ValidStyle(style)
    ensures AllWs(s)
  {
    match style
    case Inline(_, gap) => gap
    case Indented(_) => " "
  }

  // ---- printable values: what a `dict` or `list` can hold ----

  predicate IsScalar(n: int) { 0 <= n < 0xD800 || 0xE000 <= n < 0x11_0000 }

  predicate AllScalars(s: seq<int>) { forall i :: 0 <= i < |s| ==> IsScalar(s[i]) }

  predicate DistinctKeys(fields: seq<Field>) {
    forall i, j :: 0 <= i < j < |fields| ==> fields[i].key != fields[j].key
  }

  predicate Printable(v: Json) {
    match v
    case Lit(word) => word in WORDS
    case Num(n) => ValidNumber(n)
    case Str(s) => AllScalars(s)
    case Arr(items) => PrintableItems(items)
    case Obj(fields) => DistinctKeys(fields) && PrintableFields(fields)
  }

  predicate PrintableItems(items: seq<Json>) {
    forall i :: 0 <= i < |items| ==> Printable(items[i])
  }

  predicate PrintableFields(fields: seq<Field>) {
    forall i :: 0 <= i < |fields| ==> AllScalars(fields[i].key) && Printable(fields[i].value)
  }

  // ---- escaping ----

  function LowHex(n: nat): char
    requires n < 16
  {
    if n < 10 then '0' + n as char else 'a' + (n - 10) as char
  }

  function EscapePoint(n: int): (u: Unit)
    requires IsScalar(n)
    ensures ValidUnit(u)
  {
    if n == '"' as int then Short('"')
    else if n == '\\' as int then Short('\\')
    else if n == 8 then Short('b')
    else if n == 9 then Short('t')
    else if n == 10 then Short('n')
    else if n == 12 then Short('f')
    else if n == 13 then Short('r')
    else if n < 32 then Hex(['0', '0', LowHex(n / 16), LowHex(n % 16)])
    else Raw(n as char)
  }

  function Escape(s: seq<int>): (us: seq<Unit>)
    requires AllScalars(s)
    ensures ValidUnits(us)
  {
    if s == [] then [] else [EscapePoint(s[0])] + Escape(s[1..])
  }

  // ---- layout ----

  function Layout(v: Json, style: Style, depth: nat): Doc
    requires Printable(v) && ValidStyle(style)
    decreases v, 0
  {
    match v
    case Lit(word) => DLit(word)
    case Num(n) => DNum(n)
    case Str(s) => DStr(Escape(s))
    case Arr(items) => DArr("", LayoutItems(items, style, depth, true))
    case Obj(fields) => DObj("", LayoutFields(fields, style, depth, true))
  }

  function LayoutItems(items: seq<Json>, style: Style, depth: nat, first: bool): Elems
    requires PrintableItems(items) && ValidStyle(style)
    decreases items, 1
  {
    if items == [] then NoElems
    else Elem(Lead(style, depth + 1, first), Layout(items[0], style, depth + 1),
              Trail(style, depth, |items| == 1), LayoutItems(items[1..], style, depth, false))
  }

  function LayoutFields(fields: seq<Field>, style: Style, depth: nat, first: bool): Members
    requires PrintableFields(fields) && ValidStyle(style)
    decreases fields, 1
  {
    if fields == [] then NoMembers
    else
      var f := fields[0];
      Member(Lead(style, depth + 1, first), Escape(f.key), "", KeyGap(style), Layout(f.value, style, depth + 1),
             Trail(style, depth, |fields| == 1), LayoutFields(fields[1..], style, depth, false))
  }

  function Dumps(v: Json, style: Style): string
    requires Printable(v) && ValidStyle(style)
  {
    Text(Layout(v, style, 0))
  }

  // ---- printing is right ----

  lemma EscapePointDecodes(n: int, us: seq<Unit>)
    requires IsScalar(n) && ValidUnits(us)
    ensures Decode([EscapePoint(n)] + us) == [n] + Decode(us)
  {
    var u := EscapePoint(n);
    assert ([u] + us)[1..] == us;
    if u.Hex? {
      assert HexDigit(u.digits[2]) == n / 16 && HexDigit(u.digits[3]) == n % 16;
    }
  }

  lemma {:induction false} EscapeDecodes(s: seq<int>)
    requires AllScalars(s)
    ensures Decode(Escape(s)) == s
  {
    if s != [] {
      EscapeDecodes(s[1..]);
      EscapePointDecodes(s[0], Escape(s[1..]));
    }
  }

  lemma {:induction false} DictSetFresh(fields: seq<Field>, key: seq<int>, value: Json)
    requires forall i :: 0 <= i < |fields| ==> fields[i].key != key
    ensures DictSet(fields, key, value) == fields + [Field(key, value)]
  {
    if fields != [] {
      DictSetFresh(fields[1..], key, value);
      assert fields == [fields[0]] + fields[1..];
    }
  }

  lemma {:induction false} LayoutDenotes(v: Json, style: Style, depth: nat)
    requires Printable(v) && ValidStyle(style)
    ensures var d := Layout(v, style, depth); Valid(d) && Value(d) == v
    decreases v, 0
  {
    match v
    case Lit(_) =>
    case Num(_) =>
    case Str(s) => EscapeDecodes(s);
    case Arr(items) => LayoutItemsDenote(items, style, depth, true);
    case Obj(fields) => LayoutFieldsDenote(fields, style, depth, true, []);
  }

  lemma {:induction false} LayoutItemsDenote(items: seq<Json>, style: Style, depth: nat, first: bool)
    requires PrintableItems(items) && ValidStyle(style)
    ensures var es := LayoutItems(items, style, depth, first); ValidElems(es) && ElemValues(es) == items
    decreases items, 1
  {
    if items != [] {
      LayoutDenotes(items[0], style, depth + 1);
      LayoutItemsDenote(items[1..], style, depth, false);
    }
  }

  lemma FirstFieldFresh(acc: seq<Field>, fields: seq<Field>)
    requires fields != [] && DistinctKeys(acc + fields)
    ensures (acc + [fields[0]]) + fields[1..] == acc + fields
    ensures forall i :: 0 <= i < |acc| ==> acc[i].key != fields[0].key
  {
    var all := acc + fields;
    assert forall i :: 0 <= i < |acc| ==> acc[i] == all[i];
    assert all[|acc|] == fields[0];
  }

  lemma {:induction false} LayoutFieldsDenote(fields: seq<Field>, style: Style, depth: nat, first: bool, acc: seq<Field>)
    requires PrintableFields(fields) && ValidStyle(style) && DistinctKeys(acc + fields)
    ensures var ms := LayoutFields(fields, style, depth, first);
            ValidMembers(ms) && MemberFields(ms, acc) == acc + fields
    decreases fields, 1
  {
    hide Layout, Decode, Escape, DictSet, Printable, DistinctKeys;
    if fields != [] {
      var f := fields[0];
      LayoutDenotes(f.value, style, depth + 1);
      EscapeDecodes(f.key);
      FirstFieldFresh(acc, fields);
      DictSetFresh(acc, f.key, f.value);
      LayoutFieldsDenote(fields[1..], style, depth, false, acc + [f]);
    } else {
      assert acc + fields == acc;
    }
  }

  /** Every printed object comes back from prose exactly, in every style. */
  lemma ExtractPrintedObject(pre: string, v: Json, style: Style, post: string)
    requires v.Obj? && Printable(v) && ValidStyle(style) && Prose(pre) && '`' !in post
    ensures var r := Extract(pre + Dumps(v, style) + post); r.Found? && r.data == v
  {
    LayoutDenotes(v, style, 0);
    ExtractObjectInProse(pre, Layout(v, style, 0), post);
  }
}
