/** What `json.loads` accepts: a recursive-descent parser for RFC 8259 texts, and the proof that
    it reads back the value of every concrete syntax tree. */
module JsonParser {
  import opened Decimals
  import opened PyText
  import opened JsonSyntax

  datatype Parse<+T> = Fail | Ok(value: T, rest: string)

  function SkipWs(s: string): (r: string)
    ensures |r| <= |s|
  {
    if s != "" && IsWs(s[0]) then SkipWs(s[1..]) else s
  }

  // ---- numbers (section 6) ----

  function DigitRun(s: string): (n: nat)
    ensures n <= |s| && (forall k :: 0 <= k < n ==> IsDigit(s[k])) && (n < |s| ==> !IsDigit(s[n]))
  {
    if s != "" && IsDigit(s[0]) then 1 + DigitRun(s[1..]) else 0
  }

  function ParseFrac(s: string): (r: (string, string))
    ensures |r.1| <= |s|
  {
    if |s| >= 2 && s[0] == '.' && IsDigit(s[1]) then
      var n := DigitRun(s[1..]);
      (s[1..1 + n], s[1 + n..])
    else ("", s)
  }

  function ParseSign(s: string): (r: (string, string))
    ensures |r.1| <= |s|
  {
    if s != "" && (s[0] == '+' || s[0] == '-') then ([s[0]], s[1..]) else ("", s)
  }

  function ParseExp(s: string): (r: (Exponent, string))
    ensures |r.1| <= |s|
  {
    if s != "" && (s[0] == 'e' || s[0] == 'E') then
      var (sign, t) := ParseSign(s[1..]);
      var n := DigitRun(t);
      if n > 0 then (Exp(s[0], sign, t[..n]), t[n..]) else (NoExp, s)
    else (NoExp, s)
  }

  function ParseNumber(s: string): (r: Parse<Number>)
    ensures r.Ok? ==> |r.rest| < |s|
  {
    var negative := StartsWith(s, "-");
    var t := if negative then s[1..] else s;
    if t == "" || !IsDigit(t[0]) then Fail
    else
      var whole := if t[0] == '0' then "0" else t[..DigitRun(t)];
      var (frac, u) := ParseFrac(t[|whole|..]);
      var (exp, v) := ParseExp(u);
      Ok(Number(negative, whole, frac, exp), v)
  }

  // ---- strings (section 7); the opening quote has been consumed ----

  function LexString(s: string): (r: Parse<seq<Unit>>)
    ensures r.Ok? ==> |r.rest| < |s| && ValidUnits(r.value)
  {
    if s == "" then Fail
    else if s[0] == '"' then Ok([], s[1..])
    else if s[0] == '\\' then
      if |s| >= 2 && IsShort(s[1]) then Push(Short(s[1]), LexString(s[2..]))
      else if |s| >= 6 && s[1] == 'u' && IsHex4(s[2..6]) then Push(Hex(s[2..6]), LexString(s[6..]))
      else Fail
    else if s[0] < ' ' then Fail
    else Push(Raw(s[0]), LexString(s[1..]))
  }

  function Push(u: Unit, r: Parse<seq<Unit>>): Parse<seq<Unit>> {
    if r.Ok? then Ok([u] + r.value, r.rest) else Fail
  }

  // ---- values ----

  /** The key, the colon and the blanks around it, once the opening quote is behind. */
  function ParseKey(s: string): (r: Parse<seq<Unit>>)
    ensures r.Ok? ==> |r.rest| < |s| && ValidUnits(r.value)
  {
    match LexString(s)
    case Fail => Fail
    case Ok(key, rest) =>
      var t := SkipWs(rest);
      if StartsWith(t, ":") then Ok(key, SkipWs(t[1..])) else Fail
  }

  function FindWord(s: string, words: seq<string>): Option<string> {
    if words == [] then None
    else if StartsWith(s, words[0]) then Some(words[0])
    else FindWord(s, words[1..])
  }

  function ParseWord(s: string): (r: Parse<Json>)
    ensures r.Ok? ==> |r.rest| < |s| && r.value.Lit?
  {
    match FindWord(s, WORDS)
    case None => Fail
    case Some(w) =>
      if w != "" && StartsWith(s, w) then Ok(Lit(w), s[|w|..]) else Fail
  }

  function ParseScalar(s: string): (r: Parse<Json>)
    ensures r.Ok? ==> |r.rest| < |s| && (r.value.Lit? || r.value.Num?)
  {
    match ParseNumber(s)
    case Ok(n, rest) => Ok(Num(n), rest)
    case Fail => ParseWord(s)
  }

  /** One value at the start of `s`. */
  function ParseValue(s: string): (r: Parse<Json>)
    ensures r.Ok? ==> |r.rest| < |s|
    decreases |s|, 0
  {
    if s == "" then Fail
    else if s[0] == '"' then
      match LexString(s[1..])
      case Ok(us, rest) => Ok(Str(Decode(us)), rest)
      case Fail => Fail
    else if s[0] == '[' then
      var t := SkipWs(s[1..]);
      if StartsWith(t, "]") then Ok(Arr([]), t[1..]) else ParseElems(t, [])
    else if s[0] == '{' then
      var t := SkipWs(s[1..]);
      if StartsWith(t, "}") then Ok(Obj([]), t[1..]) else ParseMembers(t, [])
    else ParseScalar(s)
  }

  /** The elements of an array from one element on, after the values already read. */
  function ParseElems(s: string, acc: seq<Json>): (r: Parse<Json>)
    ensures r.Ok? ==> |r.rest| < |s|
    decreases |s|, 1
  {
    match ParseValue(s)
    case Fail => Fail
    case Ok(v, rest) =>
      var t := SkipWs(rest);
      if StartsWith(t, ",") then ParseElems(SkipWs(t[1..]), acc + [v])
      else if StartsWith(t, "]") then Ok(Arr(acc + [v]), t[1..])
      else Fail
  }

  function ParseMembers(s: string, acc: seq<Field>): (r: Parse<Json>)
    ensures r.Ok? ==> |r.rest| < |s|
    decreases |s|, 1
  {
    if s == "" || s[0] != '"' then Fail
    else
      match ParseKey(s[1..])
      case Fail => Fail
      case Ok(key, rest) =>
        match ParseValue(rest)
        case Fail => Fail
        case Ok(v, after) =>
          var t := SkipWs(after);
          var fields := DictSet(acc, Decode(key), v);
          if StartsWith(t, ",") then ParseMembers(SkipWs(t[1..]), fields)
          else if StartsWith(t, "}") then Ok(Obj(fields), t[1..])
          else Fail
  }

  function Loads(text: string): Option<Json> {
    match ParseValue(SkipWs(text))
    case Ok(v, rest) => if SkipWs(rest) == "" then Some(v) else None
    case Fail => None
  }

  // ---- lexical round trips ----

  lemma SkipWsNone(s: string)
    requires s == "" || !IsWs(s[0])
    ensures SkipWs(s) == s
  {
  }

  lemma {:induction false} SkipWsPrefix(pad: string, s: string)
    requires AllWs(pad)
    ensures SkipWs(pad + s) == SkipWs(s)
  {
    if pad == "" {
      assert pad + s == s;
    } else {
      assert (pad + s)[1..] == pad[1..] + s;
      SkipWsPrefix(pad[1..], s);
    }
  }

  lemma {:induction false} DigitRunExact(digits: string, s: string)
    requires AllDigits(digits) && (s == "" || !IsDigit(s[0]))
    ensures DigitRun(digits + s) == |digits|
  {
    if digits == "" {
      assert digits + s == s;
    } else {
      assert (digits + s)[1..] == digits[1..] + s;
      DigitRunExact(digits[1..], s);
    }
  }

  /** Text after which a number must have ended. */
  predicate EndsNumber(k: string) {
    k == "" || !(IsDigit(k[0]) || k[0] == '.' || k[0] == 'e' || k[0] == 'E')
  }

  lemma ParseExpPut(e: Exponent, k: string)
    requires ValidExponent(e) && EndsNumber(k)
    ensures ParseExp(PutExp(e, k)) == (e, k)
  {
    if e.Exp? {
      var t := e.digits + k;
      DigitRunExact(e.digits, k);
      assert t[0] == e.digits[0] && t[..|e.digits|] == e.digits && t[|e.digits|..] == k;
      SignThen(e.sign, t);
      assert ([e.mark] + (e.sign + t))[1..] == e.sign + t;
    }
  }

  lemma SignThen(sign: string, t: string)
    requires sign == "" || sign == "+" || sign == "-"
    requires t != "" && IsDigit(t[0])
    ensures ParseSign(sign + t) == (sign, t)
  {
    if sign == "" {
      assert sign + t == t;
    } else {
      assert (sign + t)[1..] == t;
    }
  }

  lemma ParseFracPut(frac: string, e: Exponent, k: string)
    requires AllDigits(frac) && EndsNumber(k)
    requires ValidExponent(e)
    ensures var tail := PutExp(e, k);
            ParseFrac(if frac == "" then tail else ['.'] + (frac + tail)) == (frac, tail)
  {
    var tail := PutExp(e, k);
    if frac != "" {
      var s := ['.'] + (frac + tail);
      DigitRunExact(frac, tail);
      assert s[1..] == frac + tail;
      assert s[1..1 + |frac|] == frac;
      assert s[1 + |frac|..] == tail;
    }
  }

  lemma ParseNumberPut(n: Number, k: string)
    requires ValidNumber(n) && EndsNumber(k)
    ensures ParseNumber(PutNumber(n, k)) == Ok(n, k)
  {
    var tail := PutExp(n.exp, k);
    var u := if n.frac == "" then tail else ['.'] + (n.frac + tail);
    var t := n.whole + u;
    assert t[0] == n.whole[0];
    var s := PutNumber(n, k);
    assert s == (if n.negative then "-" else "") + t;
    assert t == if n.negative then s[1..] else s;
    assert StartsWith(s, "-") == n.negative;
    DigitRunExact(n.whole, u);
    assert t[..|n.whole|] == n.whole && t[|n.whole|..] == u;
    ParseFracPut(n.frac, n.exp, k);
    ParseExpPut(n.exp, k);
  }

  lemma {:induction false} LexStringPut(us: seq<Unit>, k: string)
    requires ValidUnits(us)
    ensures LexString(PutUnits(us, ['"'] + k)) == Ok(us, k)
  {
    if us != [] {
      LexStringPut(us[1..], k);
      assert us == [us[0]] + us[1..];
      var tail := PutUnits(us[1..], ['"'] + k);
      var s := PutUnits(us, ['"'] + k);
      match us[0]
      case Raw(c) => assert s[1..] == tail;
      case Short(e) => assert s[1] == e && s[2..] == tail;
      case Hex(d) => assert s[1] == 'u' && s[2..6] == d && s[6..] == tail;
    }
  }

  lemma {:induction false} FindWordUnique(s: string, word: string, words: seq<string>)
    requires word in words && StartsWith(s, word)
    requires forall w :: w in words && StartsWith(s, w) ==> w == word
    ensures FindWord(s, words) == Some(word)
  {
    if words[0] != word {
      FindWordUnique(s, word, words[1..]);
    }
  }

  lemma ParseWordPut(word: string, k: string)
    requires word in WORDS
    ensures ParseScalar(word + k) == Ok(Lit(word), k)
  {
    var s := word + k;
    assert s[0] == word[0] && s[|word|..] == k;
    forall w | w in WORDS && StartsWith(s, w)
      ensures w == word
    {
      assert w[0] == s[0];
    }
    FindWordUnique(s, word, WORDS);
    assert ParseNumber(s).Fail? by {
      if word == "-Infinity" { assert s[1] == 'I' && s[1..][0] == 'I'; }
    }
  }

  // ---- values round trip ----

  lemma PutStarts(d: Doc, k: string)
    requires Valid(d)
    ensures var s := Put(d, k);
            && s != "" && !IsWs(s[0]) && s[0] != ']' && s[0] != '}'
            && (s[0] == '{' <==> d.DObj?) && (s[0] == '[' <==> d.DArr?) && (s[0] == '"' <==> d.DStr?)
  {
    if d.DLit? {
      assert Put(d, k)[0] == d.word[0];
    }
  }

  /** What may follow a value inside a composite. */
  lemma AfterValue(post: string, k: string)
    requires AllWs(post) && k != "" && (k[0] == ',' || k[0] == ']' || k[0] == '}')
    ensures EndsNumber(post + k) && SkipWs(post + k) == k
  {
    SkipWsPrefix(post, k);
    if post != "" {
      assert (post + k)[0] == post[0];
    } else {
      assert post + k == k;
    }
  }

  lemma ArrStep(pad: string, body: string)
    requires AllWs(pad)
    ensures var s := SkipWs(body);
            ParseValue(['['] + (pad + body)) ==
            if StartsWith(s, "]") then Ok(Arr([]), s[1..]) else ParseElems(s, [])
  {
    SkipWsPrefix(pad, body);
    assert (['['] + (pad + body))[1..] == pad + body;
  }

  lemma ObjStep(pad: string, body: string)
    requires AllWs(pad)
    ensures var s := SkipWs(body);
            ParseValue(['{'] + (pad + body)) ==
            if StartsWith(s, "}") then Ok(Obj([]), s[1..]) else ParseMembers(s, [])
  {
    SkipWsPrefix(pad, body);
    assert (['{'] + (pad + body))[1..] == pad + body;
  }

  lemma ElemStep(s: string, acc: seq<Json>, v: Json, post: string, c: char, k: string)
    requires AllWs(post) && (c == ',' || c == ']')
    requires ParseValue(s) == Ok(v, post + ([c] + k))
    ensures ParseElems(s, acc) ==
            if c == ',' then ParseElems(SkipWs(k), acc + [v]) else Ok(Arr(acc + [v]), k)
  {
    AfterValue(post, [c] + k);
    assert ([c] + k)[1..] == k;
  }

  lemma ParseKeyPut(key: seq<Unit>, mid: string, gap: string, value: string)
    requires ValidUnits(key) && AllWs(mid) && AllWs(gap) && value != "" && !IsWs(value[0])
    ensures var s := PutString(key, mid + ([':'] + (gap + value)));
            s[0] == '"' && ParseKey(s[1..]) == Ok(key, value)
  {
    var colon := [':'] + (gap + value);
    var s := PutString(key, mid + colon);
    LexStringPut(key, mid + colon);
    assert s[1..] == PutUnits(key, ['"'] + (mid + colon));
    SkipWsPrefix(mid, colon);
    SkipWsNone(colon);
    assert colon[1..] == gap + value;
    SkipWsPrefix(gap, value);
    SkipWsNone(value);
  }

  lemma MemberStep(s: string, acc: seq<Field>, key: seq<Unit>, value: string, v: Json, post: string, c: char, k: string)
    requires AllWs(post) && (c == ',' || c == '}')
    requires s != "" && s[0] == '"' && ParseKey(s[1..]) == Ok(key, value)
    requires ParseValue(value) == Ok(v, post + ([c] + k))
    ensures var fields := DictSet(acc, Decode(key), v);
            ParseMembers(s, acc) ==
            if c == ',' then ParseMembers(SkipWs(k), fields) else Ok(Obj(fields), k)
  {
    AfterValue(post, [c] + k);
    assert ([c] + k)[1..] == k;
  }

  lemma ScalarStep(s: string)
    requires s != "" && s[0] != '"' && s[0] != '[' && s[0] != '{'
    ensures ParseValue(s) == ParseScalar(s)
  {
  }

  lemma NumberScalar(n: Number, k: string)
    requires ValidNumber(n) && EndsNumber(k)
    ensures ParseScalar(PutNumber(n, k)) == Ok(Num(n), k)
  {
    ParseNumberPut(n, k);
  }

  lemma StringStep(us: seq<Unit>, k: string)
    requires ValidUnits(us)
    ensures ParseValue(PutString(us, k)) == Ok(Str(Decode(us)), k)
  {
    LexStringPut(us, k);
    assert PutString(us, k)[1..] == PutUnits(us, ['"'] + k);
  }

  lemma {:induction false} ParsePut(d: Doc, k: string)
    requires Valid(d) && (d.DNum? ==> EndsNumber(k))
    ensures ParseValue(Put(d, k)) == Ok(Value(d), k)
    decreases d
  {
    hide ParseValue, ParseElems, ParseMembers, ParseScalar, SkipWs, PutNumber, PutString;
    PutStarts(d, k);
    match d
    case DLit(word) =>
      ScalarStep(word + k);
      ParseWordPut(word, k);
    case DNum(n) =>
      ScalarStep(PutNumber(n, k));
      NumberScalar(n, k);
    case DStr(us) => StringStep(us, k);
    case DArr(pad, elems) =>
      ArrStep(pad, PutElems(elems, [']'] + k));
      if elems.Elem? {
        ParseElemsPut(elems, [], k);
        assert [] + ElemValues(elems) == ElemValues(elems);
      } else {
        SkipWsNone([']'] + k);
        assert ([']'] + k)[1..] == k;
      }
    case DObj(pad, members) =>
      ObjStep(pad, PutMembers(members, ['}'] + k));
      if members.Member? {
        ParseMembersPut(members, [], k);
      } else {
        SkipWsNone(['}'] + k);
        assert (['}'] + k)[1..] == k;
      }
  }

  lemma {:induction false} ParseElemsPut(es: Elems, acc: seq<Json>, k: string)
    requires ValidElems(es) && es.Elem?
    ensures var s := SkipWs(PutElems(es, [']'] + k));
            && s != "" && s[0] != ']'
            && ParseElems(s, acc) == Ok(Arr(acc + ElemValues(es)), k)
    decreases es
  {
    hide ParseValue, ParseElems, ParseMembers, Put, Value, SkipWs, EndsNumber;
    var after := if es.more.Elem? then PutElems(es.more, [']'] + k) else k;
    var tail := [if es.more.Elem? then ',' else ']'] + after;
    assert tail == PutMoreElems(es.more, [']'] + k);
    var s := Put(es.value, es.post + tail);
    SkipWsPrefix(es.pre, s);
    PutStarts(es.value, es.post + tail);
    SkipWsNone(s);
    AfterValue(es.post, tail);
    ParsePut(es.value, es.post + tail);
    var v := Value(es.value);
    ElemStep(s, acc, v, es.post, tail[0], after);
    assert ElemValues(es) == [v] + ElemValues(es.more);
    if es.more.Elem? {
      ParseElemsPut(es.more, acc + [v], k);
      assert acc + [v] + ElemValues(es.more) == acc + ElemValues(es);
    } else {
      assert acc + [v] == acc + ElemValues(es);
    }
  }

  lemma {:induction false} ParseMembersPut(ms: Members, acc: seq<Field>, k: string)
    requires ValidMembers(ms) && ms.Member?
    ensures var s := SkipWs(PutMembers(ms, ['}'] + k));
            && s != "" && s[0] != '}'
            && ParseMembers(s, acc) == Ok(Obj(MemberFields(ms, acc)), k)
    decreases ms
  {
    hide ParseValue, ParseElems, ParseMembers, Put, Value, SkipWs, EndsNumber;
    var after := if ms.more.Member? then PutMembers(ms.more, ['}'] + k) else k;
    var tail := [if ms.more.Member? then ',' else '}'] + after;
    assert tail == PutMoreMembers(ms.more, ['}'] + k);
    var value := Put(ms.value, ms.post + tail);
    var s := PutString(ms.key, ms.mid + ([':'] + (ms.gap + value)));
    SkipWsPrefix(ms.pre, s);
    SkipWsNone(s);
    PutStarts(ms.value, ms.post + tail);
    AfterValue(ms.post, tail);
    ParsePut(ms.value, ms.post + tail);
    ParseKeyPut(ms.key, ms.mid, ms.gap, value);
    MemberStep(s, acc, ms.key, value, Value(ms.value), ms.post, tail[0], after);
    if ms.more.Member? {
      ParseMembersPut(ms.more, DictSet(acc, Decode(ms.key), Value(ms.value)), k);
    }
  }

  /** Every text of a value, with blanks around it, loads as that value. */
  lemma LoadsText(d: Doc, before: string, after: string)
    requires Valid(d) && AllWs(before) && AllWs(after)
    ensures Loads(before + Text(d) + after) == Some(Value(d))
  {
    hide Put, ParseValue, Value;
    var s := Put(d, after);
    TextThen(d, after);
    assert before + Text(d) + after == before + s;
    SkipWsPrefix(before, s);
    PutStarts(d, after);
    SkipWsNone(s);
    ParsePut(d, after);
    SkipWsPrefix(after, "");
    assert after + "" == after;
  }

  // ---- nothing else is accepted ----

  lemma {:induction false} SkippedWs(s: string) returns (pad: string)
    ensures AllWs(pad) && s == pad + SkipWs(s)
  {
    if s != "" && IsWs(s[0]) {
      pad := SkippedWs(s[1..]);
      pad := [s[0]] + pad;
    } else {
      pad := "";
    }
  }

  lemma ReadFrac(s: string)
    ensures var (frac, rest) := ParseFrac(s);
            AllDigits(frac) && s == if frac == "" then rest else ['.'] + (frac + rest)
  {
    if |s| >= 2 && s[0] == '.' && IsDigit(s[1]) {
      var n := DigitRun(s[1..]);
      assert s[1..][..n] == s[1..1 + n];
      assert s == ['.'] + (s[1..1 + n] + s[1 + n..]);
    }
  }

  lemma ReadExp(s: string)
    ensures var (exp, rest) := ParseExp(s); ValidExponent(exp) && s == PutExp(exp, rest)
  {
    if s != "" && (s[0] == 'e' || s[0] == 'E') {
      var (sign, t) := ParseSign(s[1..]);
      var n := DigitRun(t);
      assert s[1..] == sign + t;
      if n > 0 {
        assert t == t[..n] + t[n..];
        assert s == [s[0]] + (sign + (t[..n] + t[n..]));
      }
    }
  }

  lemma ReadWhole(t: string) returns (whole: string)
    requires t != "" && IsDigit(t[0])
    ensures whole == if t[0] == '0' then "0" else t[..DigitRun(t)]
    ensures whole != "" && AllDigits(whole) && (whole[0] == '0' ==> whole == "0") && |whole| <= |t| && t == whole + t[|whole|..]
  {
    whole := if t[0] == '0' then "0" else t[..DigitRun(t)];
    assert t == t[..|whole|] + t[|whole|..];
    assert t[0] == '0' ==> t[..1] == "0";
  }

  lemma ReadNumber(s: string)
    requires ParseNumber(s).Ok?
    ensures var r := ParseNumber(s); ValidNumber(r.value) && s == PutNumber(r.value, r.rest)
  {
    var negative := StartsWith(s, "-");
    var t := if negative then s[1..] else s;
    assert s == (if negative then "-" else "") + t;
    var whole := ReadWhole(t);
    var u := t[|whole|..];
    ReadFrac(u);
    ReadExp(ParseFrac(u).1);
  }

  lemma {:induction false} ReadString(s: string)
    requires LexString(s).Ok?
    ensures s == PutUnits(LexString(s).value, ['"'] + LexString(s).rest)
  {
    if s[0] == '"' {
      assert s == ['"'] + s[1..];
    } else if s[0] == '\\' {
      if |s| >= 2 && IsShort(s[1]) {
        ReadString(s[2..]);
        PushedUnit(Short(s[1]), LexString(s[2..]), s[2..]);
        assert s == ['\\', s[1]] + s[2..];
      } else {
        ReadString(s[6..]);
        PushedUnit(Hex(s[2..6]), LexString(s[6..]), s[6..]);
        assert s == ['\\', 'u'] + s[2..6] + s[6..];
      }
    } else {
      ReadString(s[1..]);
      PushedUnit(Raw(s[0]), LexString(s[1..]), s[1..]);
      assert s == [s[0]] + s[1..];
    }
  }

  lemma PushedUnit(u: Unit, r: Parse<seq<Unit>>, tail: string)
    requires r.Ok? && tail == PutUnits(r.value, ['"'] + r.rest)
    ensures Push(u, r).Ok? && PutUnits(Push(u, r).value, ['"'] + Push(u, r).rest) == UnitText(u) + tail
  {
    var us := [u] + r.value;
    assert us[1..] == r.value;
    PutUnitsCons(us, ['"'] + r.rest);
  }

  lemma ReadKey(s: string) returns (mid: string, gap: string)
    requires ParseKey(s).Ok?
    ensures var r := ParseKey(s);
            AllWs(mid) && AllWs(gap) && s == PutUnits(r.value, ['"'] + (mid + ([':'] + (gap + r.rest))))
  {
    hide LexString, SkipWs, PutUnits;
    ReadString(s);
    var rest := LexString(s).rest;
    mid := SkippedWs(rest);
    var t := SkipWs(rest);
    assert t == [':'] + t[1..];
    gap := SkippedWs(t[1..]);
  }

  lemma {:induction false} FoundWord(s: string, words: seq<string>)
    ensures FindWord(s, words).Some? ==> FindWord(s, words).value in words
  {
    if words != [] {
      FoundWord(s, words[1..]);
    }
  }

  lemma ReadScalar(s: string) returns (d: Doc)
    requires ParseScalar(s).Ok?
    ensures Valid(d) && s == Put(d, ParseScalar(s).rest) && Value(d) == ParseScalar(s).value
  {
    hide PutNumber;
    if ParseNumber(s).Ok? {
      ReadNumber(s);
      d := DNum(ParseNumber(s).value);
    } else {
      FoundWord(s, WORDS);
      var w := FindWord(s, WORDS).value;
      d := DLit(w);
      assert s == w + s[|w|..];
    }
  }

  /** What is read as a value is the text of one. */
  lemma {:induction false} ReadValue(s: string) returns (d: Doc)
    requires ParseValue(s).Ok?
    ensures Valid(d) && s == Put(d, ParseValue(s).rest) && Value(d) == ParseValue(s).value
    decreases |s|, 0
  {
    hide ParseElems, ParseMembers, ParseScalar, LexString, SkipWs, PutUnits;
    if s[0] == '"' {
      ReadString(s[1..]);
      d := DStr(LexString(s[1..]).value);
      assert s == ['"'] + s[1..];
    } else if s[0] == '[' {
      var pad := SkippedWs(s[1..]);
      var t := SkipWs(s[1..]);
      assert s == ['['] + (pad + t);
      if StartsWith(t, "]") {
        d := DArr(pad, NoElems);
        assert t == [']'] + t[1..];
      } else {
        var es := ReadElems(t, []);
        d := DArr(pad, es);
        assert [] + ElemValues(es) == ElemValues(es);
      }
    } else if s[0] == '{' {
      var pad := SkippedWs(s[1..]);
      var t := SkipWs(s[1..]);
      assert s == ['{'] + (pad + t);
      if StartsWith(t, "}") {
        d := DObj(pad, NoMembers);
        assert t == ['}'] + t[1..];
      } else {
        var ms := ReadMembers(t, []);
        d := DObj(pad, ms);
      }
    } else {
      ScalarStep(s);
      d := ReadScalar(s);
    }
  }

  lemma {:induction false} ReadElems(s: string, acc: seq<Json>) returns (es: Elems)
    requires ParseElems(s, acc).Ok?
    ensures ValidElems(es) && es.Elem?
    ensures s == PutElems(es, [']'] + ParseElems(s, acc).rest)
    ensures ParseElems(s, acc).value == Arr(acc + ElemValues(es))
    decreases |s|, 1
  {
    hide ParseValue, SkipWs, Put, Value;
    var d := ReadValue(s);
    var v, rest := ParseValue(s).value, ParseValue(s).rest;
    var post := SkippedWs(rest);
    var t := SkipWs(rest);
    if StartsWith(t, ",") {
      assert t == [','] + t[1..];
      var pre := SkippedWs(t[1..]);
      var next := ReadElems(SkipWs(t[1..]), acc + [v]);
      es := LastRead(d, post, pre, next, t[1..], ParseElems(s, acc).rest);
      assert acc + [v] + ElemValues(next) == acc + ([v] + ElemValues(next));
    } else {
      assert t == [']'] + t[1..];
      es := Elem("", d, post, NoElems);
      assert acc + [v] == acc + ([v] + []);
      assert "" + s == s;
    }
  }

  /** Elements behind a comma, with the blanks in front of the first of them. */
  lemma LastRead(d: Doc, post: string, pre: string, next: Elems, t: string, rest: string) returns (es: Elems)
    requires Valid(d) && AllWs(post) && AllWs(pre) && ValidElems(next) && next.Elem?
    requires t == pre + PutElems(next, [']'] + rest)
    ensures ValidElems(es) && es.Elem? && ElemValues(es) == [Value(d)] + ElemValues(next)
    ensures PutElems(es, [']'] + rest) == Put(d, post + ([','] + t))
  {
    hide Put, Value;
    var more := next.(pre := pre + next.pre);
    assert AllWs(more.pre);
    var tail := Put(next.value, next.post + PutMoreElems(next.more, [']'] + rest));
    assert pre + (next.pre + tail) == (pre + next.pre) + tail;
    assert PutElems(more, [']'] + rest) == t;
    es := Elem("", d, post, more);
    assert "" + Put(d, post + ([','] + t)) == Put(d, post + ([','] + t));
  }

  lemma {:induction false} ReadMembers(s: string, acc: seq<Field>) returns (ms: Members)
    requires ParseMembers(s, acc).Ok?
    ensures ValidMembers(ms) && ms.Member?
    ensures s == PutMembers(ms, ['}'] + ParseMembers(s, acc).rest)
    ensures ParseMembers(s, acc).value == Obj(MemberFields(ms, acc))
    decreases |s|, 1
  {
    hide ParseValue, ParseKey, SkipWs, Put, Value, PutUnits, DictSet, Decode;
    var mid, gap := ReadKey(s[1..]);
    var key, rest := ParseKey(s[1..]).value, ParseKey(s[1..]).rest;
    var d := ReadValue(rest);
    var v, after := ParseValue(rest).value, ParseValue(rest).rest;
    var post := SkippedWs(after);
    var t := SkipWs(after);
    assert s == ['"'] + s[1..];
    if StartsWith(t, ",") {
      assert t == [','] + t[1..];
      var pre := SkippedWs(t[1..]);
      var next := ReadMembers(SkipWs(t[1..]), DictSet(acc, Decode(key), v));
      ms := MemberRead(key, mid, gap, d, post, pre, next, t[1..], ParseMembers(s, acc).rest, acc);
    } else {
      assert t == ['}'] + t[1..];
      ms := Member("", key, mid, gap, d, post, NoMembers);
      assert "" + s == s;
    }
  }

  lemma MemberRead(key: seq<Unit>, mid: string, gap: string, d: Doc, post: string, pre: string, next: Members,
                   t: string, rest: string, acc: seq<Field>)
    returns (ms: Members)
    requires ValidUnits(key) && AllWs(mid) && AllWs(gap) && Valid(d) && AllWs(post) && AllWs(pre)
    requires ValidMembers(next) && next.Member? && t == pre + PutMembers(next, ['}'] + rest)
    ensures ValidMembers(ms) && ms.Member?
    ensures MemberFields(ms, acc) == MemberFields(next, DictSet(acc, Decode(key), Value(d)))
    ensures PutMembers(ms, ['}'] + rest)
         == ['"'] + PutUnits(key, ['"'] + (mid + ([':'] + (gap + Put(d, post + ([','] + t))))))
  {
    hide Put, Value, PutUnits, DictSet, Decode;
    var more := next.(pre := pre + next.pre);
    assert AllWs(more.pre);
    var tail := PutString(next.key, next.mid + ([':'] + (next.gap + Put(next.value, next.post + PutMoreMembers(next.more, ['}'] + rest)))));
    assert pre + (next.pre + tail) == (pre + next.pre) + tail;
    assert PutMembers(more, ['}'] + rest) == t;
    assert forall a :: MemberFields(more, a) == MemberFields(next, a);
    ms := Member("", key, mid, gap, d, post, more);
    var str := PutString(key, mid + ([':'] + (gap + Put(d, post + ([','] + t)))));
    assert "" + str == str;
  }

  /** The parser accepts exactly the texts of values with blanks around them, as those values. */
  lemma LoadsIff(text: string, v: Json)
    ensures Loads(text) == Some(v) <==>
            exists a: string, d: Doc, b: string :: AllWs(a) && AllWs(b) && Valid(d) && text == a + Text(d) + b && Value(d) == v
  {
    hide Put, Value, ParseValue, SkipWs, Valid;
    if Loads(text) == Some(v) {
      var a := SkippedWs(text);
      var d := ReadValue(SkipWs(text));
      var rest := ParseValue(SkipWs(text)).rest;
      var b := SkippedWs(rest);
      TextThen(d, rest);
      assert b + "" == b;
      assert text == a + Text(d) + b;
    }
    forall a: string, d: Doc, b: string | AllWs(a) && AllWs(b) && Valid(d) && text == a + Text(d) + b && Value(d) == v
      ensures Loads(text) == Some(v)
    {
      LoadsText(d, a, b);
    }
  }
}
