/** `_find_outermost_brace`: a scanner that counts braces outside strings. */
module BraceScanner {
  import opened PyText
  import opened JsonSyntax

  /** The scanner's variables. */
  datatype Scan = Scan(depth: int, inString: bool, escapeNext: bool)

  const START := Scan(0, false, false)

  function Outside(depth: int): Scan { Scan(depth, false, false) }

  function Inside(depth: int): Scan { Scan(depth, true, false) }

  /** What is left after the brace that closes the scan, if the scan closes. */
  function CloseRest(st: Scan, s: string, open: char, close: char): (r: Option<string>)
    ensures r.Some? ==> |r.value| < |s|
    decreases s
  {
    if s == "" then None
    else if st.escapeNext then CloseRest(st.(escapeNext := false), s[1..], open, close)
    else if s[0] == '\\' && st.inString then CloseRest(st.(escapeNext := true), s[1..], open, close)
    else if s[0] == '"' then CloseRest(st.(inString := !st.inString), s[1..], open, close)
    else if st.inString then CloseRest(st, s[1..], open, close)
    else if s[0] == open then CloseRest(st.(depth := st.depth + 1), s[1..], open, close)
    else if s[0] == close then
      if st.depth == 1 then Some(s[1..]) else CloseRest(st.(depth := st.depth - 1), s[1..], open, close)
    else CloseRest(st, s[1..], open, close)
  }

  /** `str.find` for one character; the length stands for "not found". */
  function Find(s: string, c: char): (i: nat)
    ensures i <= |s| && (forall k :: 0 <= k < i ==> s[k] != c) && (i < |s| ==> s[i] == c)
  {
    if s == "" || s[0] == c then 0 else 1 + Find(s[1..], c)
  }

  function OutermostBrace(text: string, open: char, close: char): Option<string> {
    var start := Find(text, open);
    match CloseRest(START, text[start..], open, close)
    case None => None
    case Some(rest) => Some(text[start..|text| - |rest|])
  }

  method FindOutermostBrace(text: string, open: char, close: char) returns (found: Option<string>)
    ensures found == OutermostBrace(text, open, close)
  {
    var start := 0;
    while start < |text| && text[start] != open
      invariant start <= |text|
      invariant Find(text, open) == start + Find(text[start..], open)
    {
      start := start + 1;
    }
    if start == |text| {
      return None;
    }
    var depth, inString, escapeNext := 0, false, false;
    var i := start;
    ghost var goal := CloseRest(START, text[start..], open, close);
    while i < |text|
      invariant start <= i <= |text|
      invariant CloseRest(Scan(depth, inString, escapeNext), text[i..], open, close) == goal
    {
      var ch := text[i];
      if escapeNext {
        escapeNext := false;
      } else if ch == '\\' && inString {
        escapeNext := true;
      } else if ch == '"' {
        inString := !inString;
      } else if inString {
      } else if ch == open {
        depth := depth + 1;
      } else if ch == close {
        depth := depth - 1;
        if depth == 0 {
          return Some(text[start..i + 1]);
        }
      }
      i := i + 1;
    }
    return None;
  }

  // ---- a JSON text leaves the scanner as it found it ----

  predicate Braces(open: char, close: char) {
    (open == '{' && close == '}') || (open == '[' && close == ']')
  }

  /** Characters the scanner steps over outside strings. */
  predicate Plain(c: char) {
    c != '"' && c != '{' && c != '}' && c != '[' && c != ']'
  }

  lemma {:induction false} ScanPlain(w: string, k: string, depth: int, open: char, close: char)
    requires Braces(open, close) && forall i :: 0 <= i < |w| ==> Plain(w[i])
    ensures CloseRest(Outside(depth), w + k, open, close) == CloseRest(Outside(depth), k, open, close)
  {
    if w == "" {
      assert w + k == k;
    } else {
      assert (w + k)[1..] == w[1..] + k;
      ScanPlain(w[1..], k, depth, open, close);
    }
  }

  lemma {:induction false} ScanInside(w: string, k: string, depth: int, open: char, close: char)
    requires forall i :: 0 <= i < |w| ==> w[i] != '"' && w[i] != '\\'
    ensures CloseRest(Inside(depth), w + k, open, close) == CloseRest(Inside(depth), k, open, close)
  {
    if w == "" {
      assert w + k == k;
    } else {
      assert (w + k)[1..] == w[1..] + k;
      ScanInside(w[1..], k, depth, open, close);
    }
  }

  lemma {:induction false} ScanUnits(us: seq<Unit>, k: string, depth: int, open: char, close: char)
    requires ValidUnits(us) && Braces(open, close)
    ensures CloseRest(Inside(depth), PutUnits(us, ['"'] + k), open, close)
         == CloseRest(Outside(depth), k, open, close)
  {
    if us == [] {
      assert (['"'] + k)[1..] == k;
    } else {
      ScanUnits(us[1..], k, depth, open, close);
      var tail := PutUnits(us[1..], ['"'] + k);
      match us[0]
      case Raw(c) => ScanInside([c], tail, depth, open, close);
      case Short(e) => ScanEscape(e, tail, depth, open, close);
      case Hex(d) =>
        ScanEscape('u', d + tail, depth, open, close);
        ScanInside(d, tail, depth, open, close);
    }
  }

  lemma ScanEscape(e: char, k: string, depth: int, open: char, close: char)
    ensures CloseRest(Inside(depth), ['\\'] + ([e] + k), open, close) == CloseRest(Inside(depth), k, open, close)
  {
    var s := ['\\'] + ([e] + k);
    assert s[1..] == [e] + k && s[1..][1..] == k;
  }

  lemma ScanString(us: seq<Unit>, k: string, depth: int, open: char, close: char)
    requires ValidUnits(us) && Braces(open, close)
    ensures CloseRest(Outside(depth), PutString(us, k), open, close) == CloseRest(Outside(depth), k, open, close)
  {
    ScanUnits(us, k, depth, open, close);
    assert PutString(us, k)[1..] == PutUnits(us, ['"'] + k);
  }

  /** One structural character in front of `k`. */
  lemma ScanChar(c: char, k: string, depth: int, open: char, close: char)
    requires Braces(open, close) && c != '"'
    ensures CloseRest(Outside(depth), [c] + k, open, close) ==
            if c == open then CloseRest(Outside(depth + 1), k, open, close)
            else if c == close then
              if depth == 1 then Some(k) else CloseRest(Outside(depth - 1), k, open, close)
            else CloseRest(Outside(depth), k, open, close)
  {
    var s := [c] + k;
    assert s[1..] == k;
    StepOutside(s, depth, open, close);
  }

  /** One unfolding of the scanner outside strings. */
  lemma StepOutside(s: string, depth: int, open: char, close: char)
    requires s != "" && s[0] != '"'
    ensures CloseRest(Outside(depth), s, open, close) ==
            if s[0] == open then CloseRest(Outside(depth + 1), s[1..], open, close)
            else if s[0] == close then
              if depth == 1 then Some(s[1..]) else CloseRest(Outside(depth - 1), s[1..], open, close)
            else CloseRest(Outside(depth), s[1..], open, close)
  {
  }

  lemma ScanNumber(n: Number, k: string, depth: int, open: char, close: char)
    requires ValidNumber(n) && Braces(open, close)
    ensures CloseRest(Outside(depth), PutNumber(n, k), open, close) == CloseRest(Outside(depth), k, open, close)
  {
    var w := PutNumber(n, "");
    assert "" + k == k;
    PutNumberAppend(n, "", k);
    ScanPlain(w, k, depth, open, close);
  }

  /** Whatever a value's strings contain, scanning the value changes nothing. */
  lemma {:induction false} ScanPut(d: Doc, k: string, depth: int, open: char, close: char)
    requires Valid(d) && Braces(open, close) && depth >= 1
    ensures CloseRest(Outside(depth), Put(d, k), open, close) == CloseRest(Outside(depth), k, open, close)
    decreases d
  {
    hide CloseRest, PutNumber, PutString;
    match d
    case DLit(word) => ScanPlain(word, k, depth, open, close);
    case DNum(n) => ScanNumber(n, k, depth, open, close);
    case DStr(us) => ScanString(us, k, depth, open, close);
    case DArr(pad, elems) =>
      var body := PutElems(elems, [']'] + k);
      var inner := if open == '[' then depth + 1 else depth;
      ScanChar('[', pad + body, depth, open, close);
      ScanPlain(pad, body, inner, open, close);
      ScanElems(elems, [']'] + k, inner, open, close);
      ScanChar(']', k, inner, open, close);
    case DObj(pad, members) =>
      var body := PutMembers(members, ['}'] + k);
      var inner := if open == '{' then depth + 1 else depth;
      ScanChar('{', pad + body, depth, open, close);
      ScanPlain(pad, body, inner, open, close);
      ScanMembers(members, ['}'] + k, inner, open, close);
      ScanChar('}', k, inner, open, close);
  }

  lemma {:induction false} ScanElems(es: Elems, k: string, depth: int, open: char, close: char)
    requires ValidElems(es) && Braces(open, close) && depth >= 1
    ensures CloseRest(Outside(depth), PutElems(es, k), open, close) == CloseRest(Outside(depth), k, open, close)
    decreases es
  {
    hide CloseRest, Put;
    if es.Elem? {
      var tail := PutMoreElems(es.more, k);
      ScanPlain(es.pre, Put(es.value, es.post + tail), depth, open, close);
      ScanPut(es.value, es.post + tail, depth, open, close);
      ScanPlain(es.post, tail, depth, open, close);
      ScanElems(es.more, k, depth, open, close);
      if es.more.Elem? {
        ScanChar(',', PutElems(es.more, k), depth, open, close);
      }
    }
  }

  lemma {:induction false} ScanMembers(ms: Members, k: string, depth: int, open: char, close: char)
    requires ValidMembers(ms) && Braces(open, close) && depth >= 1
    ensures CloseRest(Outside(depth), PutMembers(ms, k), open, close) == CloseRest(Outside(depth), k, open, close)
    decreases ms
  {
    hide CloseRest, Put, PutString;
    if ms.Member? {
      var tail := PutMoreMembers(ms.more, k);
      var value := Put(ms.value, ms.post + tail);
      var colon := [':'] + (ms.gap + value);
      ScanPlain(ms.pre, PutString(ms.key, ms.mid + colon), depth, open, close);
      ScanString(ms.key, ms.mid + colon, depth, open, close);
      ScanPlain(ms.mid, colon, depth, open, close);
      ScanChar(':', ms.gap + value, depth, open, close);
      ScanPlain(ms.gap, value, depth, open, close);
      ScanPut(ms.value, ms.post + tail, depth, open, close);
      ScanPlain(ms.post, tail, depth, open, close);
      ScanMembers(ms.more, k, depth, open, close);
      if ms.more.Member? {
        ScanChar(',', PutMembers(ms.more, k), depth, open, close);
      }
    }
  }

  function Opening(d: Doc): char
    requires d.DObj? || d.DArr?
  {
    if d.DObj? then '{' else '['
  }

  function Closing(d: Doc): char
    requires d.DObj? || d.DArr?
  {
    if d.DObj? then '}' else ']'
  }

  /** The scanner closes exactly where a composite value ends. */
  lemma CompositeCloses(d: Doc, k: string)
    requires Valid(d) && (d.DObj? || d.DArr?)
    ensures CloseRest(START, Put(d, k), Opening(d), Closing(d)) == Some(k)
  {
    hide CloseRest;
    var o, c := Opening(d), Closing(d);
    match d
    case DArr(pad, elems) =>
      var body := PutElems(elems, [']'] + k);
      ScanChar('[', pad + body, 0, o, c);
      ScanPlain(pad, body, 1, o, c);
      ScanElems(elems, [']'] + k, 1, o, c);
      ScanChar(']', k, 1, o, c);
    case DObj(pad, members) =>
      var body := PutMembers(members, ['}'] + k);
      ScanChar('{', pad + body, 0, o, c);
      ScanPlain(pad, body, 1, o, c);
      ScanMembers(members, ['}'] + k, 1, o, c);
      ScanChar('}', k, 1, o, c);
  }

  lemma {:induction false} FindSkips(pre: string, s: string, c: char)
    requires c !in pre && s != "" && s[0] == c
    ensures Find(pre + s, c) == |pre|
  {
    if pre == "" {
      assert pre + s == s;
    } else {
      assert (pre + s)[1..] == pre[1..] + s;
      FindSkips(pre[1..], s, c);
    }
  }

  /** The text of an object or array is found whole, whatever its strings contain and whatever
      follows it, as soon as its opening brace is the first one of the text. */
  lemma OutermostBraceFindsDoc(pre: string, d: Doc, post: string)
    requires Valid(d) && (d.DObj? || d.DArr?) && Opening(d) !in pre
    ensures OutermostBrace(pre + Text(d) + post, Opening(d), Closing(d)) == Some(Text(d))
  {
    var s := Put(d, post);
    TextThen(d, post);
    var text := pre + Text(d) + post;
    assert text == pre + s;
    FindSkips(pre, s, Opening(d));
    assert text[|pre|..] == s;
    CompositeCloses(d, post);
    assert text[|pre|..|text| - |post|] == Text(d);
  }

  /** Conversely, only a text that starts with the opening and ends with the closing character is
      ever returned, and it starts at the first opening character. */
  lemma OutermostBraceShape(text: string, open: char, close: char)
    requires open != close && open != '"' && open != '\\'
    ensures match OutermostBrace(text, open, close)
            case None => true
            case Some(r) =>
              && |r| >= 2 && r[0] == open && r[|r| - 1] == close
              && OccursAt(text, r, Find(text, open))
  {
    var start := Find(text, open);
    var s := text[start..];
    if CloseRest(START, s, open, close).Some? {
      var rest := CloseRest(START, s, open, close).value;
      CloseRestIsSuffix(START, s, open, close);
      assert s[0] == open;
      CloseRestIsSuffix(Outside(1), s[1..], open, close);
      var r := text[start..|text| - |rest|];
      assert r[|r| - 1] == s[|s| - |rest| - 1];
    }
  }

  lemma {:induction false} CloseRestIsSuffix(st: Scan, s: string, open: char, close: char)
    ensures match CloseRest(st, s, open, close)
            case None => true
            case Some(rest) => s[|s| - |rest| - 1] == close && s[|s| - |rest|..] == rest
    decreases s
  {
    if s != "" {
      var t := s[1..];
      CloseRestIsSuffix(st.(escapeNext := false), t, open, close);
      CloseRestIsSuffix(st.(escapeNext := true), t, open, close);
      CloseRestIsSuffix(st.(inString := !st.inString), t, open, close);
      CloseRestIsSuffix(st, t, open, close);
      CloseRestIsSuffix(st.(depth := st.depth + 1), t, open, close);
      CloseRestIsSuffix(st.(depth := st.depth - 1), t, open, close);
    }
  }
}
