/** `extract_json`: the cascade of repair, direct parse, two code-fence searches and two brace
    scans, and what it returns for JSON embedded in prose. */
module ExtractJson {
  import opened PyText
  import opened JsonSyntax
  import opened JsonParser
  import opened JsonRepair
  import opened BraceScanner

  datatype Method = Direct | JsonFence | GenericFence | ObjectBrace | ArrayBrace
  datatype Extraction = Found(data: Json, how: Method) | EmptyInput | AllFailed

  /** `_try_parse_json`: only a dict or a list counts. */
  function TryParse(s: string): Option<Json> {
    match Loads(s)
    case None => None
    case Some(v) => if v.Obj? || v.Arr? then Some(v) else None
  }

  // ---- re.search(r"```\s*json\s*\n(.*?)\n```") and re.search(r"```\s*\n(.*?)\n```"), DOTALL ----

  const FENCE := "```"
  const CLOSING := "\n```"

  /** `(.*?)` followed by the closing fence: the shortest body. */
  function LazyBody(s: string): Option<string> {
    if StartsWith(s, CLOSING) then Some("")
    else if s == "" then None
    else match LazyBody(s[1..])
      case None => None
      case Some(b) => Some([s[0]] + b)
  }

  /** `\s*` takes `s[..m]` and is followed by a line feed; longer runs are tried first. */
  function BodyFrom(s: string, m: nat): Option<string>
    requires m <= |s|
  {
    if m < |s| && s[m] == '\n' && LazyBody(s[m + 1..]).Some? then LazyBody(s[m + 1..])
    else if m == 0 then None
    else BodyFrom(s, m - 1)
  }

  function FenceBody(s: string): Option<string> {
    BodyFrom(s, |s| - |LStrip(s)|)
  }

  function FenceHere(s: string, tagged: bool): Option<string> {
    if !StartsWith(s, FENCE) then None
    else if !tagged then FenceBody(s[3..])
    else
      var t := LStrip(s[3..]);
      if StartsWith(t, "json") then FenceBody(t[4..]) else None
  }

  /** The leftmost match. */
  function FindFence(s: string, tagged: bool): Option<string> {
    if s == "" then None
    else if FenceHere(s, tagged).Some? then FenceHere(s, tagged)
    else FindFence(s[1..], tagged)
  }

  function TryFence(s: string, tagged: bool): Option<Json> {
    match FindFence(s, tagged)
    case None => None
    case Some(body) => TryParse(Strip(body))
  }

  function TryBrace(s: string, open: char, close: char): Option<Json> {
    match OutermostBrace(s, open, close)
    case None => None
    case Some(body) => TryParse(body)
  }

  function Extract(raw: string): Extraction {
    if Strip(raw) == "" then EmptyInput
    else
      var text := Repair(Strip(raw));
      if TryParse(text).Some? then Found(TryParse(text).value, Direct)
      else if TryFence(text, true).Some? then Found(TryFence(text, true).value, JsonFence)
      else if TryFence(text, false).Some? then Found(TryFence(text, false).value, GenericFence)
      else if TryBrace(text, '{', '}').Some? then Found(TryBrace(text, '{', '}').value, ObjectBrace)
      else if TryBrace(text, '[', ']').Some? then Found(TryBrace(text, '[', ']').value, ArrayBrace)
      else AllFailed
  }

  // ---- no fence can start inside a JSON string ----

  /** No line feed is reached from a backtick without passing a quote. */
  predicate Guarded(s: string, open: bool) {
    s == "" ||
    if s[0] == '`' then Guarded(s[1..], true)
    else if s[0] == '"' then Guarded(s[1..], false)
    else !(s[0] == '\n' && open) && Guarded(s[1..], open)
  }

  lemma {:induction false} GuardedSkip(w: string, k: string, open: bool)
    requires forall i :: 0 <= i < |w| ==> w[i] != '`' && w[i] != '"' && (open ==> w[i] != '\n')
    ensures Guarded(w + k, open) == Guarded(k, open)
  {
    if w == "" {
      assert w + k == k;
    } else {
      assert (w + k)[1..] == w[1..] + k;
      GuardedSkip(w[1..], k, open);
    }
  }

  /** Without line feeds nothing goes wrong before `k`, in whatever state `k` is entered. */
  lemma {:induction false} GuardedInside(w: string, k: string)
    requires '\n' !in w && Guarded(k, true) && Guarded(k, false)
    ensures Guarded(w + k, true) && Guarded(w + k, false)
  {
    if w == "" {
      assert w + k == k;
    } else {
      assert (w + k)[1..] == w[1..] + k;
      GuardedInside(w[1..], k);
    }
  }

  lemma {:induction false} GuardedUnits(us: seq<Unit>, k: string)
    requires ValidUnits(us) && Guarded(k, false)
    ensures var s := PutUnits(us, ['"'] + k); Guarded(s, true) && Guarded(s, false)
  {
    if us == [] {
      assert (['"'] + k)[1..] == k;
    } else {
      hide Guarded, PutUnits, UnitText;
      GuardedUnits(us[1..], k);
      PutUnitsCons(us, ['"'] + k);
      UnitTextOnOneLine(us[0]);
      GuardedInside(UnitText(us[0]), PutUnits(us[1..], ['"'] + k));
    }
  }

  lemma GuardedString(us: seq<Unit>, k: string)
    requires ValidUnits(us) && Guarded(k, false)
    ensures Guarded(PutString(us, k), false)
  {
    GuardedUnits(us, k);
    assert PutString(us, k)[1..] == PutUnits(us, ['"'] + k);
  }

  lemma GuardedNumber(n: Number, k: string)
    requires ValidNumber(n) && Guarded(k, false)
    ensures Guarded(PutNumber(n, k), false)
  {
    NumberHasNoMarks(n);
    hide PutNumber, Guarded;
    assert "" + k == k;
    PutNumberAppend(n, "", k);
    GuardedSkip(PutNumber(n, ""), k, false);
  }

  lemma NumberHasNoMarks(n: Number)
    requires ValidNumber(n)
    ensures forall i :: 0 <= i < |PutNumber(n, "")| ==> PutNumber(n, "")[i] != '`' && PutNumber(n, "")[i] != '"'
  {
  }

  lemma {:induction false} GuardedPut(d: Doc, k: string)
    requires Valid(d) && Guarded(k, false)
    ensures Guarded(Put(d, k), false)
    decreases d
  {
    hide Guarded, PutNumber, PutString;
    match d
    case DLit(word) => GuardedSkip(word, k, false);
    case DNum(n) => GuardedNumber(n, k);
    case DStr(us) => GuardedString(us, k);
    case DArr(pad, elems) =>
      GuardedSkip([']'], k, false);
      GuardedElems(elems, [']'] + k);
      GuardedSkip(pad, PutElems(elems, [']'] + k), false);
      GuardedSkip(['['], pad + PutElems(elems, [']'] + k), false);
    case DObj(pad, members) =>
      GuardedSkip(['}'], k, false);
      GuardedMembers(members, ['}'] + k);
      GuardedSkip(pad, PutMembers(members, ['}'] + k), false);
      GuardedSkip(['{'], pad + PutMembers(members, ['}'] + k), false);
  }

  lemma {:induction false} GuardedElems(es: Elems, k: string)
    requires ValidElems(es) && Guarded(k, false)
    ensures Guarded(PutElems(es, k), false)
    decreases es
  {
    hide Guarded, Put;
    if es.Elem? {
      var tail := PutMoreElems(es.more, k);
      GuardedElems(es.more, k);
      if es.more.Elem? {
        GuardedSkip([','], PutElems(es.more, k), false);
      }
      GuardedSkip(es.post, tail, false);
      GuardedPut(es.value, es.post + tail);
      GuardedSkip(es.pre, Put(es.value, es.post + tail), false);
    }
  }

  lemma {:induction false} GuardedMembers(ms: Members, k: string)
    requires ValidMembers(ms) && Guarded(k, false)
    ensures Guarded(PutMembers(ms, k), false)
    decreases ms
  {
    hide Guarded, Put, PutString;
    if ms.Member? {
      var tail := PutMoreMembers(ms.more, k);
      var value := Put(ms.value, ms.post + tail);
      var colon := [':'] + (ms.gap + value);
      GuardedMembers(ms.more, k);
      if ms.more.Member? {
        GuardedSkip([','], PutMembers(ms.more, k), false);
      }
      GuardedSkip(ms.post, tail, false);
      GuardedPut(ms.value, ms.post + tail);
      GuardedSkip(ms.gap, value, false);
      GuardedSkip([':'], ms.gap + value, false);
      GuardedSkip(ms.mid, colon, false);
      GuardedString(ms.key, ms.mid + colon);
      GuardedSkip(ms.pre, PutString(ms.key, ms.mid + colon), false);
    }
  }

  /** Behind an open backtick the leading blanks hold no line feed. */
  lemma {:induction false} GuardedBlanks(s: string)
    requires Guarded(s, true)
    ensures Guarded(LStrip(s), true)
    ensures BodyFrom(s, |s| - |LStrip(s)|) == None
  {
    if s != "" && IsSpace(s[0]) {
      GuardedBlanks(s[1..]);
      BodyFromShift(s, |s| - |LStrip(s)|);
    } else {
      assert LStrip(s) == s;
    }
  }

  lemma {:induction false} BodyFromShift(s: string, m: nat)
    requires 0 < m <= |s| && s[0] != '\n'
    ensures BodyFrom(s, m) == BodyFrom(s[1..], m - 1)
  {
    assert m < |s| ==> s[1..][m - 1] == s[m] && s[1..][m..] == s[m + 1..];
    if m > 1 {
      BodyFromShift(s, m - 1);
    } else {
      assert BodyFrom(s, 0) == None;
    }
  }

  lemma GuardedNoFenceHere(s: string, tagged: bool)
    requires Guarded(s, false)
    ensures FenceHere(s, tagged) == None
  {
    if StartsWith(s, FENCE) {
      assert s == FENCE + s[3..];
      assert s[1..][1..][1..] == s[3..];
      assert s[1..][0] == '`' && s[1..][1..][0] == '`';
      assert Guarded(s[1..], true) && Guarded(s[1..][1..], true) && Guarded(s[3..], true);
      GuardedBlanks(s[3..]);
      var t := LStrip(s[3..]);
      if tagged && StartsWith(t, "json") {
        assert t == "json" + t[4..];
        GuardedSkip("json", t[4..], true);
        GuardedBlanks(t[4..]);
      }
    }
  }

  lemma {:induction false} GuardedNoFence(s: string, tagged: bool)
    requires Guarded(s, false)
    ensures FindFence(s, tagged) == None
  {
    if s != "" {
      GuardedNoFenceHere(s, tagged);
      if s[0] == '`' {
        GuardedAfterTick(s[1..]);
      }
      GuardedNoFence(s[1..], tagged);
    }
  }

  lemma {:induction false} GuardedAfterTick(s: string)
    requires Guarded(s, true)
    ensures Guarded(s, false)
  {
    if s != "" && s[0] != '`' && s[0] != '"' {
      GuardedAfterTick(s[1..]);
    }
  }

  // ---- prose around a JSON text ----

  /** Prose that may stand in front of the JSON text. */
  predicate Prose(s: string) {
    forall i :: 0 <= i < |s| ==> s[i] != '"' && s[i] != '`' && s[i] != '{' && s[i] != '['
  }

  lemma StripAround(pre: string, core: string, post: string)
    requires core != "" && Trimmed(core)
    ensures Strip(pre + core + post) == LStrip(pre) + core + RStrip(post)
  {
    hide LStrip, RStrip;
    var a := LStripSplit(pre);
    var b := RStripSplit(post);
    var p, q := LStrip(pre), RStrip(post);
    var inner := p + core + q;
    assert inner[0] == if p == "" then core[0] else p[0];
    assert inner[|inner| - 1] == if q == "" then core[|core| - 1] else q[|q| - 1];
    StripCore(a, inner, b);
    assert pre + core + post == a + inner + b;
  }

  lemma ProseSuffix(pre: string)
    requires Prose(pre)
    ensures Prose(LStrip(pre))
  {
    var a := LStripSplit(pre);
    assert forall i :: 0 <= i < |LStrip(pre)| ==> LStrip(pre)[i] == pre[|a| + i];
  }

  lemma NoTicksInPrefix(post: string)
    requires '`' !in post
    ensures '`' !in RStrip(post)
  {
    var b := RStripSplit(post);
  }

  /** Text that begins with prose never parses to an object or array. */
  lemma ProseDoesNotParse(s: string)
    requires s != "" && !IsSpace(s[0]) && s[0] != '"' && s[0] != '{' && s[0] != '['
    ensures TryParse(s) == None
  {
    SkipWsNone(s);
    ScalarStep(s);
  }

  lemma {:induction false} SkipWsKeepsNonBlank(s: string)
    requires s != "" && !IsSpace(s[|s| - 1])
    ensures SkipWs(s) != ""
  {
    if IsWs(s[0]) {
      SkipWsKeepsNonBlank(s[1..]);
    }
  }

  /** An object or array followed by something other than blanks does not parse as a whole. */
  lemma TrailingTextDoesNotParse(d: Doc, k: string)
    requires Valid(d) && (d.DObj? || d.DArr?) && k != "" && !IsSpace(k[|k| - 1])
    ensures TryParse(Put(d, k)) == None
  {
    hide Put, ParseValue, Value;
    PutStarts(d, k);
    SkipWsNone(Put(d, k));
    ParsePut(d, k);
    SkipWsKeepsNonBlank(k);
  }

  lemma CompositeText(d: Doc)
    requires d.DObj? || d.DArr?
    ensures Text(d) != "" && Trimmed(Text(d)) && Text(d)[|Text(d)| - 1] == Closing(d)
    ensures Text(d)[0] == Opening(d)
  {
    match d
    case DArr(pad, elems) =>
      PutElemsAppend(elems, "", [']']);
      assert "" + [']'] == [']'] && [']'] + "" == [']'];
      assert Text(d) == ['['] + (pad + (PutElems(elems, "") + [']']));
    case DObj(pad, members) =>
      PutMembersAppend(members, "", ['}']);
      assert "" + ['}'] == ['}'] && ['}'] + "" == ['}'];
      assert Text(d) == ['{'] + (pad + (PutMembers(members, "") + ['}']));
  }

  lemma LoadsDoc(d: Doc)
    requires Valid(d) && (d.DObj? || d.DArr?)
    ensures TryParse(Text(d)) == Some(Value(d))
  {
    LoadsText(d, "", "");
    assert "" + Text(d) + "" == Text(d);
  }

  /** What repair does to prose, a JSON text and whatever follows. */
  function RepairTail(pre: string, d: Doc, post: string): string {
    if HasCjk(pre + Text(d) + post) then RepairFrom(false, false, post) else post
  }

  /** A JSON text that repair can mend where it stands: its bare quotes are sheltered, and there is an
      ideograph if there is anything to mend. */
  predicate Mendable(pre: string, d: Doc, post: string) {
    Loose(d) && Sheltered(d) && (Valid(d) || HasCjk(pre + Text(d) + post))
  }

  lemma RepairAround(pre: string, d: Doc, post: string)
    requires Mendable(pre, d, post) && (d.DObj? || d.DArr?) && '"' !in pre
    ensures Repair(pre + Text(d) + post) == pre + Text(Curled(d)) + RepairTail(pre, d, post)
  {
    hide Loose, Sheltered, Valid, Put;
    var s := pre + Text(d) + post;
    if HasCjk(s) {
      var t := RepairFrom(false, false, post);
      TextThen(d, post);
      TextThen(Curled(d), t);
      assert s == pre + Put(d, post);
      RepairPlain(pre, Put(d, post));
      RepairPut(d, post);
      assert pre + Put(Curled(d), t) == pre + Text(Curled(d)) + t;
    } else {
      ValidIsLoose(d);
    }
  }

  /** Stripping takes no ideograph away. */
  lemma StillMendable(pre: string, d: Doc, post: string)
    requires Mendable(pre, d, post)
    ensures Mendable(LStrip(pre), d, RStrip(post))
  {
    hide Loose, Sheltered, Valid, Put, LStrip, RStrip;
    var a := LStripSplit(pre);
    var b := RStripSplit(post);
    var inner := LStrip(pre) + Text(d) + RStrip(post);
    assert pre + Text(d) + post == a + inner + b;
    NoCjkInBlanks(a);
    NoCjkInBlanks(b);
    CjkConcat(a + inner, b);
    CjkConcat(a, inner);
  }

  lemma NoCjkInBlanks(w: string)
    requires AllSpace(w)
    ensures !HasCjk(w)
  {
  }

  lemma CjkConcat(a: string, b: string)
    ensures HasCjk(a + b) ==> HasCjk(a) || HasCjk(b)
  {
    if HasCjk(a + b) {
      var i :| 0 <= i < |a + b| && IsUnifiedIdeograph((a + b)[i]);
      assert (a + b)[i] == if i < |a| then a[i] else b[i - |a|];
    }
  }

  /** Repair changes neither the backticks nor the last character's being a non-blank. */
  lemma RepairTailShape(pre: string, d: Doc, post: string)
    ensures var t := RepairTail(pre, d, post);
            && |t| == |post| && ('`' !in post ==> '`' !in t)
            && (post != "" && !IsSpace(post[|post| - 1]) ==> !IsSpace(t[|t| - 1]))
  {
    RepairFromChangesQuotesOnly(false, false, post);
  }

  /** The main promise: an object in prose is returned exactly, whatever its strings contain, however it
      is laid out, and although quotes inside its strings were left bare: each of these comes back as
      U+201D.  The prose before it must be free of quotes, backticks and opening brackets, the text
      after it only of backticks. */
  lemma ExtractMendedObject(pre: string, d: Doc, post: string)
    requires Mendable(pre, d, post) && d.DObj? && Prose(pre) && '`' !in post
    ensures Valid(Curled(d))
    ensures Extract(pre + Text(d) + post) ==
            Found(Value(Curled(d)), if AllSpace(pre) && AllSpace(post) then Direct else ObjectBrace)
  {
    hide Put, Value, Loads, Repair, OutermostBrace, FindFence, Loose, Sheltered, Valid;
    var p, q, c := LStrip(pre), RStrip(post), Curled(d);
    CurledIsValid(d);
    BlankIffStripped(pre, post);
    CompositeText(d);
    CompositeText(c);
    StripAround(pre, Text(d), post);
    ProseSuffix(pre);
    NoTicksInPrefix(post);
    StillMendable(pre, d, post);
    RepairAround(p, d, q);
    var t := RepairTail(p, d, q);
    RepairTailShape(p, d, q);
    ExtractFromMended(p, c, t);
    assert q == "" ==> t == "";
  }

  /** The cascade behind the repair. */
  lemma ExtractFromMended(p: string, c: Doc, t: string)
    requires Valid(c) && c.DObj? && Prose(p) && '`' !in t
    requires (p != "" ==> !IsSpace(p[0])) && (t != "" ==> !IsSpace(t[|t| - 1]))
    ensures var text := p + Text(c) + t;
            if p == "" && t == "" then TryParse(text) == Some(Value(c))
            else
              && TryParse(text) == None && TryFence(text, true) == None && TryFence(text, false) == None
              && TryBrace(text, '{', '}') == Some(Value(c))
  {
    hide Put, Value, Loads, OutermostBrace, FindFence, Valid;
    var text := p + Text(c) + t;
    CompositeText(c);
    LoadsDoc(c);
    if p == "" && t == "" {
      assert text == Text(c);
    } else {
      if p != "" {
        assert text[0] == p[0];
        ProseDoesNotParse(text);
      } else {
        TextThen(c, t);
        assert text == Put(c, t);
        TrailingTextDoesNotParse(c, t);
      }
      ObjectTextHasNoFence(p, c, t);
      OutermostBraceFindsDoc(p, c, t);
    }
  }

  /** In particular every well-formed object comes back as it is. */
  lemma ExtractObjectInProse(pre: string, d: Doc, post: string)
    requires Valid(d) && d.DObj? && Prose(pre) && '`' !in post
    ensures Extract(pre + Text(d) + post) ==
            Found(Value(d), if AllSpace(pre) && AllSpace(post) then Direct else ObjectBrace)
  {
    hide Extract, Put, Value, Valid, Loose, Sheltered;
    ValidIsLoose(d);
    ExtractMendedObject(pre, d, post);
  }

  /** With nothing but blanks around it, an array too is returned exactly. */
  lemma ExtractBareDoc(pre: string, d: Doc, post: string)
    requires Mendable("", d, "") && (d.DObj? || d.DArr?) && AllSpace(pre) && AllSpace(post)
    ensures Valid(Curled(d)) && Extract(pre + Text(d) + post) == Found(Value(Curled(d)), Direct)
  {
    hide Put, Value, Loads, Repair, OutermostBrace, FindFence, Loose, Sheltered, Valid;
    CurledIsValid(d);
    CompositeText(d);
    CompositeText(Curled(d));
    StripCore(pre, Text(d), post);
    RepairAround("", d, "");
    RepairTailShape("", d, "");
    assert "" + Text(d) + "" == Text(d);
    assert "" + Text(Curled(d)) + RepairTail("", d, "") == Text(Curled(d));
    LoadsDoc(Curled(d));
  }

  lemma BlankIffStripped(pre: string, post: string)
    ensures AllSpace(pre) <==> LStrip(pre) == ""
    ensures AllSpace(post) <==> RStrip(post) == ""
  {
    var a := LStripSplit(pre);
    var b := RStripSplit(post);
    if AllSpace(pre) {
      AllSpaceVanishes(pre);
    }
    if RStrip(post) != "" {
      assert post[|RStrip(post)| - 1] == RStrip(post)[|RStrip(post)| - 1];
    }
  }

  lemma ObjectTextHasNoFence(p: string, d: Doc, t: string)
    requires Valid(d) && Prose(p) && '`' !in t
    ensures var text := p + Text(d) + t;
            FindFence(text, true) == None && FindFence(text, false) == None
  {
    hide Put, FindFence;
    var text := p + Text(d) + t;
    TextThen(d, t);
    assert text == p + Put(d, t);
    GuardedWithoutTicks(t);
    GuardedPut(d, t);
    GuardedSkip(p, Put(d, t), false);
    GuardedNoFence(text, true);
    GuardedNoFence(text, false);
  }

  lemma {:induction false} GuardedWithoutTicks(s: string)
    requires '`' !in s
    ensures Guarded(s, false)
  {
    if s != "" {
      GuardedWithoutTicks(s[1..]);
    }
  }

  // ---- a fenced block ----

  lemma LazyBodyCons(c: char, s: string)
    requires !StartsWith([c] + s, CLOSING)
    ensures LazyBody([c] + s) == Prepend([c], LazyBody(s))
  {
    assert ([c] + s)[1..] == s;
  }

  lemma {:induction false} LazyBodySkip(w: string, k: string)
    requires forall i :: 0 <= i < |w| ==> w[i] != '`'
    requires k == "" || k[0] != '`'
    ensures LazyBody(w + k) == Prepend(w, LazyBody(k))
  {
    hide LazyBody;
    if w == "" {
      assert w + k == k;
      PrependNothing(LazyBody(k));
    } else {
      var s := w + k;
      assert s == [w[0]] + (w[1..] + k) && [w[0]] + w[1..] == w;
      PrefixChars(s, CLOSING);
      assert CLOSING[1] == '`' && (|s| > 1 ==> s[1] == (w[1..] + k)[0]);
      assert !StartsWith(s, CLOSING);
      LazyBodyCons(w[0], w[1..] + k);
      LazyBodySkip(w[1..], k);
      PrependTwice([w[0]], w[1..], LazyBody(k));
    }
  }

  function Prepend(w: string, r: Option<string>): Option<string> {
    match r
    case None => None
    case Some(b) => Some(w + b)
  }

  /** Inside a string there may be backticks but no raw line feed. */
  lemma {:induction false} LazyBodyInside(w: string, k: string)
    requires forall i :: 0 <= i < |w| ==> w[i] != '\n'
    ensures LazyBody(w + k) == Prepend(w, LazyBody(k))
  {
    if w == "" {
      assert w + k == k;
      assert LazyBody(k).Some? ==> "" + LazyBody(k).value == LazyBody(k).value;
    } else {
      var s := w + k;
      assert s[0] == w[0] && s[1..] == w[1..] + k;
      PrefixChars(s, CLOSING);
      assert CLOSING[0] == '\n' && !StartsWith(s, CLOSING);
      LazyBodyInside(w[1..], k);
      assert LazyBody(k).Some? ==> w + LazyBody(k).value == [w[0]] + (w[1..] + LazyBody(k).value);
    }
  }

  /** The spelled string as one run of characters, none of them a line feed. */
  lemma {:induction false} UnitsHaveNoLineFeed(us: seq<Unit>)
    requires ValidUnits(us)
    ensures '\n' !in PutUnits(us, "\"")
  {
    if us != [] {
      hide PutUnits, UnitText;
      UnitsHaveNoLineFeed(us[1..]);
      PutUnitsCons(us, "\"");
      UnitTextOnOneLine(us[0]);
    }
  }

  lemma LazyBodyString(us: seq<Unit>, k: string)
    requires ValidUnits(us)
    ensures LazyBody(PutString(us, k)) == Prepend(PutString(us, ""), LazyBody(k))
  {
    assert ['"'] + "" == ['"'] && "" + k == k;
    PutStringAppend(us, "", k);
    UnitsHaveNoLineFeed(us);
    var w := PutString(us, "");
    assert forall i :: 0 <= i < |w| ==> i == 0 || w[i] in PutUnits(us, "\"");
    LazyBodyInside(w, k);
  }

  predicate NoTickStart(k: string) { k == "" || k[0] != '`' }

  lemma PrependNothing(r: Option<string>)
    ensures Prepend("", r) == r
  {
    assert r.Some? ==> "" + r.value == r.value;
  }

  lemma PrependTwice(a: string, b: string, r: Option<string>)
    ensures Prepend(a, Prepend(b, r)) == Prepend(a + b, r)
  {
    if r.Some? {
      assert a + (b + r.value) == (a + b) + r.value;
    }
  }

  lemma {:induction false} LazyBodyPut(d: Doc, k: string)
    requires Valid(d) && NoTickStart(k)
    ensures LazyBody(Put(d, k)) == Prepend(Text(d), LazyBody(k))
    decreases d, 0
  {
    hide LazyBody, PutNumber, PutString, Prepend;
    match d
    case DLit(word) =>
      LazyBodySkip(word, k);
      assert word + "" == word;
    case DNum(n) =>
      assert "" + k == k;
      PutNumberAppend(n, "", k);
      NumberHasNoTick(n);
      LazyBodySkip(PutNumber(n, ""), k);
    case DStr(us) => LazyBodyString(us, k);
    case DArr(pad, elems) =>
      var inner := PutElems(elems, [']'] + k);
      LazyBodyElems(elems, [']'] + k);
      LazyBodySkip([']'], k);
      PutElemsStart(elems, [']'] + k);
      OpenPad('[', pad, inner);
      LazyBodySkip(['['] + pad, inner);
      PutElemsAppend(elems, "", [']']);
      assert "" + [']'] == [']'] && [']'] + "" == [']'];
      JoinFour(['['] + pad, PutElems(elems, ""), [']'], LazyBody(k));
      assert Text(d) == (['['] + pad) + (PutElems(elems, "") + [']']);
    case DObj(pad, members) =>
      var inner := PutMembers(members, ['}'] + k);
      LazyBodyMembers(members, ['}'] + k);
      LazyBodySkip(['}'], k);
      PutMembersStart(members, ['}'] + k);
      OpenPad('{', pad, inner);
      LazyBodySkip(['{'] + pad, inner);
      PutMembersAppend(members, "", ['}']);
      assert "" + ['}'] == ['}'] && ['}'] + "" == ['}'];
      JoinFour(['{'] + pad, PutMembers(members, ""), ['}'], LazyBody(k));
      assert Text(d) == (['{'] + pad) + (PutMembers(members, "") + ['}']);
  }

  lemma JoinFour(a: string, b: string, c: string, r: Option<string>)
    ensures Prepend(a, Prepend(b, Prepend(c, r))) == Prepend(a + (b + c), r)
  {
    PrependTwice(b, c, r);
    PrependTwice(a, b + c, r);
  }

  lemma OpenPad(c: char, pad: string, inner: string)
    ensures ([c] + pad) + inner == [c] + (pad + inner)
  {
  }

  lemma NumberHasNoTick(n: Number)
    requires ValidNumber(n)
    ensures '`' !in PutNumber(n, "")
  {
  }

  lemma PutElemsStart(es: Elems, k: string)
    requires ValidElems(es) && k != "" && k[0] != '`'
    ensures NoTickStart(PutElems(es, k))
  {
    if es.Elem? {
      PutStarts(es.value, es.post + PutMoreElems(es.more, k));
      ValueStartsWithoutTick(es.value, es.post + PutMoreElems(es.more, k));
    }
  }

  lemma PutMembersStart(ms: Members, k: string)
    requires ValidMembers(ms) && k != "" && k[0] != '`'
    ensures NoTickStart(PutMembers(ms, k))
  {
  }

  lemma ValueStartsWithoutTick(d: Doc, k: string)
    requires Valid(d)
    ensures Put(d, k) != "" && Put(d, k)[0] != '`'
  {
    PutStarts(d, k);
    if d.DLit? {
      assert Put(d, k)[0] == d.word[0];
    } else if d.DNum? {
      assert d.num.whole[0] != '`';
    }
  }

  lemma {:induction false} LazyBodyElems(es: Elems, k: string)
    requires ValidElems(es) && k != "" && k[0] != '`'
    ensures LazyBody(PutElems(es, k)) == Prepend(PutElems(es, ""), LazyBody(k))
    decreases es
  {
    hide LazyBody, Put;
    if es.Elem? {
      var tail := PutMoreElems(es.more, k);
      var tail0 := PutMoreElems(es.more, "");
      LazyBodyElems(es.more, k);
      if es.more.Elem? {
        PutElemsStart(es.more, k);
        LazyBodySkip([','], PutElems(es.more, k));
        PrependTwice([','], PutElems(es.more, ""), LazyBody(k));
      } else {
        PrependNothing(LazyBody(k));
      }
      assert LazyBody(tail) == Prepend(tail0, LazyBody(k));
      LazyBodyValue(es.pre, es.value, es.post, tail, tail0, LazyBody(k));
    } else {
      PrependNothing(LazyBody(k));
    }
  }

  /** A value with blanks on both sides, in front of `tail`. */
  lemma LazyBodyValue(pre: string, d: Doc, post: string, tail: string, tail0: string, r: Option<string>)
    requires AllWs(pre) && Valid(d) && AllWs(post) && tail != "" && tail[0] != '`'
    requires LazyBody(tail) == Prepend(tail0, r)
    ensures LazyBody(pre + Put(d, post + tail)) == Prepend(pre + Put(d, post + tail0), r)
    decreases d, 1
  {
    hide LazyBody, Put;
    LazyBodySkip(post, tail);
    PrependTwice(post, tail0, r);
    assert NoTickStart(post + tail);
    LazyBodyPut(d, post + tail);
    PrependTwice(Text(d), post + tail0, r);
    ValueStartsWithoutTick(d, post + tail);
    LazyBodySkip(pre, Put(d, post + tail));
    TextThen(d, post + tail0);
    PrependTwice(pre, Put(d, post + tail0), r);
  }

  lemma {:induction false} LazyBodyMembers(ms: Members, k: string)
    requires ValidMembers(ms) && k != "" && k[0] != '`'
    ensures LazyBody(PutMembers(ms, k)) == Prepend(PutMembers(ms, ""), LazyBody(k))
    decreases ms
  {
    hide LazyBody, Put, PutString, Prepend;
    if ms.Member? {
      var tail := PutMoreMembers(ms.more, k);
      var tail0 := PutMoreMembers(ms.more, "");
      var r := LazyBody(k);
      LazyBodyMembers(ms.more, k);
      if ms.more.Member? {
        PutMembersStart(ms.more, k);
        LazyBodySkip([','], PutMembers(ms.more, k));
        PrependTwice([','], PutMembers(ms.more, ""), r);
      } else {
        PrependNothing(r);
      }
      assert LazyBody(tail) == Prepend(tail0, r);
      var value, value0 := Put(ms.value, ms.post + tail), Put(ms.value, ms.post + tail0);
      LazyBodyValue(ms.gap, ms.value, ms.post, tail, tail0, r);
      var colon, colon0 := [':'] + (ms.gap + value), [':'] + (ms.gap + value0);
      ValueStartsWithoutTick(ms.value, ms.post + tail);
      LazyBodySkip([':'], ms.gap + value);
      PrependTwice([':'], ms.gap + value0, r);
      LazyBodySkip(ms.mid, colon);
      PrependTwice(ms.mid, colon0, r);
      LazyBodyString(ms.key, ms.mid + colon);
      PrependTwice(PutString(ms.key, ""), ms.mid + colon0, r);
      assert "" + (ms.mid + colon0) == ms.mid + colon0;
      PutStringAppend(ms.key, "", ms.mid + colon0);
      var str := PutString(ms.key, ms.mid + colon);
      assert str[0] == '"' by { StringStarts(ms.key, ms.mid + colon); }
      LazyBodySkip(ms.pre, str);
      PrependTwice(ms.pre, PutString(ms.key, ms.mid + colon0), r);
    } else {
      PrependNothing(LazyBody(k));
    }
  }

  lemma StringStarts(us: seq<Unit>, k: string)
    ensures PutString(us, k) != "" && PutString(us, k)[0] == '"'
  {
  }

  lemma {:induction false} FindFenceSkips(p: string, s: string, tagged: bool)
    requires '`' !in p
    ensures FindFence(p + s, tagged) == FindFence(s, tagged)
  {
    if p == "" {
      assert p + s == s;
    } else {
      assert (p + s)[1..] == p[1..] + s;
      assert (p + s)[0] != '`';
      FindFenceSkips(p[1..], s, tagged);
    }
  }

  const OPENING := "```json\n"

  /** Behind the opening fence the lazy body starts right away. */
  lemma TaggedFence(body: string)
    requires body != "" && !IsSpace(body[0]) && LazyBody(body).Some?
    ensures FindFence(OPENING + body, true) == LazyBody(body)
  {
    hide LazyBody;
    var s := OPENING + body;
    var t := s[3..];
    assert t == "json\n" + body && StartsWith(s, FENCE);
    assert LStrip(t) == t && StartsWith(t, "json");
    var u := t[4..];
    assert u == "\n" + body && u[1..] == body;
    assert LStrip(u) == LStrip(body) == body;
    assert BodyFrom(u, 1) == LazyBody(body) by {
      assert u[1] == body[0];
      assert BodyFrom(u, 0) == LazyBody(u[1..]);
    }
    assert FenceHere(s, true) == LazyBody(body);
  }

  /** A block fenced as `json` is found whole: its strings may hold backticks and fences. */
  lemma FenceFindsDoc(p: string, d: Doc, post: string)
    requires Valid(d) && (d.DObj? || d.DArr?) && '`' !in p
    ensures FindFence(p + (OPENING + (Text(d) + (CLOSING + post))), true) == Some(Text(d))
  {
    hide Put, Valid, FindFence;
    var k := CLOSING + post;
    var body := Text(d) + k;
    FindFenceSkips(p, OPENING + body, true);
    CompositeText(d);
    TextThen(d, k);
    LazyBodyPut(d, k);
    assert StartsWith(k, CLOSING);
    assert LazyBody(k) == Some("") && Text(d) + "" == Text(d);
    assert body[0] == Text(d)[0];
    TaggedFence(body);
  }

  /** Repairing a text with a fenced block touches only the block and what follows it. */
  lemma RepairFenced(p: string, d: Doc, q: string) returns (q': string)
    requires Mendable(p + OPENING, d, CLOSING + q) && (d.DObj? || d.DArr?) && '"' !in p
    ensures Repair(p + OPENING + Text(d) + (CLOSING + q)) == p + (OPENING + (Text(Curled(d)) + (CLOSING + q')))
  {
    hide Put, Repair, RepairFrom, Loose, Sheltered, Valid;
    var head := p + OPENING;
    var text := head + Text(d) + (CLOSING + q);
    RepairAround(head, d, CLOSING + q);
    RepairPlain(CLOSING, q);
    q' := if HasCjk(text) then RepairFrom(false, false, q) else q;
    assert RepairTail(head, d, CLOSING + q) == CLOSING + q';
  }

  /** Stripping the text around the block takes no ideograph away either. */
  lemma FencedStillMendable(pre: string, d: Doc, post: string)
    requires Mendable(pre + OPENING, d, CLOSING + post)
    ensures Mendable(LStrip(pre) + OPENING, d, CLOSING + RStrip(post))
  {
    hide Loose, Sheltered, Valid, Put, LStrip, RStrip;
    var a := LStripSplit(pre);
    var b := RStripSplit(post);
    var whole := pre + OPENING + Text(d) + (CLOSING + post);
    var inner := LStrip(pre) + OPENING + Text(d) + (CLOSING + RStrip(post));
    assert whole == a + inner + b;
    NoCjkInBlanks(a);
    NoCjkInBlanks(b);
    CjkConcat(a + inner, b);
    CjkConcat(a, inner);
  }

  /** An object or an array in a `json` fence is returned exactly, with arbitrary text after it. */
  lemma ExtractFencedDoc(pre: string, d: Doc, post: string)
    requires Mendable(pre + OPENING, d, CLOSING + post) && (d.DObj? || d.DArr?) && Prose(pre)
    ensures Valid(Curled(d)) && Extract(pre + OPENING + Text(d) + CLOSING + post) == Found(Value(Curled(d)), JsonFence)
  {
    hide Put, Value, Loads, Repair, FindFence, LStrip, RStrip, Text, Loose, Sheltered, Valid, HasCjk;
    CurledIsValid(d);
    var p, q, c := LStrip(pre), RStrip(post), Curled(d);
    var block := OPENING + Text(d) + CLOSING;
    assert pre + OPENING + Text(d) + CLOSING + post == pre + block + post;
    StripAround(pre, block, post);
    ProseSuffix(pre);
    FencedStillMendable(pre, d, post);
    assert p + block + q == p + OPENING + Text(d) + (CLOSING + q);
    var q' := RepairFenced(p, d, q);
    var text := p + (OPENING + (Text(c) + (CLOSING + q')));
    assert text[0] == if p == "" then '`' else p[0];
    ProseDoesNotParse(text);
    FenceFindsDoc(p, c, q');
    CompositeText(c);
    StripTrimmed(Text(c));
    LoadsDoc(c);
  }

  // ---- the other ways out ----

  lemma {:induction false} NoLazyBody(s: string)
    requires '`' !in s
    ensures LazyBody(s) == None
  {
    if s != "" {
      NoLazyBody(s[1..]);
    }
    PrefixChars(s, CLOSING);
    assert CLOSING[1] == '`' && (|s| > 1 ==> s[1] != '`');
  }

  lemma NoFenceStarts(s: string)
    requires '`' !in s
    ensures !StartsWith(s, FENCE)
  {
    PrefixChars(s, FENCE);
    assert FENCE[0] == '`' && (s != "" ==> s[0] != '`');
  }

  lemma {:induction false} NoBody(s: string, m: nat)
    requires '`' !in s && m <= |s|
    ensures BodyFrom(s, m) == None
  {
    if m < |s| {
      NoLazyBody(s[m + 1..]);
    }
    if m > 0 {
      NoBody(s, m - 1);
    }
  }

  /** No fence can start where no other follows. */
  lemma LastFence(s: string, tagged: bool)
    requires '`' !in s
    ensures FenceHere(FENCE + s, tagged) == None && FenceHere(s, tagged) == None
  {
    hide BodyFrom;
    assert (FENCE + s)[3..] == s;
    var a := LStripSplit(s);
    var t := LStrip(s);
    assert forall i :: 0 <= i < |t| ==> t[i] == s[|a| + i];
    NoBody(s, |s| - |LStrip(s)|);
    if StartsWith(t, "json") {
      NoBody(t[4..], |t[4..]| - |LStrip(t[4..])|);
    }
    NoFenceStarts(s);
    assert StartsWith(FENCE + s, FENCE);
  }

  /** What stands at one or two backticks is no fence. */
  lemma TicksThen(s: string, tagged: bool)
    requires s != "" && s[0] != '`'
    ensures FindFence(FENCE + s, tagged)
         == if FenceHere(FENCE + s, tagged).Some? then FenceHere(FENCE + s, tagged) else FindFence(s, tagged)
  {
    hide FenceHere;
    var t := FENCE + s;
    assert t[1..] == "``" + s && ("``" + s)[1..] == "`" + s && ("`" + s)[1..] == s;
    FewTicks("``" + s, tagged);
    FewTicks("`" + s, tagged);
    assert FindFence("`" + s, tagged) == FindFence(s, tagged);
    assert FindFence("``" + s, tagged) == FindFence("`" + s, tagged);
  }

  lemma FewTicks(s: string, tagged: bool)
    requires |s| >= 3 ==> s[1] != '`' || s[2] != '`'
    ensures FenceHere(s, tagged) == None
  {
    PrefixChars(s, FENCE);
    assert |FENCE| == 3 && FENCE[1] == '`' && FENCE[2] == '`';
    assert !StartsWith(s, FENCE);
  }

  lemma {:induction false} NoFenceWithoutTicks(s: string, tagged: bool)
    requires '`' !in s
    ensures FindFence(s, tagged) == None
  {
    if s != "" {
      NoFenceStarts(s);
      NoFenceWithoutTicks(s[1..], tagged);
    }
  }

  lemma OnlyTicks(tagged: bool)
    ensures FindFence(FENCE, tagged) == None
  {
    LastFence("", tagged);
    assert FENCE + "" == FENCE;
    FewTicks("``", tagged);
    FewTicks("`", tagged);
    hide FenceHere;
    assert FENCE[1..] == "``" && "``"[1..] == "`" && "`"[1..] == "";
    assert FindFence("", tagged) == None;
    assert FindFence("`", tagged) == None;
    assert FindFence("``", tagged) == None;
  }

  lemma NoFenceBehindLast(s: string, tagged: bool)
    requires '`' !in s
    ensures FindFence(FENCE + s, tagged) == None
  {
    LastFence(s, tagged);
    if s == "" {
      OnlyTicks(tagged);
      assert FENCE + s == FENCE;
    } else {
      TicksThen(s, tagged);
      NoFenceWithoutTicks(s, tagged);
    }
  }

  const PLAIN_OPENING := "```\n"

  /** A fence without the tag: the tagged search finds nothing, the other the whole block. */
  lemma PlainFence(p: string, body: string, q: string)
    requires '`' !in p && body != "" && !IsSpace(body[0]) && body[0] != 'j' && '`' !in body && '`' !in q
    ensures var text := p + (PLAIN_OPENING + (body + (CLOSING + q)));
            FindFence(text, true) == None && FindFence(text, false) == Some(body)
  {
    hide FindFence, FenceHere, LazyBody;
    var k := CLOSING + q;
    var inner := "\n" + (body + k);
    var s := PLAIN_OPENING + (body + k);
    assert s == FENCE + inner;
    FindFenceSkips(p, s, true);
    FindFenceSkips(p, s, false);
    TicksThen(inner, true);
    TicksThen(inner, false);
    assert inner == ("\n" + body + "\n") + (FENCE + q);
    FindFenceSkips("\n" + body + "\n", FENCE + q, true);
    NoFenceBehindLast(q, true);
    PlainFenceHere(body, q);
  }

  lemma PlainFenceHere(body: string, q: string)
    requires body != "" && !IsSpace(body[0]) && body[0] != 'j' && '`' !in body
    ensures var inner := "\n" + (body + (CLOSING + q));
            FenceHere(FENCE + inner, true) == None && FenceHere(FENCE + inner, false) == Some(body)
  {
    hide LazyBody;
    var k := CLOSING + q;
    var u := "\n" + (body + k);
    assert (FENCE + u)[3..] == u && u[1..] == body + k;
    assert LStrip(u) == LStrip(body + k) == body + k;
    PrefixChars(body + k, "json");
    assert "json"[0] == 'j' && (body + k)[0] == body[0];
    LazyBodySkip2(body, q);
    assert BodyFrom(u, 1) == LazyBody(body + k) by {
      assert u[1] == body[0];
      assert BodyFrom(u, 0) == LazyBody(u[1..]);
    }
  }

  lemma LazyBodySkip2(body: string, q: string)
    requires '`' !in body
    ensures LazyBody(body + (CLOSING + q)) == Some(body)
  {
    var k := CLOSING + q;
    LazyBodySkip(body, k);
    assert StartsWith(k, CLOSING);
    assert body + "" == body;
  }

  /** An object or array without backticks in a plain fence is returned exactly. */
  lemma ExtractPlainFence(pre: string, d: Doc, post: string)
    requires Mendable(pre + PLAIN_OPENING, d, CLOSING + post) && (d.DObj? || d.DArr?)
    requires Prose(pre) && '`' !in Text(d) && '`' !in post
    ensures Valid(Curled(d)) && Extract(pre + PLAIN_OPENING + Text(d) + CLOSING + post) == Found(Value(Curled(d)), GenericFence)
  {
    hide Put, Value, Loads, Repair, FindFence, LStrip, RStrip, Text, Loose, Sheltered, Valid, HasCjk;
    CurledIsValid(d);
    var p, q, c := LStrip(pre), RStrip(post), Curled(d);
    var block := PLAIN_OPENING + Text(d) + CLOSING;
    assert pre + PLAIN_OPENING + Text(d) + CLOSING + post == pre + block + post;
    StripAround(pre, block, post);
    ProseSuffix(pre);
    NoTicksInPrefix(post);
    PlainStillMendable(pre, d, post);
    assert p + block + q == p + PLAIN_OPENING + Text(d) + (CLOSING + q);
    var q' := RepairPlainFence(p, d, q);
    TicksOfCurled(d);
    CompositeText(c);
    var text := p + (PLAIN_OPENING + (Text(c) + (CLOSING + q')));
    assert text[0] == if p == "" then '`' else p[0];
    ProseDoesNotParse(text);
    PlainFence(p, Text(c), q');
    StripTrimmed(Text(c));
    LoadsDoc(c);
  }

  lemma PlainStillMendable(pre: string, d: Doc, post: string)
    requires Mendable(pre + PLAIN_OPENING, d, CLOSING + post)
    ensures Mendable(LStrip(pre) + PLAIN_OPENING, d, CLOSING + RStrip(post))
  {
    hide Loose, Sheltered, Valid, Put, LStrip, RStrip;
    var a := LStripSplit(pre);
    var b := RStripSplit(post);
    var inner := LStrip(pre) + PLAIN_OPENING + Text(d) + (CLOSING + RStrip(post));
    assert pre + PLAIN_OPENING + Text(d) + (CLOSING + post) == a + inner + b;
    NoCjkInBlanks(a);
    NoCjkInBlanks(b);
    CjkConcat(a + inner, b);
    CjkConcat(a, inner);
  }

  lemma RepairPlainFence(p: string, d: Doc, q: string) returns (q': string)
    requires Mendable(p + PLAIN_OPENING, d, CLOSING + q) && (d.DObj? || d.DArr?) && '"' !in p
    ensures Repair(p + PLAIN_OPENING + Text(d) + (CLOSING + q)) == p + (PLAIN_OPENING + (Text(Curled(d)) + (CLOSING + q')))
    ensures '`' !in q ==> '`' !in q'
  {
    hide Put, Repair, RepairFrom, Loose, Sheltered, Valid;
    var head := p + PLAIN_OPENING;
    RepairAround(head, d, CLOSING + q);
    RepairPlain(CLOSING, q);
    RepairFromChangesQuotesOnly(false, false, q);
    q' := if HasCjk(head + Text(d) + (CLOSING + q)) then RepairFrom(false, false, q) else q;
    assert RepairTail(head, d, CLOSING + q) == CLOSING + q';
  }

  /** Curling brings in neither backticks nor braces. */
  lemma TicksOfCurled(d: Doc)
    requires Loose(d)
    ensures '`' !in Text(d) ==> '`' !in Text(Curled(d))
    ensures '{' !in Text(d) ==> '{' !in Text(Curled(d))
  {
    CurledChangesQuotesOnly(d, "", "");
  }

  /** An array of anything but objects comes back from prose without opening braces. */
  lemma ExtractArrayInProse(pre: string, d: Doc, post: string)
    requires Mendable(pre, d, post) && d.DArr? && Prose(pre) && '`' !in post && '{' !in Text(d) && '{' !in post
    ensures Valid(Curled(d))
    ensures Extract(pre + Text(d) + post) ==
            Found(Value(Curled(d)), if AllSpace(pre) && AllSpace(post) then Direct else ArrayBrace)
  {
    hide Put, Value, Loads, Repair, OutermostBrace, FindFence, Loose, Sheltered, Valid;
    var p, q, c := LStrip(pre), RStrip(post), Curled(d);
    CurledIsValid(d);
    BlankIffStripped(pre, post);
    CompositeText(d);
    CompositeText(c);
    StripAround(pre, Text(d), post);
    ProseSuffix(pre);
    NoTicksInPrefix(post);
    StillMendable(pre, d, post);
    RepairAround(p, d, q);
    var t := RepairTail(p, d, q);
    RepairTailShape(p, d, q);
    RepairFromChangesQuotesOnly(false, false, q);
    var b := RStripSplit(post);
    TicksOfCurled(d);
    assert '{' !in t;
    ArrayFromMended(p, c, t);
  }

  lemma ArrayFromMended(p: string, c: Doc, t: string)
    requires Valid(c) && c.DArr? && Prose(p) && '`' !in t && '{' !in Text(c) && '{' !in t
    requires (p != "" ==> !IsSpace(p[0])) && (t != "" ==> !IsSpace(t[|t| - 1]))
    ensures var text := p + Text(c) + t;
            if p == "" && t == "" then TryParse(text) == Some(Value(c))
            else
              && TryParse(text) == None && TryFence(text, true) == None && TryFence(text, false) == None
              && TryBrace(text, '{', '}') == None && TryBrace(text, '[', ']') == Some(Value(c))
  {
    hide Put, Value, Loads, OutermostBrace, FindFence, Valid;
    var text := p + Text(c) + t;
    CompositeText(c);
    LoadsDoc(c);
    if p == "" && t == "" {
      assert text == Text(c);
    } else {
      if p != "" {
        assert text[0] == p[0];
        ProseDoesNotParse(text);
      } else {
        TextThen(c, t);
        assert text == Put(c, t);
        TrailingTextDoesNotParse(c, t);
      }
      ObjectTextHasNoFence(p, c, t);
      NoBraceNothing(text, '{', '}');
      OutermostBraceFindsDoc(p, c, t);
    }
  }

  lemma NoBraceNothing(s: string, open: char, close: char)
    requires open !in s
    ensures OutermostBrace(s, open, close) == None
  {
    FindNothing(s, open);
  }

  lemma {:induction false} FindNothing(s: string, c: char)
    requires c !in s
    ensures Find(s, c) == |s|
  {
    if s != "" {
      FindNothing(s[1..], c);
    }
  }

  /** Nothing but blanks is reported as empty, and nothing else is. */
  lemma ExtractEmptyIff(raw: string)
    ensures Extract(raw) == EmptyInput <==> AllSpace(raw)
  {
    hide Repair, TryParse, FindFence, OutermostBrace, LStrip, RStrip;
    if AllSpace(raw) {
      AllSpaceVanishes(raw);
    }
    if Strip(raw) == "" {
      BlankIfVanishes(raw);
    }
  }

  lemma BlankIfVanishes(raw: string)
    requires Strip(raw) == ""
    ensures AllSpace(raw)
  {
    hide LStrip, RStrip;
    var a, b := StripSplit(raw);
    assert raw == a + b;
  }

  /** From a text without brackets, braces and backticks nothing can be extracted. */
  lemma ExtractNothing(raw: string)
    requires !AllSpace(raw) && '{' !in raw && '[' !in raw && '`' !in raw
    ensures Extract(raw) == AllFailed
  {
    hide Repair, Loads, FindFence, OutermostBrace, LStrip, RStrip;
    ExtractEmptyIff(raw);
    var a, b := StripSplit(raw);
    var s := Strip(raw);
    assert forall i :: 0 <= i < |s| ==> s[i] == raw[|a| + i];
    RepairChangesQuotesOnly(s);
    var text := Repair(s);
    assert '{' !in text && '[' !in text && '`' !in text;
    NoBracketNoParse(text);
    NoFenceWithoutTicks(text, true);
    NoFenceWithoutTicks(text, false);
    NoBraceNothing(text, '{', '}');
    NoBraceNothing(text, '[', ']');
  }

  lemma NoBracketNoParse(s: string)
    requires '{' !in s && '[' !in s
    ensures TryParse(s) == None
  {
    SkipWsIsPart(s);
    var t := SkipWs(s);
    hide SkipWs;
    if t != "" && t[0] != '"' {
      ScalarStep(t);
    }
  }

  lemma {:induction false} SkipWsIsPart(s: string)
    ensures forall c :: c in SkipWs(s) ==> c in s
  {
    if s != "" && IsWs(s[0]) {
      SkipWsIsPart(s[1..]);
    }
  }
}
