/** `repair_json_text`: quotes inside string values become U+201D, decided by lookahead. */
module JsonRepair {
  import opened PyText
  import opened JsonSyntax

  const CURLY: char := '\U{201D}'

  predicate IsUnifiedIdeograph(c: char) { '\U{4E00}' <= c <= '\U{9FFF}' }

  predicate HasCjk(text: string) {
    exists i :: 0 <= i < |text| && IsUnifiedIdeograph(text[i])
  }

  predicate IsFollow(c: char) { c == ',' || c == ':' || c == '}' || c == ']' }

  /** The lookahead: the first non-blank after a quote is structural. */
  predicate Follows(s: string) {
    s != "" && (IsFollow(s[0]) || (IsWs(s[0]) && Follows(s[1..])))
  }

  /** The lexer from a state on. */
  function RepairFrom(inString: bool, escapeNext: bool, s: string): (r: string)
    ensures |r| == |s|
    decreases s
  {
    if s == "" then ""
    else if escapeNext then [s[0]] + RepairFrom(inString, false, s[1..])
    else if !inString then [s[0]] + RepairFrom(s[0] == '"', false, s[1..])
    else if s[0] == '\\' then [s[0]] + RepairFrom(true, true, s[1..])
    else if s[0] != '"' then [s[0]] + RepairFrom(true, false, s[1..])
    else if Follows(s[1..]) then [s[0]] + RepairFrom(false, false, s[1..])
    else [CURLY] + RepairFrom(true, false, s[1..])
  }

  function Repair(text: string): string {
    if HasCjk(text) then RepairFrom(false, false, text) else text
  }

  /** The inner loop: is the first non-blank from `start` on a structural character? */
  method LooksClosed(text: string, start: nat) returns (closed: bool)
    requires start <= |text|
    ensures closed == Follows(text[start..])
  {
    var j := start;
    while j < |text| && IsWs(text[j])
      invariant start <= j <= |text|
      invariant Follows(text[j..]) == Follows(text[start..])
    {
      j := j + 1;
    }
    closed := j < |text| && IsFollow(text[j]);
  }

  /** One turn of the loop. */
  lemma RepairStep(inString: bool, escapeNext: bool, text: string, i: nat)
    requires i < |text|
    ensures var ch, tail := text[i], text[i + 1..];
            RepairFrom(inString, escapeNext, text[i..]) ==
            if escapeNext then [ch] + RepairFrom(inString, false, tail)
            else if !inString then [ch] + RepairFrom(ch == '"', false, tail)
            else if ch == '\\' then [ch] + RepairFrom(true, true, tail)
            else if ch != '"' then [ch] + RepairFrom(true, false, tail)
            else if Follows(tail) then [ch] + RepairFrom(false, false, tail)
            else [CURLY] + RepairFrom(true, false, tail)
  {
    assert text[i..][1..] == text[i + 1..];
  }

  method RepairJsonText(text: string) returns (result: string)
    ensures result == Repair(text)
  {
    if !HasCjk(text) {
      return text;
    }
    result := "";
    var inString, escapeNext := false, false;
    var i, n := 0, |text|;
    ghost var goal := RepairFrom(false, false, text);
    assert text[0..] == text;
    while i < n
      invariant 0 <= i <= n
      invariant result + RepairFrom(inString, escapeNext, text[i..]) == goal
    {
      hide RepairFrom, Follows;
      var ch, out := text[i], text[i];
      ghost var before := RepairFrom(inString, escapeNext, text[i..]);
      RepairStep(inString, escapeNext, text, i);
      if escapeNext {
        escapeNext := false;
      } else if inString {
        if ch == '\\' {
          escapeNext := true;
        } else if ch == '"' {
          var closed := LooksClosed(text, i + 1);
          if closed {
            inString := false;
          } else {
            out := CURLY;
          }
        }
      } else if ch == '"' {
        inString := true;
      }
      ghost var after := RepairFrom(inString, escapeNext, text[i + 1..]);
      assert before == [out] + after;
      Reassociate(result, [out], after);
      result := result + [out];
      i := i + 1;
    }
  }

  // ---- arbitrary text: only quotes change, and repairing twice changes nothing more ----

  predicate OnlyQuotesCurled(before: string, after: string) {
    && |before| == |after|
    && forall i :: 0 <= i < |before| ==> after[i] == before[i] || (before[i] == '"' && after[i] == CURLY)
  }

  lemma {:induction false} RepairFromChangesQuotesOnly(inString: bool, escapeNext: bool, s: string)
    ensures OnlyQuotesCurled(s, RepairFrom(inString, escapeNext, s))
    decreases s
  {
    if s != "" {
      RepairFromChangesQuotesOnly(inString, false, s[1..]);
      RepairFromChangesQuotesOnly(s[0] == '"', false, s[1..]);
      RepairFromChangesQuotesOnly(true, true, s[1..]);
      RepairFromChangesQuotesOnly(true, false, s[1..]);
      RepairFromChangesQuotesOnly(false, false, s[1..]);
      var r := RepairFrom(inString, escapeNext, s);
      var tail := r[1..];
      assert OnlyQuotesCurled(s[1..], tail);
      forall i | 0 <= i < |s|
        ensures r[i] == s[i] || (s[i] == '"' && r[i] == CURLY)
      {
        if i > 0 {
          assert r[i] == tail[i - 1] && s[i] == s[1..][i - 1];
        }
      }
    }
  }

  lemma RepairChangesQuotesOnly(text: string)
    ensures OnlyQuotesCurled(text, Repair(text))
  {
    RepairFromChangesQuotesOnly(false, false, text);
  }

  /** The lookahead cannot tell a text from one with some quotes curled. */
  lemma {:induction false} FollowsSurvivesCurling(s: string, r: string)
    requires OnlyQuotesCurled(s, r)
    ensures Follows(r) == Follows(s)
  {
    if s != "" && IsWs(s[0]) {
      FollowsSurvivesCurling(s[1..], r[1..]);
    }
  }

  lemma {:induction false} RepairFromIdempotent(inString: bool, escapeNext: bool, s: string)
    ensures var r := RepairFrom(inString, escapeNext, s);
            RepairFrom(inString, escapeNext, r) == r
    decreases s
  {
    if s != "" {
      var r := RepairFrom(inString, escapeNext, s);
      var t := s[1..];
      RepairFromIdempotent(inString, false, t);
      RepairFromIdempotent(s[0] == '"', false, t);
      RepairFromIdempotent(true, true, t);
      RepairFromIdempotent(true, false, t);
      RepairFromIdempotent(false, false, t);
      RepairFromChangesQuotesOnly(false, false, t);
      FollowsSurvivesCurling(t, RepairFrom(false, false, t));
      assert r == [r[0]] + r[1..];
    }
  }

  lemma RepairIdempotent(text: string)
    ensures Repair(Repair(text)) == Repair(text)
  {
    var r := Repair(text);
    RepairChangesQuotesOnly(text);
    RepairFromIdempotent(false, false, text);
    if HasCjk(text) {
      var i :| 0 <= i < |text| && IsUnifiedIdeograph(text[i]);
      assert r[i] == text[i];
    }
  }

  // ---- JSON texts: nothing changes ----

  lemma {:induction false} RepairPlain(w: string, k: string)
    requires forall i :: 0 <= i < |w| ==> w[i] != '"'
    ensures RepairFrom(false, false, w + k) == w + RepairFrom(false, false, k)
  {
    if w == "" {
      assert w + k == k;
    } else {
      assert (w + k)[1..] == w[1..] + k;
      RepairPlain(w[1..], k);
    }
  }

  lemma {:induction false} RepairInside(w: string, k: string)
    requires forall i :: 0 <= i < |w| ==> w[i] != '"' && w[i] != '\\'
    ensures RepairFrom(true, false, w + k) == w + RepairFrom(true, false, k)
  {
    if w == "" {
      assert w + k == k;
    } else {
      assert (w + k)[1..] == w[1..] + k;
      RepairInside(w[1..], k);
    }
  }

  lemma RepairEscape(e: char, k: string)
    ensures RepairFrom(true, false, ['\\'] + ([e] + k)) == ['\\'] + ([e] + RepairFrom(true, false, k))
  {
    var s := ['\\'] + ([e] + k);
    assert s[1..] == [e] + k && s[1..][1..] == k;
  }

  // ---- broken texts: quotes inside strings left bare ----

  const BARE := Raw('"')

  /** A unit as a model may print it: well-formed, or a quote that should have been escaped. */
  predicate LooseUnit(u: Unit) { u == BARE || ValidUnit(u) }

  predicate LooseUnits(us: seq<Unit>) { forall i :: 0 <= i < |us| ==> LooseUnit(us[i]) }

  /** Well-formed but for bare quotes inside strings. */
  predicate Loose(d: Doc) {
    match d
    case DLit(word) => word in WORDS
    case DNum(n) => ValidNumber(n)
    case DStr(us) => LooseUnits(us)
    case DArr(pad, elems) => AllWs(pad) && LooseElems(elems)
    case DObj(pad, members) => AllWs(pad) && LooseMembers(members)
  }

  predicate LooseElems(es: Elems) {
    es.NoElems? || (AllWs(es.pre) && Loose(es.value) && AllWs(es.post) && LooseElems(es.more))
  }

  predicate LooseMembers(ms: Members) {
    || ms.NoMembers?
    || (&& AllWs(ms.pre) && LooseUnits(ms.key) && AllWs(ms.mid) && AllWs(ms.gap)
        && Loose(ms.value) && AllWs(ms.post) && LooseMembers(ms.more))
  }

  /** The same spelling with U+201D for every bare quote. */
  function CurledUnits(us: seq<Unit>): (r: seq<Unit>)
    ensures |r| == |us|
    ensures forall i :: 0 <= i < |us| ==> r[i] == if us[i] == BARE then Raw(CURLY) else us[i]
  {
    seq(|us|, i requires 0 <= i < |us| => if us[i] == BARE then Raw(CURLY) else us[i])
  }

  function Curled(d: Doc): Doc {
    match d
    case DLit(_) => d
    case DNum(_) => d
    case DStr(us) => DStr(CurledUnits(us))
    case DArr(pad, elems) => DArr(pad, CurledElems(elems))
    case DObj(pad, members) => DObj(pad, CurledMembers(members))
  }

  function CurledElems(es: Elems): Elems {
    if es.NoElems? then es else Elem(es.pre, Curled(es.value), es.post, CurledElems(es.more))
  }

  function CurledMembers(ms: Members): Members {
    if ms.NoMembers? then ms
    else Member(ms.pre, CurledUnits(ms.key), ms.mid, ms.gap, Curled(ms.value), ms.post, CurledMembers(ms.more))
  }

  predicate IsBlankUnit(u: Unit) { u.Raw? && (u.c == ' ' || u.c == '\t' || u.c == '\n' || u.c == '\r') }

  predicate IsStructuralUnit(u: Unit) { u.Raw? && (u.c == ',' || u.c == ':' || u.c == '}' || u.c == ']') }

  /** Only blanks stand between position `i` and a structural character. */
  predicate RunsInto(us: seq<Unit>, i: nat) {
    exists j :: i <= j < |us| && IsStructuralUnit(us[j]) && forall k :: i <= k < j ==> IsBlankUnit(us[k])
  }

  /** No bare quote is mistaken for the end of its string. */
  predicate ShelteredUnits(us: seq<Unit>) {
    forall i :: 0 <= i < |us| && us[i] == BARE ==> !RunsInto(us, i + 1)
  }

  predicate Sheltered(d: Doc) {
    match d
    case DLit(_) => true
    case DNum(_) => true
    case DStr(us) => ShelteredUnits(us)
    case DArr(_, elems) => ShelteredElems(elems)
    case DObj(_, members) => ShelteredMembers(members)
  }

  predicate ShelteredElems(es: Elems) { es.NoElems? || (Sheltered(es.value) && ShelteredElems(es.more)) }

  predicate ShelteredMembers(ms: Members) {
    ms.NoMembers? || (ShelteredUnits(ms.key) && Sheltered(ms.value) && ShelteredMembers(ms.more))
  }

  lemma {:induction false} CurledIsValid(d: Doc)
    requires Loose(d)
    ensures Valid(Curled(d))
    decreases d
  {
    match d
    case DLit(_) =>
    case DNum(_) =>
    case DStr(_) =>
    case DArr(_, elems) => CurledElemsValid(elems);
    case DObj(_, members) => CurledMembersValid(members);
  }

  lemma {:induction false} CurledElemsValid(es: Elems)
    requires LooseElems(es)
    ensures ValidElems(CurledElems(es))
    decreases es
  {
    if es.Elem? {
      CurledIsValid(es.value);
      CurledElemsValid(es.more);
    }
  }

  lemma {:induction false} CurledMembersValid(ms: Members)
    requires LooseMembers(ms)
    ensures ValidMembers(CurledMembers(ms))
    decreases ms
  {
    if ms.Member? {
      CurledIsValid(ms.value);
      CurledMembersValid(ms.more);
    }
  }

  lemma ValidUnitsStay(us: seq<Unit>)
    requires ValidUnits(us)
    ensures LooseUnits(us) && CurledUnits(us) == us && ShelteredUnits(us)
  {
  }

  /** A well-formed text is a broken one without anything broken. */
  lemma {:induction false} ValidIsLoose(d: Doc)
    requires Valid(d)
    ensures Loose(d) && Sheltered(d) && Curled(d) == d
    decreases d
  {
    match d
    case DLit(_) =>
    case DNum(_) =>
    case DStr(us) => ValidUnitsStay(us);
    case DArr(_, elems) => ValidElemsLoose(elems);
    case DObj(_, members) => ValidMembersLoose(members);
  }

  lemma {:induction false} ValidElemsLoose(es: Elems)
    requires ValidElems(es)
    ensures LooseElems(es) && ShelteredElems(es) && CurledElems(es) == es
    decreases es
  {
    if es.Elem? {
      ValidIsLoose(es.value);
      ValidElemsLoose(es.more);
    }
  }

  lemma {:induction false} ValidMembersLoose(ms: Members)
    requires ValidMembers(ms)
    ensures LooseMembers(ms) && ShelteredMembers(ms) && CurledMembers(ms) == ms
    decreases ms
  {
    if ms.Member? {
      ValidUnitsStay(ms.key);
      ValidIsLoose(ms.value);
      ValidMembersLoose(ms.more);
    }
  }

  // ---- what repair does to them ----

  lemma RunsIntoStep(us: seq<Unit>)
    requires us != []
    ensures RunsInto(us, 0) <==> IsStructuralUnit(us[0]) || (IsBlankUnit(us[0]) && RunsInto(us[1..], 0))
  {
    if RunsInto(us, 0) && !IsStructuralUnit(us[0]) {
      var j :| 0 <= j < |us| && IsStructuralUnit(us[j]) && forall k :: 0 <= k < j ==> IsBlankUnit(us[k]);
      assert us[1..][j - 1] == us[j];
    }
    if IsBlankUnit(us[0]) && RunsInto(us[1..], 0) {
      var j :| 0 <= j < |us[1..]| && IsStructuralUnit(us[1..][j]) && forall k :: 0 <= k < j ==> IsBlankUnit(us[1..][k]);
      assert us[j + 1] == us[1..][j];
      forall k | 0 <= k < j + 1 ensures IsBlankUnit(us[k]) {
        assert k > 0 ==> us[1..][k - 1] == us[k];
      }
    }
  }

  lemma RunsIntoShift(us: seq<Unit>, i: nat)
    requires i < |us|
    ensures RunsInto(us, i + 1) <==> RunsInto(us[1..], i)
  {
    if RunsInto(us, i + 1) {
      var j :| i + 1 <= j < |us| && IsStructuralUnit(us[j]) && forall k :: i + 1 <= k < j ==> IsBlankUnit(us[k]);
      assert us[1..][j - 1] == us[j];
      assert forall k :: i <= k < j - 1 ==> us[1..][k] == us[k + 1];
    }
    if RunsInto(us[1..], i) {
      var j :| i <= j < |us[1..]| && IsStructuralUnit(us[1..][j]) && forall k :: i <= k < j ==> IsBlankUnit(us[1..][k]);
      assert us[j + 1] == us[1..][j];
      forall k | i + 1 <= k < j + 1 ensures IsBlankUnit(us[k]) {
        assert us[1..][k - 1] == us[k];
      }
    }
  }

  /** The first unit, then the rest. */
  lemma ShelteredStep(us: seq<Unit>)
    requires us != []
    ensures ShelteredUnits(us) <==> (us[0] == BARE ==> !RunsInto(us[1..], 0)) && ShelteredUnits(us[1..])
  {
    hide RunsInto;
    RunsIntoShift(us, 0);
    if ShelteredUnits(us) {
      forall i | 0 <= i < |us[1..]| && us[1..][i] == BARE ensures !RunsInto(us[1..], i + 1) {
        assert us[i + 1] == BARE;
        RunsIntoShift(us, i + 1);
      }
    }
    if (us[0] == BARE ==> !RunsInto(us[1..], 0)) && ShelteredUnits(us[1..]) {
      forall i | 0 <= i < |us| && us[i] == BARE ensures !RunsInto(us, i + 1) {
        if i > 0 {
          assert us[1..][i - 1] == BARE;
          RunsIntoShift(us, i);
        }
      }
    }
  }

  /** The lookahead from inside a string stops at the closing quote at the latest. */
  lemma {:induction false} LookaheadInside(us: seq<Unit>, k: string)
    requires LooseUnits(us)
    ensures Follows(PutUnits(us, ['"'] + k)) <==> RunsInto(us, 0)
  {
    if us != [] {
      LookaheadInside(us[1..], k);
      RunsIntoStep(us);
      hide RunsInto;
      var s, tail := PutUnits(us, ['"'] + k), PutUnits(us[1..], ['"'] + k);
      if us[0].Raw? {
        assert s == [us[0].c] + tail && s[1..] == tail;
      }
    }
  }

  lemma {:induction false} RepairUnits(us: seq<Unit>, k: string)
    requires LooseUnits(us) && ShelteredUnits(us) && Follows(k)
    ensures RepairFrom(true, false, PutUnits(us, ['"'] + k)) == PutUnits(CurledUnits(us), ['"'] + RepairFrom(false, false, k))
  {
    if us == [] {
      assert (['"'] + k)[1..] == k;
    } else {
      ShelteredStep(us);
      RepairUnits(us[1..], k);
      assert CurledUnits(us)[1..] == CurledUnits(us[1..]);
      UnitRepaired(us, k);
    }
  }

  /** One unit of a string: a bare quote is curled unless the lookahead ends the string there. */
  lemma UnitRepaired(us: seq<Unit>, k: string)
    requires LooseUnits(us) && us != []
    ensures var tail := PutUnits(us[1..], ['"'] + k);
            RepairFrom(true, false, PutUnits(us, ['"'] + k)) ==
            if us[0] != BARE then UnitText(us[0]) + RepairFrom(true, false, tail)
            else if RunsInto(us[1..], 0) then ['"'] + RepairFrom(false, false, tail)
            else [CURLY] + RepairFrom(true, false, tail)
  {
    hide RunsInto;
    var tail := PutUnits(us[1..], ['"'] + k);
    PutUnitsCons(us, ['"'] + k);
    if us[0] == BARE {
      LookaheadInside(us[1..], k);
      hide Follows;
      assert (['"'] + tail)[1..] == tail;
    } else {
      RepairUnit(us[0], tail);
    }
  }

  lemma RepairString(us: seq<Unit>, k: string)
    requires LooseUnits(us) && ShelteredUnits(us) && Follows(k)
    ensures RepairFrom(false, false, PutString(us, k)) == PutString(CurledUnits(us), RepairFrom(false, false, k))
  {
    RepairUnits(us, k);
    assert PutString(us, k)[1..] == PutUnits(us, ['"'] + k);
  }

  lemma RepairNumber(n: Number, k: string)
    requires ValidNumber(n)
    ensures RepairFrom(false, false, PutNumber(n, k)) == PutNumber(n, RepairFrom(false, false, k))
  {
    NumberHasNoQuotes(n);
    hide PutNumber, RepairFrom;
    assert "" + k == k && "" + RepairFrom(false, false, k) == RepairFrom(false, false, k);
    PutNumberAppend(n, "", k);
    PutNumberAppend(n, "", RepairFrom(false, false, k));
    RepairPlain(PutNumber(n, ""), k);
  }

  lemma NumberHasNoQuotes(n: Number)
    requires ValidNumber(n)
    ensures forall i :: 0 <= i < |PutNumber(n, "")| ==> PutNumber(n, "")[i] != '"'
  {
  }

  lemma {:induction false} FollowsWs(pad: string, k: string)
    requires AllWs(pad)
    ensures Follows(pad + k) == Follows(k)
  {
    if pad == "" {
      assert pad + k == k;
    } else {
      assert (pad + k)[1..] == pad[1..] + k;
      FollowsWs(pad[1..], k);
    }
  }

  /** A value in front of `k` has exactly its bare quotes curled; a bare string needs a structural
      character after it. */
  lemma {:induction false} RepairPut(d: Doc, k: string)
    requires Loose(d) && Sheltered(d) && (d.DStr? ==> Follows(k))
    ensures RepairFrom(false, false, Put(d, k)) == Put(Curled(d), RepairFrom(false, false, k))
    decreases d
  {
    hide RepairFrom, PutNumber, PutString;
    match d
    case DLit(word) => RepairPlain(word, k);
    case DNum(n) => RepairNumber(n, k);
    case DStr(us) => RepairString(us, k);
    case DArr(pad, elems) =>
      RepairPlain(['['], pad + PutElems(elems, [']'] + k));
      RepairPlain(pad, PutElems(elems, [']'] + k));
      RepairElems(elems, [']'] + k);
      RepairPlain([']'], k);
    case DObj(pad, members) =>
      RepairPlain(['{'], pad + PutMembers(members, ['}'] + k));
      RepairPlain(pad, PutMembers(members, ['}'] + k));
      RepairMembers(members, ['}'] + k);
      RepairPlain(['}'], k);
  }

  lemma {:induction false} RepairElems(es: Elems, k: string)
    requires LooseElems(es) && ShelteredElems(es) && k != "" && IsFollow(k[0])
    ensures RepairFrom(false, false, PutElems(es, k)) == PutElems(CurledElems(es), RepairFrom(false, false, k))
    decreases es
  {
    hide RepairFrom, Put;
    if es.Elem? {
      var tail := PutMoreElems(es.more, k);
      FollowsWs(es.post, tail);
      RepairPlain(es.pre, Put(es.value, es.post + tail));
      RepairPut(es.value, es.post + tail);
      RepairPlain(es.post, tail);
      RepairElems(es.more, k);
      if es.more.Elem? {
        RepairPlain([','], PutElems(es.more, k));
      }
    }
  }

  lemma {:induction false} RepairMembers(ms: Members, k: string)
    requires LooseMembers(ms) && ShelteredMembers(ms) && k != "" && IsFollow(k[0])
    ensures RepairFrom(false, false, PutMembers(ms, k)) == PutMembers(CurledMembers(ms), RepairFrom(false, false, k))
    decreases ms
  {
    hide RepairFrom, Put, PutString;
    if ms.Member? {
      var tail := PutMoreMembers(ms.more, k);
      var value := Put(ms.value, ms.post + tail);
      var colon := [':'] + (ms.gap + value);
      FollowsWs(ms.mid, colon);
      FollowsWs(ms.post, tail);
      RepairPlain(ms.pre, PutString(ms.key, ms.mid + colon));
      RepairString(ms.key, ms.mid + colon);
      RepairPlain(ms.mid, colon);
      RepairPlain([':'], ms.gap + value);
      RepairPlain(ms.gap, value);
      RepairPut(ms.value, ms.post + tail);
      RepairPlain(ms.post, tail);
      RepairMembers(ms.more, k);
      if ms.more.Member? {
        RepairPlain([','], PutMembers(ms.more, k));
      }
    }
  }

  lemma {:induction false} UnitsCurledOnly(us: seq<Unit>, k: string, y: string)
    requires OnlyQuotesCurled(k, y)
    ensures OnlyQuotesCurled(PutUnits(us, k), PutUnits(CurledUnits(us), y))
  {
    if us != [] {
      UnitsCurledOnly(us[1..], k, y);
      assert CurledUnits(us)[1..] == CurledUnits(us[1..]);
      PutUnitsCons(us, k);
      PutUnitsCons(CurledUnits(us), y);
      UnitCurled(us[0]);
      hide PutUnits, OnlyQuotesCurled;
      CurledConcat(UnitText(us[0]), UnitText(CurledUnits(us)[0]), PutUnits(us[1..], k), PutUnits(CurledUnits(us)[1..], y));
    }
  }

  lemma UnitCurled(u: Unit)
    ensures OnlyQuotesCurled(UnitText(u), UnitText(if u == BARE then Raw(CURLY) else u))
  {
  }

  lemma CurledConcat(a: string, a': string, b: string, b': string)
    requires OnlyQuotesCurled(a, a') && OnlyQuotesCurled(b, b')
    ensures OnlyQuotesCurled(a + b, a' + b')
  {
    assert forall i :: 0 <= i < |a| ==> (a + b)[i] == a[i] && (a' + b')[i] == a'[i];
    assert forall i :: |a| <= i < |a| + |b| ==> (a + b)[i] == b[i - |a|] && (a' + b')[i] == b'[i - |a|];
  }

  lemma SameCurled(a: string)
    ensures OnlyQuotesCurled(a, a)
  {
  }

  lemma PrefixCurled(a: string, b: string, b': string)
    requires OnlyQuotesCurled(b, b')
    ensures OnlyQuotesCurled(a + b, a + b')
  {
    SameCurled(a);
    CurledConcat(a, a, b, b');
  }

  lemma StringCurled(us: seq<Unit>, k: string, y: string)
    requires OnlyQuotesCurled(k, y)
    ensures OnlyQuotesCurled(PutString(us, k), PutString(CurledUnits(us), y))
  {
    hide OnlyQuotesCurled, PutUnits;
    PrefixCurled(['"'], k, y);
    UnitsCurledOnly(us, ['"'] + k, ['"'] + y);
    PrefixCurled(['"'], PutUnits(us, ['"'] + k), PutUnits(CurledUnits(us), ['"'] + y));
  }

  /** The mended text differs from the broken one in curled quotes only. */
  lemma {:induction false} CurledChangesQuotesOnly(d: Doc, k: string, y: string)
    requires Loose(d) && OnlyQuotesCurled(k, y)
    ensures OnlyQuotesCurled(Put(d, k), Put(Curled(d), y))
    decreases d
  {
    hide OnlyQuotesCurled, PutNumber, PutString;
    match d
    case DLit(word) => PrefixCurled(word, k, y);
    case DNum(n) =>
      assert "" + k == k && "" + y == y;
      PutNumberAppend(n, "", k);
      PutNumberAppend(n, "", y);
      PrefixCurled(PutNumber(n, ""), k, y);
    case DStr(us) => StringCurled(us, k, y);
    case DArr(pad, elems) =>
      PrefixCurled([']'], k, y);
      ElemsCurled(elems, [']'] + k, [']'] + y);
      PrefixCurled(pad, PutElems(elems, [']'] + k), PutElems(CurledElems(elems), [']'] + y));
      PrefixCurled(['['], pad + PutElems(elems, [']'] + k), pad + PutElems(CurledElems(elems), [']'] + y));
    case DObj(pad, members) =>
      PrefixCurled(['}'], k, y);
      MembersCurled(members, ['}'] + k, ['}'] + y);
      PrefixCurled(pad, PutMembers(members, ['}'] + k), PutMembers(CurledMembers(members), ['}'] + y));
      PrefixCurled(['{'], pad + PutMembers(members, ['}'] + k), pad + PutMembers(CurledMembers(members), ['}'] + y));
  }

  lemma {:induction false} ElemsCurled(es: Elems, k: string, y: string)
    requires LooseElems(es) && OnlyQuotesCurled(k, y)
    ensures OnlyQuotesCurled(PutElems(es, k), PutElems(CurledElems(es), y))
    decreases es
  {
    hide OnlyQuotesCurled, Put;
    if es.Elem? {
      var tail, tail' := PutMoreElems(es.more, k), PutMoreElems(CurledElems(es.more), y);
      ElemsCurled(es.more, k, y);
      PrefixCurled([','], PutElems(es.more, k), PutElems(CurledElems(es.more), y));
      assert OnlyQuotesCurled(tail, tail');
      PrefixCurled(es.post, tail, tail');
      CurledChangesQuotesOnly(es.value, es.post + tail, es.post + tail');
      PrefixCurled(es.pre, Put(es.value, es.post + tail), Put(Curled(es.value), es.post + tail'));
    }
  }

  lemma {:induction false} MembersCurled(ms: Members, k: string, y: string)
    requires LooseMembers(ms) && OnlyQuotesCurled(k, y)
    ensures OnlyQuotesCurled(PutMembers(ms, k), PutMembers(CurledMembers(ms), y))
    decreases ms
  {
    hide OnlyQuotesCurled, Put, PutString;
    if ms.Member? {
      var tail, tail' := PutMoreMembers(ms.more, k), PutMoreMembers(CurledMembers(ms.more), y);
      MembersCurled(ms.more, k, y);
      PrefixCurled([','], PutMembers(ms.more, k), PutMembers(CurledMembers(ms.more), y));
      assert OnlyQuotesCurled(tail, tail');
      PrefixCurled(ms.post, tail, tail');
      var value, value' := Put(ms.value, ms.post + tail), Put(Curled(ms.value), ms.post + tail');
      CurledChangesQuotesOnly(ms.value, ms.post + tail, ms.post + tail');
      PrefixCurled(ms.gap, value, value');
      PrefixCurled([':'], ms.gap + value, ms.gap + value');
      PrefixCurled(ms.mid, [':'] + (ms.gap + value), [':'] + (ms.gap + value'));
      StringCurled(ms.key, ms.mid + ([':'] + (ms.gap + value)), ms.mid + ([':'] + (ms.gap + value')));
      PrefixCurled(ms.pre, PutString(ms.key, ms.mid + ([':'] + (ms.gap + value))),
                   PutString(CurledUnits(ms.key), ms.mid + ([':'] + (ms.gap + value'))));
    }
  }

  // ---- where the lookahead goes wrong ----

  /** A bare quote that runs into a structural character stays bare. */
  lemma {:induction false} UnitsGoWrong(us: seq<Unit>, k: string, y: string)
    requires LooseUnits(us) && !ShelteredUnits(us)
    ensures RepairFrom(true, false, PutUnits(us, ['"'] + k)) != PutUnits(CurledUnits(us), y)
  {
    hide RunsInto, RepairFrom;
    if us != [] {
      ShelteredStep(us);
      UnitRepaired(us, k);
      hide ShelteredUnits;
      var c := CurledUnits(us);
      assert c[1..] == CurledUnits(us[1..]);
      PutUnitsCons(c, y);
      var tail := PutUnits(us[1..], ['"'] + k);
      if us[0] == BARE && RunsInto(us[1..], 0) {
        assert (['"'] + RepairFrom(false, false, tail))[0] != ([CURLY] + PutUnits(c[1..], y))[0];
      } else {
        UnitsGoWrong(us[1..], k, y);
        Cancel(UnitText(c[0]), RepairFrom(true, false, tail), PutUnits(c[1..], y));
      }
    }
  }

  lemma Cancel(a: string, x: string, y: string)
    ensures a + x == a + y ==> x == y
  {
    if a + x == a + y {
      assert (a + x)[|a|..] == x && (a + y)[|a|..] == y;
    }
  }

  lemma StringGoesWrong(us: seq<Unit>, k: string, y: string)
    requires LooseUnits(us) && !ShelteredUnits(us)
    ensures RepairFrom(false, false, PutString(us, k)) != PutString(CurledUnits(us), y)
  {
    var s := PutString(us, k);
    UnitsGoWrong(us, k, ['"'] + y);
    assert s[1..] == PutUnits(us, ['"'] + k);
    hide PutUnits, ShelteredUnits, Follows;
    assert RepairFrom(false, false, s) == ['"'] + RepairFrom(true, false, s[1..]);
    Cancel(['"'], RepairFrom(true, false, s[1..]), PutUnits(CurledUnits(us), ['"'] + y));
  }

  lemma PlainThen(w: string, x: string, y: string)
    requires forall i :: 0 <= i < |w| ==> w[i] != '"'
    ensures RepairFrom(false, false, w + x) == w + y ==> RepairFrom(false, false, x) == y
  {
    RepairPlain(w, x);
    Cancel(w, RepairFrom(false, false, x), y);
  }

  lemma ValueThen(d: Doc, k: string, y: string)
    requires Loose(d) && Sheltered(d) && (d.DStr? ==> Follows(k))
    ensures RepairFrom(false, false, Put(d, k)) == Put(Curled(d), y) ==> RepairFrom(false, false, k) == y
  {
    hide RepairFrom, Follows;
    RepairPut(d, k);
    TextThen(Curled(d), RepairFrom(false, false, k));
    TextThen(Curled(d), y);
    Cancel(Text(Curled(d)), RepairFrom(false, false, k), y);
  }

  lemma StringThen(us: seq<Unit>, k: string, y: string)
    requires LooseUnits(us) && Follows(k)
    requires RepairFrom(false, false, PutString(us, k)) == PutString(CurledUnits(us), y)
    ensures ShelteredUnits(us) && RepairFrom(false, false, k) == y
  {
    hide RepairFrom, Follows, ShelteredUnits, PutString;
    if !ShelteredUnits(us) {
      StringGoesWrong(us, k, y);
    }
    ValueThen(DStr(us), k, y);
  }

  /** If a text is repaired as it should be, none of its bare quotes is mistaken. */
  lemma {:induction false} MendedIsSheltered(d: Doc, k: string, y: string)
    requires Loose(d) && (d.DStr? ==> Follows(k))
    requires RepairFrom(false, false, Put(d, k)) == Put(Curled(d), y)
    ensures Sheltered(d)
    decreases d
  {
    hide RepairFrom, Follows, PutString, ShelteredUnits;
    match d
    case DLit(_) =>
    case DNum(_) =>
    case DStr(us) => StringThen(us, k, y);
    case DArr(pad, elems) =>
      PlainThen(['['], pad + PutElems(elems, [']'] + k), pad + PutElems(CurledElems(elems), [']'] + y));
      PlainThen(pad, PutElems(elems, [']'] + k), PutElems(CurledElems(elems), [']'] + y));
      MendedElems(elems, [']'] + k, [']'] + y);
    case DObj(pad, members) =>
      PlainThen(['{'], pad + PutMembers(members, ['}'] + k), pad + PutMembers(CurledMembers(members), ['}'] + y));
      PlainThen(pad, PutMembers(members, ['}'] + k), PutMembers(CurledMembers(members), ['}'] + y));
      MendedMembers(members, ['}'] + k, ['}'] + y);
  }

  lemma {:induction false} MendedElems(es: Elems, k: string, y: string)
    requires LooseElems(es) && k != "" && IsFollow(k[0])
    requires RepairFrom(false, false, PutElems(es, k)) == PutElems(CurledElems(es), y)
    ensures ShelteredElems(es)
    decreases es
  {
    hide RepairFrom, Put;
    if es.Elem? {
      var tail, tail' := PutMoreElems(es.more, k), PutMoreElems(CurledElems(es.more), y);
      FollowsWs(es.post, tail);
      PlainThen(es.pre, Put(es.value, es.post + tail), Put(Curled(es.value), es.post + tail'));
      MendedIsSheltered(es.value, es.post + tail, es.post + tail');
      ValueThen(es.value, es.post + tail, es.post + tail');
      PlainThen(es.post, tail, tail');
      if es.more.Elem? {
        PlainThen([','], PutElems(es.more, k), PutElems(CurledElems(es.more), y));
        MendedElems(es.more, k, y);
      }
    }
  }

  lemma {:induction false} MendedMembers(ms: Members, k: string, y: string)
    requires LooseMembers(ms) && k != "" && IsFollow(k[0])
    requires RepairFrom(false, false, PutMembers(ms, k)) == PutMembers(CurledMembers(ms), y)
    ensures ShelteredMembers(ms)
    decreases ms
  {
    hide RepairFrom, Put, PutString;
    if ms.Member? {
      var tail, tail' := PutMoreMembers(ms.more, k), PutMoreMembers(CurledMembers(ms.more), y);
      var value, value' := Put(ms.value, ms.post + tail), Put(Curled(ms.value), ms.post + tail');
      var colon, colon' := [':'] + (ms.gap + value), [':'] + (ms.gap + value');
      FollowsWs(ms.mid, colon);
      FollowsWs(ms.post, tail);
      PlainThen(ms.pre, PutString(ms.key, ms.mid + colon), PutString(CurledUnits(ms.key), ms.mid + colon'));
      StringThen(ms.key, ms.mid + colon, ms.mid + colon');
      PlainThen(ms.mid, colon, colon');
      PlainThen([':'], ms.gap + value, ms.gap + value');
      PlainThen(ms.gap, value, value');
      MendedIsSheltered(ms.value, ms.post + tail, ms.post + tail');
      ValueThen(ms.value, ms.post + tail, ms.post + tail');
      PlainThen(ms.post, tail, tail');
      if ms.more.Member? {
        PlainThen([','], PutMembers(ms.more, k), PutMembers(CurledMembers(ms.more), y));
        MendedMembers(ms.more, k, y);
      }
    }
  }

  /** What repair is for, and exactly when it works: in an object or array that holds an ideograph all
      bare quotes, and nothing else, become U+201D if and only if none of them runs into one of the
      characters `, : } ]`. */
  lemma RepairMendsIff(d: Doc)
    requires Loose(d) && (d.DObj? || d.DArr?)
    ensures Valid(Curled(d))
    ensures HasCjk(Text(d)) ==> (Repair(Text(d)) == Text(Curled(d)) <==> Sheltered(d))
    ensures !HasCjk(Text(d)) ==> Repair(Text(d)) == Text(d)
  {
    hide RepairFrom, Put;
    CurledIsValid(d);
    if Sheltered(d) {
      RepairPut(d, "");
      RepairNothing();
    }
    if HasCjk(Text(d)) && Repair(Text(d)) == Text(Curled(d)) {
      MendedIsSheltered(d, "", "");
    }
  }

  lemma RepairNothing()
    ensures RepairFrom(false, false, "") == ""
  {
  }

  /** Every JSON object or array is left unchanged, however it is laid out. */
  lemma RepairKeepsDoc(d: Doc)
    requires Valid(d) && (d.DObj? || d.DArr?)
    ensures Repair(Text(d)) == Text(d)
  {
    ValidIsLoose(d);
    RepairPut(d, "");
  }

  /** A bare top-level string is the one kind of JSON text that repair breaks: its closing quote
      has nothing after it, so it is curled whenever the text holds an ideograph. */
  lemma RepairBreaksBareString(us: seq<Unit>)
    requires ValidUnits(us)
    ensures Repair(PutString(us, "")) == PutString(us, "") <==> !HasCjk(PutString(us, ""))
  {
    var s := PutString(us, "");
    if HasCjk(s) {
      RepairUnitsCurlsLast(us);
      assert s[1..] == PutUnits(us, ['"']) by { assert ['"'] + "" == ['"']; }
      assert RepairFrom(false, false, s)[1..] == RepairFrom(true, false, s[1..]);
    }
  }

  /** Exactly which texts without blanks around them the repair leaves alone. */
  lemma RepairKeepsIff(d: Doc)
    requires Valid(d)
    ensures Repair(Text(d)) == Text(d) <==> !(d.DStr? && HasCjk(Text(d)))
  {
    if d.DStr? {
      RepairBreaksBareString(d.units);
    } else {
      ValidIsLoose(d);
      RepairPut(d, "");
    }
  }

  lemma {:induction false} RepairUnitsCurlsLast(us: seq<Unit>)
    requires ValidUnits(us)
    ensures RepairFrom(true, false, PutUnits(us, ['"'])) != PutUnits(us, ['"'])
  {
    if us == [] {
      assert RepairFrom(true, false, ['"']) == [CURLY];
    } else {
      var u, tail := UnitText(us[0]), PutUnits(us[1..], ['"']);
      RepairUnitsCurlsLast(us[1..]);
      PutUnitsCons(us, ['"']);
      RepairUnit(us[0], tail);
      hide RepairFrom, PutUnits, UnitText;
      assert (u + RepairFrom(true, false, tail))[|u|..] == RepairFrom(true, false, tail);
      assert (u + tail)[|u|..] == tail;
    }
  }

  lemma RepairUnit(u: Unit, tail: string)
    requires ValidUnit(u)
    ensures RepairFrom(true, false, UnitText(u) + tail) == UnitText(u) + RepairFrom(true, false, tail)
  {
    match u
    case Raw(c) => RepairInside([c], tail);
    case Short(e) =>
      RepairEscape(e, tail);
      assert ['\\', e] + tail == ['\\'] + ([e] + tail);
    case Hex(d) =>
      RepairEscape('u', d + tail);
      RepairInside(d, tail);
      assert ['\\', 'u'] + d + tail == ['\\'] + (['u'] + (d + tail));
  }
}
