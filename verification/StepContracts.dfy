/** Step contracts: built from a case's natural-language steps, repaired later from the same steps. */
module StepContracts {
  import opened Decimals
  import opened PyText
  import opened NlAssert

  // ---- page transitions: the last match of the transition pattern ----

  /** The length of the transition word `s` starts with, 0 if none. */
  function WordLength(s: string): (n: nat)
    ensures n <= |s|
  {
    if StartsWith(s, "跳转至") || StartsWith(s, "跳转到") || StartsWith(s, "返回至") || StartsWith(s, "返回到") then 3
    else if StartsWith(s, "进入") || StartsWith(s, "打开") then 2
    else 0
  }

  predicate EndsName(c: char) { c == '，' || c == '。' || c == '；' || c == '」' || c == '』' }

  /** The first `页` at or after `k` that only name characters precede. */
  function FindPage(s: string, k: nat): (e: Option<nat>)
    ensures e.Some? ==> k <= e.value < |s| && s[e.value] == '页'
    decreases |s| - k
  {
    if k >= |s| then None
    else if s[k] == '页' then Some(k)
    else if EndsName(s[k]) then None
    else FindPage(s, k + 1)
  }

  /** A page name starting at `k`: one name character, then as few as possible up to a `页`. */
  function NameEnd(s: string, k: nat): (e: Option<nat>)
    ensures e.Some? ==> k < e.value < |s| && s[e.value] == '页'
  {
    if k < |s| && !EndsName(s[k]) then FindPage(s, k + 1) else None
  }

  datatype PageMatch = PageMatch(name: string, length: nat)

  predicate Bracket(s: string, w: nat) { w < |s| && (s[w] == '「' || s[w] == '『') }

  /** An opening bracket after the word is taken if a name follows it. */
  function NameStart(s: string, w: nat): nat {
    if Bracket(s, w) && NameEnd(s, w + 1).Some? then w + 1 else w
  }

  /** The name `s[k..e + 1]`; a closing bracket after it belongs to the match. */
  function Named(s: string, k: nat, e: nat): PageMatch
    requires k < e < |s|
  {
    PageMatch(s[k..e + 1], if e + 1 < |s| && (s[e + 1] == '」' || s[e + 1] == '』') then e + 2 else e + 1)
  }

  predicate EndsInPage(name: string) { name != "" && name[|name| - 1] == '页' }

  /** The pattern at the start of `s`. */
  function MatchHere(s: string): (m: Option<PageMatch>)
    ensures m.Some? ==> 0 < m.value.length <= |s|
    ensures m.Some? ==> EndsInPage(m.value.name)
  {
    var w := WordLength(s);
    if w == 0 then None
    else
      var k := NameStart(s, w);
      match NameEnd(s, k)
      case None => None
      case Some(e) => Some(Named(s, k, e))
  }

  /** `re.findall` of the pattern */
  function Transitions(s: string): (names: seq<string>)
    ensures forall i :: 0 <= i < |names| ==> EndsInPage(names[i])
    decreases |s|
  {
    hide MatchHere, EndsInPage;
    if s == "" then []
    else
      match MatchHere(s)
      case None => Transitions(s[1..])
      case Some(m) => [m.name] + Transitions(s[m.length..])
  }

  /** `s[k..e + 1]` is the shortest page name from `k` on: name characters, then the first `页` after `k`. */
  predicate IsPageName(s: string, k: nat, e: nat) {
    && k < e < |s| && s[e] == '页'
    && !EndsName(s[k])
    && forall j :: k < j < e ==> !EndsName(s[j]) && s[j] != '页'
  }

  lemma {:induction false} FindPageIff(s: string, k: nat, e: nat)
    ensures FindPage(s, k) == Some(e) <==> k <= e < |s| && s[e] == '页' && forall j :: k <= j < e ==> !EndsName(s[j]) && s[j] != '页'
    decreases |s| - k
  {
    if k < |s| {
      FindPageIff(s, k + 1, e);
    }
  }

  /** A match is a transition word, an opening bracket or none, and the shortest page name behind it,
      taken behind the bracket if there is one to take. */
  lemma MatchHereIff(s: string, k: nat, e: nat)
    ensures NameEnd(s, k) == Some(e) <==> IsPageName(s, k, e)
    ensures var w := WordLength(s);
            w > 0 && k == NameStart(s, w) && IsPageName(s, k, e)
            ==> MatchHere(s).Some? && MatchHere(s).value.name == s[k..e + 1]
    ensures MatchHere(s).Some? ==>
              WordLength(s) > 0 && IsPageName(s, NameStart(s, WordLength(s)), NameStart(s, WordLength(s)) + |MatchHere(s).value.name| - 1)
  {
    FindPageIff(s, k + 1, e);
    if MatchHere(s).Some? {
      var k' := NameStart(s, WordLength(s));
      FindPageIff(s, k' + 1, NameEnd(s, k').value);
    }
  }

  /** A tail no match reaches into. */
  predicate Inert(t: string) { t == "" || t[0] == '；' || AllSpace(t) }

  lemma {:induction false} FindPageInert(u: string, t: string, k: nat)
    requires Inert(t) && k <= |u|
    ensures FindPage(u + t, k) == FindPage(u, k)
    decreases |u| - k
  {
    var s := u + t;
    if k < |u| {
      assert s[k] == u[k];
      FindPageInert(u, t, k + 1);
    } else if t != "" {
      assert s[k] == t[0];
      if AllSpace(t) {
        assert forall i :: k <= i < |s| ==> s[i] == t[i - k];
        NoPageInBlanks(s, k);
      }
    }
  }

  lemma {:induction false} NoPageInBlanks(s: string, k: nat)
    requires forall i :: k <= i < |s| ==> IsSpace(s[i])
    ensures FindPage(s, k) == None
    decreases |s| - k
  {
    if k < |s| {
      NoPageInBlanks(s, k + 1);
    }
  }

  lemma NameEndInert(u: string, t: string, k: nat)
    requires Inert(t) && k <= |u|
    ensures NameEnd(u + t, k) == NameEnd(u, k)
  {
    var s := u + t;
    if k < |u| {
      assert s[k] == u[k];
      FindPageInert(u, t, k + 1);
    } else if t != "" {
      assert s[k] == t[0];
      if AllSpace(t) {
        assert forall i :: k <= i < |s| ==> s[i] == t[i - k];
        NoPageInBlanks(s, k + 1);
      }
    }
  }

  lemma StartsWithInert(u: string, t: string, word: string)
    requires Inert(t) && forall i :: 0 <= i < |word| ==> word[i] != '；' && !IsSpace(word[i])
    ensures StartsWith(u + t, word) <==> StartsWith(u, word)
  {
    if |word| <= |u| {
      assert (u + t)[..|word|] == u[..|word|];
    } else if t != "" && |word| <= |u + t| {
      assert (u + t)[..|word|][|u|] == t[0];
    }
  }

  lemma WordLengthInert(u: string, t: string)
    requires Inert(t)
    ensures WordLength(u + t) == WordLength(u)
  {
    StartsWithInert(u, t, "跳转至");
    StartsWithInert(u, t, "跳转到");
    StartsWithInert(u, t, "返回至");
    StartsWithInert(u, t, "返回到");
    StartsWithInert(u, t, "进入");
    StartsWithInert(u, t, "打开");
  }

  lemma NameStartInert(u: string, t: string, w: nat)
    requires Inert(t) && w <= |u|
    ensures NameStart(u + t, w) == NameStart(u, w) <= |u|
  {
    hide NameEnd;
    assert Bracket(u + t, w) <==> Bracket(u, w) by {
      assert w == |u| && t != "" ==> (u + t)[w] == t[0];
    }
    if w < |u| {
      NameEndInert(u, t, w + 1);
    }
  }

  lemma NamedInert(u: string, t: string, k: nat, e: nat)
    requires Inert(t) && k < e < |u|
    ensures Named(u + t, k, e) == Named(u, k, e)
  {
    var s := u + t;
    assert s[k..e + 1] == u[k..e + 1];
    assert e + 1 == |u| && t != "" ==> s[e + 1] == t[0];
  }

  lemma MatchHereInert(u: string, t: string)
    requires Inert(t)
    ensures MatchHere(u + t) == MatchHere(u)
  {
    hide WordLength, NameEnd, NameStart, Named, Inert;
    WordLengthInert(u, t);
    var w := WordLength(u);
    NameStartInert(u, t, w);
    var k := NameStart(u, w);
    NameEndInert(u, t, k);
    if NameEnd(u, k).Some? {
      NamedInert(u, t, k, NameEnd(u, k).value);
    }
  }

  /** Matching goes separately through the two sides of such a tail. */
  lemma {:induction false} TransitionsInert(u: string, t: string)
    requires Inert(t)
    ensures Transitions(u + t) == Transitions(u) + Transitions(t)
    decreases |u|
  {
    hide MatchHere, Inert;
    if u == "" {
      assert u + t == t;
    } else {
      MatchHereInert(u, t);
      match MatchHere(u)
      case None =>
        assert (u + t)[1..] == u[1..] + t;
        TransitionsInert(u[1..], t);
      case Some(m) =>
        assert (u + t)[m.length..] == u[m.length..] + t;
        TransitionsInert(u[m.length..], t);
    }
  }

  lemma {:induction false} TransitionsAfterBlanks(a: string, t: string)
    requires AllSpace(a)
    ensures Transitions(a + t) == Transitions(t)
  {
    if a == "" {
      assert a + t == t;
    } else {
      var s := a + t;
      assert s[0] == a[0] && s[1..] == a[1..] + t;
      assert MatchHere(s).None?;
      TransitionsAfterBlanks(a[1..], t);
    }
  }

  lemma TransitionsTrimmed(a: string, core: string, b: string)
    requires AllSpace(a) && AllSpace(b)
    ensures Transitions(a + core + b) == Transitions(core)
  {
    assert a + core + b == a + (core + b);
    TransitionsAfterBlanks(a, core + b);
    TransitionsInert(core, b);
    TransitionsAfterBlanks(b, "");
    assert b + "" == b;
  }

  /** The pattern is searched in the action and in the expectation, and never across. */
  lemma TransitionsOfStep(action: string, expected: string)
    ensures Transitions(action + "；" + expected) == Transitions(action) + Transitions(expected)
  {
    var t := "；" + expected;
    SeparatorStartsNothing(expected);
    hide *;
    assert action + "；" + expected == action + t;
    TransitionsInert(action, t);
  }

  lemma SeparatorStartsNothing(expected: string)
    ensures Inert("；" + expected) && Transitions("；" + expected) == Transitions(expected)
  {
    var t := "；" + expected;
    assert t[0] == '；' && t[1..] == expected;
    assert MatchHere(t).None?;
    hide MatchHere;
  }

  // ---- destinations and postconditions ----

  datatype Module = Module(id: string, name: string, pageStates: seq<string>)

  function MainState(m: Module): string {
    if m.pageStates != [] then m.pageStates[0] else m.id + "_main"
  }

  function Destination(m: Module, current: string, action: string, expected: string): string {
    var names := Transitions(action + "；" + expected);
    if names == [] then current
    else
      var page := Strip(names[|names| - 1]);
      if m.name != "" && Contains(page, m.name) then MainState(m) else "external:" + page
  }

  /** The word lists of the automation lexicon; `describe` gives an action's target description. */
  datatype Lexicon = Lexicon(
    verbs: seq<(string, seq<string>)>, subjective: seq<string>, describe: string -> string)

  predicate ContainsOne(s: string, words: seq<string>) {
    exists k :: 0 <= k < |words| && Contains(s, words[k])
  }

  /** The first kind of action one of whose words occurs, "" if none. */
  function ActionKind(verbs: seq<(string, seq<string>)>, action: string): string {
    if verbs == [] then ""
    else if ContainsOne(action, verbs[0].1) then verbs[0].0
    else ActionKind(verbs[1..], action)
  }

  /** A digit, a slash and a digit with nothing but blanks between them: a page indicator like `3 / 10`. */
  predicate IndicatorAt(s: string, i: int, k: int, j: int) {
    && 0 <= i < k < j < |s| && IsDigit(s[i]) && s[k] == '/' && IsDigit(s[j])
    && AllSpace(s[i + 1..k]) && AllSpace(s[k + 1..j])
  }

  predicate HasIndicator(s: string) {
    exists i, k, j :: 0 <= i < |s| && i < k < |s| && k < j < |s| && IndicatorAt(s, i, k, j)
  }

  const APPEARING := ["出现", "显示", "可见", "进入", "跳转"]
  const NOT_APPEARING := ["不出现", "不展示", "不显示", "不可见"]

  function ObjectivePostconditions(lex: Lexicon, action: string, expected: string): seq<string> {
    Conditions(TextConditions(expected), HasIndicator(expected),
               ActionKind(lex.verbs, action) == "swipe" && !ContainsOne(expected, lex.subjective),
               ContainsOne(expected, APPEARING) && !ContainsOne(expected, NOT_APPEARING))
  }

  /** The weak condition stands only where there is no other. */
  function Conditions(texts: seq<string>, indicator: bool, content: bool, weak: bool): seq<string> {
    var posts := texts + (if indicator then ["page_indicator_changed"] else [])
                 + (if content then ["page_content_changed"] else []);
    if posts == [] && weak then ["expected_state_visible"] else posts
  }

  /** The postconditions of a step that leads from `current` to `destination`. */
  function StepPostconditions(lex: Lexicon, current: string, destination: string, action: string, expected: string): seq<string> {
    var posts := ObjectivePostconditions(lex, action, expected);
    if destination != current && "page_changed" !in posts then posts + ["page_changed"] else posts
  }

  // ---- building and repairing ----

  datatype RawStep = NotAStep | RawStep(step: int, action: string, expected: string)

  datatype Contract = Contract(
    step: int, startState: string, intent: string, actionKind: string, target: string,
    expectedTransition: string, postconditions: seq<string>)

  /** A step's action and expectation. */
  type Texts = (string, string)

  function StateAfter(m: Module, texts: seq<Texts>): string {
    if texts == [] then MainState(m)
    else
      var n := |texts| - 1;
      Destination(m, StateAfter(m, texts[..n]), texts[n].0, texts[n].1)
  }

  function Arrow(current: string, destination: string): string { current + " -> " + destination }

  function NewContract(lex: Lexicon, m: Module, current: string, step: int, action: string, expected: string): Contract {
    var destination := Destination(m, current, action, expected);
    var kind := ActionKind(lex.verbs, action);
    Contract(step, current, action, if kind != "" then kind else "agent_decide", lex.describe(action),
             Arrow(current, destination), StepPostconditions(lex, current, destination, action, expected))
  }

  function RepairedContract(lex: Lexicon, m: Module, current: string, c: Contract, t: Texts): Contract {
    var destination := Destination(m, current, t.0, t.1);
    c.(startState := current, expectedTransition := Arrow(current, destination),
       postconditions := StepPostconditions(lex, current, destination, t.0, t.1))
  }

  function Steps(raw: seq<RawStep>): seq<RawStep> {
    if raw == [] then []
    else
      var n := |raw| - 1;
      Steps(raw[..n]) + (if raw[n].RawStep? then [raw[n]] else [])
  }

  function StrippedTexts(raw: seq<RawStep>): seq<Texts> {
    if raw == [] then []
    else
      var n := |raw| - 1;
      StrippedTexts(raw[..n]) + (if raw[n].RawStep? then [(Strip(raw[n].action), Strip(raw[n].expected))] else [])
  }

  /** The contracts of the steps seen so far, the current state with them. */
  function Build(lex: Lexicon, m: Module, raw: seq<RawStep>): seq<Contract> {
    if raw == [] then []
    else
      var n := |raw| - 1;
      var before := Build(lex, m, raw[..n]);
      match raw[n]
      case NotAStep => before
      case RawStep(step, action, expected) =>
        before + [NewContract(lex, m, StateAfter(m, StrippedTexts(raw[..n])),
                              if step != 0 then step else |raw|, Strip(action), Strip(expected))]
  }

  function TextsFor(steps: seq<RawStep>, c: Contract, k: nat): Texts {
    if k < |steps| && steps[k].RawStep? then (if steps[k].action != "" then steps[k].action else c.intent, steps[k].expected)
    else (c.intent, "")
  }

  function AllTexts(steps: seq<RawStep>, contracts: seq<Contract>): (r: seq<Texts>)
    ensures |r| == |contracts|
  {
    if contracts == [] then []
    else
      var n := |contracts| - 1;
      AllTexts(steps, contracts[..n]) + [TextsFor(steps, contracts[n], n)]
  }

  function Repair(lex: Lexicon, m: Module, steps: seq<RawStep>, contracts: seq<Contract>): (r: seq<Contract>)
    ensures |r| == |contracts|
  {
    if contracts == [] then []
    else
      var n := |contracts| - 1;
      var before := Repair(lex, m, steps, contracts[..n]);
      before + [RepairedContract(lex, m, StateAfter(m, AllTexts(steps, contracts[..n])), contracts[n],
                                 TextsFor(steps, contracts[n], n))]
  }

  method BuildStepContracts(lex: Lexicon, found: Option<Module>, raw: seq<RawStep>) returns (contracts: seq<Contract>)
    ensures contracts == if found.None? then [] else Build(lex, found.value, raw)
  {
    hide NewContract, Destination, Strip;
    contracts := [];
    if found.None? {
      return;
    }
    var m := found.value;
    var currentState := MainState(m);
    for i := 0 to |raw|
      invariant contracts == Build(lex, m, raw[..i])
      invariant currentState == StateAfter(m, StrippedTexts(raw[..i]))
    {
      assert raw[..i + 1][..i] == raw[..i];
      match raw[i] {
        case NotAStep =>
          assert StrippedTexts(raw[..i]) + [] == StrippedTexts(raw[..i]);
        case RawStep(step, action, expected) =>
          var stripped, wanted := Strip(action), Strip(expected);
          var destination := Destination(m, currentState, stripped, wanted);
          ghost var texts := StrippedTexts(raw[..i]);
          assert (texts + [(stripped, wanted)])[..|texts|] == texts;
          contracts := contracts + [NewContract(lex, m, currentState, if step != 0 then step else i + 1, stripped, wanted)];
          currentState := destination;
      }
    }
    assert raw[..|raw|] == raw;
  }

  method RepairStepContractStates(lex: Lexicon, found: Option<Module>, raw: seq<RawStep>, contracts: seq<Contract>)
    returns (repaired: seq<Contract>)
    ensures repaired == if found.None? then contracts else Repair(lex, found.value, Steps(raw), contracts)
  {
    if found.None? {
      return contracts;
    }
    var m := found.value;
    var steps := Steps(raw);
    var currentState := MainState(m);
    repaired := [];
    for i := 0 to |contracts|
      invariant repaired == Repair(lex, m, steps, contracts[..i])
      invariant currentState == StateAfter(m, AllTexts(steps, contracts[..i]))
    {
      assert contracts[..i + 1][..i] == contracts[..i];
      var texts := TextsFor(steps, contracts[i], i);
      var destination := Destination(m, currentState, texts.0, texts.1);
      repaired := repaired + [RepairedContract(lex, m, currentState, contracts[i], texts)];
      ghost var before := AllTexts(steps, contracts[..i]);
      assert (before + [texts])[..i] == before;
      currentState := destination;
    }
    assert contracts[..|contracts|] == contracts;
  }

  // ---- what the fields say ----

  lemma {:induction false} NoTransition(s: string)
    ensures Transitions(s) == [] <==> forall q :: 0 <= q <= |s| ==> MatchHere(s[q..]).None?
    decreases |s|
  {
    hide MatchHere;
    if s == "" {
      NothingMatchesEmpty();
    } else {
      assert s[0..] == s;
      if MatchHere(s).None? {
        NoTransition(s[1..]);
        assert forall q :: 0 < q <= |s| ==> s[q..] == s[1..][q - 1..];
        assert forall q :: 0 <= q <= |s[1..]| ==> s[1..][q..] == s[q + 1..];
      }
    }
  }

  lemma NothingMatchesEmpty()
    ensures MatchHere("") == None
  {
  }

  predicate NoMatchFrom(s: string, n: nat) {
    forall q :: n <= q <= |s| ==> MatchHere(s[q..]).None?
  }

  /** The pattern matches at `p`, and behind that match nowhere. */
  predicate LastMatchAt(s: string, p: nat) {
    && p < |s| && MatchHere(s[p..]).Some?
    && NoMatchFrom(s, p + MatchHere(s[p..]).value.length)
  }

  /** The last name found belongs to a match behind which no other match starts. */
  lemma {:induction false} LastTransition(s: string) returns (p: nat)
    requires Transitions(s) != []
    ensures LastMatchAt(s, p) && Transitions(s)[|Transitions(s)| - 1] == MatchHere(s[p..]).value.name
    decreases |s|
  {
    hide MatchHere, LastMatchAt;
    assert s[0..] == s;
    match MatchHere(s)
    case None =>
      p := LastTransition(s[1..]);
      LastMatchShifts(s, 1, p);
      p := p + 1;
    case Some(m) =>
      if Transitions(s[m.length..]) == [] {
        p := 0;
        FirstIsLast(s);
      } else {
        p := LastTransition(s[m.length..]);
        LastMatchShifts(s, m.length, p);
        p := p + m.length;
      }
  }

  lemma FirstIsLast(s: string)
    requires MatchHere(s).Some? && Transitions(s[MatchHere(s).value.length..]) == []
    ensures LastMatchAt(s, 0)
  {
    hide MatchHere;
    assert s[0..] == s;
    NoTransition(s[MatchHere(s).value.length..]);
    LaterMatches(s, MatchHere(s).value.length);
    LaterMatches(s, 0);
    assert s != "" by { NothingMatchesEmpty(); }
  }

  lemma LastMatchShifts(s: string, n: nat, p: nat)
    requires n <= |s| && LastMatchAt(s[n..], p)
    ensures LastMatchAt(s, p + n) && s[p + n..] == s[n..][p..]
  {
    hide MatchHere;
    LaterMatches(s, n);
  }

  lemma LaterMatches(s: string, n: nat)
    requires n <= |s|
    ensures forall q :: n <= q <= |s| ==> s[q..] == s[n..][q - n..]
    ensures forall q :: 0 <= q <= |s[n..]| ==> s[n..][q..] == s[n + q..]
  {
  }

  function PageState(m: Module, name: string): string {
    var page := Strip(name);
    if m.name != "" && Contains(page, m.name) then MainState(m) else "external:" + page
  }

  /** Where a step leads: nowhere without a transition, else to the page named last, which is the module's
      main state if it holds the module's name. */
  lemma DestinationMeaning(m: Module, current: string, action: string, expected: string)
    ensures var s := action + "；" + expected;
            || (NoMatchFrom(s, 0) && Destination(m, current, action, expected) == current)
            || exists p :: 0 <= p < |s| && LastMatchAt(s, p)
                           && Destination(m, current, action, expected) == PageState(m, MatchHere(s[p..]).value.name)
  {
    hide MatchHere, Transitions, LastMatchAt, Strip, Contains;
    var s := action + "；" + expected;
    NoTransition(s);
    if Transitions(s) != [] {
      var p := LastTransition(s);
      LastMatchInside(s, p);
    }
  }

  lemma LastMatchInside(s: string, p: nat)
    requires LastMatchAt(s, p)
    ensures p < |s| && MatchHere(s[p..]).Some?
  {
  }

  /** The kind of an action is that of the first entry of the lexicon with a word in it. */
  lemma {:induction false} ActionKindMeaning(verbs: seq<(string, seq<string>)>, action: string)
    ensures (exists i :: 0 <= i < |verbs| && ContainsOne(action, verbs[i].1)) ==>
            exists i :: 0 <= i < |verbs| && ContainsOne(action, verbs[i].1) && ActionKind(verbs, action) == verbs[i].0
                        && forall j :: 0 <= j < i ==> !ContainsOne(action, verbs[j].1)
    ensures (forall i :: 0 <= i < |verbs| ==> !ContainsOne(action, verbs[i].1)) ==> ActionKind(verbs, action) == ""
  {
    hide ContainsOne;
    if verbs != [] {
      assert forall i :: 0 < i < |verbs| ==> verbs[i] == verbs[1..][i - 1];
      if !ContainsOne(action, verbs[0].1) {
        ActionKindMeaning(verbs[1..], action);
        if exists i :: 0 <= i < |verbs| && ContainsOne(action, verbs[i].1) {
          var i :| 0 <= i < |verbs| && ContainsOne(action, verbs[i].1);
          assert ContainsOne(action, verbs[1..][i - 1].1);
          var k :| 0 <= k < |verbs[1..]| && ContainsOne(action, verbs[1..][k].1) && ActionKind(verbs[1..], action) == verbs[1..][k].0
                   && forall j :: 0 <= j < k ==> !ContainsOne(action, verbs[1..][j].1);
          assert verbs[k + 1] == verbs[1..][k];
          forall j | 0 <= j < k + 1 ensures !ContainsOne(action, verbs[j].1) {
            assert j > 0 ==> verbs[j] == verbs[1..][j - 1];
          }
        }
      }
    }
  }

  lemma {:induction false} PrefixedStart(prefix: string, values: seq<string>)
    ensures forall p :: p in Prefixed(prefix, values) ==> StartsWith(p, prefix)
    ensures Prefixed(prefix, values) == [] <==> values == []
  {
    if values != [] {
      PrefixedStart(prefix, values[1..]);
    }
  }

  /** No named condition is a text condition. */
  lemma TextsAreNotNames(expected: string)
    ensures var t := TextConditions(expected);
            && "page_indicator_changed" !in t && "page_content_changed" !in t && "page_changed" !in t
            && "expected_state_visible" !in t
            && (t == [] <==> VisibleValues(expected) == [] && AbsentValues(expected) == [])
  {
    hide VisibleValues, AbsentValues;
    PrefixedStart(TEXT_VISIBLE, VisibleValues(expected));
    PrefixedStart(TEXT_ABSENT, AbsentValues(expected));
    forall p | p in TextConditions(expected) ensures |p| > 0 && p[0] == 't' {
      PrefixChars(p, TEXT_VISIBLE);
      PrefixChars(p, TEXT_ABSENT);
    }
  }

  /** When each of the named conditions is demanded. */
  lemma PostconditionsMeaning(lex: Lexicon, current: string, destination: string, action: string, expected: string)
    ensures var posts := StepPostconditions(lex, current, destination, action, expected);
            && ("page_changed" in posts <==> destination != current)
            && ("page_indicator_changed" in posts <==> HasIndicator(expected))
            && ("page_content_changed" in posts <==>
                  ActionKind(lex.verbs, action) == "swipe" && !ContainsOne(expected, lex.subjective))
            && ("expected_state_visible" in posts <==>
                  && VisibleValues(expected) == [] && AbsentValues(expected) == [] && !HasIndicator(expected)
                  && !(ActionKind(lex.verbs, action) == "swipe" && !ContainsOne(expected, lex.subjective))
                  && ContainsOne(expected, ["出现", "显示", "可见", "进入", "跳转"])
                  && !ContainsOne(expected, ["不出现", "不展示", "不显示", "不可见"]))
  {
    TextsAreNotNames(expected);
    hide TextConditions, VisibleValues, AbsentValues, HasIndicator, ActionKind, ContainsOne;
  }

  /** The contract of a raw step, by the step alone and its position. */
  lemma {:induction false} BuiltAt(lex: Lexicon, m: Module, raw: seq<RawStep>, i: nat)
    requires i < |raw| && raw[i].RawStep?
    ensures var k, cs := |Steps(raw[..i])|, Build(lex, m, raw);
            && k < |cs|
            && cs[k].step == (if raw[i].step == 0 then i + 1 else raw[i].step)
            && cs[k].intent == Strip(raw[i].action) && cs[k].target == lex.describe(Strip(raw[i].action))
            && var kind := ActionKind(lex.verbs, Strip(raw[i].action));
               cs[k].actionKind == if kind == "" then "agent_decide" else kind
    decreases |raw|
  {
    hide Destination, StepPostconditions, ActionKind, Strip, StateAfter;
    var n := |raw| - 1;
    BuiltTexts(lex, m, raw[..n]);
    if i < n {
      BuiltAt(lex, m, raw[..n], i);
      assert raw[..n][..i] == raw[..i];
    }
  }

  /** Repair reads the steps: where a step names an action, what the stored contract said about states and
      conditions plays no part, and the rest of it is kept. */
  lemma {:induction false} RepairFollowsSteps(lex: Lexicon, m: Module, steps: seq<RawStep>, one: seq<Contract>, other: seq<Contract>)
    requires |one| == |other| <= |steps|
    requires forall k :: 0 <= k < |one| ==> steps[k].RawStep? && steps[k].action != ""
    ensures var a, b := Repair(lex, m, steps, one), Repair(lex, m, steps, other);
            && AllTexts(steps, one) == AllTexts(steps, other)
            && forall k :: 0 <= k < |one| ==>
                 && a[k].startState == b[k].startState && a[k].expectedTransition == b[k].expectedTransition
                 && a[k].postconditions == b[k].postconditions
                 && a[k].step == one[k].step && a[k].intent == one[k].intent
                 && a[k].actionKind == one[k].actionKind && a[k].target == one[k].target
  {
    hide Destination, StepPostconditions, StateAfter;
    if one != [] {
      var n := |one| - 1;
      RepairFollowsSteps(lex, m, steps, one[..n], other[..n]);
      assert TextsFor(steps, one[n], n) == TextsFor(steps, other[n], n);
    }
  }

  // ---- the chain ----

  /** Every contract starts where the one before it leads, the first in the module's main state,
      the last one leads to `last`. */
  predicate Chained(contracts: seq<Contract>, first: string, last: string) {
    && (contracts == [] ==> first == last)
    && (contracts != [] ==> contracts[0].startState == first
                            && contracts[|contracts| - 1].expectedTransition == Arrow(contracts[|contracts| - 1].startState, last))
    && forall k :: 0 <= k < |contracts| - 1 ==>
                     contracts[k].expectedTransition == Arrow(contracts[k].startState, contracts[k + 1].startState)
  }

  lemma ChainedSnoc(contracts: seq<Contract>, first: string, last: string, c: Contract, next: string)
    requires Chained(contracts, first, last) && c.startState == last && c.expectedTransition == Arrow(last, next)
    ensures Chained(contracts + [c], first, next)
  {
  }

  lemma NewContractLeads(lex: Lexicon, m: Module, current: string, step: int, action: string, expected: string)
    ensures var c := NewContract(lex, m, current, step, action, expected);
            c.startState == current && c.expectedTransition == Arrow(current, Destination(m, current, action, expected))
  {
  }

  lemma {:induction false} BuiltContractsAreChained(lex: Lexicon, m: Module, raw: seq<RawStep>)
    ensures Chained(Build(lex, m, raw), MainState(m), StateAfter(m, StrippedTexts(raw)))
  {
    hide Chained, Destination, NewContract, Strip;
    if raw == [] {
      ChainedEmpty(MainState(m));
    } else {
      var n := |raw| - 1;
      BuiltContractsAreChained(lex, m, raw[..n]);
      var texts := StrippedTexts(raw[..n]);
      if raw[n].RawStep? {
        var t := (Strip(raw[n].action), Strip(raw[n].expected));
        assert (texts + [t])[..|texts|] == texts;
        var current := StateAfter(m, texts);
        var c := NewContract(lex, m, current, if raw[n].step != 0 then raw[n].step else |raw|, t.0, t.1);
        assert StateAfter(m, texts + [t]) == Destination(m, current, t.0, t.1);
        assert Build(lex, m, raw) == Build(lex, m, raw[..n]) + [c];
        hide Build, StateAfter, StrippedTexts;
        NewContractLeads(lex, m, current, if raw[n].step != 0 then raw[n].step else |raw|, t.0, t.1);
        ChainedSnoc(Build(lex, m, raw[..n]), MainState(m), current, c, Destination(m, current, t.0, t.1));
      } else {
        assert texts + [] == texts;
      }
    }
  }

  lemma ChainedEmpty(state: string)
    ensures Chained([], state, state)
  {
  }

  lemma {:induction false} RepairedContractsAreChained(lex: Lexicon, m: Module, steps: seq<RawStep>, contracts: seq<Contract>)
    ensures Chained(Repair(lex, m, steps, contracts), MainState(m), StateAfter(m, AllTexts(steps, contracts)))
  {
    hide Chained, Destination, StepPostconditions;
    if contracts == [] {
      ChainedEmpty(MainState(m));
    } else {
      var n := |contracts| - 1;
      RepairedContractsAreChained(lex, m, steps, contracts[..n]);
      var texts, t := AllTexts(steps, contracts[..n]), TextsFor(steps, contracts[n], n);
      assert (texts + [t])[..n] == texts;
      var current := StateAfter(m, texts);
      ChainedSnoc(Repair(lex, m, steps, contracts[..n]), MainState(m), current,
                  RepairedContract(lex, m, current, contracts[n], t), Destination(m, current, t.0, t.1));
    }
  }

  // ---- repair is idempotent ----

  lemma {:induction false} RepairIdempotent(lex: Lexicon, m: Module, steps: seq<RawStep>, contracts: seq<Contract>)
    ensures AllTexts(steps, Repair(lex, m, steps, contracts)) == AllTexts(steps, contracts)
    ensures Repair(lex, m, steps, Repair(lex, m, steps, contracts)) == Repair(lex, m, steps, contracts)
  {
    hide Destination, StepPostconditions;
    if contracts != [] {
      var n := |contracts| - 1;
      RepairIdempotent(lex, m, steps, contracts[..n]);
      var once := Repair(lex, m, steps, contracts);
      assert once[..n] == Repair(lex, m, steps, contracts[..n]);
      assert TextsFor(steps, once[n], n) == TextsFor(steps, contracts[n], n);
    }
  }

  // ---- blanks around action and expectation change nothing ----

  predicate TrimmedWords(words: seq<string>) {
    forall k :: 0 <= k < |words| ==> Trimmed(words[k])
  }

  predicate TrimmedLexicon(lex: Lexicon) {
    TrimmedWords(lex.subjective) && forall k :: 0 <= k < |lex.verbs| ==> TrimmedWords(lex.verbs[k].1)
  }

  lemma WordInBlanks(a: string, core: string, b: string, word: string)
    requires AllSpace(a) && AllSpace(b) && Trimmed(word)
    ensures Contains(a + core + b, word) <==> Contains(core, word)
  {
    var s := a + core + b;
    if Contains(core, word) {
      var i :| 0 <= i <= |core| && OccursAt(core, word, i);
      assert s[|a| + i..|a| + i + |word|] == core[i..i + |word|];
      assert OccursAt(s, word, |a| + i);
    }
    if Contains(s, word) {
      var i :| 0 <= i <= |s| && OccursAt(s, word, i);
      if word == "" {
        assert OccursAt(core, word, 0);
      } else {
        OccursInCore(a, core, b, word, i);
      }
    }
  }

  lemma SpaceAround(a: string, core: string, b: string)
    requires AllSpace(a) && AllSpace(b)
    ensures forall i :: 0 <= i < |a + core + b| && !IsSpace((a + core + b)[i]) ==> |a| <= i < |a| + |core|
  {
  }

  lemma OccursInCore(a: string, core: string, b: string, word: string, i: int)
    requires AllSpace(a) && AllSpace(b) && word != "" && Trimmed(word) && OccursAt(a + core + b, word, i)
    ensures Contains(core, word)
  {
    var s := a + core + b;
    var j := i + |word| - 1;
    assert s[i] == s[i..i + |word|][0] == word[0];
    assert s[j] == s[i..i + |word|][|word| - 1] == word[|word| - 1];
    SpaceAround(a, core, b);
    assert |a| <= i && j < |a| + |core|;
    assert core[i - |a|..i - |a| + |word|] == s[i..i + |word|];
    assert OccursAt(core, word, i - |a|);
  }

  lemma WordsInBlanks(a: string, core: string, b: string, words: seq<string>)
    requires AllSpace(a) && AllSpace(b) && TrimmedWords(words)
    ensures ContainsOne(a + core + b, words) <==> ContainsOne(core, words)
  {
    forall k | 0 <= k < |words| ensures Contains(a + core + b, words[k]) <==> Contains(core, words[k]) {
      WordInBlanks(a, core, b, words[k]);
    }
  }

  lemma {:induction false} KindInBlanks(a: string, core: string, b: string, verbs: seq<(string, seq<string>)>)
    requires AllSpace(a) && AllSpace(b) && forall k :: 0 <= k < |verbs| ==> TrimmedWords(verbs[k].1)
    ensures ActionKind(verbs, a + core + b) == ActionKind(verbs, core)
  {
    if verbs != [] {
      WordsInBlanks(a, core, b, verbs[0].1);
      KindInBlanks(a, core, b, verbs[1..]);
    }
  }

  lemma IndicatorInBlanks(a: string, core: string, b: string)
    requires AllSpace(a) && AllSpace(b)
    ensures HasIndicator(a + core + b) <==> HasIndicator(core)
  {
    var s := a + core + b;
    if HasIndicator(core) {
      var i, k, j :| 0 <= i < |core| && i < k < |core| && k < j < |core| && IndicatorAt(core, i, k, j);
      IndicatorMovesIn(a, core, b, i, k, j);
    }
    if HasIndicator(s) {
      var i, k, j :| 0 <= i < |s| && i < k < |s| && k < j < |s| && IndicatorAt(s, i, k, j);
      IndicatorMovesOut(a, core, b, i, k, j);
    }
  }

  lemma IndicatorMovesIn(a: string, core: string, b: string, i: int, k: int, j: int)
    requires IndicatorAt(core, i, k, j)
    ensures HasIndicator(a + core + b)
  {
    var s, n := a + core + b, |a|;
    assert s[n + i + 1..n + k] == core[i + 1..k] && s[n + k + 1..n + j] == core[k + 1..j];
    assert IndicatorAt(s, n + i, n + k, n + j);
  }

  lemma IndicatorMovesOut(a: string, core: string, b: string, i: int, k: int, j: int)
    requires AllSpace(a) && AllSpace(b) && IndicatorAt(a + core + b, i, k, j)
    ensures HasIndicator(core)
  {
    var s, n := a + core + b, |a|;
    SpaceAround(a, core, b);
    assert !IsSpace(s[i]) && !IsSpace(s[j]);
    assert core[i - n + 1..k - n] == s[i + 1..k] && core[k - n + 1..j - n] == s[k + 1..j];
    assert IndicatorAt(core, i - n, k - n, j - n);
  }

  /** Two texts that differ only in surrounding blanks. */
  predicate SameText(s: string, t: string) { Strip(s) == Strip(t) }

  lemma AroundStrip(s: string) returns (a: string, b: string)
    ensures AllSpace(a) && AllSpace(b) && s == a + Strip(s) + b
  {
    a, b := StripSplit(s);
  }

  lemma AppearingTrimmed()
    ensures TrimmedWords(APPEARING) && TrimmedWords(NOT_APPEARING)
  {
  }

  lemma WeaknessInBlanks(c: string, core: string, d: string)
    requires AllSpace(c) && AllSpace(d)
    ensures ContainsOne(c + core + d, APPEARING) == ContainsOne(core, APPEARING)
    ensures ContainsOne(c + core + d, NOT_APPEARING) == ContainsOne(core, NOT_APPEARING)
  {
    AppearingTrimmed();
    hide ContainsOne, TrimmedWords, APPEARING, NOT_APPEARING;
    WordsInBlanks(c, core, d, APPEARING);
    WordsInBlanks(c, core, d, NOT_APPEARING);
  }

  lemma PostconditionsOfStripped(lex: Lexicon, action: string, expected: string)
    requires TrimmedLexicon(lex)
    ensures ObjectivePostconditions(lex, action, expected) == ObjectivePostconditions(lex, Strip(action), Strip(expected))
  {
    hide Strip, ActionKind, TextConditions, HasIndicator, ContainsOne, Conditions, TrimmedWords, AllSpace;
    var a, b := AroundStrip(action);
    var c, d := AroundStrip(expected);
    KindInBlanks(a, Strip(action), b, lex.verbs);
    BlanksAroundExpected(c, Strip(expected), d);
    IndicatorInBlanks(c, Strip(expected), d);
    WordsInBlanks(c, Strip(expected), d, lex.subjective);
    WeaknessInBlanks(c, Strip(expected), d);
  }

  lemma DestinationOfStripped(m: Module, current: string, action: string, expected: string)
    ensures Destination(m, current, action, expected) == Destination(m, current, Strip(action), Strip(expected))
  {
    hide Transitions, Strip, Contains;
    var a, b := AroundStrip(action);
    var c, d := AroundStrip(expected);
    TransitionsOfStep(action, expected);
    TransitionsOfStep(Strip(action), Strip(expected));
    TransitionsTrimmed(a, Strip(action), b);
    TransitionsTrimmed(c, Strip(expected), d);
  }

  /** Both computations see each step's texts up to surrounding blanks. */
  lemma {:induction false} BuiltTexts(lex: Lexicon, m: Module, raw: seq<RawStep>)
    ensures |Build(lex, m, raw)| == |Steps(raw)| == |StrippedTexts(raw)|
    ensures forall k :: 0 <= k < |Steps(raw)| ==>
              && Steps(raw)[k].RawStep?
              && Build(lex, m, raw)[k].intent == Strip(Steps(raw)[k].action) == StrippedTexts(raw)[k].0
              && StrippedTexts(raw)[k].1 == Strip(Steps(raw)[k].expected)
  {
    hide NewContract;
    if raw != [] {
      var n := |raw| - 1;
      BuiltTexts(lex, m, raw[..n]);
      if raw[n].RawStep? {
        IntentIsAction(lex, m, StateAfter(m, StrippedTexts(raw[..n])), if raw[n].step != 0 then raw[n].step else |raw|,
                       Strip(raw[n].action), Strip(raw[n].expected));
      }
    }
  }

  lemma IntentIsAction(lex: Lexicon, m: Module, current: string, step: int, action: string, expected: string)
    ensures NewContract(lex, m, current, step, action, expected).intent == action
  {
  }

  predicate SameTexts(s: Texts, t: Texts) { SameText(s.0, t.0) && SameText(s.1, t.1) }

  lemma SameStep(lex: Lexicon, m: Module, current: string, c: Contract, s: Texts, t: Texts)
    requires TrimmedLexicon(lex) && SameTexts(s, t)
    ensures Destination(m, current, s.0, s.1) == Destination(m, current, t.0, t.1)
    ensures RepairedContract(lex, m, current, c, s) == RepairedContract(lex, m, current, c, t)
  {
    hide Destination, ObjectivePostconditions, Strip;
    DestinationOfStripped(m, current, s.0, s.1);
    DestinationOfStripped(m, current, t.0, t.1);
    PostconditionsOfStripped(lex, s.0, s.1);
    PostconditionsOfStripped(lex, t.0, t.1);
  }

  lemma {:induction false} SameStates(m: Module, s: seq<Texts>, t: seq<Texts>)
    requires |s| == |t| && forall k :: 0 <= k < |s| ==> SameTexts(s[k], t[k])
    ensures StateAfter(m, s) == StateAfter(m, t)
  {
    hide Destination, Strip;
    if s != [] {
      var n := |s| - 1;
      SameStates(m, s[..n], t[..n]);
      DestinationOfStripped(m, StateAfter(m, s[..n]), s[n].0, s[n].1);
      DestinationOfStripped(m, StateAfter(m, t[..n]), t[n].0, t[n].1);
    }
  }

  lemma {:induction false} AllTextsIndexed(steps: seq<RawStep>, contracts: seq<Contract>)
    ensures forall k :: 0 <= k < |contracts| ==> AllTexts(steps, contracts)[k] == TextsFor(steps, contracts[k], k)
  {
    if contracts != [] {
      AllTextsIndexed(steps, contracts[..|contracts| - 1]);
    }
  }

  /** Repair reads of each built contract's step what building read, up to blanks. */
  lemma RepairReadsTheSameTexts(lex: Lexicon, m: Module, raw: seq<RawStep>)
    ensures var cs := Build(lex, m, raw);
            |cs| == |StrippedTexts(raw)|
            && forall k :: 0 <= k < |cs| ==> SameTexts(TextsFor(Steps(raw), cs[k], k), StrippedTexts(raw)[k])
  {
    hide Build, Strip;
    BuiltTexts(lex, m, raw);
    var cs, steps, texts := Build(lex, m, raw), Steps(raw), StrippedTexts(raw);
    forall k | 0 <= k < |cs| ensures SameTexts(TextsFor(steps, cs[k], k), texts[k]) {
      StripTwice(steps[k].action);
      StripTwice(steps[k].expected);
    }
  }

  /** The state fields of each built contract are those of its step's stripped texts. */
  lemma {:induction false} BuiltContract(lex: Lexicon, m: Module, raw: seq<RawStep>, k: nat)
    requires k < |Build(lex, m, raw)| == |StrippedTexts(raw)|
    ensures var c, texts := Build(lex, m, raw)[k], StrippedTexts(raw);
            RepairedContract(lex, m, StateAfter(m, texts[..k]), c, texts[k]) == c
    decreases |raw|
  {
    hide StateAfter, Destination, StepPostconditions, Strip, ActionKind;
    var n := |raw| - 1;
    BuiltTexts(lex, m, raw[..n]);
    var before, cs := StrippedTexts(raw[..n]), Build(lex, m, raw[..n]);
    if k < |cs| {
      BuiltContract(lex, m, raw[..n], k);
      assert StrippedTexts(raw)[..k] == before[..k];
    } else {
      assert StrippedTexts(raw)[..k] == before;
    }
  }

  lemma {:induction false} RepairKeepsPrefix(lex: Lexicon, m: Module, raw: seq<RawStep>, k: nat)
    requires TrimmedLexicon(lex) && k <= |Build(lex, m, raw)|
    ensures Repair(lex, m, Steps(raw), Build(lex, m, raw)[..k]) == Build(lex, m, raw)[..k]
    decreases k
  {
    hide Build, StateAfter, RepairedContract, TextsFor, SameTexts, StrippedTexts, Steps, TrimmedLexicon;
    var cs, steps, texts := Build(lex, m, raw), Steps(raw), StrippedTexts(raw);
    if k > 0 {
      var n := k - 1;
      RepairKeepsPrefix(lex, m, raw, n);
      assert cs[..k][..n] == cs[..n] && cs[..k][n] == cs[n] && cs[..n] + [cs[n]] == cs[..k];
      RepairReadsTheSameTexts(lex, m, raw);
      AllTextsIndexed(steps, cs[..n]);
      SameStates(m, AllTexts(steps, cs[..n]), texts[..n]);
      SameStep(lex, m, StateAfter(m, texts[..n]), cs[n], TextsFor(steps, cs[n], n), texts[n]);
      BuiltContract(lex, m, raw, n);
    }
  }

  /** The two computations agree: repairing freshly built contracts changes nothing in them. */
  lemma RepairReproducesBuild(lex: Lexicon, m: Module, raw: seq<RawStep>)
    requires TrimmedLexicon(lex)
    ensures Repair(lex, m, Steps(raw), Build(lex, m, raw)) == Build(lex, m, raw)
  {
    var cs := Build(lex, m, raw);
    RepairKeepsPrefix(lex, m, raw, |cs|);
    assert cs[..|cs|] == cs;
  }

  // ---- the executor's decoding of a transition ----

  /** `s.rsplit("->", 1)[-1]` */
  function AfterLastArrow(s: string): (r: string)
    ensures |r| <= |s|
  {
    if |s| < 2 then s
    else if EndsWith(s, "->") then ""
    else AfterLastArrow(s[..|s| - 1]) + [s[|s| - 1]]
  }

  function DecodedDestination(c: Contract): string {
    if Contains(c.expectedTransition, "->") then Strip(AfterLastArrow(c.expectedTransition)) else c.startState
  }

  lemma ContainsSnoc(d: string)
    requires |d| >= 2
    ensures Contains(d, "->") <==> Contains(d[..|d| - 1], "->") || EndsWith(d, "->")
  {
    var n := |d| - 1;
    if EndsWith(d, "->") {
      assert OccursAt(d, "->", |d| - 2);
    }
    if Contains(d[..n], "->") {
      var i :| 0 <= i <= n && OccursAt(d[..n], "->", i);
      assert d[i..i + 2] == d[..n][i..i + 2];
      assert OccursAt(d, "->", i);
    }
    if Contains(d, "->") && !EndsWith(d, "->") {
      var i :| 0 <= i <= |d| && OccursAt(d, "->", i);
      assert i + 2 <= n;
      assert d[..n][i..i + 2] == d[i..i + 2];
      assert OccursAt(d[..n], "->", i);
    }
  }

  /** What follows the last arrow of `u + "->" + d`: all of `d` or, if `d` has an arrow itself, less. */
  lemma {:induction false} AfterArrow(u: string, d: string)
    ensures !Contains(d, "->") && (d == "" || d[0] != '>') ==> AfterLastArrow(u + "->" + d) == d
    ensures Contains(d, "->") ==> |AfterLastArrow(u + "->" + d)| <= |d| - 2
    decreases |d|
  {
    var s := u + "->" + d;
    if d == "" {
      assert EndsWith(s, "->");
    } else {
      var n := |d| - 1;
      ArrowAtEnd(u, d);
      hide Contains, EndsWith;
      assert s[..|s| - 1] == u + "->" + d[..n] && s[|s| - 1] == d[n];
      assert d == d[..n] + [d[n]] && |s| == |u| + 2 + |d|;
      AfterArrow(u, d[..n]);
    }
  }

  lemma ArrowAtEnd(u: string, d: string)
    requires d != ""
    ensures EndsWith(u + "->" + d, "->") <==> |d| >= 2 && EndsWith(d, "->")
    ensures Contains(d, "->") <==> Contains(d[..|d| - 1], "->") || (|d| >= 2 && EndsWith(d, "->"))
  {
    var s := u + "->" + d;
    if |d| >= 2 {
      ContainsSnoc(d);
      assert s[|s| - 2..] == d[|d| - 2..];
    } else {
      assert s[|s| - 2] == '>';
    }
  }

  /** The decoder recovers a destination without surrounding blanks exactly when it holds no arrow. */
  lemma DecodesIff(c: Contract, current: string, destination: string)
    requires c.expectedTransition == Arrow(current, destination) && Trimmed(destination)
    ensures DecodedDestination(c) == destination <==> !Contains(destination, "->")
  {
    var s := current + " -> " + destination;
    var u, d := current + " ", " " + destination;
    assert s == u + "->" + d;
    assert s[|u|..|u| + 2] == "->";
    assert OccursAt(s, "->", |u|);
    AfterArrow(u, d);
    ArrowBehindBlank(destination);
    if !Contains(destination, "->") {
      StripCore(" ", destination, "");
      assert " " + destination + "" == d;
    } else {
      ShorterStays(AfterLastArrow(s));
    }
  }

  lemma ShorterStays(r: string)
    ensures |Strip(r)| <= |r|
  {
  }

  lemma ArrowBehindBlank(d: string)
    ensures Contains(" " + d, "->") <==> Contains(d, "->")
  {
    WordInBlanks(" ", d, "", "->");
    assert " " + d + "" == " " + d;
  }

  /** A module whose main state has no blanks around it leads to such states only. */
  lemma {:induction false} StatesAreTrimmed(m: Module, texts: seq<Texts>)
    requires Trimmed(MainState(m))
    ensures Trimmed(StateAfter(m, texts))
  {
    if texts != [] {
      var n := |texts| - 1;
      StatesAreTrimmed(m, texts[..n]);
      var names := Transitions(texts[n].0 + "；" + texts[n].1);
      if names != [] {
        ExternalIsTrimmed(names[|names| - 1]);
      }
    }
  }

  lemma ExternalIsTrimmed(name: string)
    ensures Trimmed("external:" + Strip(name))
  {
    var a, b := StripSplit(name);
    var s, p := "external:" + Strip(name), Strip(name);
    assert s[0] == 'e';
    assert s[|s| - 1] == if p == "" then ':' else p[|p| - 1];
  }

  /** Along built contracts the executor moves from each contract's start state to that of the next,
      or to the final state, exactly where the state it moves to holds no arrow. */
  lemma ExecutorFollowsTheChain(lex: Lexicon, m: Module, raw: seq<RawStep>, k: nat)
    requires Trimmed(MainState(m)) && k < |Build(lex, m, raw)|
    ensures var cs := Build(lex, m, raw);
            var next := if k < |cs| - 1 then cs[k + 1].startState else StateAfter(m, StrippedTexts(raw));
            DecodedDestination(cs[k]) == next <==> !Contains(next, "->")
  {
    hide Build, DecodedDestination, StateAfter, StrippedTexts;
    BuiltTexts(lex, m, raw);
    BuiltContractsAreChained(lex, m, raw);
    var cs, texts := Build(lex, m, raw), StrippedTexts(raw);
    if k < |cs| - 1 {
      BuiltContract(lex, m, raw, k + 1);
      StatesAreTrimmed(m, texts[..k + 1]);
      DecodesIff(cs[k], cs[k].startState, cs[k + 1].startState);
    } else {
      StatesAreTrimmed(m, texts);
      DecodesIff(cs[k], cs[k].startState, StateAfter(m, texts));
    }
  }

  /** The contract's text postconditions are exactly the visible and absent texts of its expectation. */
  lemma TextPostconditions(lex: Lexicon, current: string, destination: string, action: string, expected: string)
    ensures TextConditions(expected) <= StepPostconditions(lex, current, destination, action, expected)
    ensures forall k :: |TextConditions(expected)| <= k < |StepPostconditions(lex, current, destination, action, expected)| ==>
              StepPostconditions(lex, current, destination, action, expected)[k]
              in ["page_indicator_changed", "page_content_changed", "expected_state_visible", "page_changed"]
  {
    hide TextConditions;
  }
}
