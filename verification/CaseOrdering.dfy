/** Execution order: cases grouped stably by the fingerprint of their precondition, and the session
    plans that follow from the order. */
module CaseOrdering {
  import opened Grouping
  import opened PyText

  // ---- precondition specs ----

  /** The stored value: anything that is no dictionary, or the string fields, "" where missing. */
  datatype RawSpec = NotADict | Dict(login: string, user: string, entry: string, notes: string)
  datatype Spec = Spec(loginState: string, userType: string, entryContext: string, remarks: string)

  const ENTRY_CONTEXTS := {
    "module_default", "comic.member_free", "comic.member_discount", "comic.pay_per_episode", "comic.free",
    "comic.wait_free", "anime.member_free", "anime.free", "reader.horizontal", "reader.vertical"
  }

  /** `str.lower` on the letters that occur in the words compared with. */
  function Lower(s: string): string {
    if s == "" then "" else [if 'A' <= s[0] <= 'Z' then s[0] - 'A' + 'a' else s[0]] + Lower(s[1..])
  }

  function NormalizeFields(login: string, user: string, entry: string, notes: string): Spec {
    var state := if login == "logged_in" || login == "logged_out" then login else "logged_in";
    var kind := if state == "logged_out" then "guest" else if user == "member" || user == "non_member" then user else "non_member";
    Spec(state, kind, if entry in ENTRY_CONTEXTS then entry else "module_default", notes)
  }

  function Normalize(raw: RawSpec): Spec {
    match raw
    case NotADict => Spec("logged_in", "non_member", "module_default", "")
    case Dict(login, user, entry, notes) => NormalizeFields(Lower(Strip(login)), Lower(Strip(user)), Strip(entry), Strip(notes))
  }

  function Stored(s: Spec): RawSpec { Dict(s.loginState, s.userType, s.entryContext, s.remarks) }

  function InferUser(text: string): string {
    if Contains(text, "非会员") then "non_member" else if Contains(text, "会员") then "member" else "non_member"
  }

  function InferEntry(text: string, module_: string): string {
    if Contains(text, "会员免费") then "comic.member_free"
    else if Contains(text, "会员折扣") then "comic.member_discount"
    else if Contains(text, "单点付费") then "comic.pay_per_episode"
    else if Contains(text, "等免") then "comic.wait_free"
    else if Contains(text, "免费") && (Contains(text, "漫画") || Contains(module_, "阅读器")) then "comic.free"
    else if Contains(text, "左右") || Contains(text, "水平翻页") then "reader.horizontal"
    else if Contains(text, "上下") || Contains(text, "垂直翻页") then "reader.vertical"
    else if Contains(text, "航海王") || (Contains(text, "动画") && Contains(text, "会员")) then "anime.member_free"
    else if Contains(text, "开心锤锤") then "anime.free"
    else "module_default"
  }

  function Infer(preconditions: string, module_: string, title: string): Spec {
    var text := preconditions + "；" + title;
    var out := Contains(text, "未登录") || Contains(text, "游客") || Contains(text, "未登陆");
    Normalize(Dict(if out then "logged_out" else "logged_in", if out then "guest" else InferUser(text),
                   InferEntry(text, module_), "inferred"))
  }

  function Ensure(raw: RawSpec, preconditions: string, module_: string, title: string): Spec {
    if raw.Dict? && (raw.login != "" || raw.user != "" || raw.entry != "") then Normalize(raw)
    else Infer(preconditions, module_, title)
  }

  function Fingerprint(raw: RawSpec, module_: string): string {
    var s := Normalize(raw);
    s.loginState + "|" + s.userType + "|" + s.entryContext + "|" + Strip(module_)
  }

  predicate StateWord(s: string) { s == "logged_in" || s == "logged_out" }

  predicate UserWord(s: string) { s == "guest" || s == "member" || s == "non_member" }

  predicate Normal(s: Spec) {
    && StateWord(s.loginState) && UserWord(s.userType) && s.entryContext in ENTRY_CONTEXTS && Trimmed(s.remarks)
    && (s.loginState == "logged_out" <==> s.userType == "guest")
  }

  /** Small letters, underscores and dots: what the words of normal specs are made of. */
  predicate Plain(s: string) {
    s != "" && forall i :: 0 <= i < |s| ==> 'a' <= s[i] <= 'z' || s[i] == '_' || s[i] == '.'
  }

  lemma {:induction false} LowerUnchanged(s: string)
    requires s != "" ==> Plain(s)
    ensures Lower(s) == s
  {
    if s != "" {
      LowerUnchanged(s[1..]);
    }
  }

  lemma PlainWord(s: string)
    requires Plain(s)
    ensures Strip(s) == s && Lower(s) == s
  {
    StripTrimmed(s);
    LowerUnchanged(s);
  }

  lemma PlainState(s: string)
    requires StateWord(s)
    ensures Plain(s)
  {
  }

  lemma PlainUser(s: string)
    requires UserWord(s)
    ensures Plain(s)
  {
  }

  lemma PlainEntry(s: string)
    requires s in ENTRY_CONTEXTS
    ensures Plain(s)
  {
  }

  lemma NormalizeIsNormal(raw: RawSpec)
    ensures Normal(Normalize(raw))
  {
    if raw.Dict? {
      var a, b := StripSplit(raw.notes);
    }
  }

  lemma FieldsStay(s: Spec)
    requires Normal(s)
    ensures NormalizeFields(s.loginState, s.userType, s.entryContext, s.remarks) == s
  {
  }

  lemma StateStays(s: string)
    requires StateWord(s)
    ensures Lower(Strip(s)) == s
  {
    PlainState(s);
    PlainWord(s);
  }

  lemma UserStays(s: string)
    requires UserWord(s)
    ensures Lower(Strip(s)) == s
  {
    PlainUser(s);
    PlainWord(s);
  }

  lemma EntryStays(s: string)
    requires s in ENTRY_CONTEXTS
    ensures Strip(s) == s
  {
    PlainEntry(s);
    PlainWord(s);
  }

  /** Normalization changes nothing in a normal spec. */
  lemma NormalizeStored(s: Spec)
    requires Normal(s)
    ensures Normalize(Stored(s)) == s
  {
    StripTrimmed(s.remarks);
    hide Strip, Lower, NormalizeFields, ENTRY_CONTEXTS, StateWord, UserWord, Trimmed;
    StateStays(s.loginState);
    UserStays(s.userType);
    EntryStays(s.entryContext);
    FieldsStay(s);
  }

  lemma EnsureIsNormal(raw: RawSpec, preconditions: string, module_: string, title: string)
    ensures Normal(Ensure(raw, preconditions, module_, title))
  {
    hide Normal, Normalize;
    if raw.Dict? && (raw.login != "" || raw.user != "" || raw.entry != "") {
      NormalizeIsNormal(raw);
    } else {
      InferIsNormal(preconditions, module_, title);
    }
  }

  lemma InferIsNormal(preconditions: string, module_: string, title: string)
    ensures Normal(Infer(preconditions, module_, title))
  {
    hide Normal, Normalize, InferUser, InferEntry, Contains;
    var text := preconditions + "；" + title;
    var out := Contains(text, "未登录") || Contains(text, "游客") || Contains(text, "未登陆");
    NormalizeIsNormal(Dict(if out then "logged_out" else "logged_in", if out then "guest" else InferUser(text),
                           InferEntry(text, module_), "inferred"));
  }

  /** What a stored dictionary is normalized to: logged in unless it says otherwise, a guest exactly when
      logged out, a member only if it says so, an entry only if it is a known one. */
  lemma NormalizeMeaning(login: string, user: string, entry: string, notes: string)
    ensures var s := Normalize(Dict(login, user, entry, notes));
            && (s.loginState == "logged_out" <==> Lower(Strip(login)) == "logged_out")
            && (s.loginState == "logged_in" <==> Lower(Strip(login)) != "logged_out")
            && (s.userType == "guest" <==> s.loginState == "logged_out")
            && (s.userType == "member" <==> s.loginState == "logged_in" && Lower(Strip(user)) == "member")
            && (s.userType == "non_member" <==> s.loginState == "logged_in" && Lower(Strip(user)) != "member")
            && (Strip(entry) in ENTRY_CONTEXTS ==> s.entryContext == Strip(entry))
            && (Strip(entry) !in ENTRY_CONTEXTS ==> s.entryContext == "module_default")
            && s.remarks == Strip(notes)
  {
    hide Strip, Lower, ENTRY_CONTEXTS;
  }

  /** Without a stored spec the texts decide: who is logged out is a guest, and only members not called
      non-members are members. */
  lemma EnsureMeaning(raw: RawSpec, preconditions: string, module_: string, title: string)
    ensures var s, text := Ensure(raw, preconditions, module_, title), preconditions + "；" + title;
            if raw.Dict? && (raw.login != "" || raw.user != "" || raw.entry != "") then s == Normalize(raw)
            else
              && (s.loginState == "logged_out" <==>
                    Contains(text, "未登录") || Contains(text, "游客") || Contains(text, "未登陆"))
              && (s.userType == "guest" <==> s.loginState == "logged_out")
              && (s.userType == "member" <==>
                    s.loginState != "logged_out" && Contains(text, "会员") && !Contains(text, "非会员"))
              && s.entryContext == InferEntry(text, module_) && s.remarks == "inferred"
  {
    if !(raw.Dict? && (raw.login != "" || raw.user != "" || raw.entry != "")) {
      var text := preconditions + "；" + title;
      var out := Contains(text, "未登录") || Contains(text, "游客") || Contains(text, "未登陆");
      InferredWords(text, module_);
      hide Contains, InferUser, InferEntry, Lower, Strip, ENTRY_CONTEXTS;
      NormalizeMeaning(if out then "logged_out" else "logged_in", if out then "guest" else InferUser(text),
                       InferEntry(text, module_), "inferred");
    }
  }

  lemma InferredUser(text: string)
    ensures UserWord(InferUser(text))
    ensures InferUser(text) == "member" <==> Contains(text, "会员") && !Contains(text, "非会员")
  {
    hide Contains;
  }

  lemma InferredEntry(text: string, module_: string)
    ensures InferEntry(text, module_) in ENTRY_CONTEXTS
  {
    hide Contains;
  }

  lemma InferredRemark()
    ensures Strip("inferred") == "inferred"
  {
    StripTrimmed("inferred");
  }

  lemma InferredWords(text: string, module_: string)
    ensures Lower(Strip("logged_in")) == "logged_in" && Lower(Strip("logged_out")) == "logged_out"
    ensures Strip("inferred") == "inferred"
    ensures Lower(Strip("guest")) == "guest"
    ensures Lower(Strip(InferUser(text))) == InferUser(text)
    ensures InferUser(text) == "member" <==> Contains(text, "会员") && !Contains(text, "非会员")
    ensures Strip(InferEntry(text, module_)) == InferEntry(text, module_) && InferEntry(text, module_) in ENTRY_CONTEXTS
  {
    hide Contains, Strip, Lower, InferUser, InferEntry, ENTRY_CONTEXTS;
    StateStays("logged_in");
    StateStays("logged_out");
    UserStays("guest");
    InferredUser(text);
    UserStays(InferUser(text));
    InferredRemark();
    InferredEntry(text, module_);
    EntryStays(InferEntry(text, module_));
  }

  /** A spec once stored in the case is what the case keeps. */
  lemma EnsureIdempotent(raw: RawSpec, preconditions: string, module_: string, title: string)
    ensures var s := Ensure(raw, preconditions, module_, title);
            Ensure(Stored(s), preconditions, module_, title) == s && Normalize(Stored(s)) == s
  {
    hide Infer, Normalize;
    EnsureIsNormal(raw, preconditions, module_, title);
    NormalizeStored(Ensure(raw, preconditions, module_, title));
  }

  lemma FingerprintOfStripped(raw: RawSpec, module_: string)
    ensures Fingerprint(raw, Strip(module_)) == Fingerprint(raw, module_)
  {
    var a, b := StripSplit(module_);
    StripTrimmed(Strip(module_));
  }

  // ---- the cases ----

  class Case {
    const id: string
    const preconditions: string
    const title: string
    const moduleName: string
    var spec: RawSpec

    constructor (id: string, preconditions: string, title: string, moduleName: string, spec: RawSpec)
      ensures this.id == id && this.preconditions == preconditions && this.title == title
      ensures this.moduleName == moduleName && this.spec == spec
    {
      this.id, this.preconditions, this.title, this.moduleName, this.spec := id, preconditions, title, moduleName, spec;
    }

    function Ensured(): Spec
      reads this
    {
      Ensure(spec, preconditions, moduleName, title)
    }

    function Key(): string
      reads this
    {
      Fingerprint(Stored(Ensured()), moduleName)
    }

    /** Writes the ensured spec into the case and takes its fingerprint. */
    method Store(stripModule: bool) returns (key: string)
      modifies this
      ensures spec == Stored(old(Ensured())) && Ensured() == old(Ensured())
      ensures key == Key() == old(Key())
    {
      EnsureIdempotent(spec, preconditions, moduleName, title);
      var ensured := Ensured();
      spec := Stored(ensured);
      FingerprintOfStripped(spec, moduleName);
      key := Fingerprint(spec, if stripModule then Strip(moduleName) else moduleName);
    }
  }

  function Keys(cases: seq<Case>): (keys: seq<string>)
    reads cases
    ensures |keys| == |cases|
    ensures forall i :: 0 <= i < |cases| ==> keys[i] == cases[i].Key()
  {
    seq(|cases|, i requires 0 <= i < |cases| reads cases => cases[i].Key())
  }

  /** The loop the two grouping functions share; they differ in stripping the module first or not. */
  method FillGroups(cases: seq<Case>, stripModule: bool) returns (groups: map<string, seq<Case>>, order: seq<string>)
    modifies cases
    ensures forall i :: 0 <= i < |cases| ==> cases[i].spec == Stored(old(cases[i].Ensured()))
    ensures Keys(cases) == old(Keys(cases)) && Indexed(groups, order, cases, Keys(cases))
  {
    hide Case.Ensured, Case.Key, Indexed;
    ghost var keys := Keys(cases);
    groups, order := map[], [];
    NoGroups(groups, order, cases[..0], keys[..0]);
    for i := 0 to |cases|
      invariant forall k :: 0 <= k < |cases| ==> cases[k].Key() == keys[k] && cases[k].Ensured() == old(cases[k].Ensured())
      invariant forall k :: 0 <= k < i ==> cases[k].spec == Stored(old(cases[k].Ensured()))
      invariant Indexed(groups, order, cases[..i], keys[..i])
    {
      assert cases[..i + 1] == cases[..i] + [cases[i]] && keys[..i + 1] == keys[..i] + [keys[i]];
      var key := cases[i].Store(stripModule);
      groups, order := AddToGroup(groups, order, cases[i], key, cases[..i], keys[..i]);
    }
    assert cases[..|cases|] == cases && keys[..|cases|] == keys;
    assert Keys(cases) == keys;
  }

  /** `_sort_cases_for_execution` of the runner. */
  method SortCasesForExecution(cases: seq<Case>) returns (sorted: seq<Case>)
    modifies cases
    ensures forall i :: 0 <= i < |cases| ==> cases[i].spec == Stored(old(cases[i].Ensured()))
    ensures Keys(cases) == old(Keys(cases))
    ensures sorted == Grouped(cases, Keys(cases))
  {
    var groups, order := FillGroups(cases, true);
    sorted := Flatten(groups, order, cases, Keys(cases));
  }

  /** `_group_cases_by_module` of the service. */
  method GroupCasesByModule(cases: seq<Case>) returns (sorted: seq<Case>)
    modifies cases
    ensures forall i :: 0 <= i < |cases| ==> cases[i].spec == Stored(old(cases[i].Ensured()))
    ensures Keys(cases) == old(Keys(cases))
    ensures sorted == Grouped(cases, Keys(cases))
  {
    var groups, order := FillGroups(cases, false);
    sorted := Flatten(groups, order, cases, Keys(cases));
  }

  lemma {:induction false} KeysOfPick(cases: seq<Case>, k: string)
    ensures Keys(Pick(cases, Keys(cases), k)) == Pick(Keys(cases), Keys(cases), k)
  {
    if cases != [] {
      var n := |cases| - 1;
      KeysOfPick(cases[..n], k);
      assert Keys(cases)[..n] == Keys(cases[..n]);
    }
  }

  lemma {:induction false} KeysOfConcat(order: seq<string>, cases: seq<Case>)
    ensures Keys(Concat(order, cases, Keys(cases))) == Concat(order, Keys(cases), Keys(cases))
  {
    if order != [] {
      var n := |order| - 1;
      KeysOfConcat(order[..n], cases);
      KeysOfPick(cases, order[n]);
    }
  }

  /** The runner keeps the order the service has given the cases. */
  lemma RunnerKeepsServiceOrder(cases: seq<Case>)
    ensures var sorted := Grouped(cases, Keys(cases));
            Keys(sorted) == Grouped(Keys(cases), Keys(cases)) && Grouped(sorted, Keys(sorted)) == sorted
  {
    KeysOfConcat(Distinct(Keys(cases)), cases);
    GroupedIdempotent(cases, Keys(cases));
  }

  // ---- session plans ----

  datatype SessionPlan = SessionPlan(
    moduleName: string, previousModule: string, runSetup: bool, reuseSession: bool, moduleChanged: bool)

  function PlanFor(current: string, moduleName: string): SessionPlan {
    var normalized := Strip(moduleName);
    var same := normalized != "" && normalized == current;
    SessionPlan(normalized, current, !same, same, current != "" && normalized != current)
  }

  /** The coordinator's current module after planning for `modules` in turn. */
  function CurrentAfter(current: string, modules: seq<string>): string {
    if modules == [] then current else Strip(modules[|modules| - 1])
  }

  /** How many of these plans ask for a setup. */
  function Setups(current: string, modules: seq<string>): nat {
    if modules == [] then 0
    else
      var n := |modules| - 1;
      Setups(current, modules[..n]) + if PlanFor(CurrentAfter(current, modules[..n]), modules[n]).runSetup then 1 else 0
  }

  /** `planned` are the modules planned for so far and `setups` how many of the plans set up. */
  class ModuleSessionCoordinator {
    var currentModule: string
    ghost var planned: seq<string>
    ghost var setups: nat

    ghost predicate Valid() reads this {
      currentModule == CurrentAfter("", planned) && setups == Setups("", planned)
    }

    constructor ()
      ensures Valid() && planned == []
    {
      currentModule, planned, setups := "", [], 0;
    }

    /** The session is reused exactly when the module, blanks aside, is that of the call before. */
    method Plan(moduleName: string) returns (plan: SessionPlan)
      requires Valid()
      modifies this
      ensures Valid() && planned == old(planned) + [moduleName]
      ensures setups == old(setups) + if plan.runSetup then 1 else 0
      ensures plan.moduleName == Strip(moduleName)
      ensures plan.previousModule == if old(planned) == [] then "" else Strip(old(planned)[|old(planned)| - 1])
      ensures plan.reuseSession <==> old(planned) != [] && Strip(moduleName) != ""
                                     && Strip(moduleName) == Strip(old(planned)[|old(planned)| - 1])
      ensures plan.runSetup == !plan.reuseSession
      ensures plan.moduleChanged <==> plan.previousModule != "" && plan.previousModule != plan.moduleName
    {
      hide Strip;
      var normalized := Strip(moduleName);
      var previous := currentModule;
      var same := normalized != "" && normalized == previous;
      var changed := previous != "" && normalized != previous;
      plan := SessionPlan(normalized, previous, !same, same, changed);
      currentModule := normalized;
      planned, setups := planned + [moduleName], setups + if same then 0 else 1;
      assert planned[..|planned| - 1] == old(planned);
    }
  }

  lemma {:induction false} SetupsPerRun(current: string, modules: seq<string>, keys: seq<string>)
    requires |modules| == |keys|
    requires forall i :: 0 <= i < |modules| ==> Strip(modules[i]) != ""
    requires forall i, j :: 0 <= i < j < |keys| && keys[i] == keys[j] ==> Strip(modules[i]) == Strip(modules[j])
    ensures Setups(current, modules) <= if keys == [] then 0 else Switches(keys) + 1
  {
    hide Strip;
    if |keys| == 1 {
      assert modules[..0] == [];
    } else if |keys| > 1 {
      var n := |keys| - 1;
      SetupsPerRun(current, modules[..n], keys[..n]);
      assert CurrentAfter(current, modules[..n]) == Strip(modules[n - 1]);
    }
  }

  lemma FingerprintTellsModule(raw: RawSpec, moduleName: string, raw': RawSpec, moduleName': string)
    requires Fingerprint(raw, moduleName) == Fingerprint(raw', moduleName')
    ensures Strip(moduleName) == Strip(moduleName')
  {
    hide Fingerprint, Strip;
    ThirdBar(raw, moduleName);
    ThirdBar(raw', moduleName');
  }

  lemma NoBars(raw: RawSpec)
    ensures var s := Normalize(raw); '|' !in s.loginState && '|' !in s.userType && '|' !in s.entryContext
  {
    NormalizeIsNormal(raw);
    var s := Normalize(raw);
    hide Normalize, StateWord, UserWord, ENTRY_CONTEXTS;
    PlainState(s.loginState);
    PlainUser(s.userType);
    PlainEntry(s.entryContext);
  }

  lemma ThirdBar(raw: RawSpec, moduleName: string)
    ensures var f := Fingerprint(raw, moduleName);
            '|' in f && '|' in After(f, '|') && '|' in After(After(f, '|'), '|')
            && After(After(After(f, '|'), '|'), '|') == Strip(moduleName)
  {
    NoBars(raw);
    hide Normalize, Strip;
    var s := Normalize(raw);
    var c := s.entryContext + "|" + Strip(moduleName);
    var b := s.userType + "|" + c;
    var a := s.loginState + "|" + b;
    assert Fingerprint(raw, moduleName) == a;
    assert a[|s.loginState|] == '|' && b[|s.userType|] == '|' && c[|s.entryContext|] == '|';
    SkipTo(s.loginState, '|', b);
    SkipTo(s.userType, '|', c);
    SkipTo(s.entryContext, '|', Strip(moduleName));
  }

  lemma FirstField(word: string, rest: string, word': string, rest': string)
    requires '|' !in word && '|' !in word' && word + "|" + rest == word' + "|" + rest'
    ensures word == word' && rest == rest'
  {
    assert (word + "|" + rest)[|word|] == '|' && (word' + "|" + rest')[|word'|] == '|';
    SkipTo(word, '|', rest);
    SkipTo(word', '|', rest');
    assert word == (word + "|" + rest)[..|word|] && word' == (word' + "|" + rest')[..|word'|];
  }

  /** Two cases share a fingerprint exactly if they need the same login, the same kind of user, the same
      entry and, blanks aside, the same module. */
  lemma FingerprintIff(raw: RawSpec, moduleName: string, raw': RawSpec, moduleName': string)
    ensures var s, t := Normalize(raw), Normalize(raw');
            Fingerprint(raw, moduleName) == Fingerprint(raw', moduleName') <==>
              && s.loginState == t.loginState && s.userType == t.userType && s.entryContext == t.entryContext
              && Strip(moduleName) == Strip(moduleName')
  {
    NoBars(raw);
    NoBars(raw');
    hide Normalize, Strip;
    var s, t := Normalize(raw), Normalize(raw');
    var c, c' := s.entryContext + "|" + Strip(moduleName), t.entryContext + "|" + Strip(moduleName');
    var b, b' := s.userType + "|" + c, t.userType + "|" + c';
    assert Fingerprint(raw, moduleName) == s.loginState + "|" + b;
    assert Fingerprint(raw', moduleName') == t.loginState + "|" + b';
    if Fingerprint(raw, moduleName) == Fingerprint(raw', moduleName') {
      FirstField(s.loginState, b, t.loginState, b');
      FirstField(s.userType, c, t.userType, c');
      FirstField(s.entryContext, Strip(moduleName), t.entryContext, Strip(moduleName'));
    }
  }

  function Modules(cases: seq<Case>): seq<string> {
    seq(|cases|, i requires 0 <= i < |cases| => cases[i].moduleName)
  }

  /** In the execution order the coordinator asks for at most one setup per distinct fingerprint,
      whatever its module before, if no case's module is blank. */
  lemma OneSetupPerFingerprint(cases: seq<Case>, current: string)
    requires forall i :: 0 <= i < |cases| ==> Strip(cases[i].moduleName) != ""
    ensures Setups(current, Modules(Grouped(cases, Keys(cases)))) <= |Distinct(Keys(cases))|
  {
    hide Grouped, Distinct, Switches, Setups, Fingerprint, Strip;
    var sorted := Grouped(cases, Keys(cases));
    var keys, modules := Keys(sorted), Modules(sorted);
    RunnerKeepsServiceOrder(cases);
    GroupedRuns(Keys(cases));
    GroupedPermutes(cases, Keys(cases));
    forall i | 0 <= i < |sorted| ensures Strip(modules[i]) != "" {
      assert sorted[i] in multiset(sorted);
      assert sorted[i] in cases;
    }
    forall i, j | 0 <= i < j < |keys| && keys[i] == keys[j] ensures Strip(modules[i]) == Strip(modules[j]) {
      FingerprintTellsModule(Stored(sorted[i].Ensured()), modules[i], Stored(sorted[j].Ensured()), modules[j]);
    }
    SetupsPerRun(current, modules, keys);
  }
}
