/** Observed pages and `PageStateMatcher.match`. */
module PageModel {
  import opened PyText

  datatype Element = Element(text: string, resourceId: string, accessibilityId: string)
  datatype Observation = Observation(
    package: string, activity: string, elements: seq<Element>, sourceHash: string, source: string)
  datatype Selector = Selector(kind: string, value: string)
  datatype PageState = PageState(
    id: string, package: string, activity: string,
    requiredAll: seq<Selector>, requiredAny: seq<Selector>, forbiddenAny: seq<Selector>)
  datatype StateMatch = StateMatch(
    matched: bool, missingAll: seq<Selector>, anyMatched: bool, forbiddenHits: seq<Selector>)

  predicate SelectsElement(sel: Selector, e: Element) {
    || (sel.kind == "text" && e.text == sel.value)
    || ((sel.kind == "text_contains" || sel.kind == "name") && Contains(e.text, sel.value))
    || (sel.kind == "id" && (e.resourceId == sel.value || EndsWith(e.resourceId, ":id/" + sel.value)))
    || (sel.kind == "accessibility_id" && e.accessibilityId == sel.value)
  }

  predicate SelectorExists(sel: Selector, o: Observation) {
    && sel.kind != "" && sel.value != ""
    && exists i :: 0 <= i < |o.elements| && SelectsElement(sel, o.elements[i])
  }

  /** `[s for s in selectors if selector_exists(s, o) == wanted]` */
  function Select(sels: seq<Selector>, o: Observation, wanted: bool): seq<Selector> {
    if sels == [] then []
    else (if SelectorExists(sels[0], o) == wanted then [sels[0]] else []) + Select(sels[1..], o, wanted)
  }

  function Match(state: PageState, o: Observation): StateMatch {
    if state.package != "" && o.package != state.package then StateMatch(false, [], true, [])
    else if state.activity != "" && o.activity != state.activity then StateMatch(false, [], true, [])
    else
      var missing := Select(state.requiredAll, o, false);
      var anyMatched := state.requiredAny == [] || Select(state.requiredAny, o, true) != [];
      var hits := Select(state.forbiddenAny, o, true);
      StateMatch(missing == [] && anyMatched && hits == [], missing, anyMatched, hits)
  }

  lemma {:induction false} SelectEmpty(sels: seq<Selector>, o: Observation, wanted: bool)
    ensures Select(sels, o, wanted) == [] <==> forall s :: s in sels ==> SelectorExists(s, o) != wanted
  {
    if sels != [] {
      SelectEmpty(sels[1..], o, wanted);
      assert forall s :: s in sels <==> s == sels[0] || s in sels[1..];
    }
  }

  /** A page matches exactly when package and activity agree where given, every required selector
      exists, one of the alternatives exists if there are any, and no forbidden selector exists. */
  lemma MatchMeaning(state: PageState, o: Observation)
    ensures Match(state, o).matched <==>
            && (state.package == "" || o.package == state.package)
            && (state.activity == "" || o.activity == state.activity)
            && (forall s :: s in state.requiredAll ==> SelectorExists(s, o))
            && (state.requiredAny == [] || exists s :: s in state.requiredAny && SelectorExists(s, o))
            && (forall s :: s in state.forbiddenAny ==> !SelectorExists(s, o))
  {
    SelectEmpty(state.requiredAll, o, false);
    SelectEmpty(state.requiredAny, o, true);
    SelectEmpty(state.forbiddenAny, o, true);
  }

  /** Forbidden selectors are looked for only where package and activity fit; those found are reported, and so
      are the required ones not found. */
  lemma HitsMeaning(state: PageState, o: Observation)
    ensures var m := Match(state, o);
            var fits := (state.package == "" || o.package == state.package) && (state.activity == "" || o.activity == state.activity);
            && (m.forbiddenHits != [] <==> fits && exists s :: s in state.forbiddenAny && SelectorExists(s, o))
            && (m.missingAll != [] <==> fits && exists s :: s in state.requiredAll && !SelectorExists(s, o))
            && (forall s :: s in m.forbiddenHits ==> s in state.forbiddenAny && SelectorExists(s, o))
            && (forall s :: s in m.missingAll ==> s in state.requiredAll && !SelectorExists(s, o))
  {
    SelectEmpty(state.requiredAll, o, false);
    SelectEmpty(state.forbiddenAny, o, true);
    SelectIsPart(state.requiredAll, o, false);
    SelectIsPart(state.forbiddenAny, o, true);
    hide Select, SelectorExists;
  }

  lemma {:induction false} SelectIsPart(sels: seq<Selector>, o: Observation, wanted: bool)
    ensures forall s :: s in Select(sels, o, wanted) ==> s in sels && SelectorExists(s, o) == wanted
  {
    hide SelectorExists;
    if sels != [] {
      SelectIsPart(sels[1..], o, wanted);
    }
  }

  /** Which elements a selector finds, by its kind. */
  lemma SelectorMeaning(value: string, o: Observation)
    requires value != ""
    ensures SelectorExists(Selector("text", value), o) <==> exists e :: e in o.elements && e.text == value
    ensures forall kind :: kind == "text_contains" || kind == "name" ==>
              (SelectorExists(Selector(kind, value), o) <==> exists e :: e in o.elements && Contains(e.text, value))
    ensures SelectorExists(Selector("id", value), o) <==>
              exists e :: e in o.elements && (e.resourceId == value || EndsWith(e.resourceId, ":id/" + value))
    ensures SelectorExists(Selector("accessibility_id", value), o) <==> exists e :: e in o.elements && e.accessibilityId == value
    ensures forall kind :: kind !in ["text", "text_contains", "name", "id", "accessibility_id"] ==>
              !SelectorExists(Selector(kind, value), o)
  {
    hide Contains, EndsWith;
    forall i | 0 <= i < |o.elements| ensures o.elements[i] in o.elements {
    }
  }
}
