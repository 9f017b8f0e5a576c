/** `navigate_to_module`: explore until the target page matches, save the effective actions, and
    replay them the next time. */
module Navigation {
  import opened PyText
  import opened PageModel

  /** A tool call; `args` is the canonical JSON text of its arguments. */
  datatype Action = Action(tool: string, args: string)

  /** What the decision function answers for one call. */
  datatype Decision = DecideFails | BadArguments(tool: string) | Decide(action: Action)

  datatype Key = Key(appId: string, appVersion: string, moduleName: string, package: string, activity: string)

  type Cache = map<Key, seq<Action>>

  /** A deterministic app of pages `P`: a call fails or leads to a page, a page has an observation. */
  datatype App<!P(!new)> = App(perform: (P, Action) -> Option<P>, observe: P -> Observation)

  /** Everything that stays fixed during one navigation.  `catalog` maps a tool to "read only". */
  datatype Env<!P(!new)> = Env(
    app: App<P>, catalog: map<string, bool>, riskWords: seq<string>, state: PageState,
    appId: string, appVersion: string, moduleName: string, maxCalls: nat)

  datatype Outcome = Arrived(calls: nat, lastTool: string) | Failed

  predicate ReadOnly<P(!new)>(env: Env<P>, tool: string)
    requires tool in env.catalog
  {
    env.catalog[tool]
  }

  predicate NamesRisk(riskWords: seq<string>, args: string) {
    exists i :: 0 <= i < |riskWords| && Contains(args, riskWords[i])
  }

  predicate HighRisk<P(!new)>(env: Env<P>, args: string) { NamesRisk(env.riskWords, args) }

  /** One gateway call.  Failing calls and read-only tools leave the page alone. */
  function Perform<P(!new)>(env: Env<P>, page: P, a: Action): Option<P>
    requires a.tool in env.catalog
  {
    match env.app.perform(page, a)
    case None => None
    case Some(next) => Some(if ReadOnly(env, a.tool) then page else next)
  }

  function MatchPage<P(!new)>(env: Env<P>, page: P): StateMatch {
    Match(env.state, env.app.observe(page))
  }

  function KeyOf<P(!new)>(env: Env<P>, page: P): Key {
    var o := env.app.observe(page);
    Key(env.appId, env.appVersion, env.moduleName, o.package, o.activity)
  }

  // ---- the path cache ----

  /** `load`: entries without a tool name are dropped. */
  function Usable(actions: seq<Action>): seq<Action> {
    if actions == [] then []
    else (if actions[0].tool == "" then [] else [actions[0]]) + Usable(actions[1..])
  }

  function Load(cache: Cache, key: Key): seq<Action> {
    if key in cache then Usable(cache[key]) else []
  }

  /** `save`: an empty path is not stored. */
  function Save(cache: Cache, key: Key, actions: seq<Action>): Cache {
    if actions == [] then cache else cache[key := actions]
  }

  class NavigationPathCache {
    var entries: Cache

    constructor ()
      ensures entries == map[]
    {
      entries := map[];
    }

    method LoadPath(key: Key) returns (actions: seq<Action>)
      ensures actions == Load(entries, key)
    {
      actions := [];
      if key in entries {
        var stored := entries[key];
        for i := 0 to |stored|
          invariant actions == Usable(stored[..i])
        {
          UsableSnoc(stored, i);
          if stored[i].tool != "" {
            actions := actions + [stored[i]];
          }
        }
        assert stored[..|stored|] == stored;
      }
    }

    method SavePath(key: Key, actions: seq<Action>)
      modifies this
      ensures entries == Save(old(entries), key, actions)
    {
      if actions == [] {
        return;
      }
      entries := entries[key := actions];
    }

    method Invalidate(key: Key)
      modifies this
      ensures entries == old(entries) - {key}
    {
      entries := entries - {key};
    }
  }

  lemma {:induction false} UsableConcat(a: seq<Action>, b: seq<Action>)
    ensures Usable(a + b) == Usable(a) + Usable(b)
  {
    if a == [] {
      assert a + b == b;
    } else {
      assert (a + b)[1..] == a[1..] + b;
      UsableConcat(a[1..], b);
    }
  }

  lemma UsableSnoc(s: seq<Action>, i: nat)
    requires i < |s|
    ensures Usable(s[..i + 1]) == Usable(s[..i]) + (if s[i].tool == "" then [] else [s[i]])
  {
    assert s[..i + 1] == s[..i] + [s[i]];
    assert [s[i]][1..] == [];
    UsableConcat(s[..i], [s[i]]);
  }

  lemma {:induction false} UsableAll(s: seq<Action>)
    requires forall i :: 0 <= i < |s| ==> s[i].tool != ""
    ensures Usable(s) == s
  {
    if s != [] {
      UsableAll(s[1..]);
      assert s == [s[0]] + s[1..];
    }
  }

  // ---- replay ----

  /** The guards that make replay give up before calling. */
  predicate PassesGuards(catalog: map<string, bool>, riskWords: seq<string>, a: Action) {
    a.tool in catalog && !catalog[a.tool] && !NamesRisk(riskWords, a.args)
  }

  predicate Replayable<P(!new)>(env: Env<P>, a: Action) { PassesGuards(env.catalog, env.riskWords, a) }

  /** The page reached, and success if the target matched on the way. */
  function Replay<P(!new)>(env: Env<P>, page: P, actions: seq<Action>, done: nat): (P, Option<Outcome>)
    decreases actions
  {
    if actions == [] || !Replayable(env, actions[0]) then (page, None)
    else
      match Perform(env, page, actions[0])
      case None => (page, None)
      case Some(next) =>
        var m := MatchPage(env, next);
        if m.forbiddenHits != [] then (next, None)
        else if m.matched then (next, Some(Arrived(done + 1, actions[0].tool)))
        else Replay(env, next, actions[1..], done + 1)
  }

  // ---- exploration ----

  datatype Explored<!P> = Explored(page: P, outcome: Outcome, safe: seq<Action>)

  type Signature = (string, string, string)

  /** From call number `index` on; `decide` answers by call number. */
  function Explore<P(!new)>(env: Env<P>, decide: nat -> Decision, page: P, seen: set<Signature>,
                            safe: seq<Action>, index: nat): Explored<P>
    decreases env.maxCalls + 1 - index
  {
    if index > env.maxCalls then Explored(page, Failed, safe)
    else
      match decide(index)
      case DecideFails => Explored(page, Failed, safe)
      case BadArguments(_) => Explored(page, Failed, safe)
      case Decide(a) =>
        var signature := (env.app.observe(page).sourceHash, a.tool, a.args);
        if a.tool !in env.catalog || signature in seen || (HighRisk(env, a.args) && !ReadOnly(env, a.tool)) then
          Explored(page, Failed, safe)
        else
          match Perform(env, page, a)
          case None => Explore(env, decide, page, seen + {signature}, safe, index + 1)
          case Some(next) =>
            var safe' := if ReadOnly(env, a.tool) then safe else safe + [a];
            var m := MatchPage(env, next);
            if m.forbiddenHits != [] then Explored(next, Failed, safe')
            else if m.matched then Explored(next, Arrived(index, a.tool), safe')
            else Explore(env, decide, next, seen + {signature}, safe', index + 1)
  }

  // ---- the whole navigation ----

  datatype Navigated<!P> = Navigated(page: P, cache: Cache, outcome: Outcome)

  function ExploreAndSave<P(!new)>(env: Env<P>, decide: nat -> Decision, key: Key, page: P, cache: Cache): Navigated<P> {
    var e := Explore(env, decide, page, {}, [], 1);
    Navigated(e.page, if e.outcome.Arrived? then Save(cache, key, e.safe) else cache, e.outcome)
  }

  function Navigate<P(!new)>(env: Env<P>, decide: nat -> Decision, page: P, cache: Cache): Navigated<P> {
    var key := KeyOf(env, page);
    var path := Load(cache, key);
    if MatchPage(env, page).matched then Navigated(page, cache, Arrived(0, ""))
    else if path == [] then ExploreAndSave(env, decide, key, page, cache)
    else
      var (reached, result) := Replay(env, page, path, 0);
      match result
      case Some(outcome) => Navigated(reached, cache, outcome)
      case None => ExploreAndSave(env, decide, key, reached, cache - {key})
  }

  class Runner<P(!new)> {
    const env: Env<P>
    const cache: NavigationPathCache
    var page: P

    constructor (env: Env<P>, cache: NavigationPathCache, page: P)
      ensures this.env == env && this.cache == cache && this.page == page
    {
      this.env := env;
      this.cache := cache;
      this.page := page;
    }

    /** The gateway call on the device. */
    method Call(a: Action) returns (ok: bool)
      requires a.tool in env.catalog
      modifies `page
      ensures match Perform(env, old(page), a)
              case None => !ok && page == old(page)
              case Some(next) => ok && page == next
    {
      match env.app.perform(page, a)
      case None => ok := false;
      case Some(next) =>
        ok := true;
        if !env.catalog[a.tool] {
          page := next;
        }
    }

    method ReplayNavigationPath(actions: seq<Action>) returns (r: Option<Outcome>)
      modifies `page
      ensures (page, r) == Replay(env, old(page), actions, 0)
    {
      var index := 0;
      while index < |actions|
        invariant 0 <= index <= |actions|
        invariant Replay(env, page, actions[index..], index) == Replay(env, old(page), actions, 0)
      {
        var a := actions[index];
        assert actions[index..][0] == a && actions[index..][1..] == actions[index + 1..];
        if a.tool !in env.catalog || env.catalog[a.tool] || HighRisk(env, a.args) {
          return None;
        }
        var ok := Call(a);
        if !ok {
          return None;
        }
        index := index + 1;
        var m := Match(env.state, env.app.observe(page));
        if m.forbiddenHits != [] {
          return None;
        }
        if m.matched {
          return Some(Arrived(index, a.tool));
        }
      }
      return None;
    }

    method ExploreModule(decide: nat -> Decision) returns (outcome: Outcome, safe: seq<Action>)
      modifies `page
      ensures Explored(page, outcome, safe) == Explore(env, decide, old(page), {}, [], 1)
    {
      safe := [];
      var seen: set<Signature> := {};
      var observation := env.app.observe(page);
      var index := 1;
      while index <= env.maxCalls
        invariant 1 <= index <= env.maxCalls + 1
        invariant observation == env.app.observe(page)
        invariant Explore(env, decide, page, seen, safe, index) == Explore(env, decide, old(page), {}, [], 1)
      {
        var decision := decide(index);
        if !decision.Decide? {
          return Failed, safe;
        }
        var a := decision.action;
        if a.tool !in env.catalog {
          return Failed, safe;
        }
        var signature := (observation.sourceHash, a.tool, a.args);
        if signature in seen {
          return Failed, safe;
        }
        if HighRisk(env, a.args) && !env.catalog[a.tool] {
          return Failed, safe;
        }
        seen := seen + {signature};
        var ok := Call(a);
        if ok {
          if !env.catalog[a.tool] {
            safe := safe + [a];
          }
          observation := env.app.observe(page);
          var m := Match(env.state, observation);
          if m.forbiddenHits != [] {
            return Failed, safe;
          }
          if m.matched {
            return Arrived(index, a.tool), safe;
          }
        }
        index := index + 1;
      }
      return Failed, safe;
    }

    method NavigateToModule(decide: nat -> Decision) returns (outcome: Outcome)
      modifies `page, cache
      ensures Navigated(page, cache.entries, outcome) == Navigate(env, decide, old(page), old(cache.entries))
    {
      var observation := env.app.observe(page);
      if Match(env.state, observation).matched {
        return Arrived(0, "");
      }
      var key := Key(env.appId, env.appVersion, env.moduleName, observation.package, observation.activity);
      var cached := cache.LoadPath(key);
      if cached != [] {
        var result := ReplayNavigationPath(cached);
        if result.Some? {
          return result.value;
        }
        cache.Invalidate(key);
      }
      var safe: seq<Action>;
      outcome, safe := ExploreModule(decide);
      if outcome.Arrived? {
        cache.SavePath(key, safe);
      }
    }
  }

  // ---- a saved path replays ----

  /** Replaying `s` from `start` passes every guard and reaches a page, never seeing the target. */
  function QuietRun<P(!new)>(env: Env<P>, start: P, s: seq<Action>): Option<P> {
    if s == [] then Some(start)
    else
      var a := s[|s| - 1];
      match QuietRun(env, start, s[..|s| - 1])
      case None => None
      case Some(page) =>
        if !Replayable(env, a) then None
        else
          match Perform(env, page, a)
          case None => None
          case Some(next) =>
            var m := MatchPage(env, next);
            if m.matched || m.forbiddenHits != [] then None else Some(next)
  }

  lemma {:induction false} ReplayPassesQuietRun<P(!new)>(env: Env<P>, start: P, s: seq<Action>, t: seq<Action>, done: nat)
    requires QuietRun(env, start, s).Some?
    ensures Replay(env, start, s + t, done) == Replay(env, QuietRun(env, start, s).value, t, done + |s|)
    decreases s
  {
    hide NamesRisk, MatchPage, Perform;
    if s == [] {
      assert s + t == t;
    } else {
      var init, a := s[..|s| - 1], s[|s| - 1];
      assert s + t == init + ([a] + t);
      ReplayPassesQuietRun(env, start, init, [a] + t, done);
      assert ([a] + t)[1..] == t;
    }
  }

  lemma QuietSnoc<P(!new)>(env: Env<P>, start: P, s: seq<Action>, page: P, a: Action, next: P)
    requires QuietRun(env, start, s) == Some(page) && Replayable(env, a) && Perform(env, page, a) == Some(next)
    requires !MatchPage(env, next).matched && MatchPage(env, next).forbiddenHits == []
    ensures QuietRun(env, start, s + [a]) == Some(next)
  {
    assert (s + [a])[..|s|] == s;
  }

  lemma {:induction false} ExploredPathReplays<P(!new)>(env: Env<P>, decide: nat -> Decision, start: P, page: P,
                                                        seen: set<Signature>, safe: seq<Action>, index: nat)
    requires QuietRun(env, start, safe) == Some(page) && |safe| < index
    requires !MatchPage(env, page).matched
    ensures var e := Explore(env, decide, page, seen, safe, index);
            e.outcome.Arrived? ==>
              && 0 < |e.safe| <= e.outcome.calls
              && Replay(env, start, e.safe, 0) == (e.page, Some(Arrived(|e.safe|, e.outcome.lastTool)))
              && (forall i :: 0 <= i < |e.safe| ==> e.safe[i].tool in env.catalog || e.safe[i] in safe)
    decreases env.maxCalls + 1 - index
  {
    hide Replay, QuietRun, MatchPage, NamesRisk;
    if index <= env.maxCalls && decide(index).Decide? {
      var a := decide(index).action;
      var signature := (env.app.observe(page).sourceHash, a.tool, a.args);
      if !(a.tool !in env.catalog || signature in seen || (HighRisk(env, a.args) && !ReadOnly(env, a.tool))) {
        match Perform(env, page, a)
        case None =>
          ExploredPathReplays(env, decide, start, page, seen + {signature}, safe, index + 1);
        case Some(next) =>
          var m := MatchPage(env, next);
          if ReadOnly(env, a.tool) {
            assert next == page;
            ExploredPathReplays(env, decide, start, page, seen + {signature}, safe, index + 1);
          } else if m.forbiddenHits == [] {
            if m.matched {
              LastStepReplays(env, start, safe, page, a, next);
            } else {
              QuietSnoc(env, start, safe, page, a, next);
              ExploredPathReplays(env, decide, start, next, seen + {signature}, safe + [a], index + 1);
            }
          }
      }
    }
  }

  lemma LastStepReplays<P(!new)>(env: Env<P>, start: P, safe: seq<Action>, page: P, a: Action, next: P)
    requires QuietRun(env, start, safe) == Some(page) && Replayable(env, a) && Perform(env, page, a) == Some(next)
    requires MatchPage(env, next).matched && MatchPage(env, next).forbiddenHits == []
    ensures Replay(env, start, safe + [a], 0) == (next, Some(Arrived(|safe| + 1, a.tool)))
  {
    ReplayPassesQuietRun(env, start, safe, [a], 0);
  }

  /** A path saved by a navigation that found none is replayed from the same start page to the same
      matching page, in no more calls than finding it took, and the cache stays as it is. */
  lemma SavedPathReplays<P(!new)>(env: Env<P>, decide: nat -> Decision, later: nat -> Decision, start: P, cache: Cache)
    requires "" !in env.catalog && Load(cache, KeyOf(env, start)) == []
    requires var first := Navigate(env, decide, start, cache); first.outcome.Arrived? && first.outcome.calls > 0
    ensures var first := Navigate(env, decide, start, cache);
            var second := Navigate(env, later, start, first.cache);
            && second.outcome.Arrived?
            && 0 < second.outcome.calls <= first.outcome.calls
            && second.outcome.lastTool == first.outcome.lastTool
            && second.page == first.page && MatchPage(env, second.page).matched
            && second.cache == first.cache
  {
    hide Replay, Explore, MatchPage;
    var e := Explore(env, decide, start, {}, [], 1);
    StartIsQuiet(env, start);
    ExploredPathReplays(env, decide, start, start, {}, [], 1);
    ExploredReachesTarget(env, decide, start, {}, [], 1);
    UsableAll(e.safe);
  }

  lemma StartIsQuiet<P(!new)>(env: Env<P>, start: P)
    ensures QuietRun(env, start, []) == Some(start)
  {
  }

  lemma {:induction false} ExploredReachesTarget<P(!new)>(env: Env<P>, decide: nat -> Decision, page: P,
                                                          seen: set<Signature>, safe: seq<Action>, index: nat)
    ensures var e := Explore(env, decide, page, seen, safe, index);
            e.outcome.Arrived? ==> MatchPage(env, e.page).matched && index <= e.outcome.calls <= env.maxCalls
    decreases env.maxCalls + 1 - index
  {
    hide MatchPage, HighRisk;
    if index <= env.maxCalls && decide(index).Decide? && decide(index).action.tool in env.catalog {
      var a := decide(index).action;
      var signature := (env.app.observe(page).sourceHash, a.tool, a.args);
      match Perform(env, page, a)
      case None => ExploredReachesTarget(env, decide, page, seen + {signature}, safe, index + 1);
      case Some(next) =>
        var safe' := if ReadOnly(env, a.tool) then safe else safe + [a];
        ExploredReachesTarget(env, decide, next, seen + {signature}, safe', index + 1);
    }
  }

  /** Where the exploration of a navigation begins: after a failed replay this is not the start. */
  function ExplorationStart<P(!new)>(env: Env<P>, start: P, cache: Cache): P {
    Replay(env, start, Load(cache, KeyOf(env, start)), 0).0
  }

  /** A replay that fails does not stop on the target page. */
  lemma {:induction false} FailedReplayMisses<P(!new)>(env: Env<P>, page: P, actions: seq<Action>, done: nat)
    requires !MatchPage(env, page).matched && Replay(env, page, actions, done).1 == None
    ensures !MatchPage(env, Replay(env, page, actions, done).0).matched
    decreases actions
  {
    if actions != [] && Replayable(env, actions[0]) && Perform(env, page, actions[0]).Some? {
      var next := Perform(env, page, actions[0]).value;
      if MatchPage(env, next).forbiddenHits == [] {
        FailedReplayMisses(env, next, actions[1..], done + 1);
      }
    }
  }

  /** The navigation replays nothing, or in vain, explores and arrives. */
  predicate ArrivesByExploring<P(!new)>(env: Env<P>, decide: nat -> Decision, start: P, cache: Cache) {
    && !MatchPage(env, start).matched
    && Replay(env, start, Load(cache, KeyOf(env, start)), 0).1 == None
    && Navigate(env, decide, start, cache).outcome.Arrived?
  }

  /** In every case the saved path replays from the page on which exploration began. */
  lemma SavedPathReplaysFromExplorationStart<P(!new)>(env: Env<P>, decide: nat -> Decision, start: P, cache: Cache)
    requires ArrivesByExploring(env, decide, start, cache)
    ensures var first := Navigate(env, decide, start, cache);
            && KeyOf(env, start) in first.cache
            && var saved := first.cache[KeyOf(env, start)];
            && 0 < |saved| <= first.outcome.calls
            && ("" !in env.catalog ==> Usable(saved) == saved)
            && Replay(env, ExplorationStart(env, start, cache), saved, 0)
               == (first.page, Some(Arrived(|saved|, first.outcome.lastTool)))
  {
    hide Replay, Explore, MatchPage;
    var from := ExplorationStart(env, start, cache);
    ReplayNothing(env, start);
    StartIsQuiet(env, from);
    FailedReplayMisses(env, start, Load(cache, KeyOf(env, start)), 0);
    ExploredPathReplays(env, decide, from, from, {}, [], 1);
    if "" !in env.catalog {
      UsableAll(Explore(env, decide, from, {}, [], 1).safe);
    }
  }

  lemma ReplayNothing<P(!new)>(env: Env<P>, page: P)
    ensures Replay(env, page, [], 0) == (page, None)
  {
  }

  // ---- what is never called ----

  /** A stored action that is unknown, read-only or names a risk ends the replay where it stands. */
  lemma ReplayStopsAtGuard<P(!new)>(env: Env<P>, start: P, s: seq<Action>, bad: Action, t: seq<Action>, page: P)
    requires QuietRun(env, start, s) == Some(page)
    requires bad.tool !in env.catalog || env.catalog[bad.tool]
             || exists i :: 0 <= i < |env.riskWords| && Contains(bad.args, env.riskWords[i])
    ensures Replay(env, start, s + ([bad] + t), 0) == (page, None)
  {
    ReplayPassesQuietRun(env, start, s, [bad] + t, 0);
    hide QuietRun, MatchPage;
    assert !Replayable(env, bad);
  }

  /** An unknown tool, a writing call that names a risk and a call made before on such a page end the
      exploration before they are made. */
  lemma ExploreRefuses<P(!new)>(env: Env<P>, decide: nat -> Decision, page: P, seen: set<Signature>, safe: seq<Action>, index: nat)
    requires decide(index).Decide?
    requires var a := decide(index).action;
             || a.tool !in env.catalog
             || (!env.catalog[a.tool] && exists i :: 0 <= i < |env.riskWords| && Contains(a.args, env.riskWords[i]))
             || (env.app.observe(page).sourceHash, a.tool, a.args) in seen
    ensures Explore(env, decide, page, seen, safe, index) == Explored(page, Failed, safe)
  {
  }

  /** A forbidden page ends it as well, right after the call that led there. */
  lemma ExploreStopsAtForbidden<P(!new)>(env: Env<P>, decide: nat -> Decision, page: P, seen: set<Signature>, safe: seq<Action>,
                                         index: nat, a: Action, next: P)
    requires index <= env.maxCalls && decide(index) == Decide(a) && a.tool in env.catalog
    requires !HighRisk(env, a.args) && (env.app.observe(page).sourceHash, a.tool, a.args) !in seen
    requires Perform(env, page, a) == Some(next) && MatchPage(env, next).forbiddenHits != []
    ensures Explore(env, decide, page, seen, safe, index)
         == Explored(next, Failed, if env.catalog[a.tool] then safe else safe + [a])
  {
    hide Perform, MatchPage, HighRisk;
  }

  // ---- exactly when a saved path replays from the start page ----

  /** The path the navigation leaves in the cache leads from the start page where it led. */
  ghost predicate SavedPathLeadsThere<P(!new)>(env: Env<P>, decide: nat -> Decision, start: P, cache: Cache) {
    var first := Navigate(env, decide, start, cache);
    var (reached, result) := Replay(env, start, Load(first.cache, KeyOf(env, start)), 0);
    result.Some? && result.value.Arrived? && reached == first.page
  }

  /** What a caller can check beforehand: replay would not make a single call of the stored path. */
  predicate NothingToReplay(catalog: map<string, bool>, riskWords: seq<string>, path: seq<Action>) {
    path == [] || !PassesGuards(catalog, riskWords, path[0])
  }

  lemma SavedPathReplaysIfNothingReplayed<P(!new)>(env: Env<P>, decide: nat -> Decision, start: P, cache: Cache)
    requires "" !in env.catalog && ArrivesByExploring(env, decide, start, cache)
    requires NothingToReplay(env.catalog, env.riskWords, Load(cache, KeyOf(env, start)))
    ensures SavedPathLeadsThere(env, decide, start, cache)
  {
    hide Navigate, ArrivesByExploring, KeyOf, Usable, PassesGuards;
    assert ExplorationStart(env, start, cache) == start;
    SavedPathReplaysFromExplorationStart(env, decide, start, cache);
  }

  /** Every call leads from each page to the next; `goal` alone is the target. */
  function ChainApp(package: string, activity: string, target: string, goal: nat): App<nat> {
    var perform: (nat, Action) -> Option<nat> := (p, a) => Some(p + 1);
    var observe: nat -> Observation := p => Observation(package, if p == goal then target else activity, [], "", "");
    App(perform, observe)
  }

  function ChainEnv(catalog: map<string, bool>, riskWords: seq<string>, maxCalls: nat, key: Key, goal: nat): Env<nat> {
    var target := key.activity + "!";
    Env(ChainApp(key.package, key.activity, target, goal), catalog, riskWords,
        PageState("t", "", target, [], [], []), key.appId, key.appVersion, key.moduleName, maxCalls)
  }

  lemma ChainPages(catalog: map<string, bool>, riskWords: seq<string>, maxCalls: nat, key: Key, goal: nat, page: nat)
    ensures var env := ChainEnv(catalog, riskWords, maxCalls, key, goal);
            && (MatchPage(env, page).matched <==> page == goal) && MatchPage(env, page).forbiddenHits == []
            && (page != goal ==> KeyOf(env, page) == key)
  {
    assert |key.activity + "!"| != |key.activity|;
  }

  /** How many actions pass the guards before the first that does not. */
  function Passing(catalog: map<string, bool>, riskWords: seq<string>, path: seq<Action>): (n: nat)
    ensures n <= |path|
  {
    if NothingToReplay(catalog, riskWords, path) then 0 else 1 + Passing(catalog, riskWords, path[1..])
  }

  lemma {:induction false} ChainReplay(
    catalog: map<string, bool>, riskWords: seq<string>, maxCalls: nat, key: Key, goal: nat, page: nat, path: seq<Action>, done: nat)
    requires goal <= page || page + Passing(catalog, riskWords, path) < goal
    ensures Replay(ChainEnv(catalog, riskWords, maxCalls, key, goal), page, path, done)
         == (page + Passing(catalog, riskWords, path), None)
    decreases path
  {
    hide PassesGuards, MatchPage;
    if !NothingToReplay(catalog, riskWords, path) {
      ChainPages(catalog, riskWords, maxCalls, key, goal, page + 1);
      CallPasses(catalog, riskWords, maxCalls, key, goal, page, path[0]);
      ChainReplay(catalog, riskWords, maxCalls, key, goal, page + 1, path[1..], done + 1);
    }
  }

  lemma CallPasses(catalog: map<string, bool>, riskWords: seq<string>, maxCalls: nat, key: Key, goal: nat, page: nat, a: Action)
    requires PassesGuards(catalog, riskWords, a)
    ensures var env := ChainEnv(catalog, riskWords, maxCalls, key, goal);
            a.tool in env.catalog && !ReadOnly(env, a.tool) && !HighRisk(env, a.args) && Perform(env, page, a) == Some(page + 1)
  {
  }

  /** In the chain a path that replay follows for a while is replaced by its own first action, found
      from where the replay ended; from the start page that action leads to page 1 only. */
  lemma ChainBreaksReplay(catalog: map<string, bool>, riskWords: seq<string>, maxCalls: nat, key: Key, cache: Cache, decide: nat -> Decision)
    requires "" !in catalog && maxCalls >= 1 && !NothingToReplay(catalog, riskWords, Load(cache, key))
    requires decide(1) == Decide(Load(cache, key)[0])
    ensures var env := ChainEnv(catalog, riskWords, maxCalls, key, Passing(catalog, riskWords, Load(cache, key)) + 1);
            KeyOf(env, 0) == key && ArrivesByExploring(env, decide, 0, cache) && !SavedPathLeadsThere(env, decide, 0, cache)
  {
    hide PassesGuards, MatchPage, Replay, Load, KeyOf, Perform, ChainEnv, HighRisk, ReadOnly;
    var path := Load(cache, key);
    var n, a := Passing(catalog, riskWords, path), path[0];
    var env := ChainEnv(catalog, riskWords, maxCalls, key, n + 1);
    ChainPages(catalog, riskWords, maxCalls, key, n + 1, 0);
    ChainPages(catalog, riskWords, maxCalls, key, n + 1, n + 1);
    ChainReplay(catalog, riskWords, maxCalls, key, n + 1, 0, path, 0);
    CallPasses(catalog, riskWords, maxCalls, key, n + 1, n, a);
    ChainLimits(catalog, riskWords, maxCalls, key, n + 1);
    assert Explore(env, decide, n, {}, [], 1) == Explored(n + 1, Arrived(1, a.tool), [a]);
    assert Navigate(env, decide, 0, cache) == Navigated(n + 1, (cache - {key})[key := [a]], Arrived(1, a.tool));
    LoadSaved(cache - {key}, key, a);
    OneActionPasses(catalog, riskWords, a);
    ChainReplay(catalog, riskWords, maxCalls, key, n + 1, 0, [a], 0);
  }

  lemma ChainLimits(catalog: map<string, bool>, riskWords: seq<string>, maxCalls: nat, key: Key, goal: nat)
    ensures var env := ChainEnv(catalog, riskWords, maxCalls, key, goal); env.maxCalls == maxCalls && env.catalog == catalog
  {
  }

  lemma LoadSaved(cache: Cache, key: Key, a: Action)
    requires a.tool != ""
    ensures Load(cache[key := [a]], key) == [a]
  {
    UsableAll([a]);
  }

  lemma OneActionPasses(catalog: map<string, bool>, riskWords: seq<string>, a: Action)
    requires PassesGuards(catalog, riskWords, a)
    ensures Passing(catalog, riskWords, [a]) == 1
  {
    assert [a][1..] == [];
    assert Passing(catalog, riskWords, []) == 0;
  }

  /** Whether paths found by exploring replay from the start page in every app is decided by what the
      cache held before: they do if and only if replay would not make a single call of the stored path. */
  lemma SavedPathReplaysIff(catalog: map<string, bool>, riskWords: seq<string>, maxCalls: nat, key: Key, cache: Cache)
    requires "" !in catalog && maxCalls >= 1
    ensures (forall env: Env<nat>, decide: nat -> Decision, start: nat ::
               && env.catalog == catalog && env.riskWords == riskWords && env.maxCalls == maxCalls
               && KeyOf(env, start) == key && ArrivesByExploring(env, decide, start, cache)
               ==> SavedPathLeadsThere(env, decide, start, cache))
            <==> NothingToReplay(catalog, riskWords, Load(cache, key))
  {
    hide KeyOf, ArrivesByExploring, SavedPathLeadsThere, NothingToReplay, Load, Passing;
    if NothingToReplay(catalog, riskWords, Load(cache, key)) {
      forall env: Env<nat>, decide: nat -> Decision, start: nat
        | && env.catalog == catalog && env.riskWords == riskWords && env.maxCalls == maxCalls
          && KeyOf(env, start) == key && ArrivesByExploring(env, decide, start, cache)
        ensures SavedPathLeadsThere(env, decide, start, cache)
      {
        SavedPathReplaysIfNothingReplayed(env, decide, start, cache);
      }
    } else {
      var a := FirstOf(catalog, riskWords, Load(cache, key));
      var decide: nat -> Decision := (i: nat) => Decide(a);
      ChainBreaksReplay(catalog, riskWords, maxCalls, key, cache, decide);
    }
  }

  lemma FirstOf(catalog: map<string, bool>, riskWords: seq<string>, path: seq<Action>) returns (a: Action)
    requires !NothingToReplay(catalog, riskWords, path)
    ensures path != [] && a == path[0]
  {
    a := path[0];
  }

  // ---- what an exploration is, step by step ----

  function Sign<P(!new)>(env: Env<P>, page: P, a: Action): Signature {
    (env.app.observe(page).sourceHash, a.tool, a.args)
  }

  /** Call `i` (counting from 0) goes from `pages[i]` to `pages[i + 1]` and is one the loop allows: known,
      harmless or read-only, and not made on such a page before. */
  ghost predicate Stepped<P(!new)>(env: Env<P>, decide: nat -> Decision, pages: seq<P>, i: nat)
    requires i + 1 < |pages|
  {
    && decide(i + 1).Decide?
    && var a := decide(i + 1).action;
       && a.tool in env.catalog && (HighRisk(env, a.args) ==> ReadOnly(env, a.tool))
       && (forall j: nat :: j < i ==> !SameCall(env, decide, pages, j, i))
       && pages[i + 1] == if Perform(env, pages[i], a).Some? then Perform(env, pages[i], a).value else pages[i]
  }

  predicate SameCall<P(!new)>(env: Env<P>, decide: nat -> Decision, pages: seq<P>, j: nat, i: nat)
    requires j < |pages| && i < |pages|
  {
    && decide(j + 1).Decide? && decide(i + 1).Decide?
    && Sign(env, pages[j], decide(j + 1).action) == Sign(env, pages[i], decide(i + 1).action)
  }

  /** The call failed, or led to a page that is neither the target nor forbidden. */
  predicate GoesOn<P(!new)>(env: Env<P>, decide: nat -> Decision, pages: seq<P>, i: nat)
    requires i + 1 < |pages| && decide(i + 1).Decide? && decide(i + 1).action.tool in env.catalog
  {
    Perform(env, pages[i], decide(i + 1).action).None?
    || (!MatchPage(env, pages[i + 1]).matched && MatchPage(env, pages[i + 1]).forbiddenHits == [])
  }

  /** The first `n` calls are allowed and none of them ends the exploration. */
  ghost predicate Wanders<P(!new)>(env: Env<P>, decide: nat -> Decision, pages: seq<P>, n: nat)
    requires n < |pages|
  {
    forall i: nat :: i < n ==> Stepped(env, decide, pages, i) && GoesOn(env, decide, pages, i)
  }

  /** Call number `n` leads to the target. */
  ghost predicate ReachesAt<P(!new)>(env: Env<P>, decide: nat -> Decision, pages: seq<P>, n: nat)
    requires 0 < n < |pages|
  {
    && Wanders(env, decide, pages, n - 1) && Stepped(env, decide, pages, n - 1)
    && Perform(env, pages[n - 1], decide(n).action).Some?
    && MatchPage(env, pages[n]).matched
  }

  /** The signatures of the first `n` calls. */
  ghost function Signed<P(!new)>(env: Env<P>, decide: nat -> Decision, pages: seq<P>, n: nat): set<Signature>
    requires n <= |pages|
  {
    set i: nat | i < n && decide(i + 1).Decide? :: Sign(env, pages[i], decide(i + 1).action)
  }

  lemma SignedMore<P(!new)>(env: Env<P>, decide: nat -> Decision, pages: seq<P>, longer: seq<P>, n: nat)
    requires n < |pages| && pages <= longer && decide(n + 1).Decide?
    ensures Signed(env, decide, longer, n + 1) == Signed(env, decide, pages, n) + {Sign(env, pages[n], decide(n + 1).action)}
  {
    hide Sign;
    assert forall i :: 0 <= i <= n ==> longer[i] == pages[i];
  }

  lemma WandersMore<P(!new)>(env: Env<P>, decide: nat -> Decision, pages: seq<P>, next: P)
    requires pages != [] && Wanders(env, decide, pages, |pages| - 1)
    requires Stepped(env, decide, pages + [next], |pages| - 1) && GoesOn(env, decide, pages + [next], |pages| - 1)
    ensures Wanders(env, decide, pages + [next], |pages|)
  {
    var longer := pages + [next];
    hide Perform, MatchPage, HighRisk, Sign, ReadOnly;
    forall i: nat | i < |pages| ensures Stepped(env, decide, longer, i) && GoesOn(env, decide, longer, i) {
      if i < |pages| - 1 {
        assert Stepped(env, decide, pages, i) && GoesOn(env, decide, pages, i);
        assert longer[i] == pages[i] && longer[i + 1] == pages[i + 1];
        forall j: nat | j < i ensures !SameCall(env, decide, longer, j, i) {
          assert longer[j] == pages[j];
          assert !SameCall(env, decide, pages, j, i);
        }
      }
    }
  }

  /** One more allowed call. */
  lemma StepsOn<P(!new)>(env: Env<P>, decide: nat -> Decision, pages: seq<P>, next: P)
    requires pages != [] && decide(|pages|).Decide?
    requires var a, page := decide(|pages|).action, pages[|pages| - 1];
             && a.tool in env.catalog && (HighRisk(env, a.args) ==> ReadOnly(env, a.tool))
             && Sign(env, page, a) !in Signed(env, decide, pages, |pages| - 1)
             && next == if Perform(env, page, a).Some? then Perform(env, page, a).value else page
    ensures Stepped(env, decide, pages + [next], |pages| - 1)
  {
    hide Perform, HighRisk, Sign, ReadOnly;
    var longer, n := pages + [next], |pages| - 1;
    forall j: nat | j < n ensures !SameCall(env, decide, longer, j, n) {
      assert longer[j] == pages[j];
      if decide(j + 1).Decide? {
        assert Sign(env, pages[j], decide(j + 1).action) in Signed(env, decide, pages, n);
      }
    }
  }

  /** An exploration that arrives has made such calls. */
  lemma {:induction false} ArrivalIsReached<P(!new)>(env: Env<P>, decide: nat -> Decision, pages: seq<P>, safe: seq<Action>)
    returns (all: seq<P>)
    requires pages != [] && Wanders(env, decide, pages, |pages| - 1)
    requires var e := Explore(env, decide, pages[|pages| - 1], Signed(env, decide, pages, |pages| - 1), safe, |pages|);
             e.outcome.Arrived?
    ensures var e := Explore(env, decide, pages[|pages| - 1], Signed(env, decide, pages, |pages| - 1), safe, |pages|);
            var n := e.outcome.calls;
            && pages <= all && |pages| <= n <= env.maxCalls && |all| == n + 1
            && ReachesAt(env, decide, all, n) && all[n] == e.page && e.outcome.lastTool == decide(n).action.tool
    decreases env.maxCalls + 1 - |pages|
  {
    hide Perform, MatchPage, HighRisk, Wanders, Stepped, GoesOn, Signed;
    var n, page := |pages|, pages[|pages| - 1];
    var a := decide(n).action;
    var called := Perform(env, page, a);
    var next := if called.Some? then called.value else page;
    StepsOn(env, decide, pages, next);
    SignedMore(env, decide, pages, pages + [next], n - 1);
    if called.Some? && MatchPage(env, next).matched {
      all := pages + [next];
      WandersSame(env, decide, pages, all);
    } else {
      StillGoesOn(env, decide, pages, next);
      WandersMore(env, decide, pages, next);
      var safe' := if called.None? || ReadOnly(env, a.tool) then safe else safe + [a];
      all := ArrivalIsReached(env, decide, pages + [next], safe');
    }
  }

  lemma StillGoesOn<P(!new)>(env: Env<P>, decide: nat -> Decision, pages: seq<P>, next: P)
    requires pages != [] && decide(|pages|).Decide? && decide(|pages|).action.tool in env.catalog
    requires Perform(env, pages[|pages| - 1], decide(|pages|).action).None?
             || (!MatchPage(env, next).matched && MatchPage(env, next).forbiddenHits == [])
    ensures GoesOn(env, decide, pages + [next], |pages| - 1)
  {
    hide Perform, MatchPage;
  }

  lemma WandersSame<P(!new)>(env: Env<P>, decide: nat -> Decision, pages: seq<P>, all: seq<P>)
    requires pages != [] && pages <= all && Wanders(env, decide, pages, |pages| - 1)
    ensures Wanders(env, decide, all, |pages| - 1)
  {
    hide Perform, MatchPage, HighRisk, Sign, ReadOnly;
    forall i: nat | i < |pages| - 1 ensures Stepped(env, decide, all, i) && GoesOn(env, decide, all, i) {
      assert Stepped(env, decide, pages, i) && GoesOn(env, decide, pages, i);
      assert all[i] == pages[i] && all[i + 1] == pages[i + 1];
      forall j: nat | j < i ensures !SameCall(env, decide, all, j, i) {
        assert all[j] == pages[j];
        assert !SameCall(env, decide, pages, j, i);
      }
    }
  }

  /** And whenever such calls are decided on, the exploration makes them and arrives. */
  lemma {:induction false} ReachedIsArrival<P(!new)>(env: Env<P>, decide: nat -> Decision, pages: seq<P>, n: nat, safe: seq<Action>, k: nat)
    requires 0 < k <= n < |pages| && n <= env.maxCalls && ReachesAt(env, decide, pages, n)
    ensures var e := Explore(env, decide, pages[k - 1], Signed(env, decide, pages, k - 1), safe, k);
            e.outcome == Arrived(n, decide(n).action.tool) && e.page == pages[n]
    decreases n - k
  {
    hide Perform, MatchPage, HighRisk;
    var a, page, seen := decide(k).action, pages[k - 1], Signed(env, decide, pages, k - 1);
    assert Stepped(env, decide, pages, k - 1);
    NotSigned(env, decide, pages, k - 1);
    SignedMore(env, decide, pages, pages, k - 1);
    if k < n {
      assert GoesOn(env, decide, pages, k - 1);
      hide Signed, Stepped, GoesOn, ReachesAt, Wanders;
      var called := Perform(env, page, a);
      ReachedIsArrival(env, decide, pages, n, if called.None? || ReadOnly(env, a.tool) then safe else safe + [a], k + 1);
    } else {
      MatchedIsAllowed(env, pages[n]);
    }
  }

  lemma MatchedIsAllowed<P(!new)>(env: Env<P>, page: P)
    ensures MatchPage(env, page).matched ==> MatchPage(env, page).forbiddenHits == []
  {
  }

  lemma NotSigned<P(!new)>(env: Env<P>, decide: nat -> Decision, pages: seq<P>, i: nat)
    requires i + 1 < |pages| && Stepped(env, decide, pages, i)
    ensures Sign(env, pages[i], decide(i + 1).action) !in Signed(env, decide, pages, i)
  {
    hide Perform, HighRisk, ReadOnly, Sign;
    forall j: nat | j < i && decide(j + 1).Decide?
      ensures Sign(env, pages[j], decide(j + 1).action) != Sign(env, pages[i], decide(i + 1).action)
    {
      assert !SameCall(env, decide, pages, j, i);
    }
  }

  /** An exploration arrives after `n` calls exactly if the calls decided on lead there within the limit,
      all of them allowed and none of the earlier ones ending it. */
  lemma ExploreIff<P(!new)>(env: Env<P>, decide: nat -> Decision, start: P, n: nat)
    ensures (var o := Explore(env, decide, start, {}, [], 1).outcome; o.Arrived? && o.calls == n) <==>
              0 < n <= env.maxCalls
              && exists pages: seq<P> :: |pages| == n + 1 && pages[0] == start && ReachesAt(env, decide, pages, n)
  {
    hide ReachesAt;
    var e := Explore(env, decide, start, {}, [], 1);
    assert Signed(env, decide, [start], 0) == {};
    if e.outcome.Arrived? && e.outcome.calls == n {
      var pages := ArrivalIsReached(env, decide, [start], []);
    }
    if 0 < n <= env.maxCalls {
      forall pages: seq<P> | |pages| == n + 1 && pages[0] == start && ReachesAt(env, decide, pages, n)
        ensures e.outcome.Arrived? && e.outcome.calls == n
      {
        assert Signed(env, decide, pages, 0) == {};
        ReachedIsArrival(env, decide, pages, n, [], 1);
      }
    }
  }

  /** What a navigation does to the cache: nothing if it is there already or replay arrives; otherwise a path
      replayed in vain goes, whether or not exploring arrives, and a path found stands in its place. */
  lemma CacheAfter<P(!new)>(env: Env<P>, decide: nat -> Decision, start: P, cache: Cache)
    ensures var key, first := KeyOf(env, start), Navigate(env, decide, start, cache);
            var explored := !MatchPage(env, start).matched && Replay(env, start, Load(cache, key), 0).1 == None;
            && (!explored ==> first.cache == cache)
            && (forall k :: k != key ==> (k in first.cache <==> k in cache) && (k in cache ==> first.cache[k] == cache[k]))
            && (explored && first.outcome.Failed? && Load(cache, key) != [] ==> key !in first.cache)
            && (explored && first.outcome.Failed? && Load(cache, key) == [] ==> first.cache == cache)
            && (explored && first.outcome.Arrived? ==>
                  key in first.cache && first.cache[key] == Explore(env, decide, ExplorationStart(env, start, cache), {}, [], 1).safe)
  {
    hide Explore, Replay, MatchPage, Load, KeyOf, QuietRun;
    ReplayNothing(env, start);
    if ArrivesByExploring(env, decide, start, cache) {
      var from := ExplorationStart(env, start, cache);
      StartIsQuiet(env, from);
      FailedReplayMisses(env, start, Load(cache, KeyOf(env, start)), 0);
      ExploredPathReplays(env, decide, from, from, {}, [], 1);
    }
  }

  // ---- an example ----

  function TwoStepApp(): App<nat> {
    App((p: nat, a: Action) =>
          if p == 0 && a.tool == "tap" then Some(1) else if p == 1 && a.tool == "swipe" then Some(2) else None,
        (p: nat) => Observation("app", if p == 2 then "Target" else "Other", [], "", ""))
  }

  function TwoStepEnv(): Env<nat> {
    Env(TwoStepApp(), map["tap" := false, "swipe" := false], [], PageState("t", "", "Target", [], [], []), "", "", "", 1)
  }

  /** A path found after a failed replay is stored under the original start page, from which it
      need not replay. */
  lemma PathAfterFailedReplayMayNotReplay()
    ensures exists env: Env<nat>, decide, cache ::
              var first := Navigate(env, decide, 0, cache);
              && first.outcome.Arrived?
              && Replay(env, 0, Load(first.cache, KeyOf(env, 0)), 0).1 == None
  {
    var env := TwoStepEnv();
    var tap, swipe := Action("tap", ""), Action("swipe", "");
    var decide: nat -> Decision := (i: nat) => Decide(swipe);
    var key := KeyOf(env, 0);
    var cache: Cache := map[key := [tap]];
    UsableAll([tap]);
    UsableAll([swipe]);
    assert |"Other"| != |"Target"|;
    assert env.app.observe(0).activity == "Other" && env.app.observe(1).activity == "Other";
    assert env.app.observe(2).activity == "Target";
    MatchMeaning(env.state, env.app.observe(0));
    MatchMeaning(env.state, env.app.observe(1));
    MatchMeaning(env.state, env.app.observe(2));
    assert MatchPage(env, 1).forbiddenHits == [] && MatchPage(env, 2).forbiddenHits == [];
    assert Perform(env, 0, tap) == Some(1) && Perform(env, 1, swipe) == Some(2) && Perform(env, 0, swipe) == None;
    assert Replay(env, 0, [tap], 0) == (1, None) by {
      assert [tap][1..] == [];
      assert Replay(env, 1, [], 1) == (1, None);
    }
    assert Explore(env, decide, 1, {}, [], 1) == Explored(2, Arrived(1, "swipe"), [swipe]);
    var first := Navigate(env, decide, 0, cache);
    assert first.outcome == Arrived(1, "swipe") && first.cache[key] == [swipe];
    assert Load(first.cache, key) == [swipe];
    assert Replay(env, 0, [swipe], 0).1 == None;
  }
}
