/** `run_heal_loop`: attempt, diagnose, apply, attempt again, within a budget and with a ledger. */
module HealLoop {
  import opened PyText

  datatype Category = Infra | Parse | Quality | BlockedUi | Contract | Coverage | ProductDefect | Unknown

  datatype Failure = Failure(category: Category, message: string)
  datatype Plan = Plan(action: string, rationale: string, goalStillValid: bool)

  datatype AttemptResult = Returned(output: string) | Raised(error: string)
  datatype Diagnosis = Planned(plan: Plan) | DiagnoseRaised(error: string)
  datatype Application = Applied | ApplyRaised(error: string)

  /** The injected functions: attempts are numbered from 1, diagnoses and applications by heal index. */
  datatype Actors = Actors(
    attempt: nat -> AttemptResult,
    diagnose: (nat, Failure) -> Diagnosis,
    apply: (nat, Plan, Failure) -> Application,
    classify: string -> Failure)

  /** What was called, on what, with its answer. */
  datatype Call =
    | Attempted(result: AttemptResult)
    | Diagnosed(failure: Failure, diagnosis: Diagnosis)
    | AppliedPlan(plan: Plan, failure: Failure, application: Application)

  datatype LedgerEvent =
    | SeedFailure(failure: Failure)
    | FirstPass(attempts: nat)
    | AttemptFailed(attempt: nat, failure: Failure)
    | DefectFound(message: string)
    | DiagnoseStart(healIndex: nat, category: Category)
    | HealPlan(healIndex: nat, plan: Plan)
    | ApplyFailed(error: string)
    | HealSuccess(attempts: nat, healUsed: nat, action: string)
    | RetryFailed(attempt: nat, failure: Failure)
    | Exhausted(attempts: nat, healUsed: nat, finalError: string)

  datatype How = Unresolved | ByFirstPass | ByProductDefect | ByGiveUp | ByHealing(action: string) | ByExhaustion

  datatype HealResult = HealResult(
    success: bool, attempts: nat, how: How, finalError: string, plans: seq<Plan>, output: Option<string>)

  /** A diagnosis that raises is not caught. */
  datatype Exit = Done(result: HealResult) | Propagated(error: string)

  datatype Run = Run(exit: Exit, calls: seq<Call>, ledger: seq<LedgerEvent>)

  datatype State = State(
    attempts: nat, healUsed: nat, pending: Failure, lastError: string,
    plans: seq<Plan>, calls: seq<Call>, ledger: seq<LedgerEvent>)

  predicate GivesUp(p: Plan) {
    p.action == "give_up" || p.action == "give_up_defect" || !p.goalStillValid
  }

  function Or(a: string, b: string): string { if a == "" then b else a }

  // ---- the loop as a function ----

  function Loop(a: Actors, budget: nat, s: State): Run
    decreases budget - s.healUsed, 0
  {
    if s.healUsed >= budget then
      Run(Done(HealResult(false, s.attempts, ByExhaustion, s.lastError, s.plans, None)), s.calls,
          s.ledger + [Exhausted(s.attempts, s.healUsed, s.lastError)])
    else if s.pending.category == ProductDefect then
      Run(Done(HealResult(false, s.attempts, ByProductDefect, s.pending.message, s.plans, None)), s.calls,
          s.ledger + [DefectFound(s.pending.message)])
    else
      var h := s.healUsed + 1;
      var started := s.ledger + [DiagnoseStart(h, s.pending.category)];
      var answer := a.diagnose(h, s.pending);
      var diagnosed := s.calls + [Diagnosed(s.pending, answer)];
      match answer
      case DiagnoseRaised(e) => Run(Propagated(e), diagnosed, started)
      case Planned(plan) =>
        var plans := s.plans + [plan];
        var planned := started + [HealPlan(h, plan)];
        if GivesUp(plan) then
          Run(Done(HealResult(false, s.attempts, ByGiveUp, Or(plan.rationale, s.pending.message), plans, None)),
              diagnosed, planned)
        else
          Retry(a, budget, s.(healUsed := h, plans := plans, calls := diagnosed, ledger := planned), plan)
  }

  /** Apply the plan and attempt again. */
  function Retry(a: Actors, budget: nat, s: State, plan: Plan): Run
    requires s.healUsed <= budget
    decreases budget - s.healUsed, 1
  {
    var answer := a.apply(s.healUsed, plan, s.pending);
    var applied := s.calls + [AppliedPlan(plan, s.pending, answer)];
    match answer
    case ApplyRaised(e) =>
      var error := "apply_plan failed: " + e;
      Loop(a, budget, s.(pending := a.classify(e), lastError := error, calls := applied,
                         ledger := s.ledger + [ApplyFailed(error)]))
    case Applied =>
      var n := s.attempts + 1;
      var result := a.attempt(n);
      var calls := applied + [Attempted(result)];
      match result
      case Returned(v) =>
        Run(Done(HealResult(true, n, ByHealing(plan.action), "", s.plans, Some(v))), calls,
            s.ledger + [HealSuccess(n, s.healUsed, plan.action)])
      case Raised(e) =>
        Loop(a, budget, s.(attempts := n, pending := a.classify(e), lastError := e, calls := calls,
                           ledger := s.ledger + [RetryFailed(n, a.classify(e))]))
  }

  function Budget(budget: int): nat { if budget < 0 then 0 else budget }

  /** No healing and no skipped attempt: one try, nothing written. */
  predicate Unledgered(budget: int, skip: bool) { Budget(budget) == 0 && !skip }

  function RunHeal(a: Actors, budget: int, skip: bool, initialError: Option<string>): Run {
    if Unledgered(budget, skip) then
      match a.attempt(1)
      case Returned(v) => Run(Done(HealResult(true, 1, ByFirstPass, "", [], Some(v))), [Attempted(Returned(v))], [])
      case Raised(e) => Run(Done(HealResult(false, 1, Unresolved, e, [], None)), [Attempted(Raised(e))], [])
    else if skip && initialError.Some? then
      var f := a.classify(initialError.value);
      Loop(a, Budget(budget), State(0, 0, f, initialError.value, [], [], [SeedFailure(f)]))
    else
      match a.attempt(1)
      case Returned(v) =>
        Run(Done(HealResult(true, 1, ByFirstPass, "", [], Some(v))), [Attempted(Returned(v))], [FirstPass(1)])
      case Raised(e) =>
        var f := a.classify(e);
        Loop(a, Budget(budget), State(1, 0, f, e, [], [Attempted(Raised(e))], [AttemptFailed(1, f)]))
  }

  // ---- the loop as the source runs it ----

  class HealLedger {
    var events: seq<LedgerEvent>

    constructor ()
      ensures events == []
    {
      events := [];
    }

    method Append(e: LedgerEvent)
      modifies this
      ensures events == old(events) + [e]
    {
      events := events + [e];
    }
  }

  /** The ledger, if there is one, holds `written` behind `base`. */
  ghost predicate Wrote(ledger: HealLedger?, base: seq<LedgerEvent>, written: seq<LedgerEvent>)
    reads ledger
  {
    ledger != null ==> ledger.events == base + written
  }

  /** `if ledger: ledger.append(...)` */
  method Note(ledger: HealLedger?, e: LedgerEvent, ghost base: seq<LedgerEvent>, ghost before: seq<LedgerEvent>)
    returns (ghost written: seq<LedgerEvent>)
    requires Wrote(ledger, base, before)
    modifies ledger
    ensures written == before + [e] && Wrote(ledger, base, written)
  {
    if ledger != null {
      ledger.Append(e);
    }
    written := before + [e];
  }

  method RunHealLoop(a: Actors, budget: int, skip: bool, initialError: Option<string>, ledger: HealLedger?)
    returns (exit: Exit, calls: seq<Call>)
    modifies ledger
    ensures var run := RunHeal(a, budget, skip, initialError);
            exit == run.exit && calls == run.calls
            && (ledger != null ==> ledger.events == old(ledger.events) + run.ledger)
  {
    ghost var base := if ledger == null then [] else ledger.events;
    ghost var written: seq<LedgerEvent> := [];
    assert base + [] == base;
    var maxAttempts := if budget < 0 then 0 else budget;
    calls := [];
    if maxAttempts <= 0 && !skip {
      var result := a.attempt(1);
      calls := [Attempted(result)];
      match result
      case Returned(v) => return Done(HealResult(true, 1, ByFirstPass, "", [], Some(v))), calls;
      case Raised(e) => return Done(HealResult(false, 1, Unresolved, e, [], None)), calls;
    }
    var attempts, lastError := 0, "";
    var pending: Failure;
    if skip && initialError.Some? {
      pending := a.classify(initialError.value);
      lastError := initialError.value;
      written := Note(ledger, SeedFailure(pending), base, written);
    } else {
      attempts := 1;
      var result := a.attempt(attempts);
      calls := [Attempted(result)];
      match result
      case Returned(v) =>
        written := Note(ledger, FirstPass(attempts), base, written);
        assert written == [FirstPass(1)];
        return Done(HealResult(true, attempts, ByFirstPass, "", [], Some(v))), calls;
      case Raised(e) =>
        pending := a.classify(e);
        lastError := e;
        written := Note(ledger, AttemptFailed(attempts, pending), base, written);
    }
    assert written == [if skip && initialError.Some? then SeedFailure(pending) else AttemptFailed(1, pending)];
    assert RunHeal(a, budget, skip, initialError)
        == Loop(a, maxAttempts, State(attempts, 0, pending, lastError, [], calls, written));
    hide Loop;
    exit, calls := HealRounds(a, maxAttempts, attempts, pending, lastError, calls, ledger, base, written);
  }

  /** What the loop is from a state with budget left and no defect pending, after the diagnosis. */
  lemma RoundUnfolds(a: Actors, budget: nat, s: State)
    requires s.healUsed < budget && s.pending.category != ProductDefect
    ensures var h := s.healUsed + 1;
            var answer := a.diagnose(h, s.pending);
            var calls, started := s.calls + [Diagnosed(s.pending, answer)], s.ledger + [DiagnoseStart(h, s.pending.category)];
            Loop(a, budget, s) ==
            match answer
            case DiagnoseRaised(e) => Run(Propagated(e), calls, started)
            case Planned(plan) =>
              var plans, planned := s.plans + [plan], started + [HealPlan(h, plan)];
              if GivesUp(plan) then
                Run(Done(HealResult(false, s.attempts, ByGiveUp, Or(plan.rationale, s.pending.message), plans, None)), calls, planned)
              else Retry(a, budget, State(s.attempts, h, s.pending, s.lastError, plans, calls, planned), plan)
  {
    hide Retry;
  }

  lemma RetryUnfolds(a: Actors, budget: nat, s: State, plan: Plan)
    requires s.healUsed <= budget
    ensures var answer := a.apply(s.healUsed, plan, s.pending);
            var applied, n := s.calls + [AppliedPlan(plan, s.pending, answer)], s.attempts + 1;
            Retry(a, budget, s, plan) ==
            match answer
            case ApplyRaised(e) =>
              var error := "apply_plan failed: " + e;
              Loop(a, budget, State(s.attempts, s.healUsed, a.classify(e), error, s.plans, applied, s.ledger + [ApplyFailed(error)]))
            case Applied =>
              match a.attempt(n)
              case Returned(v) =>
                Run(Done(HealResult(true, n, ByHealing(plan.action), "", s.plans, Some(v))), applied + [Attempted(Returned(v))],
                    s.ledger + [HealSuccess(n, s.healUsed, plan.action)])
              case Raised(e) =>
                Loop(a, budget, State(n, s.healUsed, a.classify(e), e, s.plans, applied + [Attempted(Raised(e))],
                                      s.ledger + [RetryFailed(n, a.classify(e))]))
  {
    hide Loop;
  }

  lemma LoopEnds(a: Actors, budget: nat, s: State)
    requires s.healUsed >= budget || s.pending.category == ProductDefect
    ensures Loop(a, budget, s) ==
            if s.healUsed >= budget then
              Run(Done(HealResult(false, s.attempts, ByExhaustion, s.lastError, s.plans, None)), s.calls,
                  s.ledger + [Exhausted(s.attempts, s.healUsed, s.lastError)])
            else
              Run(Done(HealResult(false, s.attempts, ByProductDefect, s.pending.message, s.plans, None)), s.calls,
                  s.ledger + [DefectFound(s.pending.message)])
  {
  }

  /** The `while` loop; `base` is what the ledger held before the run, `noted` what the run wrote. */
  method HealRounds(a: Actors, budget: nat, attempts0: nat, pending0: Failure, lastError0: string,
                    calls0: seq<Call>, ledger: HealLedger?, ghost base: seq<LedgerEvent>, ghost noted: seq<LedgerEvent>)
    returns (exit: Exit, calls: seq<Call>)
    requires Wrote(ledger, base, noted)
    modifies ledger
    ensures var run := Loop(a, budget, State(attempts0, 0, pending0, lastError0, [], calls0, noted));
            exit == run.exit && calls == run.calls && Wrote(ledger, base, run.ledger)
  {
    hide Or, GivesUp, Wrote, Loop, Retry;
    var attempts, healUsed, pending, lastError := attempts0, 0, pending0, lastError0;
    var plans: seq<Plan> := [];
    calls := calls0;
    ghost var written := noted;
    ghost var goal := Loop(a, budget, State(attempts0, 0, pending0, lastError0, [], calls0, noted));
    while healUsed < budget
      invariant healUsed <= budget
      invariant Wrote(ledger, base, written)
      invariant Loop(a, budget, State(attempts, healUsed, pending, lastError, plans, calls, written)) == goal
      decreases budget - healUsed
    {
      if pending.category == ProductDefect {
        LoopEnds(a, budget, State(attempts, healUsed, pending, lastError, plans, calls, written));
        written := Note(ledger, DefectFound(pending.message), base, written);
        return Done(HealResult(false, attempts, ByProductDefect, pending.message, plans, None)), calls;
      }
      RoundUnfolds(a, budget, State(attempts, healUsed, pending, lastError, plans, calls, written));
      healUsed := healUsed + 1;
      written := Note(ledger, DiagnoseStart(healUsed, pending.category), base, written);
      var answer := a.diagnose(healUsed, pending);
      calls := calls + [Diagnosed(pending, answer)];
      if answer.DiagnoseRaised? {
        return Propagated(answer.error), calls;
      }
      var plan := answer.plan;
      plans := plans + [plan];
      written := Note(ledger, HealPlan(healUsed, plan), base, written);
      if GivesUp(plan) {
        return Done(HealResult(false, attempts, ByGiveUp, Or(plan.rationale, pending.message), plans, None)), calls;
      }
      ghost var s := State(attempts, healUsed, pending, lastError, plans, calls, written);
      assert goal == Retry(a, budget, s, plan);
      RetryUnfolds(a, budget, s, plan);
      var applied := a.apply(healUsed, plan, pending);
      calls := calls + [AppliedPlan(plan, pending, applied)];
      if applied.ApplyRaised? {
        lastError := "apply_plan failed: " + applied.error;
        written := Note(ledger, ApplyFailed(lastError), base, written);
        pending := a.classify(applied.error);
        continue;
      }
      attempts := attempts + 1;
      var result := a.attempt(attempts);
      calls := calls + [Attempted(result)];
      match result
      case Returned(v) =>
        written := Note(ledger, HealSuccess(attempts, healUsed, plan.action), base, written);
        return Done(HealResult(true, attempts, ByHealing(plan.action), "", plans, Some(v))), calls;
      case Raised(e) =>
        pending := a.classify(e);
        lastError := e;
        written := Note(ledger, RetryFailed(attempts, pending), base, written);
    }
    LoopEnds(a, budget, State(attempts, healUsed, pending, lastError, plans, calls, written));
    written := Note(ledger, Exhausted(attempts, healUsed, lastError), base, written);
    return Done(HealResult(false, attempts, ByExhaustion, lastError, plans, None)), calls;
  }

  // ---- what every run keeps ----

  function CountAttempts(calls: seq<Call>): nat {
    if calls == [] then 0
    else CountAttempts(calls[..|calls| - 1]) + (if calls[|calls| - 1].Attempted? then 1 else 0)
  }

  function CountDiagnoses(calls: seq<Call>): nat {
    if calls == [] then 0
    else CountDiagnoses(calls[..|calls| - 1]) + (if calls[|calls| - 1].Diagnosed? then 1 else 0)
  }

  /** Ledger events that report an attempt. */
  predicate IsAttemptEvent(e: LedgerEvent) {
    e.FirstPass? || e.AttemptFailed? || e.HealSuccess? || e.RetryFailed?
  }

  function AttemptEvents(ledger: seq<LedgerEvent>): nat {
    if ledger == [] then 0
    else AttemptEvents(ledger[..|ledger| - 1]) + (if IsAttemptEvent(ledger[|ledger| - 1]) then 1 else 0)
  }

  function LedgerPlans(ledger: seq<LedgerEvent>): seq<Plan> {
    if ledger == [] then []
    else
      LedgerPlans(ledger[..|ledger| - 1])
      + (if ledger[|ledger| - 1].HealPlan? then [ledger[|ledger| - 1].plan] else [])
  }

  /** The error a call raised, if it failed in a way the loop classifies. */
  function RaisedBy(c: Call): Option<string> {
    match c
    case Attempted(Raised(e)) => Some(e)
    case AppliedPlan(_, _, ApplyRaised(e)) => Some(e)
    case _ => None
  }

  /** Which call may come after which: a failed attempt or application that is no product defect is
      diagnosed, a plan that does not give up is applied, and what was applied is attempted.  Nothing
      comes after a success, a product defect, a plan that gives up or a diagnosis that raised. */
  predicate Follows(a: Actors, c: Call, d: Call) {
    match c
    case Attempted(Returned(_)) => false
    case Attempted(Raised(e)) => d.Diagnosed? && d.failure == a.classify(e) && d.failure.category != ProductDefect
    case Diagnosed(_, DiagnoseRaised(_)) => false
    case Diagnosed(failure, Planned(plan)) => d.AppliedPlan? && d.plan == plan && d.failure == failure && !GivesUp(plan)
    case AppliedPlan(_, _, Applied) => d.Attempted?
    case AppliedPlan(_, _, ApplyRaised(e)) => d.Diagnosed? && d.failure == a.classify(e) && d.failure.category != ProductDefect
  }

  /** Nothing comes after `c`. */
  predicate Final(a: Actors, c: Call) {
    match c
    case Attempted(r) => r.Returned? || a.classify(r.error).category == ProductDefect
    case Diagnosed(_, d) => d.DiagnoseRaised? || GivesUp(d.plan)
    case AppliedPlan(_, _, p) => p.ApplyRaised? && a.classify(p.error).category == ProductDefect
  }

  /** A run ends with a final call unless the budget is used up. */
  predicate EndsInTime(a: Actors, calls: seq<Call>, budget: nat) {
    calls != [] && CountDiagnoses(calls) < budget ==> Final(a, calls[|calls| - 1])
  }

  predicate InOrder(a: Actors, calls: seq<Call>) {
    forall i, j :: 0 <= i < |calls| && j == i + 1 < |calls| ==> Follows(a, calls[i], calls[j])
  }

  /** How a run is said to have ended: healed by the last plan applied, given up by the last diagnosis, or
      else out of budget or stopped by a product defect. */
  predicate HowFits(calls: seq<Call>, budget: nat, h: HealResult) {
    var n := |calls|;
    if h.success then n >= 2 && calls[n - 2].AppliedPlan? && h.how == ByHealing(calls[n - 2].plan.action)
    else if n > 0 && calls[n - 1].Diagnosed? then h.how == ByGiveUp
    else h.how == if CountDiagnoses(calls) == budget then ByExhaustion else ByProductDefect
  }

  predicate Succeeded(calls: seq<Call>, output: Option<string>) {
    calls != [] && output.Some? && calls[|calls| - 1] == Attempted(Returned(output.value))
  }

  predicate NoSuccessBefore(calls: seq<Call>) {
    forall i :: 0 <= i < |calls| && calls[i].Attempted? ==> calls[i].result.Raised?
  }

  /** The loop state and what has happened agree; `base` is 1 when a first attempt was made. */
  predicate Agrees(a: Actors, s: State, base: nat) {
    && s.attempts == CountAttempts(s.calls) == AttemptEvents(s.ledger)
    && s.healUsed == CountDiagnoses(s.calls) == |s.plans|
    && s.attempts <= base + s.healUsed
    && s.plans == LedgerPlans(s.ledger)
    && NoSuccessBefore(s.calls)
    && InOrder(a, s.calls)
    && (s.calls != [] ==> RaisedBy(s.calls[|s.calls| - 1]).Some?
                          && s.pending == a.classify(RaisedBy(s.calls[|s.calls| - 1]).value))
  }

  /** What a finished run satisfies. */
  predicate RunAgrees(a: Actors, r: Run, budget: nat, base: nat) {
    && CountAttempts(r.calls) <= base + budget
    && CountDiagnoses(r.calls) <= budget
    && InOrder(a, r.calls) && EndsInTime(a, r.calls, budget)
    && AttemptEvents(r.ledger) == CountAttempts(r.calls)
    && match r.exit
       case Propagated(_) => true
       case Done(h) =>
         && h.attempts == CountAttempts(r.calls)
         && h.plans == LedgerPlans(r.ledger) && |h.plans| == CountDiagnoses(r.calls)
         && (h.success <==> Succeeded(r.calls, h.output)) && HowFits(r.calls, budget, h)
         && (!h.success ==> NoSuccessBefore(r.calls))
  }

  lemma CountsSnoc(calls: seq<Call>, c: Call)
    ensures CountAttempts(calls + [c]) == CountAttempts(calls) + (if c.Attempted? then 1 else 0)
    ensures CountDiagnoses(calls + [c]) == CountDiagnoses(calls) + (if c.Diagnosed? then 1 else 0)
  {
    assert (calls + [c])[..|calls|] == calls;
  }

  lemma OrderSnoc(a: Actors, calls: seq<Call>, c: Call)
    requires InOrder(a, calls) && (calls != [] ==> Follows(a, calls[|calls| - 1], c))
    ensures InOrder(a, calls + [c])
  {
    hide Follows;
    var all := calls + [c];
    assert forall i :: 0 <= i < |calls| ==> all[i] == calls[i];
  }

  lemma CallSnoc(a: Actors, calls: seq<Call>, c: Call)
    ensures CountAttempts(calls + [c]) == CountAttempts(calls) + (if c.Attempted? then 1 else 0)
    ensures CountDiagnoses(calls + [c]) == CountDiagnoses(calls) + (if c.Diagnosed? then 1 else 0)
    ensures InOrder(a, calls) && (calls != [] ==> Follows(a, calls[|calls| - 1], c)) ==> InOrder(a, calls + [c])
    ensures NoSuccessBefore(calls) && (c.Attempted? ==> c.result.Raised?) ==> NoSuccessBefore(calls + [c])
  {
    hide Follows, InOrder, CountAttempts, CountDiagnoses;
    CountsSnoc(calls, c);
    if InOrder(a, calls) && (calls != [] ==> Follows(a, calls[|calls| - 1], c)) {
      OrderSnoc(a, calls, c);
    }
  }

  lemma EventSnoc(ledger: seq<LedgerEvent>, e: LedgerEvent)
    ensures AttemptEvents(ledger + [e]) == AttemptEvents(ledger) + (if IsAttemptEvent(e) then 1 else 0)
    ensures LedgerPlans(ledger + [e]) == LedgerPlans(ledger) + (if e.HealPlan? then [e.plan] else [])
  {
    assert (ledger + [e])[..|ledger|] == ledger;
  }

  lemma {:induction false} LoopAgrees(a: Actors, budget: nat, s: State, base: nat)
    requires Agrees(a, s, base) && s.healUsed <= budget
    ensures RunAgrees(a, Loop(a, budget, s), budget, base)
    ensures Loop(a, budget, s).calls == [] ==> s.calls == [] && (s.healUsed >= budget || s.pending.category == ProductDefect)
    ensures s.calls <= Loop(a, budget, s).calls
    ensures |s.calls| < |Loop(a, budget, s).calls| ==>
              Loop(a, budget, s).calls[|s.calls|].Diagnosed? && Loop(a, budget, s).calls[|s.calls|].failure == s.pending
    decreases budget - s.healUsed, 0
  {
    hide CountAttempts, CountDiagnoses, AttemptEvents, LedgerPlans;
    if s.healUsed >= budget {
      EventSnoc(s.ledger, Exhausted(s.attempts, s.healUsed, s.lastError));
    } else if s.pending.category == ProductDefect {
      EventSnoc(s.ledger, DefectFound(s.pending.message));
    } else {
      var h := s.healUsed + 1;
      var started := s.ledger + [DiagnoseStart(h, s.pending.category)];
      var answer := a.diagnose(h, s.pending);
      EventSnoc(s.ledger, DiagnoseStart(h, s.pending.category));
      CallSnoc(a, s.calls, Diagnosed(s.pending, answer));
      if answer.Planned? {
        EventSnoc(started, HealPlan(h, answer.plan));
        if !GivesUp(answer.plan) {
          var s' := s.(healUsed := h, plans := s.plans + [answer.plan], calls := s.calls + [Diagnosed(s.pending, answer)],
                       ledger := started + [HealPlan(h, answer.plan)]);
          RetryAgrees(a, budget, s', answer.plan, base);
        }
      }
    }
  }

  lemma {:induction false} RetryAgrees(a: Actors, budget: nat, s: State, plan: Plan, base: nat)
    requires s.healUsed <= budget
    requires s.attempts == CountAttempts(s.calls) == AttemptEvents(s.ledger)
    requires s.healUsed == CountDiagnoses(s.calls) == |s.plans| && s.attempts < base + s.healUsed
    requires s.plans == LedgerPlans(s.ledger) && NoSuccessBefore(s.calls) && InOrder(a, s.calls)
    requires s.calls != [] && s.calls[|s.calls| - 1] == Diagnosed(s.pending, Planned(plan)) && !GivesUp(plan)
    ensures RunAgrees(a, Retry(a, budget, s, plan), budget, base) && s.calls <= Retry(a, budget, s, plan).calls
    decreases budget - s.healUsed, 1
  {
    hide CountAttempts, CountDiagnoses, AttemptEvents, LedgerPlans;
    var answer := a.apply(s.healUsed, plan, s.pending);
    var applied := s.calls + [AppliedPlan(plan, s.pending, answer)];
    CallSnoc(a, s.calls, AppliedPlan(plan, s.pending, answer));
    match answer
    case ApplyRaised(e) =>
      var error := "apply_plan failed: " + e;
      EventSnoc(s.ledger, ApplyFailed(error));
      LoopAgrees(a, budget, s.(pending := a.classify(e), lastError := error, calls := applied,
                               ledger := s.ledger + [ApplyFailed(error)]), base);
    case Applied =>
      var n := s.attempts + 1;
      var result := a.attempt(n);
      CallSnoc(a, applied, Attempted(result));
      match result
      case Returned(v) => EventSnoc(s.ledger, HealSuccess(n, s.healUsed, plan.action));
      case Raised(e) =>
        EventSnoc(s.ledger, RetryFailed(n, a.classify(e)));
        LoopAgrees(a, budget, s.(attempts := n, pending := a.classify(e), lastError := e,
                                 calls := applied + [Attempted(result)],
                                 ledger := s.ledger + [RetryFailed(n, a.classify(e))]), base);
  }

  /** The run starts from a failure handed in and classed as a product defect. */
  predicate SeededDefect(a: Actors, skip: bool, initialError: Option<string>) {
    skip && initialError.Some? && a.classify(initialError.value).category == ProductDefect
  }

  /** At most budget diagnoses and budget + 1 attempts, or budget if a failure is handed in; every call
      in order and on the failure and the plan it is about, the first one an attempt or the diagnosis of
      the failure handed in, and the last one final unless the budget is used up; no call at all exactly if the
      failure handed in is a product defect or there is no budget for it; success exactly when the
      last call was an attempt that returned; and, unless the ledger is bypassed, its attempt and plan
      events are exactly the attempts and plans returned. */
  predicate Contract(a: Actors, budget: int, skip: bool, initialError: Option<string>, r: Run) {
    && CountAttempts(r.calls) <= Budget(budget) + 1
    && CountDiagnoses(r.calls) <= Budget(budget)
    && InOrder(a, r.calls) && EndsInTime(a, r.calls, Budget(budget))
    && (r.calls == [] <==> skip && initialError.Some? && (SeededDefect(a, skip, initialError) || Budget(budget) == 0))
    && (skip && initialError.Some? ==>
          && CountAttempts(r.calls) <= Budget(budget)
          && (r.calls != [] ==> r.calls[0].Diagnosed? && r.calls[0].failure == a.classify(initialError.value)))
    && (!(skip && initialError.Some?) ==> r.calls != [] && r.calls[0].Attempted?)
    && (SeededDefect(a, skip, initialError) ==>
          r.calls == [] && r.exit.Done? && !r.exit.result.success && r.exit.result.plans == [])
    && (r.exit.Done? ==>
          && r.exit.result.attempts == CountAttempts(r.calls)
          && |r.exit.result.plans| == CountDiagnoses(r.calls)
          && (r.exit.result.success <==> Succeeded(r.calls, r.exit.result.output))
          && (if r.exit.result.success && |r.calls| == 1 then r.exit.result.how == ByFirstPass
              else if Unledgered(budget, skip) then r.exit.result.how == Unresolved
              else HowFits(r.calls, Budget(budget), r.exit.result))
          && (!r.exit.result.success ==> NoSuccessBefore(r.calls)))
    && (Unledgered(budget, skip) ==> r.ledger == [])
    && (!Unledgered(budget, skip) ==>
          && AttemptEvents(r.ledger) == CountAttempts(r.calls)
          && (r.exit.Done? ==> LedgerPlans(r.ledger) == r.exit.result.plans))
  }

  lemma DirectContract(a: Actors, budget: int, skip: bool, initialError: Option<string>)
    requires Unledgered(budget, skip)
    ensures Contract(a, budget, skip, initialError, RunHeal(a, budget, skip, initialError))
  {
    CallSnoc(a, [], Attempted(a.attempt(1)));
    assert [] + [Attempted(a.attempt(1))] == [Attempted(a.attempt(1))];
  }

  lemma SeededContract(a: Actors, budget: int, skip: bool, error: string)
    requires !Unledgered(budget, skip) && skip
    ensures Contract(a, budget, skip, Some(error), RunHeal(a, budget, skip, Some(error)))
  {
    var f := a.classify(error);
    EventSnoc([], SeedFailure(f));
    assert [] + [SeedFailure(f)] == [SeedFailure(f)];
    LoopAgrees(a, Budget(budget), State(0, 0, f, error, [], [], [SeedFailure(f)]), 0);
    hide Loop;
  }

  lemma FirstFailureAgrees(a: Actors, e: string)
    ensures var c, f := Attempted(Raised(e)), a.classify(e);
            Agrees(a, State(1, 0, f, e, [], [c], [AttemptFailed(1, f)]), 1)
  {
    var c, f := Attempted(Raised(e)), a.classify(e);
    FirstFailureCounts(c, f);
    hide CountAttempts, CountDiagnoses, AttemptEvents, LedgerPlans, Follows;
  }

  lemma FirstFailureCounts(c: Call, f: Failure)
    requires c.Attempted?
    ensures CountAttempts([c]) == 1 && CountDiagnoses([c]) == 0
    ensures AttemptEvents([AttemptFailed(1, f)]) == 1 && LedgerPlans([AttemptFailed(1, f)]) == []
  {
    CountsSnoc([], c);
    EventSnoc([], AttemptFailed(1, f));
    assert [] + [c] == [c] && [] + [AttemptFailed(1, f)] == [AttemptFailed(1, f)];
  }

  lemma FirstSuccessCounts(v: string)
    ensures var calls := [Attempted(Returned(v))];
            CountAttempts(calls) == 1 && CountDiagnoses(calls) == 0
    ensures AttemptEvents([FirstPass(1)]) == 1 && LedgerPlans([FirstPass(1)]) == []
  {
    CountsSnoc([], Attempted(Returned(v)));
    EventSnoc([], FirstPass(1));
    assert [] + [Attempted(Returned(v))] == [Attempted(Returned(v))] && [] + [FirstPass(1)] == [FirstPass(1)];
  }

  lemma FirstSuccessContract(a: Actors, budget: int, skip: bool, initialError: Option<string>)
    requires !Unledgered(budget, skip) && !(skip && initialError.Some?) && a.attempt(1).Returned?
    ensures Contract(a, budget, skip, initialError, RunHeal(a, budget, skip, initialError))
  {
    hide Loop, CountAttempts, CountDiagnoses, AttemptEvents, LedgerPlans, Follows, HowFits;
    FirstSuccessCounts(a.attempt(1).output);
  }

  lemma FirstAttemptContract(a: Actors, budget: int, skip: bool, initialError: Option<string>)
    requires !Unledgered(budget, skip) && !(skip && initialError.Some?)
    ensures Contract(a, budget, skip, initialError, RunHeal(a, budget, skip, initialError))
  {
    hide Loop, CountAttempts, CountDiagnoses, AttemptEvents, LedgerPlans, InOrder, Agrees, Succeeded, NoSuccessBefore, EndsInTime;
    match a.attempt(1)
    case Returned(_) => FirstSuccessContract(a, budget, skip, initialError);
    case Raised(e) =>
      var f := a.classify(e);
      FirstFailureAgrees(a, e);
      LoopAgrees(a, Budget(budget), State(1, 0, f, e, [], [Attempted(Raised(e))], [AttemptFailed(1, f)]), 1);
  }

  /** The contract holds for every behaviour of the injected functions. */
  lemma HealLoopContract(a: Actors, budget: int, skip: bool, initialError: Option<string>)
    ensures Contract(a, budget, skip, initialError, RunHeal(a, budget, skip, initialError))
  {
    hide Contract, RunHeal;
    if Unledgered(budget, skip) {
      DirectContract(a, budget, skip, initialError);
    } else if skip && initialError.Some? {
      SeededContract(a, budget, skip, initialError.value);
    } else {
      FirstAttemptContract(a, budget, skip, initialError);
    }
  }
}
