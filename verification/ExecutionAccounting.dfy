/** The execution service: every case counted once, on every way out. */
module ExecutionAccounting {
  import opened PyText
  import opened Decimals
  import opened Grouping

  datatype Route = Route(executorName: string, subtypeLabel: string)
  datatype TestCase = TestCase(id: string, body: string)
  datatype Status = Passed | Failed | Error | Generated
  datatype StepStatus = StepPassed | StepFailed | StepError | StepSkipped | StepGenerated
  datatype StepResult = StepResult(number: nat, status: StepStatus, message: string)
  datatype Row = Row(executionId: nat, caseId: string, status: Status, message: string)
  datatype Execution = Execution(route: Route, total: int, passed: int, failed: int, error: int, completed: bool)
  datatype Summary = Summary(executionIds: seq<nat>, total: int, passed: int, failed: int, error: int, generated: int)

  datatype Translation = NotTranslated(reason: string) | Translated(actions: seq<string>)
  datatype Run = TimedOut | Raised(reason: string) | Finished(results: seq<StepResult>)

  /** Everything outside the service. Each call may depend on the number of rows recorded before it,
      so no call needs to behave like an earlier one. */
  datatype World = World(
    route: TestCase -> Route,
    missingExecutor: string -> Option<string>,
    setupError: (Route, nat) -> Option<string>,
    translate: (TestCase, nat) -> Translation,
    run: (seq<string>, nat) -> Run,
    generationError: (TestCase, nat) -> Option<string>)

  // ---- _summarize ----

  function WithStatus(results: seq<StepResult>, status: StepStatus): seq<StepResult> {
    if results == [] then []
    else (if results[0].status == status then [results[0]] else []) + WithStatus(results[1..], status)
  }

  function JoinMessages(results: seq<StepResult>): string {
    if results == [] then ""
    else
      (if results[0].message != "" then results[0].message else "step " + Decimal(results[0].number))
      + (if |results| == 1 then "" else "; " + JoinMessages(results[1..]))
  }

  function Summarize(results: seq<StepResult>): (Status, string) {
    var failed, errors := WithStatus(results, StepFailed), WithStatus(results, StepError);
    if errors != [] then (Error, errors[0].message)
    else if failed != [] then (Failed, Decimal(|failed|) + " step(s) failed: " + JoinMessages(failed))
    else (Passed, "")
  }

  predicate HasStatus(results: seq<StepResult>, status: StepStatus) {
    exists k :: 0 <= k < |results| && results[k].status == status
  }

  /** Result `k` is the first with the status. */
  predicate FirstWith(results: seq<StepResult>, k: int, status: StepStatus) {
    && 0 <= k < |results| && results[k].status == status
    && forall i :: 0 <= i < k ==> results[i].status != status
  }

  lemma {:induction false} WithStatusFirst(results: seq<StepResult>, status: StepStatus)
    ensures WithStatus(results, status) == [] <==> !HasStatus(results, status)
    ensures WithStatus(results, status) != [] ==>
              exists k :: FirstWith(results, k, status) && results[k] == WithStatus(results, status)[0]
  {
    if results != [] {
      WithStatusFirst(results[1..], status);
      if results[0].status == status {
        assert FirstWith(results, 0, status);
      } else if WithStatus(results[1..], status) != [] {
        var k :| FirstWith(results[1..], k, status) && results[1..][k] == WithStatus(results[1..], status)[0];
        assert results[1..][k] == results[k + 1];
        assert FirstWith(results, k + 1, status);
        assert results[k + 1].status == status;
      } else {
        assert forall k :: 0 < k < |results| ==> results[k] == results[1..][k - 1];
      }
    }
  }

  /** An error outweighs failures and is reported with the first erroneous step's message; a case
      passes if no step failed and none was erroneous, so also if steps were skipped. */
  lemma SummarizeMeaning(results: seq<StepResult>)
    ensures Summarize(results).0 == Error <==> HasStatus(results, StepError)
    ensures Summarize(results).0 == Failed <==> HasStatus(results, StepFailed) && !HasStatus(results, StepError)
    ensures Summarize(results).0 == Passed <==> !HasStatus(results, StepFailed) && !HasStatus(results, StepError)
    ensures HasStatus(results, StepError) ==>
              exists k :: FirstWith(results, k, StepError) && Summarize(results).1 == results[k].message
  {
    hide WithStatus, JoinMessages;
    WithStatusFirst(results, StepError);
    WithStatusFirst(results, StepFailed);
  }

  predicate AllPassed(results: seq<StepResult>) {
    forall k :: 0 <= k < |results| ==> results[k].status == StepPassed
  }

  /** That a case passes only if every step has passed holds exactly of the results without a skipped
      or generated step, or with a failed or erroneous one. */
  lemma PassedMeansAllPassedIff(results: seq<StepResult>)
    ensures (Summarize(results).0 == Passed ==> AllPassed(results)) <==>
            (HasStatus(results, StepSkipped) || HasStatus(results, StepGenerated)
             ==> HasStatus(results, StepFailed) || HasStatus(results, StepError))
  {
    SummarizeMeaning(results);
    hide Summarize;
    if !AllPassed(results) {
      var k :| 0 <= k < |results| && results[k].status != StepPassed;
      assert HasStatus(results, results[k].status);
    }
  }

  /** An executor that skips every step lets the case pass. */
  lemma SkippedStepsPass(results: seq<StepResult>)
    requires results != [] && forall k :: 0 <= k < |results| ==> results[k].status == StepSkipped
    ensures Summarize(results).0 == Passed && !AllPassed(results)
  {
    SummarizeMeaning(results);
    hide Summarize;
    assert results[0].status == StepSkipped;
  }

  // ---- what becomes of one case ----

  predicate GeneratesOnly(route: Route) { route.subtypeLabel == "performance" || route.subtypeLabel == "security" }

  /** The outcome of the case worked on when `n` rows are recorded, executor and setup being fine. */
  function WorkedOutcome(w: World, route: Route, c: TestCase, n: nat): (Status, string) {
    match w.translate(c, n)
    case NotTranslated(reason) => (Error, "Step translation failed: " + reason)
    case Translated(actions) =>
      if actions == [] then (Passed, "")
      else
        match w.run(actions, n)
        case TimedOut => (Error, "Execution timed out")
        case Raised(reason) => (Error, reason)
        case Finished(results) => Summarize(results)
  }

  function GeneratedOutcome(w: World, route: Route, c: TestCase, n: nat): (Status, string) {
    if route.subtypeLabel != "performance" then (Generated, "")
    else
      match w.generationError(c, n)
      case Some(reason) => (Error, "Generation failed: " + reason)
      case None => (Generated, "")
  }

  function CaseOutcome(w: World, route: Route, c: TestCase, start: nat, n: nat): (Status, string) {
    match w.missingExecutor(route.executorName)
    case Some(reason) => (Error, "No executor: " + reason)
    case None =>
      match w.setupError(route, start)
      case Some(reason) => (Error, "Setup failed: " + reason)
      case None => if GeneratesOnly(route) then GeneratedOutcome(w, route, c, n) else WorkedOutcome(w, route, c, n)
  }

  /** The executor is there and its setup goes through. */
  predicate Available(w: World, route: Route, start: nat) {
    w.missingExecutor(route.executorName).None? && w.setupError(route, start).None?
  }

  /** The results of the case's steps, if it has any and they ran to the end. */
  function StepsRun(w: World, c: TestCase, n: nat): Option<seq<StepResult>> {
    match w.translate(c, n)
    case NotTranslated(_) => None
    case Translated(actions) =>
      if actions == [] then Some([])
      else if w.run(actions, n).Finished? then Some(w.run(actions, n).results)
      else None
  }

  /** When a case ends in each status; an error in every other case. */
  lemma OutcomeMeaning(w: World, route: Route, c: TestCase, start: nat, n: nat)
    ensures var status, results := CaseOutcome(w, route, c, start, n).0, StepsRun(w, c, n);
            && (status == Generated <==>
                  Available(w, route, start) && GeneratesOnly(route)
                  && (route.subtypeLabel == "security" || w.generationError(c, n).None?))
            && (status == Passed <==>
                  Available(w, route, start) && !GeneratesOnly(route) && results.Some?
                  && !HasStatus(results.value, StepFailed) && !HasStatus(results.value, StepError))
            && (status == Failed <==>
                  Available(w, route, start) && !GeneratesOnly(route) && results.Some?
                  && HasStatus(results.value, StepFailed) && !HasStatus(results.value, StepError))
  {
    hide Summarize;
    if StepsRun(w, c, n).Some? {
      SummarizeMeaning(StepsRun(w, c, n).value);
    }
  }

  /** How a step is named in a failure message. */
  function StepName(r: StepResult): string {
    if r.message != "" then r.message else "step " + Decimal(r.number)
  }

  lemma PartContains(a: string, b: string, c: string)
    ensures Contains(a + b + c, b)
  {
    assert (a + b + c)[|a|..|a| + |b|] == b;
    assert OccursAt(a + b + c, b, |a|);
  }

  lemma {:induction false} JoinNames(results: seq<StepResult>, k: nat)
    requires k < |results|
    ensures Contains(JoinMessages(results), StepName(results[k]))
  {
    hide StepName, Contains;
    var first := FirstNamed(results);
    var rest := JoinMessages(results[1..]);
    if k == 0 {
      PartContains("", first, if |results| == 1 then "" else "; " + rest);
      assert "" + first + (if |results| == 1 then "" else "; " + rest) == JoinMessages(results);
    } else {
      JoinNames(results[1..], k - 1);
      PartContains(first + "; ", rest, "");
      assert first + "; " + rest + "" == JoinMessages(results);
      ContainsTransitive(JoinMessages(results), rest, StepName(results[k]));
    }
  }

  lemma FirstNamed(results: seq<StepResult>) returns (first: string)
    requires results != []
    ensures first == StepName(results[0])
    ensures JoinMessages(results) == first + if |results| == 1 then "" else "; " + JoinMessages(results[1..])
  {
    first := StepName(results[0]);
  }

  lemma {:induction false} WithStatusHolds(results: seq<StepResult>, status: StepStatus, k: nat) returns (i: nat)
    requires k < |results| && results[k].status == status
    ensures i < |WithStatus(results, status)| && WithStatus(results, status)[i] == results[k]
  {
    if k == 0 {
      i := 0;
    } else {
      i := WithStatusHolds(results[1..], status, k - 1);
      if results[0].status == status {
        i := i + 1;
      }
    }
  }

  /** The message of a failed case names every step that failed. */
  lemma FailureNamesSteps(results: seq<StepResult>, k: nat)
    requires Summarize(results).0 == Failed && k < |results| && results[k].status == StepFailed
    ensures Contains(Summarize(results).1, StepName(results[k]))
  {
    hide StepName, JoinMessages, Contains, WithStatus, Decimal;
    var i := WithStatusHolds(results, StepFailed, k);
    var failed := WithStatus(results, StepFailed);
    JoinNames(failed, i);
    var head := Decimal(|failed|) + " step(s) failed: ";
    PartContains(head, JoinMessages(failed), "");
    assert head + JoinMessages(failed) + "" == Summarize(results).1;
    ContainsTransitive(Summarize(results).1, JoinMessages(failed), StepName(results[k]));
  }

  /** Whatever keeps a case from being worked on is reported with it. */
  lemma ReasonIsReported(w: World, route: Route, c: TestCase, start: nat, n: nat)
    ensures var (status, message) := CaseOutcome(w, route, c, start, n);
            var missing, setup := w.missingExecutor(route.executorName), w.setupError(route, start);
            && (missing.Some? ==> status == Error && Contains(message, missing.value))
            && (missing.None? && setup.Some? ==> status == Error && Contains(message, setup.value))
            && (missing.None? && setup.None? && !GeneratesOnly(route) && w.translate(c, n).NotTranslated? ==>
                  status == Error && Contains(message, w.translate(c, n).reason))
  {
    hide Contains;
    if w.missingExecutor(route.executorName).Some? {
      ReasonBehind("No executor: ", w.missingExecutor(route.executorName).value);
    } else if w.setupError(route, start).Some? {
      ReasonBehind("Setup failed: ", w.setupError(route, start).value);
    } else if !GeneratesOnly(route) && w.translate(c, n).NotTranslated? {
      ReasonBehind("Step translation failed: ", w.translate(c, n).reason);
    }
  }

  lemma ReasonBehind(head: string, reason: string)
    ensures Contains(head + reason, reason)
  {
    PartContains(head, reason, "");
    assert head + reason + "" == head + reason;
  }

  /** The rows of a group that starts when `start` rows are recorded: one per case, in order. */
  function GroupRows(w: World, route: Route, cases: seq<TestCase>, executionId: nat, start: nat): (rows: seq<Row>)
    ensures |rows| == |cases|
  {
    if cases == [] then []
    else
      var n := |cases| - 1;
      var outcome := CaseOutcome(w, route, cases[n], start, start + n);
      GroupRows(w, route, cases[..n], executionId, start) + [Row(executionId, cases[n].id, outcome.0, outcome.1)]
  }

  // ---- counting ----

  function Count(rows: seq<Row>, status: Status): nat {
    if rows == [] then 0 else Count(rows[..|rows| - 1], status) + if rows[|rows| - 1].status == status then 1 else 0
  }

  /** The rows of one execution. */
  function Of(rows: seq<Row>, executionId: nat): seq<Row> {
    if rows == [] then []
    else Of(rows[..|rows| - 1], executionId) + if rows[|rows| - 1].executionId == executionId then [rows[|rows| - 1]] else []
  }

  function Ids(cases: seq<TestCase>): (ids: seq<string>)
    ensures |ids| == |cases|
  {
    if cases == [] then [] else Ids(cases[..|cases| - 1]) + [cases[|cases| - 1].id]
  }

  function RowIds(rows: seq<Row>): (ids: seq<string>)
    ensures |ids| == |rows|
  {
    if rows == [] then [] else RowIds(rows[..|rows| - 1]) + [rows[|rows| - 1].caseId]
  }

  lemma CountSnoc(rows: seq<Row>, r: Row, status: Status)
    ensures Count(rows + [r], status) == Count(rows, status) + if r.status == status then 1 else 0
  {
    assert (rows + [r])[..|rows|] == rows;
  }

  lemma {:induction false} CountConcat(a: seq<Row>, b: seq<Row>, status: Status)
    ensures Count(a + b, status) == Count(a, status) + Count(b, status)
    decreases |b|
  {
    if b == [] {
      assert a + b == a;
    } else {
      var n := |b| - 1;
      CountConcat(a, b[..n], status);
      assert a + b == (a + b[..n]) + [b[n]];
      CountSnoc(a + b[..n], b[n], status);
    }
  }

  /** Every row has one of the four statuses. */
  lemma {:induction false} CountsAddUp(rows: seq<Row>)
    ensures Count(rows, Passed) + Count(rows, Failed) + Count(rows, Error) + Count(rows, Generated) == |rows|
  {
    if rows != [] {
      CountsAddUp(rows[..|rows| - 1]);
    }
  }

  lemma RowIdsSnoc(rows: seq<Row>, r: Row)
    ensures RowIds(rows + [r]) == RowIds(rows) + [r.caseId]
  {
    assert (rows + [r])[..|rows|] == rows;
  }

  lemma {:induction false} RowIdsConcat(a: seq<Row>, b: seq<Row>)
    ensures RowIds(a + b) == RowIds(a) + RowIds(b)
    decreases |b|
  {
    if b == [] {
      assert a + b == a;
    } else {
      var init, r := b[..|b| - 1], b[|b| - 1];
      RowIdsConcat(a, init);
      RowIdsSnoc(a + init, r);
      hide RowIds;
      RowIdsSnoc(init, r);
      assert init + [r] == b && a + b == (a + init) + [r];
      Reassociate(RowIds(a), RowIds(init), [r.caseId]);
    }
  }

  lemma IdsSnoc(cases: seq<TestCase>, c: TestCase)
    ensures Ids(cases + [c]) == Ids(cases) + [c.id]
  {
    assert (cases + [c])[..|cases|] == cases;
  }

  lemma {:induction false} IdsConcat(a: seq<TestCase>, b: seq<TestCase>)
    ensures Ids(a + b) == Ids(a) + Ids(b)
    decreases |b|
  {
    if b == [] {
      assert a + b == a;
    } else {
      var init, c := b[..|b| - 1], b[|b| - 1];
      IdsConcat(a, init);
      IdsSnoc(a + init, c);
      hide Ids;
      IdsSnoc(init, c);
      assert init + [c] == b && a + b == (a + init) + [c];
      Reassociate(Ids(a), Ids(init), [c.id]);
    }
  }

  lemma {:induction false} OfConcat(a: seq<Row>, b: seq<Row>, e: nat)
    ensures Of(a + b, e) == Of(a, e) + Of(b, e)
    decreases |b|
  {
    if b == [] {
      assert a + b == a;
    } else {
      var n := |b| - 1;
      OfConcat(a, b[..n], e);
      assert a + b == (a + b[..n]) + [b[n]];
      assert ((a + b[..n]) + [b[n]])[..|a| + n] == a + b[..n];
    }
  }

  lemma {:induction false} OfAll(rows: seq<Row>, id: nat, e: nat)
    requires forall k :: 0 <= k < |rows| ==> rows[k].executionId == id
    ensures Of(rows, e) == if e == id then rows else []
  {
    if rows != [] {
      OfAll(rows[..|rows| - 1], id, e);
      assert rows == rows[..|rows| - 1] + [rows[|rows| - 1]];
    }
  }

  lemma {:induction false} GroupRowsHave(w: World, route: Route, cases: seq<TestCase>, executionId: nat, start: nat)
    ensures RowIds(GroupRows(w, route, cases, executionId, start)) == Ids(cases)
    ensures forall k :: 0 <= k < |cases| ==> GroupRows(w, route, cases, executionId, start)[k].executionId == executionId
  {
    hide CaseOutcome;
    if cases != [] {
      var n := |cases| - 1;
      GroupRowsHave(w, route, cases[..n], executionId, start);
      var before := GroupRows(w, route, cases[..n], executionId, start);
      assert GroupRows(w, route, cases, executionId, start)[..n] == before;
    }
  }

  // ---- the whole run ----

  function Routes(w: World, cases: seq<TestCase>): (routes: seq<Route>)
    ensures |routes| == |cases|
  {
    seq(|cases|, i requires 0 <= i < |cases| => w.route(cases[i]))
  }

  /** The rows of the groups in `order`, the first execution numbered `firstId`. */
  function AllRows(w: World, order: seq<Route>, cases: seq<TestCase>, firstId: nat, start: nat): seq<Row> {
    if order == [] then []
    else
      var n := |order| - 1;
      var before := AllRows(w, order[..n], cases, firstId, start);
      before + GroupRows(w, order[n], Pick(cases, Routes(w, cases), order[n]), firstId + n, start + |before|)
  }

  lemma AllRowsStep(w: World, order: seq<Route>, route: Route, cases: seq<TestCase>, firstId: nat, start: nat)
    ensures var done := AllRows(w, order, cases, firstId, start);
            AllRows(w, order + [route], cases, firstId, start) ==
            done + GroupRows(w, route, Pick(cases, Routes(w, cases), route), firstId + |order|, start + |done|)
  {
    hide *;
    var s := order + [route];
    var n := |s| - 1;
    assert s[..n] == order && s[n] == route && n == |order|;
    AllRowsUnfolds(w, s, cases, firstId, start);
  }

  lemma AllRowsUnfolds(w: World, order: seq<Route>, cases: seq<TestCase>, firstId: nat, start: nat)
    requires order != []
    ensures var n := |order| - 1;
            var done := AllRows(w, order[..n], cases, firstId, start);
            AllRows(w, order, cases, firstId, start) ==
            done + GroupRows(w, order[n], Pick(cases, Routes(w, cases), order[n]), firstId + n, start + |done|)
  {
    hide GroupRows, Pick, Routes;
  }

  lemma {:induction false} AllRowsIds(w: World, order: seq<Route>, cases: seq<TestCase>, firstId: nat, start: nat)
    ensures RowIds(AllRows(w, order, cases, firstId, start)) == Ids(Concat(order, cases, Routes(w, cases)))
  {
    hide Pick, RowIds, Ids, GroupRows, Routes;
    if order == [] {
      NoIds();
    } else {
      var n := |order| - 1;
      var before := AllRows(w, order[..n], cases, firstId, start);
      var group := Pick(cases, Routes(w, cases), order[n]);
      AllRowsIds(w, order[..n], cases, firstId, start);
      GroupRowsHave(w, order[n], group, firstId + n, start + |before|);
      RowIdsConcat(before, GroupRows(w, order[n], group, firstId + n, start + |before|));
      IdsConcat(Concat(order[..n], cases, Routes(w, cases)), group);
    }
  }

  lemma NoIds()
    ensures RowIds([]) == [] == Ids([])
  {
  }

  lemma {:induction false} IdsOfPick(cases: seq<TestCase>, keys: seq<Route>, k: Route)
    requires |cases| == |keys|
    ensures Ids(Pick(cases, keys, k)) == Pick(Ids(cases), keys, k)
  {
    if cases != [] {
      var n := |cases| - 1;
      IdsOfPick(cases[..n], keys[..n], k);
      var picked := Pick(cases[..n], keys[..n], k);
      assert (picked + [cases[n]])[..|picked|] == picked;
      assert picked + [] == picked;
      assert Ids(cases)[..n] == Ids(cases[..n]);
    }
  }

  /** Grouping the cases groups their ids. */
  lemma {:induction false} IdsOfConcat(order: seq<Route>, cases: seq<TestCase>, keys: seq<Route>)
    requires |cases| == |keys|
    ensures Ids(Concat(order, cases, keys)) == Concat(order, Ids(cases), keys)
  {
    hide Pick, Ids;
    if order == [] {
      NoIds();
    } else {
      var n := |order| - 1;
      IdsOfConcat(order[..n], cases, keys);
      IdsOfPick(cases, keys, order[n]);
      IdsConcat(Concat(order[..n], cases, keys), Pick(cases, keys, order[n]));
    }
  }

  /** Each case has exactly one row. */
  lemma OneRowPerCase(w: World, cases: seq<TestCase>, firstId: nat, start: nat)
    ensures var rows := AllRows(w, Distinct(Routes(w, cases)), cases, firstId, start);
            multiset(RowIds(rows)) == multiset(Ids(cases)) && |rows| == |cases|
  {
    var routes := Routes(w, cases);
    AllRowsIds(w, Distinct(routes), cases, firstId, start);
    IdsOfConcat(Distinct(routes), cases, routes);
    GroupedPermutes(Ids(cases), routes);
    assert |multiset(Grouped(Ids(cases), routes))| == |multiset(Ids(cases))|;
  }

  /** The record of an execution counts exactly its own rows, and says nothing of generated ones. */
  predicate Accounted(e: Execution, rows: seq<Row>) {
    && e.completed && e.total == |rows|
    && e.passed == Count(rows, Passed) && e.failed == Count(rows, Failed) && e.error == Count(rows, Error)
  }

  function Recorded(route: Route, rows: seq<Row>): Execution {
    Execution(route, |rows|, Count(rows, Passed), Count(rows, Failed), Count(rows, Error), true)
  }

  function SummaryOf(executionId: nat, rows: seq<Row>): Summary {
    Summary([executionId], |rows|, Count(rows, Passed), Count(rows, Failed), Count(rows, Error), Count(rows, Generated))
  }

  predicate Tallies(rows: seq<Row>, passed: int, failed: int, error: int, generated: int) {
    && passed == Count(rows, Passed) && failed == Count(rows, Failed)
    && error == Count(rows, Error) && generated == Count(rows, Generated)
  }

  function ErrorRows(executionId: nat, cases: seq<TestCase>, message: string): (rows: seq<Row>)
    ensures |rows| == |cases|
  {
    if cases == [] then []
    else ErrorRows(executionId, cases[..|cases| - 1], message) + [Row(executionId, cases[|cases| - 1].id, Error, message)]
  }

  lemma WorkedIsOutcome(w: World, route: Route, c: TestCase, start: nat, n: nat)
    requires !GeneratesOnly(route) && w.missingExecutor(route.executorName).None? && w.setupError(route, start).None?
    ensures CaseOutcome(w, route, c, start, n) == WorkedOutcome(w, route, c, n)
  {
    hide WorkedOutcome;
  }

  /** The counter of `counted` after a row of some status. */
  function Moved(n: int, counted: Status, status: Status): int { if status == counted then n + 1 else n }

  /** One more row moves the counter of its status. */
  lemma TallyMoves(rows: seq<Row>, r: Row, passed: int, failed: int, error: int, generated: int)
    requires Tallies(rows, passed, failed, error, generated)
    ensures Tallies(rows + [r], Moved(passed, Passed, r.status), Moved(failed, Failed, r.status),
                    Moved(error, Error, r.status), Moved(generated, Generated, r.status))
  {
    hide Count;
    CountSnoc(rows, r, Passed);
    CountSnoc(rows, r, Failed);
    CountSnoc(rows, r, Error);
    CountSnoc(rows, r, Generated);
  }

  lemma RowAdded(w: World, route: Route, cases: seq<TestCase>, executionId: nat, start: nat, i: nat)
    requires i < |cases|
    ensures var o := CaseOutcome(w, route, cases[i], start, start + i);
            GroupRows(w, route, cases[..i + 1], executionId, start) ==
            GroupRows(w, route, cases[..i], executionId, start) + [Row(executionId, cases[i].id, o.0, o.1)]
  {
    hide CaseOutcome;
    assert cases[..i + 1][..i] == cases[..i];
  }

  /** What one turn of the working loop adds and counts. */
  lemma WorkedRow(w: World, route: Route, cases: seq<TestCase>, executionId: nat, start: nat, i: nat, passed: int, failed: int, error: int)
    requires i < |cases| && !GeneratesOnly(route)
    requires w.missingExecutor(route.executorName).None? && w.setupError(route, start).None?
    requires Tallies(GroupRows(w, route, cases[..i], executionId, start), passed, failed, error, 0)
    ensures var o := WorkedOutcome(w, route, cases[i], start + i);
            && GroupRows(w, route, cases[..i + 1], executionId, start) ==
               GroupRows(w, route, cases[..i], executionId, start) + [Row(executionId, cases[i].id, o.0, o.1)]
            && (o.0 != Generated ==>
                  Tallies(GroupRows(w, route, cases[..i + 1], executionId, start),
                          Moved(passed, Passed, o.0), Moved(failed, Failed, o.0), Moved(error, Error, o.0), 0))
  {
    hide GroupRows, Tallies, WorkedOutcome, CaseOutcome;
    RowAdded(w, route, cases, executionId, start, i);
    WorkedIsOutcome(w, route, cases[i], start, start + i);
    var o := WorkedOutcome(w, route, cases[i], start + i);
    TallyMoves(GroupRows(w, route, cases[..i], executionId, start), Row(executionId, cases[i].id, o.0, o.1), passed, failed, error, 0);
  }

  /** The working loop's state after `cases`, from the rows `rows0`. */
  predicate Worked(w: World, route: Route, cases: seq<TestCase>, executionId: nat, rows0: seq<Row>, rows: seq<Row>,
                   passed: int, failed: int, error: int)
  {
    var added := GroupRows(w, route, cases, executionId, |rows0|);
    rows == rows0 + added && Tallies(added, passed, failed, error, 0)
  }

  lemma NothingWorked(w: World, route: Route, cases: seq<TestCase>, executionId: nat, rows: seq<Row>)
    requires cases == []
    ensures Worked(w, route, cases, executionId, rows, rows, 0, 0, 0)
  {
    assert rows + [] == rows;
  }

  lemma WorkedMeans(w: World, route: Route, cases: seq<TestCase>, executionId: nat, rows0: seq<Row>, rows: seq<Row>,
                    passed: int, failed: int, error: int)
    requires Worked(w, route, cases, executionId, rows0, rows, passed, failed, error)
    ensures var added := GroupRows(w, route, cases, executionId, |rows0|);
            rows == rows0 + added && Tallies(added, passed, failed, error, 0)
  {
  }

  lemma WorkedStep(w: World, route: Route, cases: seq<TestCase>, executionId: nat, rows0: seq<Row>, rows: seq<Row>,
                   passed: int, failed: int, error: int, i: nat)
    requires i < |cases| && !GeneratesOnly(route)
    requires w.missingExecutor(route.executorName).None? && w.setupError(route, |rows0|).None?
    requires Worked(w, route, cases[..i], executionId, rows0, rows, passed, failed, error)
    ensures var o := WorkedOutcome(w, route, cases[i], |rows|);
            o.0 != Generated ==>
              Worked(w, route, cases[..i + 1], executionId, rows0, rows + [Row(executionId, cases[i].id, o.0, o.1)],
                     Moved(passed, Passed, o.0), Moved(failed, Failed, o.0), Moved(error, Error, o.0))
  {
    hide GroupRows, Tallies, WorkedOutcome, Moved, GeneratesOnly;
    var added, o := GroupRows(w, route, cases[..i], executionId, |rows0|), WorkedOutcome(w, route, cases[i], |rows|);
    assert |rows| == |rows0| + i;
    WorkedRow(w, route, cases, executionId, |rows0|, i, passed, failed, error);
    Reassociate(rows0, added, [Row(executionId, cases[i].id, o.0, o.1)]);
  }

  /** Without executor or setup all cases of the group are errors. */
  lemma {:induction false} AllErrors(w: World, route: Route, cases: seq<TestCase>, executionId: nat, start: nat, message: string)
    requires forall c, n :: CaseOutcome(w, route, c, start, n) == (Error, message)
    ensures GroupRows(w, route, cases, executionId, start) == ErrorRows(executionId, cases, message)
    ensures Tallies(ErrorRows(executionId, cases, message), 0, 0, |cases|, 0)
  {
    hide CaseOutcome;
    if cases != [] {
      AllErrors(w, route, cases[..|cases| - 1], executionId, start, message);
      var before := ErrorRows(executionId, cases[..|cases| - 1], message);
      assert ErrorRows(executionId, cases, message)[..|before|] == before;
    }
  }

  lemma NoneWorked(w: World, route: Route, cases: seq<TestCase>, executionId: nat, start: nat, message: string)
    requires var missing, broken := w.missingExecutor(route.executorName), w.setupError(route, start);
             && (missing.Some? || broken.Some?)
             && message == if missing.Some? then "No executor: " + missing.value else "Setup failed: " + broken.value
    ensures GroupRows(w, route, cases, executionId, start) == ErrorRows(executionId, cases, message)
    ensures Tallies(ErrorRows(executionId, cases, message), 0, 0, |cases|, 0)
  {
    AllErrors(w, route, cases, executionId, start, message);
  }

  /** `count` consecutive numbers */
  function Numbers(first: nat, count: nat): seq<nat> {
    if count == 0 then [] else Numbers(first, count - 1) + [first + count - 1]
  }

  predicate AllAccounted(executions: seq<Execution>, firstId: nat, rows: seq<Row>) {
    && (forall e :: firstId <= e < |executions| ==> Accounted(executions[e], Of(rows, e)))
    && (forall k :: 0 <= k < |rows| ==> rows[k].executionId < |executions|)
  }

  lemma {:induction false} OfNone(rows: seq<Row>, e: nat)
    requires forall k :: 0 <= k < |rows| ==> rows[k].executionId != e
    ensures Of(rows, e) == []
  {
    if rows != [] {
      OfNone(rows[..|rows| - 1], e);
    }
  }

  lemma AccountedGrows(executions: seq<Execution>, firstId: nat, before: seq<Row>, route: Route, group: seq<Row>)
    requires AllAccounted(executions, firstId, before) && firstId <= |executions|
    requires forall k :: 0 <= k < |group| ==> group[k].executionId == |executions|
    ensures AllAccounted(executions + [Recorded(route, group)], firstId, before + group)
  {
    hide Of, Count;
    var all := executions + [Recorded(route, group)];
    forall e | firstId <= e < |all| ensures Accounted(all[e], Of(before + group, e)) {
      OfConcat(before, group, e);
      OfAll(group, |executions|, e);
      if e == |executions| {
        OfNone(before, e);
        assert [] + group == group;
      } else {
        assert Of(before, e) + [] == Of(before, e);
      }
    }
  }

  /** What the groups run so far have left: `done` are their rows, `i` is their number. */
  predicate Progress(executions: seq<Execution>, firstId: nat, summary: Summary, total: int, done: seq<Row>, i: nat) {
    && |executions| == firstId + i
    && AllAccounted(executions, firstId, done)
    && summary == Summary(Numbers(firstId, i), total, Count(done, Passed), Count(done, Failed), Count(done, Error), Count(done, Generated))
  }

  function Absorb(s: Summary, g: Summary): Summary {
    Summary(s.executionIds + g.executionIds, s.total, s.passed + g.passed, s.failed + g.failed, s.error + g.error, s.generated + g.generated)
  }

  lemma ProgressStep(executions: seq<Execution>, firstId: nat, summary: Summary, total: int, done: seq<Row>, i: nat, route: Route, added: seq<Row>)
    requires Progress(executions, firstId, summary, total, done, i)
    requires forall k :: 0 <= k < |added| ==> added[k].executionId == |executions|
    ensures Progress(executions + [Recorded(route, added)], firstId, Absorb(summary, SummaryOf(|executions|, added)), total, done + added, i + 1)
  {
    hide AllAccounted, Count;
    AccountedGrows(executions, firstId, done, route, added);
    CountConcat(done, added, Passed);
    CountConcat(done, added, Failed);
    CountConcat(done, added, Error);
    CountConcat(done, added, Generated);
  }

  /** The state after the groups in `order`, from rows `rows0` and executions `executions0`. */
  predicate Ran(w: World, order: seq<Route>, cases: seq<TestCase>, rows0: seq<Row>, executions0: seq<Execution>,
                rows: seq<Row>, executions: seq<Execution>, summary: Summary)
  {
    |executions| == |executions0| + |order| &&
    var done := AllRows(w, order, cases, |executions0|, |rows0|);
    rows == rows0 + done && executions0 == executions[..|executions0|] && Progress(executions, |executions0|, summary, |cases|, done, |order|)
  }

  lemma RanNow(w: World, order: seq<Route>, route: Route, cases: seq<TestCase>, rows0: seq<Row>, executions0: seq<Execution>,
               rows: seq<Row>, executions: seq<Execution>, added: seq<Row>, e: Execution, summary: Summary)
    requires |executions| == |executions0| + |order| && executions0 == executions[..|executions0|]
    requires var done := AllRows(w, order, cases, |executions0|, |rows0|);
             && rows == rows0 + done && AllRows(w, order + [route], cases, |executions0|, |rows0|) == done + added
             && Progress(executions + [e], |executions0|, summary, |cases|, done + added, |order| + 1)
    ensures Ran(w, order + [route], cases, rows0, executions0, rows + added, executions + [e], summary)
  {
    hide AllRows, Progress;
    assert rows + added == rows0 + (AllRows(w, order, cases, |executions0|, |rows0|) + added);
    assert (executions + [e])[..|executions0|] == executions0;
    assert |order + [route]| == |order| + 1;
  }

  lemma RanStep(w: World, order: seq<Route>, route: Route, cases: seq<TestCase>, rows0: seq<Row>, executions0: seq<Execution>,
                rows: seq<Row>, executions: seq<Execution>, summary: Summary)
    requires Ran(w, order, cases, rows0, executions0, rows, executions, summary)
    ensures var added := GroupRows(w, route, Pick(cases, Routes(w, cases), route), |executions|, |rows|);
            Ran(w, order + [route], cases, rows0, executions0, rows + added, executions + [Recorded(route, added)],
                Absorb(summary, SummaryOf(|executions|, added)))
  {
    hide AllRows, Pick, Routes, GroupRows, Progress, Recorded, SummaryOf, Absorb, RowIds, Ids;
    var done := AllRows(w, order, cases, |executions0|, |rows0|);
    assert |rows| == |rows0| + |done|;
    var added := GroupRows(w, route, Pick(cases, Routes(w, cases), route), |executions|, |rows|);
    AllRowsStep(w, order, route, cases, |executions0|, |rows0|);
    GroupRowsHave(w, route, Pick(cases, Routes(w, cases), route), |executions|, |rows|);
    ProgressStep(executions, |executions0|, summary, |cases|, done, |order|, route, added);
    RanNow(w, order, route, cases, rows0, executions0, rows, executions, added, Recorded(route, added),
           Absorb(summary, SummaryOf(|executions|, added)));
  }

  lemma NothingToRun(executions: seq<Execution>, total: int)
    ensures Progress(executions, |executions|, Summary([], total, 0, 0, 0, 0), total, [], 0)
  {
  }

  lemma NothingRan(w: World, cases: seq<TestCase>, rows: seq<Row>, executions: seq<Execution>)
    ensures Ran(w, [], cases, rows, executions, rows, executions, Summary([], |cases|, 0, 0, 0, 0))
  {
    NothingToRun(executions, |cases|);
    assert rows + [] == rows;
  }

  lemma NoCases(w: World, firstId: nat, start: nat)
    ensures AllRows(w, Distinct(Routes(w, [])), [], firstId, start) == [] && RowIds([]) == Ids([])
  {
    assert Routes(w, []) == [];
  }

  class ExecutionService {
    const world: World
    var rows: seq<Row>
    var executions: seq<Execution>

    constructor (world: World)
      ensures this.world == world && rows == [] && executions == []
    {
      this.world := world;
      rows := [];
      executions := [];
    }

    /** `_mark_all_error` */
    method MarkAllError(executionId: nat, cases: seq<TestCase>, message: string)
      modifies this
      ensures executions == old(executions)
      ensures rows == old(rows) + ErrorRows(executionId, cases, message)
    {
      for i := 0 to |cases|
        invariant executions == old(executions)
        invariant rows == old(rows) + ErrorRows(executionId, cases[..i], message)
      {
        assert cases[..i + 1][..i] == cases[..i];
        rows := rows + [Row(executionId, cases[i].id, Error, message)];
      }
      assert cases[..|cases|] == cases;
    }

    /** `_execute_generated_group` */
    method ExecuteGeneratedGroup(route: Route, cases: seq<TestCase>, executionId: nat) returns (summary: Summary)
      requires GeneratesOnly(route)
      requires world.missingExecutor(route.executorName).None? && world.setupError(route, |rows|).None?
      requires executionId == |executions| - 1 && executions[executionId] == Execution(route, |cases|, 0, 0, 0, false)
      modifies this
      ensures var added := GroupRows(world, route, cases, executionId, |old(rows)|);
              && rows == old(rows) + added
              && executions == old(executions)[executionId := Recorded(route, added)]
              && summary == SummaryOf(executionId, added)
    {
      var generated, error := 0, 0;
      ghost var start := |rows|;
      for i := 0 to |cases|
        invariant rows == old(rows) + GroupRows(world, route, cases[..i], executionId, start)
        invariant executions == old(executions)
        invariant Tallies(GroupRows(world, route, cases[..i], executionId, start), 0, 0, error, generated)
      {
        var outcome := GeneratedOutcome(world, route, cases[i], |rows|);
        RowAdded(world, route, cases, executionId, start, i);
        ghost var before := GroupRows(world, route, cases[..i], executionId, start);
        assert outcome == CaseOutcome(world, route, cases[i], start, start + i);
        TallyMoves(before, Row(executionId, cases[i].id, outcome.0, outcome.1), 0, 0, error, generated);
        if outcome.0 == Generated {
          generated := generated + 1;
        } else {
          error := error + 1;
        }
        rows := rows + [Row(executionId, cases[i].id, outcome.0, outcome.1)];
      }
      assert cases[..|cases|] == cases;
      executions := executions[executionId := executions[executionId].(passed := 0, failed := 0, error := error, completed := true)];
      summary := Summary([executionId], |cases|, 0, 0, error, generated);
    }

    /** One turn of `_execute_group`'s loop, with the counters it moves. */
    method WorkCase(route: Route, c: TestCase, executionId: nat, passed0: int, failed0: int, error0: int)
      returns (passed: int, failed: int, error: int)
      modifies this
      ensures executions == old(executions)
      ensures var o := WorkedOutcome(world, route, c, |old(rows)|);
              && rows == old(rows) + [Row(executionId, c.id, o.0, o.1)]
              && o.0 != Generated
              && passed == Moved(passed0, Passed, o.0) && failed == Moved(failed0, Failed, o.0) && error == Moved(error0, Error, o.0)
    {
      hide WithStatus, JoinMessages;
      passed, failed, error := passed0, failed0, error0;
      var translation := world.translate(c, |rows|);
      if translation.NotTranslated? {
        rows := rows + [Row(executionId, c.id, Error, "Step translation failed: " + translation.reason)];
        error := error + 1;
        return;
      }
      if translation.actions == [] {
        rows := rows + [Row(executionId, c.id, Passed, "")];
        passed := passed + 1;
        return;
      }
      match world.run(translation.actions, |rows|) {
        case TimedOut =>
          rows := rows + [Row(executionId, c.id, Error, "Execution timed out")];
          error := error + 1;
        case Raised(reason) =>
          rows := rows + [Row(executionId, c.id, Error, reason)];
          error := error + 1;
        case Finished(results) =>
          var (status, message) := Summarize(results);
          rows := rows + [Row(executionId, c.id, status, message)];
          if status == Passed {
            passed := passed + 1;
          } else if status == Failed {
            failed := failed + 1;
          } else {
            error := error + 1;
          }
      }
    }

    /** The loop of `_execute_group` over the cases. */
    method WorkCases(route: Route, cases: seq<TestCase>, executionId: nat) returns (passed: int, failed: int, error: int)
      requires !GeneratesOnly(route)
      requires world.missingExecutor(route.executorName).None? && world.setupError(route, |rows|).None?
      modifies this
      ensures executions == old(executions)
      ensures var added := GroupRows(world, route, cases, executionId, |old(rows)|);
              rows == old(rows) + added && Tallies(added, passed, failed, error, 0)
    {
      NothingWorked(world, route, cases[..0], executionId, rows);
      hide *;
      passed, failed, error := 0, 0, 0;
      for i := 0 to |cases|
        invariant executions == old(executions)
        invariant Worked(world, route, cases[..i], executionId, old(rows), rows, passed, failed, error)
      {
        WorkedStep(world, route, cases, executionId, old(rows), rows, passed, failed, error, i);
        passed, failed, error := WorkCase(route, cases[i], executionId, passed, failed, error);
      }
      assert cases[..|cases|] == cases;
      WorkedMeans(world, route, cases, executionId, old(rows), rows, passed, failed, error);
    }

    /** `_execute_group` */
    method ExecuteGroup(route: Route, cases: seq<TestCase>) returns (summary: Summary)
      modifies this
      ensures var added := GroupRows(world, route, cases, |old(executions)|, |old(rows)|);
              && rows == old(rows) + added
              && executions == old(executions) + [Recorded(route, added)]
              && summary == SummaryOf(|old(executions)|, added)
    {
      hide GroupRows, Count, CaseOutcome, GeneratesOnly;
      var executionId := |executions|;
      executions := executions + [Execution(route, |cases|, 0, 0, 0, false)];
      var missing := world.missingExecutor(route.executorName);
      var broken := world.setupError(route, |rows|);
      if missing.Some? || broken.Some? {
        var message := if missing.Some? then "No executor: " + missing.value else "Setup failed: " + broken.value;
        NoneWorked(world, route, cases, executionId, |rows|, message);
        MarkAllError(executionId, cases, message);
        executions := executions[executionId := executions[executionId].(error := |cases|, completed := true)];
        return Summary([executionId], |cases|, 0, 0, |cases|, 0);
      }
      if GeneratesOnly(route) {
        summary := ExecuteGeneratedGroup(route, cases, executionId);
        return;
      }
      var passed, failed, error := WorkCases(route, cases, executionId);
      executions := executions[executionId := executions[executionId].(passed := passed, failed := failed, error := error, completed := true)];
      summary := Summary([executionId], |cases|, passed, failed, error, 0);
    }

    /** The first loop of `execute_cases`. */
    method GroupByRoute(cases: seq<TestCase>) returns (groups: map<Route, seq<TestCase>>, order: seq<Route>)
      ensures Indexed(groups, order, cases, Routes(world, cases))
    {
      hide Indexed;
      groups, order := map[], [];
      ghost var routes := Routes(world, cases);
      NoGroups(groups, order, cases[..0], routes[..0]);
      for i := 0 to |cases|
        invariant Indexed(groups, order, cases[..i], routes[..i])
      {
        assert cases[..i + 1] == cases[..i] + [cases[i]] && routes[..i + 1] == routes[..i] + [routes[i]];
        groups, order := AddToGroup(groups, order, cases[i], world.route(cases[i]), cases[..i], routes[..i]);
      }
      assert cases[..|cases|] == cases && routes[..|cases|] == routes;
    }

    /** The second loop of `execute_cases`. */
    method RunGroups(groups: map<Route, seq<TestCase>>, order: seq<Route>, cases: seq<TestCase>) returns (summary: Summary)
      requires Indexed(groups, order, cases, Routes(world, cases))
      modifies this
      ensures Ran(world, order, cases, old(rows), old(executions), rows, executions, summary)
    {
      NothingRan(world, cases, rows, executions);
      hide Ran, GroupRows, Recorded, SummaryOf, Absorb, Pick, Routes;
      summary := Summary([], |cases|, 0, 0, 0, 0);
      for i := 0 to |order|
        invariant Ran(world, order[..i], cases, old(rows), old(executions), rows, executions, summary)
      {
        RanStep(world, order[..i], order[i], cases, old(rows), old(executions), rows, executions, summary);
        assert order[..i] + [order[i]] == order[..i + 1] && order[i] in order;
        var group := ExecuteGroup(order[i], groups[order[i]]);
        summary := Absorb(summary, group);
      }
      assert order[..|order|] == order;
    }

    /** `execute_cases`: every case gets one row and is counted once, under the status of its row;
        each execution's record counts its own rows. */
    method ExecuteCases(cases: seq<TestCase>) returns (summary: Summary)
      modifies this
      ensures rows == old(rows) + AllRows(world, Distinct(Routes(world, cases)), cases, |old(executions)|, |old(rows)|)
      ensures multiset(RowIds(rows[|old(rows)|..])) == multiset(Ids(cases))
      ensures summary.total == |cases| == summary.passed + summary.failed + summary.error + summary.generated
      ensures summary.passed == Count(rows[|old(rows)|..], Passed)
      ensures summary.failed == Count(rows[|old(rows)|..], Failed)
      ensures summary.error == Count(rows[|old(rows)|..], Error)
      ensures summary.generated == Count(rows[|old(rows)|..], Generated)
      ensures old(executions) <= executions
      ensures summary.executionIds == Numbers(|old(executions)|, |executions| - |old(executions)|)
      ensures forall e :: |old(executions)| <= e < |executions| ==> Accounted(executions[e], Of(rows[|old(rows)|..], e))
    {
      ghost var firstId, start := |executions|, |rows|;
      if cases == [] {
        NothingToRun(executions, 0);
        NoCases(world, firstId, start);
        assert rows[start..] == [];
        return Summary([], 0, 0, 0, 0, 0);
      }
      hide GroupRows, Count, Accounted, Of, Distinct, AllRows, Routes, Ids, RowIds;
      var groups, order := GroupByRoute(cases);
      summary := RunGroups(groups, order, cases);
      ghost var done := AllRows(world, order, cases, firstId, start);
      assert rows[start..] == done;
      OneRowPerCase(world, cases, firstId, start);
      CountsAddUp(done);
    }
  }
}
