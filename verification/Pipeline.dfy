/** The review-gated pipeline: the state machine, `run_pipeline`, `continue_pipeline`, and what holds
    over every sequence of calls. */
module Pipeline {
  import opened PyText

  /** STATES, plus any other text a row may hold. */
  datatype Stage =
    | Pending | Ingestion | Parsing | Analysis | Generation | Review | Execution | Reporting | Regression
    | Completed | Failed | Cancelled | Paused | Unrecognized

  datatype CaseStatus = Draft | PendingReview | ApprovedCase | RejectedCase

  /** What happened to a pipeline, in order: stage logs, entries into review, human decisions. */
  datatype Event =
    | Log(stage: Stage, ok: bool)
    | EnterReview
    | Approve(cases: seq<CaseStatus>)
    | Reject

  datatype Status = New | Running | At(stage: Stage)

  /** The pipeline's row. */
  datatype Row = Row(stage: Stage, status: Status, trace: seq<Event>)

  datatype Interrupt = NoInterrupt | UserPaused | UserCancelled

  /** A stage succeeds, fails, raises before it runs, or the commit after its log raises. */
  datatype Outcome = Succeeds | Fails | Raises | RaisesAfterLog

  /** What one turn of the loop meets; the review answers apply when the turn enters review. */
  datatype Turn = Turn(interrupt: Interrupt, outcome: Outcome, reviewOk: bool, reviewRaises: bool)

  // ---- PipelineStateMachine ----

  predicate Terminal(s: Stage) { s == Completed || s == Failed || s == Cancelled }

  predicate Active(s: Stage) {
    s == Ingestion || s == Parsing || s == Analysis || s == Generation || s == Review
    || s == Execution || s == Reporting || s == Regression
  }

  /** STAGE_MAP has an implementation for every active state. */
  predicate HasStage(s: Stage) { Active(s) }

  /** `advance`: the destination, or None where the trigger is not allowed. */
  function AdvanceTo(s: Stage): Option<Stage> {
    match s
    case Ingestion => Some(Parsing)
    case Parsing => Some(Analysis)
    case Analysis => Some(Generation)
    case Generation => Some(Review)
    case Review => Some(Execution)
    case Execution => Some(Reporting)
    case Reporting => Some(Regression)
    case Regression => Some(Completed)
    case _ => None
  }

  class PipelineStateMachine {
    var state: Stage
    var previous: Option<Stage>
    var stageSuccess: bool
    var reviewApproved: bool

    constructor (state: Stage)
      ensures this.state == state && previous == None && stageSuccess && !reviewApproved
    {
      this.state := state;
      previous := None;
      stageSuccess := true;
      reviewApproved := false;
    }

    method Start() returns (ok: bool)
      modifies `state
      ensures ok <==> old(state) == Pending
      ensures state == if ok then Ingestion else old(state)
    {
      ok := state == Pending;
      if ok {
        state := Ingestion;
      }
    }

    method Advance() returns (ok: bool)
      modifies `state
      ensures ok <==> AdvanceTo(old(state)).Some?
      ensures state ==
              if ok && (if old(state) == Review then reviewApproved else stageSuccess)
              then AdvanceTo(old(state)).value else old(state)
    {
      var dest := AdvanceTo(state);
      ok := dest.Some?;
      if ok && (if state == Review then reviewApproved else stageSuccess) {
        state := dest.value;
      }
    }

    method RejectReview() returns (ok: bool)
      modifies `state
      ensures ok <==> old(state) == Review
      ensures state == if ok then Generation else old(state)
    {
      ok := state == Review;
      if ok {
        state := Generation;
      }
    }

    method Error() returns (ok: bool)
      modifies `state
      ensures ok <==> Active(old(state))
      ensures state == if ok then Failed else old(state)
    {
      ok := Active(state);
      if ok {
        state := Failed;
      }
    }

    method Pause() returns (ok: bool)
      modifies `state, `previous
      ensures ok <==> Active(old(state))
      ensures if ok then state == Paused && previous == Some(old(state)) else state == old(state) && previous == old(previous)
    {
      ok := Active(state);
      if ok {
        previous, state := Some(state), Paused;
      }
    }

    /** Resuming returns to the state that was paused. */
    method Resume() returns (ok: bool)
      modifies `state
      ensures ok <==> old(state) == Paused
      ensures state == if ok then (if previous.Some? then previous.value else Pending) else old(state)
    {
      ok := state == Paused;
      if ok {
        state := if previous.Some? then previous.value else Pending;
      }
    }
  }

  // ---- run_pipeline ----

  function Rank(s: Stage): nat {
    match s
    case Pending => 9
    case Ingestion => 8
    case Parsing => 7
    case Analysis => 6
    case Generation => 5
    case Review => 4
    case Execution => 3
    case Reporting => 2
    case Regression => 1
    case _ => 0
  }

  /** The loop from FSM state `s` on, at its turn number `i`. */
  function RunLoop(s: Stage, row: Row, turns: nat -> Turn, i: nat): Row
    decreases Rank(s)
  {
    var turn := turns(i);
    if Terminal(s) || s == Review then Row(s, At(s), row.trace)
    else if turn.interrupt == UserCancelled then Row(s, At(Cancelled), row.trace)
    else if turn.interrupt == UserPaused then Row(s, At(Paused), row.trace)
    else if !HasStage(s) then Row(s, At(s), row.trace)
    else
      match turn.outcome
      case Raises => row.(status := At(Failed))
      case Fails => Row(s, At(Failed), row.trace + [Log(s, false)])
      case RaisesAfterLog => row.(status := At(Failed), trace := row.trace + [Log(s, true)])
      case Succeeds =>
        var next := AdvanceTo(s).value;
        var logged := row.trace + [Log(s, true)];
        if next == Review then
          var entered := logged + [EnterReview];
          if turn.reviewRaises then Row(Review, At(Failed), entered)
          else Row(Review, At(Paused), entered + [Log(Review, turn.reviewOk)])
        else RunLoop(next, Row(next, row.status, logged), turns, i + 1)
  }

  function Entry(s: Stage): Stage {
    if s == Unrecognized then Failed else if s == Pending then Ingestion else s
  }

  function RunPipeline(row: Row, turns: nat -> Turn): Row {
    var stored := if row.stage == Unrecognized then Failed else row.stage;
    RunLoop(Entry(row.stage), Row(stored, Running, row.trace), turns, 0)
  }

  // ---- continue_pipeline ----

  function CountUnapproved(cases: seq<CaseStatus>): nat {
    if cases == [] then 0
    else (if cases[0] == RejectedCase || cases[0] == ApprovedCase then 0 else 1) + CountUnapproved(cases[1..])
  }

  function ContinuePipeline(row: Row, approved: bool, cases: seq<CaseStatus>, turns: nat -> Turn): Row {
    if !approved then RunPipeline(Row(Generation, Running, row.trace + [Reject]), turns)
    else if CountUnapproved(cases) > 0 then row
    else RunPipeline(Row(Execution, Running, row.trace + [Approve(cases)]), turns)
  }

  class Orchestrator {
    var stage: Stage
    var status: Status
    var trace: seq<Event>

    constructor ()
      ensures Stored() == Row(Pending, New, [])
    {
      stage, status, trace := Pending, New, [];
    }

    ghost function Stored(): Row
      reads this
    {
      Row(stage, status, trace)
    }

    /** The rest of turn `i`: the stage is run and logged, and the machine advances or fails. */
    method RunStage(fsm: PipelineStateMachine, turns: nat -> Turn, i: nat) returns (stop: bool)
      requires HasStage(fsm.state) && !Terminal(fsm.state) && fsm.state != Review && turns(i).interrupt == NoInterrupt
      modifies this, fsm
      ensures var before := old(RunLoop(fsm.state, Stored(), turns, i));
              if stop then Stored() == before
              else RunLoop(fsm.state, Stored(), turns, i + 1) == before && Rank(fsm.state) < old(Rank(fsm.state))
    {
      var turn, name := turns(i), fsm.state;
      if turn.outcome == Raises {
        status := At(Failed);
        return true;
      }
      trace := trace + [Log(name, turn.outcome != Fails)];
      if turn.outcome == RaisesAfterLog {
        status := At(Failed);
        return true;
      }
      if turn.outcome == Fails {
        fsm.stageSuccess := false;
        var ok := fsm.Error();
        stage, status := name, At(Failed);
        return true;
      }
      fsm.stageSuccess := true;
      var ok := fsm.Advance();
      stage := fsm.state;
      if fsm.state == Review {
        trace := trace + [EnterReview];
        if turn.reviewRaises {
          status := At(Failed);
          return true;
        }
        trace := trace + [Log(Review, turn.reviewOk)];
        stage, status := Review, At(Paused);
        return true;
      }
      return false;
    }

    method Run(turns: nat -> Turn)
      modifies this
      ensures Stored() == RunPipeline(old(Stored()), turns)
    {
      var fsm := new PipelineStateMachine(stage);
      if stage == Unrecognized {
        fsm.state := Failed;
        stage := Failed;
      }
      status := Running;
      if fsm.state == Pending {
        var ok := fsm.Start();
      }
      ghost var goal := RunPipeline(old(Stored()), turns);
      assert goal == RunLoop(fsm.state, Stored(), turns, 0);
      hide RunPipeline;
      var i := 0;
      while !Terminal(fsm.state) && fsm.state != Review
        invariant fresh(fsm)
        invariant RunLoop(fsm.state, Stored(), turns, i) == goal
        decreases Rank(fsm.state)
      {
        var turn := turns(i);
        if turn.interrupt == UserCancelled {
          status, stage := At(Cancelled), fsm.state;
          return;
        }
        if turn.interrupt == UserPaused {
          status, stage := At(Paused), fsm.state;
          return;
        }
        if !HasStage(fsm.state) {
          break;
        }
        var stop := RunStage(fsm, turns, i);
        if stop {
          return;
        }
        i := i + 1;
      }
      status, stage := At(fsm.state), fsm.state;
    }

    method Continue(approved: bool, cases: seq<CaseStatus>, turns: nat -> Turn)
      modifies this
      ensures Stored() == ContinuePipeline(old(Stored()), approved, cases, turns)
    {
      var fsm := new PipelineStateMachine(Review);
      if approved {
        var notApproved := CountUnapproved(cases);
        if notApproved > 0 {
          return;
        }
        fsm.reviewApproved := true;
        var ok := fsm.Advance();
        trace := trace + [Approve(cases)];
      } else {
        var ok := fsm.RejectReview();
        trace := trace + [Reject];
      }
      stage, status := fsm.state, Running;
      Run(turns);
    }
  }

  // ---- where a run ends ----

  const BEFORE_REVIEW: seq<Stage> := [Ingestion, Parsing, Analysis, Generation]
  const BEHIND_REVIEW: seq<Stage> := [Execution, Reporting, Regression]

  /** The stages a run from `s` still has before it. */
  function Route(s: Stage): seq<Stage> {
    match s
    case Pending => BEFORE_REVIEW
    case Ingestion => BEFORE_REVIEW
    case Parsing => BEFORE_REVIEW[1..]
    case Analysis => BEFORE_REVIEW[2..]
    case Generation => BEFORE_REVIEW[3..]
    case Execution => BEHIND_REVIEW
    case Reporting => BEHIND_REVIEW[1..]
    case Regression => BEHIND_REVIEW[2..]
    case _ => []
  }

  predicate Fine(t: Turn) { t.interrupt == NoInterrupt && t.outcome == Succeeds }

  /** The `k` turns from number `i` on are fine. */
  predicate AllFine(turns: nat -> Turn, i: nat, k: nat) {
    forall j :: i <= j < i + k ==> Fine(turns(j))
  }

  function Successes(stages: seq<Stage>): seq<Event> {
    seq(|stages|, i requires 0 <= i < |stages| => Log(stages[i], true))
  }

  /** The row a run leaves at `here`, whose turn is the first that is not fine; `stored` is the stage the
      row held when the turn began. */
  function Stopped(here: Stage, stored: Stage, trace: seq<Event>, turn: Turn): Row {
    match turn.interrupt
    case UserCancelled => Row(here, At(Cancelled), trace)
    case UserPaused => Row(here, At(Paused), trace)
    case NoInterrupt =>
      match turn.outcome
      case Fails => Row(here, At(Failed), trace + [Log(here, false)])
      case Raises => Row(stored, At(Failed), trace)
      case RaisesAfterLog => Row(stored, At(Failed), trace + [Log(here, true)])
      case Succeeds => Row(here, At(Failed), trace)
  }

  /** The row a run leaves when all its turns were fine, the last of them being `turn`. */
  function Through(s: Stage, trace: seq<Event>, turn: Turn): Row {
    if BehindGate(s) then Row(Completed, At(Completed), trace)
    else if turn.reviewRaises then Row(Review, At(Failed), trace + [EnterReview])
    else Row(Review, At(Paused), trace + [EnterReview, Log(Review, turn.reviewOk)])
  }

  lemma RouteStep(s: Stage)
    requires Route(s) != [] && s != Pending
    ensures s == Route(s)[0] && HasStage(s) && !Terminal(s) && s != Review && AdvanceTo(s).Some?
    ensures var next := AdvanceTo(s).value;
            && Route(s) == [s] + Route(next) && (BehindGate(s) <==> BehindGate(next)) && next != Pending
            && (Route(next) == [] <==> next == if BehindGate(s) then Completed else Review)
  {
    assert BEFORE_REVIEW[3..][1..] == [] && BEHIND_REVIEW[2..][1..] == [];
    assert BEFORE_REVIEW[1..][1..] == BEFORE_REVIEW[2..] && BEFORE_REVIEW[2..][1..] == BEFORE_REVIEW[3..];
    assert BEHIND_REVIEW[1..][1..] == BEHIND_REVIEW[2..];
  }

  lemma StopsHere(s: Stage, row: Row, turns: nat -> Turn, i: nat)
    requires Route(s) != [] && s != Pending && !Fine(turns(i))
    ensures RunLoop(s, row, turns, i) == Stopped(s, row.stage, row.trace, turns(i))
  {
    RouteStep(s);
    hide Route;
  }

  lemma PassesHere(s: Stage, row: Row, turns: nat -> Turn, i: nat)
    requires Route(s) != [] && s != Pending && Fine(turns(i))
    ensures var next, logged := AdvanceTo(s).value, row.trace + [Log(s, true)];
            RunLoop(s, row, turns, i)
            == if Route(next) != [] then RunLoop(next, Row(next, row.status, logged), turns, i + 1)
               else Through(s, logged, turns(i))
  {
    RouteStep(s);
    hide Route;
    var logged := row.trace + [Log(s, true)];
    assert logged + [EnterReview] + [Log(Review, turns(i).reviewOk)] == logged + [EnterReview, Log(Review, turns(i).reviewOk)];
    if AdvanceTo(s).value == Completed {
      assert RunLoop(Completed, Row(Completed, row.status, logged), turns, i + 1) == Row(Completed, At(Completed), logged);
    }
  }

  lemma SuccessesStep(trace: seq<Event>, s: Stage, stages: seq<Stage>)
    ensures trace + Successes([s] + stages) == trace + [Log(s, true)] + Successes(stages)
  {
    assert Successes([s] + stages) == [Log(s, true)] + Successes(stages);
  }

  /** How a run through `s` ends whose turns from `i` on are fine for `k` stages. */
  function EndOf(s: Stage, row: Row, turns: nat -> Turn, i: nat, k: nat): Row
    requires Route(s) != [] && k <= |Route(s)| && i + k > 0
  {
    var route := Route(s);
    var trace := row.trace + Successes(route[..k]);
    if k == |route| then Through(s, trace, turns(i + k - 1))
    else Stopped(route[k], if k == 0 then row.stage else route[k], trace, turns(i + k))
  }

  lemma EndStep(s: Stage, next: Stage, row: Row, turns: nat -> Turn, i: nat, k: nat)
    requires Route(s) == [s] + Route(next) && Route(next) != [] && 0 < k <= |Route(s)|
    requires BehindGate(s) <==> BehindGate(next)
    requires next == Route(next)[0]
    ensures EndOf(s, row, turns, i, k)
         == EndOf(next, Row(next, row.status, row.trace + [Log(s, true)]), turns, i + 1, k - 1)
  {
    hide Route, Successes, Stopped, Through, BehindGate;
    var route := Route(s);
    assert route[..k] == [s] + Route(next)[..k - 1];
    SuccessesStep(row.trace, s, Route(next)[..k - 1]);
    if k == |route| {
      ThroughAlike(s, next, row.trace + Successes(route[..k]), turns(i + k - 1));
    } else {
      assert route[k] == Route(next)[k - 1];
    }
  }

  lemma FineRest(turns: nat -> Turn, i: nat, k: nat)
    requires AllFine(turns, i, k) && k > 0
    ensures Fine(turns(i)) && AllFine(turns, i + 1, k - 1)
  {
  }

  /** The end after one stage is the last of its route. */
  lemma EndAfterLast(s: Stage, row: Row, turns: nat -> Turn, i: nat)
    requires Route(s) == [s]
    ensures EndOf(s, row, turns, i, 1) == Through(s, row.trace + [Log(s, true)], turns(i))
  {
    hide Through, Stopped;
    SuccessesStep(row.trace, s, []);
    NoSuccesses(row.trace + [Log(s, true)]);
    assert Route(s)[..1] == [s] + [];
  }

  lemma {:induction false} LoopOutcome(s: Stage, row: Row, turns: nat -> Turn, i: nat, k: nat)
    requires Route(s) != [] && s != Pending && k <= |Route(s)| && i + k > 0
    requires AllFine(turns, i, k) && (k < |Route(s)| ==> !Fine(turns(i + k)))
    ensures RunLoop(s, row, turns, i) == EndOf(s, row, turns, i, k)
    decreases k
  {
    hide *;
    RouteStep(s);
    if k == 0 {
      EndAtOnce(s, row, turns, i);
    } else {
      var next, logged := AdvanceTo(s).value, row.trace + [Log(s, true)];
      FineRest(turns, i, k);
      PassesHere(s, row, turns, i);
      if Route(next) != [] {
        RouteStep(next);
        EndStep(s, next, row, turns, i, k);
        LoopOutcome(next, Row(next, row.status, logged), turns, i + 1, k - 1);
      } else {
        assert Route(s) == [s];
        EndAfterLast(s, row, turns, i);
      }
    }
  }

  lemma EndAtOnce(s: Stage, row: Row, turns: nat -> Turn, i: nat)
    requires Route(s) != [] && s != Pending && i > 0 && !Fine(turns(i))
    ensures RunLoop(s, row, turns, i) == EndOf(s, row, turns, i, 0)
  {
    RouteStep(s);
    hide Route, RunLoop, Fine, Stopped;
    StopsHere(s, row, turns, i);
    NoSuccesses(row.trace);
    assert Route(s)[..0] == [];
  }

  lemma NoSuccesses(trace: seq<Event>)
    ensures trace + Successes([]) == trace
  {
  }

  lemma ThroughAlike(s: Stage, next: Stage, trace: seq<Event>, turn: Turn)
    requires BehindGate(s) <==> BehindGate(next)
    ensures Through(s, trace, turn) == Through(next, trace, turn)
  {
  }

  /** What a run comes to, by its turns: if they are fine all along the route it waits in review, or is
      completed behind it; otherwise the first turn that is not decides, and just the stages before it
      are logged as successes. */
  lemma RunOutcome(row: Row, turns: nat -> Turn, k: nat)
    requires Route(row.stage) != [] && k <= |Route(row.stage)| && AllFine(turns, 0, k)
    requires k < |Route(row.stage)| ==> !Fine(turns(k))
    ensures var route := Route(row.stage);
            var trace := row.trace + Successes(route[..k]);
            RunPipeline(row, turns)
            == if k == |route| then Through(row.stage, trace, turns(k - 1))
               else Stopped(route[k], if k == 0 then row.stage else route[k], trace, turns(k))
  {
    hide RunLoop, Successes, Stopped;
    var s, stored := Entry(row.stage), Row(row.stage, Running, row.trace);
    assert Route(s) == Route(row.stage) && (BehindGate(s) <==> BehindGate(row.stage));
    if k == 0 {
      StopsHere(s, stored, turns, 0);
      NoSuccesses(row.trace);
      assert Route(s)[..0] == [] && s == Route(s)[0] by { RouteStep(s); }
    } else {
      LoopOutcome(s, stored, turns, 0, k);
      ThroughAlike(s, row.stage, row.trace + Successes(Route(s)[..k]), turns(k - 1));
    }
  }

  /** From every other stage nothing is run: the status becomes the stage, unless a user cancels a
      paused pipeline, and an unknown stage counts as failed. */
  lemma RunWithoutRoute(row: Row, turns: nat -> Turn)
    requires Route(row.stage) == []
    ensures var end := RunPipeline(row, turns);
            && end.trace == row.trace
            && end.stage == (if row.stage == Unrecognized then Failed else row.stage)
            && end.status == At(if row.stage == Paused && turns(0).interrupt == UserCancelled then Cancelled else end.stage)
  {
    assert |BEFORE_REVIEW[1..]| == 3 && |BEFORE_REVIEW[2..]| == 2 && |BEFORE_REVIEW[3..]| == 1;
    assert |BEHIND_REVIEW[1..]| == 2 && |BEHIND_REVIEW[2..]| == 1;
  }

  /** Some case is neither approved nor rejected. */
  predicate SomeOpen(cases: seq<CaseStatus>) {
    exists i :: 0 <= i < |cases| && (cases[i] == Draft || cases[i] == PendingReview)
  }

  lemma {:induction false} UnapprovedMeans(cases: seq<CaseStatus>)
    ensures CountUnapproved(cases) > 0 <==> SomeOpen(cases)
  {
    if cases != [] {
      UnapprovedMeans(cases[1..]);
      assert forall i :: 0 < i < |cases| ==> cases[i] == cases[1..][i - 1];
      assert forall i :: 0 <= i < |cases[1..]| ==> cases[1..][i] == cases[i + 1];
    }
  }

  /** What a human decision comes to when the turns after it are fine: an open case blocks an approval;
      without one the pipeline is completed; a rejection leads to a new generation and back to review. */
  lemma ContinueOutcome(row: Row, approved: bool, cases: seq<CaseStatus>, turns: nat -> Turn)
    requires AllFine(turns, 0, 3)
    ensures var end := ContinuePipeline(row, approved, cases, turns);
            if approved && SomeOpen(cases) then end == row
            else if approved then
              end == Row(Completed, At(Completed),
                         row.trace + [Approve(cases), Log(Execution, true), Log(Reporting, true), Log(Regression, true)])
            else
              end == Through(Generation, row.trace + [Reject, Log(Generation, true)], turns(0))
  {
    hide RunPipeline;
    UnapprovedMeans(cases);
    if approved && !SomeOpen(cases) {
      RunOutcome(Row(Execution, Running, row.trace + [Approve(cases)]), turns, 3);
      assert row.trace + [Approve(cases)] + Successes(BEHIND_REVIEW[..3])
          == row.trace + [Approve(cases), Log(Execution, true), Log(Reporting, true), Log(Regression, true)];
    } else if !approved {
      assert BEFORE_REVIEW[3..] == [Generation];
      RunOutcome(Row(Generation, Running, row.trace + [Reject]), turns, 1);
      assert row.trace + [Reject] + Successes([Generation][..1]) == row.trace + [Reject, Log(Generation, true)];
    }
  }

  // ---- every sequence of calls ----

  datatype Call =
    | Run(turns: nat -> Turn)
    | Continue(approved: bool, cases: seq<CaseStatus>, turns: nat -> Turn)

  const FRESH := Row(Pending, New, [])

  function Apply(row: Row, c: Call): Row {
    match c
    case Run(turns) => RunPipeline(row, turns)
    case Continue(approved, cases, turns) => ContinuePipeline(row, approved, cases, turns)
  }

  function ApplyAll(row: Row, calls: seq<Call>): Row {
    if calls == [] then row else Apply(ApplyAll(row, calls[..|calls| - 1]), calls[|calls| - 1])
  }

  datatype Gate = NeverReviewed | Waiting | Open | SentBack

  /** The review gate after a trace: an approval opens it only with no unapproved case left. */
  function GateAfter(trace: seq<Event>): Gate {
    if trace == [] then NeverReviewed
    else
      var before := GateAfter(trace[..|trace| - 1]);
      match trace[|trace| - 1]
      case EnterReview => Waiting
      case Reject => SentBack
      case Approve(cases) => if before == Waiting && CountUnapproved(cases) == 0 then Open else before
      case Log(_, _) => before
  }

  predicate BehindGate(s: Stage) { s == Execution || s == Reporting || s == Regression || s == Completed }

  /** Every stage log from behind the gate was written while the gate was open. */
  predicate GateRespected(trace: seq<Event>) {
    forall i :: 0 <= i < |trace| && trace[i].Log? && BehindGate(trace[i].stage) ==> GateAfter(trace[..i]) == Open
  }

  predicate Logged(trace: seq<Event>, s: Stage) {
    Log(s, true) in trace
  }

  /** The non-review stages that must have succeeded before `s` is reached. */
  function Prerequisites(s: Stage): seq<Stage> {
    match s
    case Parsing => [Ingestion]
    case Analysis => [Ingestion, Parsing]
    case Generation => [Ingestion, Parsing, Analysis]
    case Review => [Ingestion, Parsing, Analysis, Generation]
    case Execution => [Ingestion, Parsing, Analysis, Generation]
    case Reporting => [Ingestion, Parsing, Analysis, Generation, Execution]
    case Regression => [Ingestion, Parsing, Analysis, Generation, Execution, Reporting]
    case Completed => [Ingestion, Parsing, Analysis, Generation, Execution, Reporting, Regression]
    case _ => []
  }

  predicate Reached(s: Stage, trace: seq<Event>) {
    && (forall p :: p in Prerequisites(s) ==> Logged(trace, p))
    && (BehindGate(s) ==> GateAfter(trace) == Open)
    && (s == Review ==> GateAfter(trace) == Waiting)
  }

  predicate OnPath(s: Stage) { Rank(s) > 0 || s == Completed }

  /** The stored stage tells whether the latest review is waiting or approved. */
  predicate Safe(row: Row) {
    && OnPath(row.stage) && Reached(row.stage, row.trace) && GateRespected(row.trace)
    && (row.status == At(Completed) ==> row.stage == Completed)
    && (Reviewed(row.trace) <==> row.stage == Review || BehindGate(row.stage))
  }

  predicate Reviewed(trace: seq<Event>) { GateAfter(trace) == Waiting || GateAfter(trace) == Open }

  /** What a caller can check before `continue_pipeline`: an approval does no harm in review and behind
      it, or while a case is unapproved; a rejection does none once generation has been reached by
      the logs. */
  predicate Harmless(row: Row, c: Call) {
    match c
    case Run(_) => true
    case Continue(approved, cases, _) =>
      if approved then CountUnapproved(cases) > 0 || row.stage == Review || BehindGate(row.stage)
      else forall p :: p in Prerequisites(Generation) ==> Logged(row.trace, p)
  }

  /** Every call is harmless when it is made. */
  predicate Legal(row: Row, calls: seq<Call>) {
    calls == [] ||
    (&& Legal(row, calls[..|calls| - 1])
     && Harmless(ApplyAll(row, calls[..|calls| - 1]), calls[|calls| - 1]))
  }

  lemma GateAfterSnoc(trace: seq<Event>, e: Event)
    ensures GateAfter(trace + [e]) ==
            match e
            case EnterReview => Waiting
            case Reject => SentBack
            case Approve(cases) =>
              if GateAfter(trace) == Waiting && CountUnapproved(cases) == 0 then Open else GateAfter(trace)
            case Log(_, _) => GateAfter(trace)
  {
    assert (trace + [e])[..|trace|] == trace;
  }

  lemma GateRespectedSnoc(trace: seq<Event>, e: Event)
    requires GateRespected(trace)
    requires e.Log? && BehindGate(e.stage) ==> GateAfter(trace) == Open
    ensures GateRespected(trace + [e])
  {
    var t := trace + [e];
    forall i | 0 <= i < |t| && t[i].Log? && BehindGate(t[i].stage)
      ensures GateAfter(t[..i]) == Open
    {
      assert t[..i] == trace[..i];
      if i == |trace| {
        assert trace[..i] == trace;
      }
    }
  }

  lemma LoggedGrows(s: Stage, trace: seq<Event>, e: Event)
    requires forall p :: p in Prerequisites(s) ==> Logged(trace, p)
    ensures forall p :: p in Prerequisites(s) ==> Logged(trace + [e], p)
  {
    forall p | p in Prerequisites(s) ensures Logged(trace + [e], p) {
      assert Logged(trace, p);
    }
  }

  lemma LogStep(s: Stage, trace: seq<Event>, ok: bool)
    requires GateRespected(trace) && Reached(s, trace)
    ensures var t := trace + [Log(s, ok)];
            && GateRespected(t) && Reached(s, t) && (Reviewed(t) <==> Reviewed(trace))
            && (ok ==> Logged(t, s))
  {
    GateAfterSnoc(trace, Log(s, ok));
    GateRespectedSnoc(trace, Log(s, ok));
  }

  /** With generation logged, entering review and logging its outcome keep the row safe. */
  lemma EnteringReview(logged: seq<Event>, ok: bool)
    requires GateRespected(logged) && Reached(Generation, logged) && Logged(logged, Generation)
    ensures var entered := logged + [EnterReview];
            && Safe(Row(Review, At(Failed), entered)) && Safe(Row(Review, At(Paused), entered + [Log(Review, ok)]))
  {
    hide GateAfter, GateRespected;
    var entered := logged + [EnterReview];
    forall p | p in Prerequisites(Review) ensures Logged(logged, p) {
      assert p in Prerequisites(Generation) || p == Generation;
    }
    LoggedGrows(Review, logged, EnterReview);
    GateAfterSnoc(logged, EnterReview);
    GateRespectedSnoc(logged, EnterReview);
    LogStep(Review, entered, ok);
  }

  lemma {:induction false} RunLoopSafe(s: Stage, row: Row, turns: nat -> Turn, i: nat)
    requires OnPath(s) && s != Pending && Reached(s, row.trace)
    requires Safe(row) && row.status != At(Completed)
    requires Reviewed(row.trace) <==> s == Review || BehindGate(s)
    ensures Safe(RunLoop(s, row, turns, i))
    decreases Rank(s)
  {
    hide GateAfter, GateRespected;
    var turn := turns(i);
    if !Terminal(s) && s != Review && turn.interrupt == NoInterrupt && HasStage(s) && turn.outcome != Raises {
      LogStep(s, row.trace, turn.outcome != Fails);
      LogKeepsReached(row.stage, row.trace, Log(s, turn.outcome != Fails));
      if turn.outcome == Succeeds {
        var next := AdvanceTo(s).value;
        var logged := row.trace + [Log(s, true)];
        if next == Review {
          EnteringReview(logged, turn.reviewOk);
        } else {
          RunLoopSafe(next, Row(next, row.status, logged), turns, i + 1);
        }
      }
    }
  }

  lemma LogKeepsReached(s: Stage, trace: seq<Event>, e: Event)
    requires Reached(s, trace) && e.Log?
    ensures Reached(s, trace + [e])
  {
    GateAfterSnoc(trace, e);
  }

  lemma RunPipelineSafe(row: Row, turns: nat -> Turn)
    requires Safe(row)
    ensures Safe(RunPipeline(row, turns))
  {
    RunLoopSafe(Entry(row.stage), Row(row.stage, Running, row.trace), turns, 0);
  }

  lemma ApplySafe(row: Row, c: Call)
    requires Safe(row) && Harmless(row, c)
    ensures Safe(Apply(row, c))
  {
    hide GateAfter, GateRespected, RunPipeline;
    match c
    case Run(turns) => RunPipelineSafe(row, turns);
    case Continue(approved, cases, turns) =>
      if !approved {
        GateAfterSnoc(row.trace, Reject);
        GateRespectedSnoc(row.trace, Reject);
        LoggedGrows(Generation, row.trace, Reject);
        RunPipelineSafe(Row(Generation, Running, row.trace + [Reject]), turns);
      } else if CountUnapproved(cases) == 0 {
        GateAfterSnoc(row.trace, Approve(cases));
        GateRespectedSnoc(row.trace, Approve(cases));
        assert forall p :: p in Prerequisites(Execution) ==> p in Prerequisites(row.stage);
        LoggedGrows(Execution, row.trace, Approve(cases));
        RunPipelineSafe(Row(Execution, Running, row.trace + [Approve(cases)]), turns);
      }
  }

  function WithTurns(c: Call, turns: nat -> Turn): Call { c.(turns := turns) }

  /** A call keeps the safety of a row whatever its turns meet if and only if it is harmless. */
  lemma SafeIffHarmless(row: Row, c: Call)
    requires Safe(row)
    ensures (forall turns: nat -> Turn :: Safe(Apply(row, WithTurns(c, turns)))) <==> Harmless(row, c)
  {
    if Harmless(row, c) {
      forall turns: nat -> Turn ensures Safe(Apply(row, WithTurns(c, turns))) {
        ApplySafe(row, WithTurns(c, turns));
      }
    } else {
      var turns: nat -> Turn := (i: nat) => Turn(UserPaused, Succeeds, true, false);
      HarmShows(row, c, turns);
    }
  }

  lemma PausedAtOnce(stage: Stage, trace: seq<Event>, turns: nat -> Turn)
    requires (stage == Generation || stage == Execution) && turns(0).interrupt == UserPaused
    ensures RunPipeline(Row(stage, Running, trace), turns) == Row(stage, At(Paused), trace)
  {
  }

  /** Even if the run is paused before its first stage, a harmful call leaves an unsafe row. */
  lemma HarmShows(row: Row, c: Call, turns: nat -> Turn)
    requires Safe(row) && !Harmless(row, c) && turns(0).interrupt == UserPaused
    ensures !Safe(Apply(row, WithTurns(c, turns)))
  {
    hide GateAfter, GateRespected, RunPipeline;
    var e := if c.approved then Approve(c.cases) else Reject;
    var stage := if c.approved then Execution else Generation;
    GateAfterSnoc(row.trace, e);
    PausedAtOnce(stage, row.trace + [e], turns);
    if !c.approved {
      var p :| p in Prerequisites(Generation) && !Logged(row.trace, p);
      assert !Logged(row.trace + [e], p);
    }
  }

  /** While the pipeline waits in review, continuing does no harm either way. */
  lemma ContinueAtReviewIsHarmless(row: Row, c: Call)
    requires Safe(row) && row.stage == Review
    ensures Harmless(row, c)
  {
    assert forall p :: p in Prerequisites(Generation) ==> p in Prerequisites(Review);
  }

  lemma {:induction false} RunLoopKeepsGate(s: Stage, row: Row, turns: nat -> Turn, i: nat)
    requires BehindGate(s) && GateAfter(row.trace) == Open && GateRespected(row.trace)
    ensures GateRespected(RunLoop(s, row, turns, i).trace)
    decreases Rank(s)
  {
    hide GateAfter, GateRespected;
    var turn := turns(i);
    if HasStage(s) && turn.interrupt == NoInterrupt && turn.outcome != Raises {
      var e := Log(s, turn.outcome != Fails);
      GateAfterSnoc(row.trace, e);
      GateRespectedSnoc(row.trace, e);
      if turn.outcome == Succeeds {
        RunLoopKeepsGate(AdvanceTo(s).value, Row(AdvanceTo(s).value, row.status, row.trace + [e]), turns, i + 1);
      }
    }
  }

  /** In any row, reached safely or not: an approval with no case left unapproved keeps the gate
      respected, whatever the stages do, exactly when a review is waiting or already approved. */
  lemma ContinueKeepsGateIff(row: Row, cases: seq<CaseStatus>)
    requires GateRespected(row.trace) && CountUnapproved(cases) == 0
    ensures (forall turns: nat -> Turn :: GateRespected(ContinuePipeline(row, true, cases, turns).trace)) <==> Reviewed(row.trace)
  {
    var approved := row.trace + [Approve(cases)];
    GateAfterSnoc(row.trace, Approve(cases));
    GateRespectedSnoc(row.trace, Approve(cases));
    if Reviewed(row.trace) {
      forall turns: nat -> Turn ensures GateRespected(ContinuePipeline(row, true, cases, turns).trace) {
        RunLoopKeepsGate(Execution, Row(Execution, Running, approved), turns, 0);
      }
    } else {
      var turns: nat -> Turn := (i: nat) => Turn(NoInterrupt, Fails, true, false);
      var t := ContinuePipeline(row, true, cases, turns).trace;
      assert t == approved + [Log(Execution, false)];
      assert t[..|approved|] == approved && t[|approved|] == Log(Execution, false);
      assert !GateRespected(t);
    }
  }

  lemma {:induction false} AllCallsSafe(calls: seq<Call>)
    requires Legal(FRESH, calls)
    ensures Safe(ApplyAll(FRESH, calls))
  {
    if calls != [] {
      AllCallsSafe(calls[..|calls| - 1]);
      ApplySafe(ApplyAll(FRESH, calls[..|calls| - 1]), calls[|calls| - 1]);
    }
  }

  /** Review was entered at `r` and nothing sent the cases back or re-entered it since. */
  predicate LatestReview(trace: seq<Event>, r: int) {
    0 <= r < |trace| && trace[r] == EnterReview
    && forall k :: r < k < |trace| ==> trace[k] != EnterReview && trace[k] != Reject
  }

  predicate CleanApproval(trace: seq<Event>, a: int) {
    0 <= a < |trace| && trace[a].Approve? && CountUnapproved(trace[a].cases) == 0
  }

  /** The latest review was followed by an approval that left no case unapproved. */
  predicate ApprovedSinceReview(trace: seq<Event>) {
    exists r, a :: 0 <= r < |trace| && 0 <= a < |trace| && LatestReview(trace, r) && CleanApproval(trace, a) && r < a
  }

  lemma {:induction false} GateHasReview(trace: seq<Event>) returns (r: int, a: int)
    requires Reviewed(trace)
    ensures LatestReview(trace, r)
    ensures GateAfter(trace) == Open ==> r < a && CleanApproval(trace, a)
  {
    var n := |trace| - 1;
    var init := trace[..n];
    if trace[n] == EnterReview {
      r, a := n, n;
    } else {
      r, a := GateHasReview(init);
      if GateAfter(init) != Open {
        a := n;
      }
    }
  }

  lemma {:induction false} ReviewedSince(trace: seq<Event>, r: int, a: int)
    requires LatestReview(trace, r)
    ensures Reviewed(trace)
    ensures r < a && CleanApproval(trace, a) ==> GateAfter(trace) == Open
  {
    var n := |trace| - 1;
    if r < n {
      assert LatestReview(trace[..n], r);
      assert trace[n] != EnterReview && trace[n] != Reject;
      if a < n {
        ReviewedSince(trace[..n], r, a);
      } else {
        ReviewedSince(trace[..n], r, r);
      }
    }
  }

  /** What an open gate means, both ways. */
  lemma OpenGateMeaning(trace: seq<Event>)
    ensures GateAfter(trace) == Open <==> ApprovedSinceReview(trace)
  {
    if GateAfter(trace) == Open {
      var r, a := GateHasReview(trace);
      assert 0 <= r < |trace| && 0 <= a < |trace|;
    }
    if ApprovedSinceReview(trace) {
      var r, a :| 0 <= r < |trace| && 0 <= a < |trace| && LatestReview(trace, r) && CleanApproval(trace, a) && r < a;
      ReviewedSince(trace, r, a);
    }
  }

  /** Over every legal sequence of calls, whenever the execution stage ran, the latest review had
      been followed by an approval that left no case unapproved. */
  lemma ExecutionOnlyAfterApproval(calls: seq<Call>, i: nat)
    requires Legal(FRESH, calls)
    requires var t := ApplyAll(FRESH, calls).trace; i < |t| && t[i].Log? && t[i].stage == Execution
    ensures ApprovedSinceReview(ApplyAll(FRESH, calls).trace[..i])
  {
    AllCallsSafe(calls);
    var before := ApplyAll(FRESH, calls).trace[..i];
    assert GateAfter(before) == Open;
    OpenGateMeaning(before);
  }

  /** Completed is reached only with a success log for each of the seven non-review stages. */
  lemma CompletedOnlyWithAllLogs(calls: seq<Call>)
    requires Legal(FRESH, calls)
    requires var r := ApplyAll(FRESH, calls); r.stage == Completed || r.status == At(Completed)
    ensures var t := ApplyAll(FRESH, calls).trace;
            && Logged(t, Ingestion) && Logged(t, Parsing) && Logged(t, Analysis) && Logged(t, Generation)
            && Logged(t, Execution) && Logged(t, Reporting) && Logged(t, Regression)
  {
    AllCallsSafe(calls);
    var r := ApplyAll(FRESH, calls);
    assert forall s :: s in Prerequisites(Completed) ==> Logged(r.trace, s);
  }

  /** A harmful call does its harm: approving a fresh pipeline runs execution before everything else. */
  lemma ContinueBeforeReviewSkipsTheGate()
    ensures exists calls ::
              && !Legal(FRESH, calls)
              && var t := ApplyAll(FRESH, calls).trace;
                 Log(Execution, true) in t && EnterReview !in t && !Logged(t, Generation)
  {
    var turns: nat -> Turn := (i: nat) => Turn(if i == 0 then NoInterrupt else UserPaused, Succeeds, true, false);
    var c := Continue(true, [], turns);
    var calls := [c];
    assert calls[..0] == [];
    var row := Row(Execution, Running, [Approve([])]);
    assert FRESH.trace + [Approve([])] == [Approve([])];
    assert ApplyAll(FRESH, calls) == RunPipeline(row, turns);
    assert RunLoop(Reporting, Row(Reporting, Running, row.trace + [Log(Execution, true)]), turns, 1)
        == Row(Reporting, At(Paused), row.trace + [Log(Execution, true)]);
    assert ApplyAll(FRESH, calls).trace == [Approve([]), Log(Execution, true)];
    assert Log(Execution, true) in [Approve([]), Log(Execution, true)];
  }
}
