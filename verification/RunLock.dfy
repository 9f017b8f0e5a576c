/** The run-lock protocol between processes: `_acquire_run_lock` and `_release_run_lock`, one file
    system call per step, in every interleaving. */
module RunLock {
  import opened PyText

  type Pid = nat

  /** Where a process stands between two file system calls. */
  datatype Phase =
    | Idle
    | Creating   // about to open with O_CREAT | O_EXCL
    | Writing    // the file was created empty; about to write the PID
    | Statting   // the file existed; about to look at its age
    | Removing   // the file was stale; about to unlink it
    | Checking   // release: about to ask whether the file exists
    | Reading    // release: about to read the stored PID
    | Unlinking  // release: the stored PID was ours; about to unlink
    | Dead

  /** `holds`: the last successful acquire has not been released. */
  datatype Proc = Proc(phase: Phase, holds: bool)

  /** `creator` records who created the file; `content` is None until the PID is written. */
  datatype LockFile = Absent | Present(creator: Pid, content: Option<Pid>, mtime: int)

  datatype State = State(file: LockFile, procs: map<Pid, Proc>, now: int)

  datatype Action =
    | Tick(seconds: nat)
    | StartAcquire(p: Pid)
    | Create(p: Pid)
    | CreateFails(p: Pid)
    | WritePid(p: Pid)
    | WriteFails(p: Pid)
    | Stat(p: Pid)
    | RemoveStale(p: Pid)
    | StartRelease(p: Pid)
    | CheckExists(p: Pid)
    | ReadPid(p: Pid)
    | Unlink(p: Pid)
    | ReleaseFails(p: Pid)
    | Die(p: Pid)

  const STALE_SECONDS := 7200

  predicate At(s: State, p: Pid, phase: Phase) {
    p in s.procs && s.procs[p].phase == phase
  }

  function Go(s: State, p: Pid, phase: Phase): State
    requires p in s.procs
  {
    s.(procs := s.procs[p := s.procs[p].(phase := phase)])
  }

  /** Back to the caller, with or without the lock. */
  function Finish(s: State, p: Pid, holds: bool): State
    requires p in s.procs
  {
    s.(procs := s.procs[p := Proc(Idle, holds)])
  }

  predicate Enabled(s: State, a: Action) {
    match a
    case Tick(_) => true
    case StartAcquire(p) => At(s, p, Idle)
    case Create(p) => At(s, p, Creating)
    case CreateFails(p) => At(s, p, Creating)
    case WritePid(p) => At(s, p, Writing)
    case WriteFails(p) => At(s, p, Writing)
    case Stat(p) => At(s, p, Statting)
    case RemoveStale(p) => At(s, p, Removing)
    case StartRelease(p) => At(s, p, Idle)
    case CheckExists(p) => At(s, p, Checking)
    case ReadPid(p) => At(s, p, Reading)
    case Unlink(p) => At(s, p, Unlinking)
    case ReleaseFails(p) => At(s, p, Checking) || At(s, p, Reading) || At(s, p, Unlinking)
    case Die(p) => p in s.procs && s.procs[p].phase != Dead
  }

  function Step(s: State, a: Action): State
    requires Enabled(s, a)
  {
    match a
    case Tick(n) => s.(now := s.now + n)
    case StartAcquire(p) => Go(s, p, Creating)
    case Create(p) =>
      if s.file.Absent? then Go(s.(file := Present(p, None, s.now)), p, Writing) else Go(s, p, Statting)
    case CreateFails(p) => Finish(s, p, s.procs[p].holds)
    case WritePid(p) =>
      // The descriptor still refers to the file p created; a file put in its place is not written.
      var written := if s.file.Present? && s.file.creator == p then s.file.(content := Some(p), mtime := s.now) else s.file;
      Finish(s.(file := written), p, true)
    case WriteFails(p) => Finish(s, p, s.procs[p].holds)
    case Stat(p) =>
      if s.file.Absent? then Go(s, p, Creating)
      else if s.now - s.file.mtime > STALE_SECONDS then Go(s, p, Removing)
      else Finish(s, p, s.procs[p].holds)
    case RemoveStale(p) => Go(s.(file := Absent), p, Creating)
    case StartRelease(p) => Go(s, p, Checking)
    case CheckExists(p) => if s.file.Absent? then Finish(s, p, false) else Go(s, p, Reading)
    case ReadPid(p) =>
      if s.file.Absent? then Finish(s, p, false)
      else if s.file.content == Some(p) then Go(s, p, Unlinking)
      else Finish(s, p, false)
    case Unlink(p) => Finish(s.(file := Absent), p, false)
    case ReleaseFails(p) => Finish(s, p, false)
    case Die(p) => Go(s, p, Dead)
  }

  // ---- runs ----

  /** No process holds anything and there is no lock file. */
  predicate Initial(s: State) {
    s.file.Absent? && forall p :: p in s.procs ==> s.procs[p] == Proc(Idle, false)
  }

  /** No lock file is older than the bound. */
  predicate Aged(s: State, bound: int) {
    s.file.Present? ==> s.now - s.file.mtime <= bound
  }

  predicate Young(s: State) { Aged(s, STALE_SECONDS) }

  /** The states a sequence of actions passes through, if every action is enabled. */
  predicate IsRun(states: seq<State>, actions: seq<Action>) {
    && |states| == |actions| + 1
    && Initial(states[0])
    && forall i :: 0 <= i < |actions| ==> Enabled(states[i], actions[i]) && states[i + 1] == Step(states[i], actions[i])
  }

  predicate AlwaysYoung(states: seq<State>) {
    forall i :: 0 <= i < |states| ==> Young(states[i])
  }

  // ---- the invariant ----

  /** The process is between creating the file and removing it. */
  predicate Owns(s: State, p: Pid) {
    p in s.procs && (s.procs[p].holds || s.procs[p].phase == Writing || s.procs[p].phase == Unlinking)
  }

  ghost predicate Inv(s: State) {
    && (forall p :: Owns(s, p) ==> s.file.Present? && s.file.creator == p)
    && (s.file.Present? && s.file.content.Some? ==> s.file.content.value == s.file.creator)
    && (forall p :: p in s.procs ==> s.procs[p].phase != Removing)
    && (forall p :: p in s.procs && s.procs[p].holds && s.procs[p].phase != Dead ==>
          s.file.Present? && s.file.content == Some(p))
  }

  lemma StepKeepsInv(s: State, a: Action)
    requires Inv(s) && Young(s) && Enabled(s, a)
    ensures Inv(Step(s, a))
  {
    var t := Step(s, a);
    if !a.Tick? {
      forall p | p in t.procs && p != a.p ensures Owns(t, p) == Owns(s, p) && t.procs[p] == s.procs[p] {
      }
      assert Owns(s, a.p) ==> s.file.Present? && s.file.creator == a.p;
      forall p | Owns(t, p) ensures t.file.Present? && t.file.creator == p {
        assert p != a.p ==> Owns(s, p);
      }
      forall p | p in t.procs && t.procs[p].holds && t.procs[p].phase != Dead
        ensures t.file.Present? && t.file.content == Some(p)
      {
        assert Owns(t, p);
        assert p != a.p ==> Owns(s, p);
      }
    } else {
      assert forall p :: Owns(t, p) ==> Owns(s, p);
    }
  }

  lemma {:induction false} RunKeepsInv(states: seq<State>, actions: seq<Action>, i: nat)
    requires IsRun(states, actions) && AlwaysYoung(states) && i < |states|
    ensures Inv(states[i])
  {
    if i > 0 {
      RunKeepsInv(states, actions, i - 1);
      StepKeepsInv(states[i - 1], actions[i - 1]);
    }
  }

  /** In every interleaving without a lock older than two hours, at most one process holds the lock. */
  lemma MutualExclusion(states: seq<State>, actions: seq<Action>, i: nat, p: Pid, q: Pid)
    requires IsRun(states, actions) && AlwaysYoung(states) && i < |states|
    requires p in states[i].procs && q in states[i].procs && states[i].procs[p].holds && states[i].procs[q].holds
    ensures p == q
  {
    RunKeepsInv(states, actions, i);
    assert Owns(states[i], p) && Owns(states[i], q);
  }

  /** Whenever the lock file disappears, its creator removed it, in its own release. */
  lemma OnlyTheCreatorRemoves(states: seq<State>, actions: seq<Action>, i: nat)
    requires IsRun(states, actions) && AlwaysYoung(states) && i < |actions|
    requires states[i].file.Present?
    requires states[i + 1].file.Absent? || states[i + 1].file.creator != states[i].file.creator
    ensures actions[i] == Unlink(states[i].file.creator)
  {
    RunKeepsInv(states, actions, i);
    if actions[i].Unlink? {
      assert Owns(states[i], actions[i].p);
    }
  }

  /** The release of a holder goes through in every interleaving: each of its calls finds the file it
      looks for, and the last one removes it. */
  lemma HolderReleaseRemoves(states: seq<State>, actions: seq<Action>, i: nat, p: Pid)
    requires IsRun(states, actions) && AlwaysYoung(states) && i < |actions|
    requires p in states[i].procs && states[i].procs[p].holds
    ensures var t := states[i + 1];
            && (actions[i] == StartRelease(p) ==> t.procs[p] == Proc(Checking, true))
            && (actions[i] == CheckExists(p) ==> t.procs[p] == Proc(Reading, true))
            && (actions[i] == ReadPid(p) ==> t.procs[p] == Proc(Unlinking, true))
            && (actions[i] == Unlink(p) ==> t.file.Absent? && t.procs[p] == Proc(Idle, false))
  {
    RunKeepsInv(states, actions, i);
  }

  predicate Of(a: Action, p: Pid) { !a.Tick? && a.p == p }

  lemma {:induction false} OthersLeaveAlone(states: seq<State>, actions: seq<Action>, i: nat, j: nat, p: Pid)
    requires IsRun(states, actions) && i <= j <= |actions| && p in states[i].procs
    requires forall k :: i <= k < j ==> !Of(actions[k], p)
    ensures p in states[j].procs && states[j].procs[p] == states[i].procs[p]
    decreases j - i
  {
    if i < j {
      OthersLeaveAlone(states, actions, i, j - 1, p);
    }
  }

  /** A process that finds no file and lives on has the lock after its next two calls, whatever the
      others do between them. */
  lemma FreeLockIsAcquired(states: seq<State>, actions: seq<Action>, i: nat, j: nat, p: Pid)
    requires IsRun(states, actions) && AlwaysYoung(states) && i < j < |actions|
    requires actions[i] == Create(p) && states[i].file.Absent?
    requires forall k :: i < k < j ==> !Of(actions[k], p)
    requires Of(actions[j], p) && actions[j] != WriteFails(p) && actions[j] != Die(p)
    ensures actions[j] == WritePid(p)
    ensures var t := states[j + 1]; t.procs[p] == Proc(Idle, true) && t.file == Present(p, Some(p), t.now)
  {
    OthersLeaveAlone(states, actions, i + 1, j, p);
    RunKeepsInv(states, actions, j);
    assert At(states[j], p, Writing) && Owns(states[j], p);
  }

  // ---- exactly when exclusion holds ----

  /** No two processes hold the lock at once. */
  predicate AtMostOneHolder(states: seq<State>) {
    forall i :: 0 <= i < |states| ==> OneHolder(states[i])
  }

  predicate OneHolder(s: State) {
    forall p, q :: p in s.procs && q in s.procs && s.procs[p].holds && s.procs[q].holds ==> p == q
  }

  /** A run ends in `s`, and `ok` holds in all its states. */
  ghost predicate Reaches(ok: State -> bool, s: State) {
    exists states, actions :: RunsTo(ok, states, actions, s)
  }

  predicate RunsTo(ok: State -> bool, states: seq<State>, actions: seq<Action>, s: State) {
    && IsRun(states, actions) && states[|actions|] == s
    && forall i :: 0 <= i < |states| ==> ok(states[i])
  }

  lemma ReachesFirst(ok: State -> bool, s: State)
    requires Initial(s) && ok(s)
    ensures Reaches(ok, s)
  {
    assert RunsTo(ok, [s], [], s);
  }

  lemma Reach(ok: State -> bool, s: State, a: Action) returns (t: State)
    requires Reaches(ok, s) && Enabled(s, a) && ok(Step(s, a))
    ensures t == Step(s, a) && Reaches(ok, t)
  {
    t := Step(s, a);
    var states, actions :| RunsTo(ok, states, actions, s);
    hide Step, Enabled, Initial;
    var states', actions' := states + [t], actions + [a];
    forall i | 0 <= i < |actions'| ensures Enabled(states'[i], actions'[i]) && states'[i + 1] == Step(states'[i], actions'[i]) {
      if i < |actions| {
        assert states'[i] == states[i] && states'[i + 1] == states[i + 1] && actions'[i] == actions[i];
      }
    }
    assert RunsTo(ok, states', actions', t);
  }

  /** From a state without a file an idle process acquires the lock. */
  lemma ReachAcquired(ok: State -> bool, s: State, p: Pid) returns (t: State)
    requires Reaches(ok, s) && At(s, p, Idle) && s.file.Absent?
    requires forall u: State :: u.file.Absent? || u.file.mtime == u.now ==> ok(u)
    ensures Reaches(ok, t) && t == State(Present(p, Some(p), s.now), s.procs[p := Proc(Idle, true)], s.now)
  {
    t := Reach(ok, s, StartAcquire(p));
    t := ReachTaken(ok, t, p);
    assert t.procs == s.procs[p := Proc(Idle, true)];
  }

  /** So does one that is about to create the file. */
  lemma ReachTaken(ok: State -> bool, s: State, p: Pid) returns (t: State)
    requires Reaches(ok, s) && At(s, p, Creating) && s.file.Absent?
    requires forall u: State :: u.file.Absent? || u.file.mtime == u.now ==> ok(u)
    ensures Reaches(ok, t) && t == State(Present(p, Some(p), s.now), s.procs[p := Proc(Idle, true)], s.now)
  {
    t := Reach(ok, s, Create(p));
    t := Reach(ok, t, WritePid(p));
    assert t.procs == s.procs[p := Proc(Idle, true)];
  }

  /** A process that finds a stale file comes to remove it. */
  lemma ReachRemoving(ok: State -> bool, s: State, p: Pid) returns (t: State)
    requires Reaches(ok, s) && At(s, p, Idle) && s.file.Present? && s.now - s.file.mtime > STALE_SECONDS
    requires forall procs :: (forall q :: q in s.procs && s.procs[q].phase == Dead ==> q in procs && procs[q] == s.procs[q])
                             ==> ok(s.(procs := procs))
    ensures Reaches(ok, t) && t == s.(procs := s.procs[p := s.procs[p].(phase := Removing)])
  {
    t := Reach(ok, s, StartAcquire(p));
    t := Reach(ok, t, Create(p));
    t := Reach(ok, t, Stat(p));
    assert t.procs == s.procs[p := s.procs[p].(phase := Removing)];
  }

  lemma ReachLater(ok: State -> bool, s: State, seconds: nat) returns (t: State)
    requires Reaches(ok, s) && ok(s.(now := s.now + seconds))
    ensures Reaches(ok, t) && t == s.(now := s.now + seconds)
  {
    hide Reaches;
    t := Reach(ok, s, Tick(seconds));
  }

  lemma ReachDead(ok: State -> bool, s: State, p: Pid) returns (t: State)
    requires Reaches(ok, s) && p in s.procs && s.procs[p].phase != Dead && ok(Go(s, p, Dead))
    ensures Reaches(ok, t) && t == Go(s, p, Dead)
  {
    hide Reaches;
    t := Reach(ok, s, Die(p));
  }

  /** A process that has found the file stale removes it, whichever file is there by now, and takes the lock. */
  lemma ReachTakenOver(ok: State -> bool, s: State, p: Pid) returns (t: State)
    requires Reaches(ok, s) && At(s, p, Removing)
    requires forall u: State :: u.file.Absent? || u.file.mtime == u.now ==> ok(u)
    ensures Reaches(ok, t) && t == State(Present(p, Some(p), s.now), s.procs[p := Proc(Idle, true)], s.now)
  {
    hide Reaches;
    t := Reach(ok, s, RemoveStale(p));
    t := ReachTaken(ok, t, p);
    assert t.procs == s.procs[p := Proc(Idle, true)];
  }

  const IDLE := Proc(Idle, false)

  function NoOlderThan(bound: int): State -> bool { s => Aged(s, bound) }

  /** A held lock outlives two hours; a second process removes it and takes its place. */
  lemma OldLockIsTaken(bound: int)
    requires bound > STALE_SECONDS
    ensures exists s: State :: Reaches(NoOlderThan(bound), s) && !OneHolder(s)
  {
    hide Reaches, Step, Enabled;
    var ok := NoOlderThan(bound);
    var s := State(Absent, map[1 := IDLE, 2 := IDLE], 0);
    ReachesFirst(ok, s);
    s := ReachAcquired(ok, s, 1);
    s := ReachLater(ok, s, STALE_SECONDS + 1);
    s := ReachRemoving(ok, s, 2);
    s := ReachTakenOver(ok, s, 2);
    assert s.procs[1].holds && s.procs[2].holds;
  }

  /** The exact bound: exclusion holds in every run without a file older than `bound` if and only if
      the bound is at most the two hours after which a lock counts as stale. */
  lemma ExclusionIff(bound: int)
    ensures (forall states: seq<State>, actions: seq<Action> :: IsRun(states, actions) && (forall i :: 0 <= i < |states| ==> Aged(states[i], bound))
                                       ==> AtMostOneHolder(states))
            <==> bound <= STALE_SECONDS
  {
    if bound <= STALE_SECONDS {
      forall states: seq<State>, actions: seq<Action> | IsRun(states, actions) && (forall i :: 0 <= i < |states| ==> Aged(states[i], bound))
        ensures AtMostOneHolder(states)
      {
        forall i: nat, p: Pid, q: Pid | i < |states| && p in states[i].procs && q in states[i].procs
                         && states[i].procs[p].holds && states[i].procs[q].holds
          ensures p == q
        {
          MutualExclusion(states, actions, i, p, q);
        }
      }
    } else {
      OldLockIsTaken(bound);
      var ok := NoOlderThan(bound);
      var s :| Reaches(ok, s) && !OneHolder(s);
      var states, actions :| RunsTo(ok, states, actions, s);
      assert forall i :: 0 <= i < |states| ==> ok(states[i]);
      assert !OneHolder(states[|actions|]);
    }
  }

  /** A file older than two hours was left behind by a process that is dead. */
  predicate OldOnlyIfAbandoned(s: State) {
    Young(s) || (s.file.creator in s.procs && s.procs[s.file.creator].phase == Dead)
  }

  /** It is not enough that no living holder's lock ages: two processes that find the same abandoned
      lock stale remove it one after the other, the second one the fresh lock of the first. */
  lemma AbandonedLockRace()
    ensures exists s: State, p: Pid, q: Pid :: Reaches(OldOnlyIfAbandoned, s) && p != q && p in s.procs && q in s.procs
                              && s.procs[p] == s.procs[q] == Proc(Idle, true)
  {
    hide Reaches, Step, Enabled;
    var ok := OldOnlyIfAbandoned;
    var s := State(Absent, map[1 := IDLE, 2 := IDLE, 3 := IDLE], 0);
    ReachesFirst(ok, s);
    s := ReachAcquired(ok, s, 3);
    s := ReachDead(ok, s, 3);
    s := ReachLater(ok, s, STALE_SECONDS + 1);
    s := ReachRemoving(ok, s, 1);
    s := ReachRemoving(ok, s, 2);
    s := ReachTakenOver(ok, s, 1);
    s := ReachTakenOver(ok, s, 2);
    assert s.procs[1] == s.procs[2] == Proc(Idle, true);
  }
}
