/** The journal shared by the CLI and the runner it spawned: every interleaving
    of the CLI's locked merge of the runner's pid and its polling with the
    runner's saves, any save failing and the runner dying at any moment. */
module JournalSharing {
  /** Steps of the journal: the thaw+exit row that !-mode watches, and
      everything else. */
  datatype Steps = Steps(thawAttempts: nat, thawDone: bool, rest: int)

  datatype Journal = Journal(steps: Steps, finished: bool, pid: nat)

  datatype Who = Cli | Runner

  datatype Lock = Free | HeldBy(who: Who)

  datatype Verdict = Finished | BangDone | RunnerGone

  /** spawnAndFollow, then follow's poll: a reload, the test of the pid it read,
      a second reload once that pid is dead, and the last reload when done. */
  datatype CliAt =
    | ClearWait | ClearHeld | ClearWritten | Spawning
    | MergeWait | MergeHeld | MergeRead(copy: Journal) | MergeWritten
    | Poll | Looked(seen: Journal) | Recheck | Ending
    | Final(verdict: Verdict)

  /** RunJob: Open, then saves of the journal kept in memory. */
  datatype RunnerAt =
    | NotStarted | Opening | Loaded(mem: Journal)
    | Idle(mem: Journal) | SaveWait(mem: Journal) | SaveHeld(mem: Journal) | SaveWritten(mem: Journal)
    | Dead

  /** own is the runner's pid; base what spawnAndFollow read of the journal; saved
      the runner's saves so far, newest last. */
  datatype State = State(own: nat, bang: bool, base: Journal, disk: Journal, lock: Lock,
                         cli: CliAt, runner: RunnerAt, saved: seq<Journal>)

  /** bangDone: thaw+exit was attempted again, or became done. */
  predicate NewThaw(now: Steps, base: Steps) {
    now.thawAttempts > base.thawAttempts || (now.thawDone && !base.thawDone)
  }

  predicate Over(s: State, j: Journal) {
    j.finished || (s.bang && NewThaw(j.steps, s.base.steps))
  }

  predicate Alive(s: State, pid: nat) {
    pid == s.own && !s.runner.NotStarted? && !s.runner.Dead?
  }

  predicate Init(s: State) {
    && s.own > 0 && s.base.pid != s.own && s.disk == s.base && s.lock == Free
    && s.cli == ClearWait && s.runner == NotStarted && s.saved == []
  }

  // ---- the steps ------------------------------------------------------------------

  predicate CliStep(s: State, t: State) {
    match s.cli
    case ClearWait => s.lock == Free && t == s.(lock := HeldBy(Cli), cli := ClearHeld)
    case ClearHeld => t == s.(disk := s.base.(finished := false), cli := ClearWritten)
    case ClearWritten => t == s.(lock := Free, cli := Spawning)
    case Spawning => t == s.(runner := Opening, cli := MergeWait)
    case MergeWait => s.lock == Free && t == s.(lock := HeldBy(Cli), cli := MergeHeld)
    case MergeHeld => t == s.(cli := MergeRead(s.disk))
    case MergeRead(copy) => t == s.(disk := copy.(pid := s.own), cli := MergeWritten)
    case MergeWritten => t == s.(lock := Free, cli := Poll)
    case Poll => t == s.(cli := if Over(s, s.disk) then Ending else Looked(s.disk))
    case Looked(seen) => t == s.(cli := if seen.pid > 0 && !Alive(s, seen.pid) then Recheck else Poll)
    case Recheck => t == s.(cli := if Over(s, s.disk) then Ending else Final(RunnerGone))
    case Ending => t == s.(cli := Final(if s.disk.finished then Finished else BangDone))
    case Final(_) => false
  }

  /** What the runner may turn its journal into before a save. */
  predicate Edit(m: Journal, edited: Journal) {
    || edited == m || edited == m.(finished := true)
    || (!m.finished && edited == m.(steps := edited.steps))
  }

  predicate RunnerStep(s: State, t: State) {
    match s.runner
    case NotStarted => false
    case Opening => t == s.(runner := Loaded(s.disk))
    case Loaded(m) =>
      || t == s.(runner := SaveWait(m.(finished := true)))
      || t == s.(runner := SaveWait(m.(pid := s.own, finished := false)))
    case Idle(m) =>
      t.runner.SaveWait? && Edit(m, t.runner.mem) && t == s.(runner := SaveWait(t.runner.mem))
    case SaveWait(m) =>
      || (s.lock == Free && t == s.(lock := HeldBy(Runner), runner := SaveHeld(m)))
      || t == s.(runner := Idle(m))
    case SaveHeld(m) =>
      || t == s.(disk := m, saved := s.saved + [m], runner := SaveWritten(m))
      || t == s.(lock := Free, runner := Idle(m))
    case SaveWritten(m) => t == s.(lock := Free, runner := Idle(m))
    case Dead => false
  }

  /** Exit, crash or SIGKILL: the kernel drops the lock. */
  predicate RunnerDies(s: State, t: State) {
    && !s.runner.NotStarted?
    && t == s.(runner := Dead, lock := if s.lock == HeldBy(Runner) then Free else s.lock)
  }

  predicate Next(s: State, t: State) {
    CliStep(s, t) || RunnerStep(s, t) || RunnerDies(s, t)
  }

  // ---- the invariant ----------------------------------------------------------------

  predicate CliHoldsLock(c: CliAt) {
    c.ClearHeld? || c.ClearWritten? || c.MergeHeld? || c.MergeRead? || c.MergeWritten?
  }

  predicate Spawned(c: CliAt) {
    !c.ClearWait? && !c.ClearHeld? && !c.ClearWritten? && !c.Spawning?
  }

  predicate Merged(c: CliAt) {
    Spawned(c) && !c.MergeWait? && !c.MergeHeld? && !c.MergeRead?
  }

  predicate InMemory(r: RunnerAt) {
    r.Idle? || r.SaveWait? || r.SaveHeld? || r.SaveWritten?
  }

  /** A journal the runner may hold: its own pid, or finished by failing early. */
  predicate RunnersOwn(s: State, m: Journal) {
    m.pid == s.own || m.finished
  }

  predicate LockInv(s: State) {
    && (s.lock == HeldBy(Cli) <==> CliHoldsLock(s.cli))
    && (s.lock == HeldBy(Runner) <==> s.runner.SaveHeld? || s.runner.SaveWritten?)
    && (s.cli.MergeRead? ==> s.cli.copy == s.disk)
    && (Spawned(s.cli) <==> !s.runner.NotStarted?)
  }

  predicate SavesInv(s: State) {
    && (!Spawned(s.cli) ==> s.saved == [])
    && (forall i :: 0 <= i < |s.saved| ==> RunnersOwn(s, s.saved[i]))
    && (forall i, k :: 0 <= i < k < |s.saved| ==> (s.saved[i].finished ==> s.saved[k].finished))
    && (InMemory(s.runner) ==> RunnersOwn(s, s.runner.mem))
    && (InMemory(s.runner) ==> forall i :: 0 <= i < |s.saved| ==> (s.saved[i].finished ==> s.runner.mem.finished))
    && (s.runner.Opening? || s.runner.Loaded? ==> s.saved == [])
  }

  predicate DiskInv(s: State) {
    && (s.saved == [] ==> s.disk.steps == s.base.steps && (s.cli.ClearWait? || s.cli.ClearHeld? || !s.disk.finished))
    && (s.saved != [] ==> var last := s.saved[|s.saved| - 1];
          s.disk.steps == last.steps && s.disk.finished == last.finished
          && (s.disk.pid == last.pid || s.disk.pid == s.own))
    && (Merged(s.cli) ==> s.disk.pid == s.own || s.disk.finished)
    && (s.runner.Loaded? ==> s.runner.mem.steps == s.base.steps)
  }

  predicate SavedNewThaw(s: State) {
    exists i :: 0 <= i < |s.saved| && NewThaw(s.saved[i].steps, s.base.steps)
  }

  /** The runner's last save finished the job. */
  predicate SavedFinished(s: State) {
    s.saved != [] && s.saved[|s.saved| - 1].finished
  }

  predicate CliInv(s: State) {
    && (s.cli.Looked? ==> s.cli.seen.pid == s.own)
    && (s.cli.Recheck? ==> s.runner.Dead?)
    && (s.cli.Ending? ==> SavedFinished(s) || (s.bang && SavedNewThaw(s)))
    && (s.cli.Final? ==>
          match s.cli.verdict
          case Finished => SavedFinished(s)
          case BangDone => s.bang && SavedNewThaw(s)
          case RunnerGone => s.runner.Dead? && forall i :: 0 <= i < |s.saved| ==> !s.saved[i].finished)
  }

  predicate Inv(s: State) {
    s.own > 0 && LockInv(s) && SavesInv(s) && DiskInv(s) && CliInv(s)
  }

  lemma InitInv(s: State)
    requires Init(s)
    ensures Inv(s)
  {
  }

  lemma CliKeepsLock(s: State, t: State)
    requires Inv(s) && CliStep(s, t)
    ensures LockInv(t)
  {
    hide SavesInv, DiskInv, CliInv;
  }

  /** The CLI changes nothing that SavesInv speaks of, but for the spawn. */
  lemma CliKeepsRunner(s: State, t: State)
    requires CliStep(s, t)
    ensures t.saved == s.saved && t.own == s.own && (t.runner == s.runner || t.runner == Opening)
    ensures Spawned(s.cli) ==> Spawned(t.cli) && t.runner == s.runner
  {
  }

  lemma CliKeepsSaves(s: State, t: State)
    requires Inv(s) && CliStep(s, t)
    ensures SavesInv(t)
  {
    hide LockInv, DiskInv, CliInv, CliStep;
    CliKeepsRunner(s, t);
  }

  lemma CliKeepsDisk(s: State, t: State)
    requires Inv(s) && CliStep(s, t)
    ensures DiskInv(t)
  {
  }

  lemma CliKeepsVerdict(s: State, t: State)
    requires Inv(s) && CliStep(s, t)
    ensures CliInv(t)
  {
    if s.saved != [] {
      var last := |s.saved| - 1;
      assert NewThaw(s.disk.steps, s.base.steps) ==> NewThaw(s.saved[last].steps, s.base.steps);
    }
  }

  lemma RunnerKeepsSaves(s: State, t: State)
    requires Inv(s) && RunnerStep(s, t)
    ensures LockInv(t) && SavesInv(t)
  {
  }

  lemma RunnerKeepsDisk(s: State, t: State)
    requires Inv(s) && RunnerStep(s, t)
    ensures DiskInv(t) && CliInv(t)
  {
    if SavedNewThaw(s) {
      var i :| 0 <= i < |s.saved| && NewThaw(s.saved[i].steps, s.base.steps);
      assert t.saved[i] == s.saved[i];
    }
  }

  lemma DeathKeeps(s: State, t: State)
    requires Inv(s) && RunnerDies(s, t)
    ensures Inv(t)
  {
  }

  predicate StepAt(run: seq<State>, i: nat)
    requires i + 1 < |run|
  {
    Next(run[i], run[i + 1])
  }

  ghost predicate IsRun(run: seq<State>) {
    run != [] && Init(run[0]) && forall i :: 0 <= i < |run| - 1 ==> StepAt(run, i)
  }

  lemma {:induction false} RunInv(run: seq<State>, i: nat)
    requires IsRun(run) && i < |run|
    ensures Inv(run[i])
  {
    if i == 0 {
      InitInv(run[0]);
    } else {
      RunInv(run, i - 1);
      assert StepAt(run, i - 1);
      if CliStep(run[i - 1], run[i]) {
        CliKeepsLock(run[i - 1], run[i]);
        CliKeepsSaves(run[i - 1], run[i]);
        CliKeepsDisk(run[i - 1], run[i]);
        CliKeepsVerdict(run[i - 1], run[i]);
      } else if RunnerStep(run[i - 1], run[i]) {
        RunnerKeepsSaves(run[i - 1], run[i]);
        RunnerKeepsDisk(run[i - 1], run[i]);
      } else {
        DeathKeeps(run[i - 1], run[i]);
      }
    }
  }

  // ---- what is promised ------------------------------------------------------------------

  /** The steps on disk are always those of the runner's latest save, and those
      from before the spawn until it has saved: the pid merge loses nothing. */
  lemma ProgressIsNeverLost(run: seq<State>, i: nat)
    requires IsRun(run) && i < |run|
    ensures var s := run[i];
            s.disk.steps == if s.saved == [] then s.base.steps else s.saved[|s.saved| - 1].steps
  {
    RunInv(run, i);
  }

  /** Once the runner's start-up save (or the merge) has happened, the pid on
      disk is the runner's own, unless the job is already finished. */
  lemma PidIsTheRunners(run: seq<State>, i: nat)
    requires IsRun(run) && i < |run|
    ensures var s := run[i];
            (s.saved != [] && s.saved[|s.saved| - 1].pid == s.own) ==> s.disk.pid == s.own
    ensures Merged(run[i].cli) ==> run[i].disk.pid == run[i].own || run[i].disk.finished
  {
    RunInv(run, i);
  }

  /** follow reports what happened: finished only on the runner's own final
      save, never on the state left by the run it replaces; the !-mode exit
      only on thaw+exit progress of this runner; and a runner gone only when it
      is dead and no finished journal of it was ever saved. */
  lemma FollowTellsTheTruth(run: seq<State>, i: nat)
    requires IsRun(run) && i < |run| && run[i].cli.Final?
    ensures var s := run[i];
            match s.cli.verdict
            case Finished => s.saved != [] && s.saved[|s.saved| - 1].finished
            case BangDone => s.bang && exists k :: 0 <= k < |s.saved| && var was, now := s.base.steps, s.saved[k].steps;
              now.thawAttempts > was.thawAttempts || (now.thawDone && !was.thawDone)
            case RunnerGone => s.runner.Dead? && forall k :: 0 <= k < |s.saved| ==> !s.saved[k].finished
  {
    RunInv(run, i);
    if run[i].cli.verdict.BangDone? {
      var k :| 0 <= k < |run[i].saved| && NewThaw(run[i].saved[k].steps, run[i].base.steps);
    }
  }

  /** And it does notice: a poll that reads the end of the job, or in !-mode its
      thaw+exit attempted again or done, goes on to the verdict, and no other
      poll does. */
  lemma PollNotices(s: State, t: State)
    requires s.cli.Poll? && CliStep(s, t)
    ensures var j := s.disk;
            t.cli.Ending? <==>
              || j.finished
              || (s.bang && (j.steps.thawAttempts > s.base.steps.thawAttempts || (j.steps.thawDone && !s.base.steps.thawDone)))
  {
  }

  predicate Following(c: CliAt) {
    c.Poll? || c.Looked? || c.Recheck? || c.Ending? || c.Final?
  }

  /** Steps of its own follow still takes once the runner is dead. */
  function Rank(c: CliAt): nat {
    match c
    case Poll => 4
    case Looked(_) => 3
    case Recheck => 2
    case Ending => 1
    case _ => 0
  }

  /** It cannot hang on a dead runner: it can always step, each step brings it
      nearer its end, and nobody else holds it up... */
  lemma DeadRunnerIsNoticed(run: seq<State>, i: nat, t: State)
    requires IsRun(run) && i < |run| && run[i].runner.Dead? && Following(run[i].cli) && Next(run[i], t)
    ensures t.runner.Dead? && Following(t.cli)
    ensures t.cli == run[i].cli || Rank(t.cli) < Rank(run[i].cli)
    ensures CliStep(run[i], t) ==> t.cli != run[i].cli
  {
    RunInv(run, i);
  }

  ghost predicate CliCanStep(s: State) {
    exists t :: CliStep(s, t)
  }

  lemma FollowNeverBlocks(s: State)
    requires Following(s.cli) && !s.cli.Final?
    ensures CliCanStep(s)
  {
    var next := match s.cli
      case Poll => if Over(s, s.disk) then Ending else Looked(s.disk)
      case Looked(seen) => if seen.pid > 0 && !Alive(s, seen.pid) then Recheck else Poll
      case Recheck => if Over(s, s.disk) then Ending else Final(RunnerGone)
      case _ => Final(if s.disk.finished then Finished else BangDone);
    assert CliStep(s, s.(cli := next));
  }

  function CliMoves(run: seq<State>, i: nat, k: nat): nat
    requires i <= k < |run|
    decreases k
  {
    if i == k then 0 else CliMoves(run, i, k - 1) + (if run[k - 1].cli != run[k].cli then 1 else 0)
  }

  /** ... so in any run it has its verdict after at most four moves of its own. */
  lemma {:induction false} FourMovesEnd(run: seq<State>, i: nat, k: nat)
    requires IsRun(run) && i <= k < |run| && run[i].runner.Dead? && Following(run[i].cli)
    ensures run[k].runner.Dead? && Following(run[k].cli)
    ensures Rank(run[k].cli) + CliMoves(run, i, k) <= Rank(run[i].cli) <= 4
    ensures CliMoves(run, i, k) >= 4 ==> run[k].cli.Final?
    decreases k
  {
    if i < k {
      FourMovesEnd(run, i, k - 1);
      assert StepAt(run, k - 1);
      DeadRunnerIsNoticed(run, k - 1, run[k]);
    }
  }

  // ---- each verdict is reached ---------------------------------------------------------

  function Last(run: seq<State>): State
    requires run != []
  {
    run[|run| - 1]
  }

  lemma OneMore(run: seq<State>, t: State)
    requires IsRun(run) && Next(Last(run), t)
    ensures IsRun(run + [t]) && Last(run + [t]) == t && (run + [t])[0] == run[0]
  {
    var longer := run + [t];
    forall i: nat | i + 1 < |longer| ensures StepAt(longer, i) {
      if i + 1 < |run| {
        assert StepAt(run, i);
      } else {
        assert longer[i] == Last(run);
      }
    }
  }

  /** The CLI clears the finished flag, spawns the runner and merges its pid. */
  lemma Spawns(s0: State) returns (run: seq<State>)
    requires Init(s0)
    ensures IsRun(run) && run[0] == s0
    ensures Last(run) == s0.(cli := Poll, runner := Opening, disk := s0.base.(finished := false, pid := s0.own))
  {
    var cleared := s0.base.(finished := false);
    run := [s0];
    run := Then(run, s0.(lock := HeldBy(Cli), cli := ClearHeld));
    run := Then(run, Last(run).(disk := cleared, cli := ClearWritten));
    run := Then(run, Last(run).(lock := Free, cli := Spawning));
    run := Then(run, Last(run).(runner := Opening, cli := MergeWait));
    run := Then(run, Last(run).(lock := HeldBy(Cli), cli := MergeHeld));
    run := Then(run, Last(run).(cli := MergeRead(cleared)));
    run := Then(run, Last(run).(disk := cleared.(pid := s0.own), cli := MergeWritten));
    run := Then(run, Last(run).(lock := Free, cli := Poll));
  }

  lemma Then(run: seq<State>, t: State) returns (longer: seq<State>)
    requires IsRun(run) && Next(Last(run), t)
    ensures IsRun(longer) && Last(longer) == t && longer[0] == run[0]
  {
    OneMore(run, t);
    longer := run + [t];
  }

  /** The runner saves the journal it holds. */
  lemma RunnerSaves(run: seq<State>, m: Journal) returns (longer: seq<State>)
    requires IsRun(run) && Last(run).lock == Free && Last(run).runner == SaveWait(m)
    ensures IsRun(longer) && longer[0] == run[0]
    ensures Last(longer) == Last(run).(disk := m, saved := Last(run).saved + [m], runner := Idle(m))
  {
    longer := Then(run, Last(run).(lock := HeldBy(Runner), runner := SaveHeld(m)));
    longer := Then(longer, Last(longer).(disk := m, saved := Last(longer).saved + [m], runner := SaveWritten(m)));
    longer := Then(longer, Last(longer).(lock := Free, runner := Idle(m)));
  }

  /** The runner opens the journal and saves its pid. */
  lemma Starts(s0: State) returns (run: seq<State>)
    requires Init(s0)
    ensures IsRun(run) && run[0] == s0
    ensures var m := s0.base.(finished := false, pid := s0.own);
            Last(run) == s0.(cli := Poll, runner := Idle(m), disk := m, saved := [m])
  {
    var m := s0.base.(finished := false, pid := s0.own);
    run := Spawns(s0);
    run := Then(run, Last(run).(runner := Loaded(m)));
    run := Then(run, Last(run).(runner := SaveWait(m)));
    run := RunnerSaves(run, m);
    assert [] + [m] == [m];
  }

  /** A job that finishes is reported finished. */
  lemma FinishIsReported(s0: State) returns (run: seq<State>)
    requires Init(s0)
    ensures IsRun(run) && run[0] == s0 && Last(run).cli == Final(Finished)
  {
    run := Starts(s0);
    var m := Last(run).disk.(finished := true);
    run := Then(run, Last(run).(runner := SaveWait(m)));
    run := RunnerSaves(run, m);
    run := Then(run, Last(run).(cli := Ending));
    run := Then(run, Last(run).(cli := Final(Finished)));
  }

  /** In !-mode the attempt to exit the source is enough. */
  lemma ThawIsReported(s0: State) returns (run: seq<State>)
    requires Init(s0) && s0.bang
    ensures IsRun(run) && run[0] == s0 && Last(run).cli == Final(BangDone) && !Last(run).disk.finished
  {
    run := Starts(s0);
    var was := Last(run).disk;
    var m := was.(steps := was.steps.(thawAttempts := was.steps.thawAttempts + 1));
    run := Then(run, Last(run).(runner := SaveWait(m)));
    run := RunnerSaves(run, m);
    run := Then(run, Last(run).(cli := Ending));
    run := Then(run, Last(run).(cli := Final(BangDone)));
  }

  /** A runner that dies at its start is reported gone. */
  lemma DeathIsReported(s0: State) returns (run: seq<State>)
    requires Init(s0)
    ensures IsRun(run) && run[0] == s0 && Last(run).cli == Final(RunnerGone)
  {
    run := Starts(s0);
    run := Then(run, Last(run).(runner := Dead));
    run := Then(run, Last(run).(cli := Looked(Last(run).disk)));
    run := Then(run, Last(run).(cli := Recheck));
    run := Then(run, Last(run).(cli := Final(RunnerGone)));
  }
}
