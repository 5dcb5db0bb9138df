/** The freezer: an owner that stops a process through a helper, a pipe whose
    data or end makes the helper continue it, and an owner that may die at any
    moment.  Every interleaving of owner, helper, target and death. */
module Freezer {
  import opened Common

  // ---- whom to signal ----------------------------------------------------------

  datatype Recipient = Group(pgid: int) | OnlyPid

  /** groupToSignal: 0 stands for "the bare pid".  readable is false when the
      target's group cannot be read. */
  function GroupToSignal(readable: bool, pgid: int, self: int, owner: int): (g: int)
    ensures g != 0 ==> g == pgid && g > 1 && g != self && g != owner
    ensures g == 0 <==> !readable || pgid <= 1 || pgid == self || pgid == owner
  {
    if !readable then 0
    else if pgid <= 1 then 0
    else if pgid == self then 0
    else if pgid == owner then 0
    else pgid
  }

  function RecipientOf(g: int): Recipient {
    if g > 0 then Group(g) else OnlyPid
  }

  // ---- the protocol -----------------------------------------------------------------

  datatype Target = Running | Stopped | Gone

  datatype OwnerAt =
    | Idle | AwaitAck | Aborting | Failed
    | Holding | Closing | Waiting | Thawed | ThawFailed | Stuck
    | Dead

  datatype HelperAt =
    | NotStarted | Checking | Knowing(ownerPgid: int)
    | Acking(ownerPgid: int) | Reading(ownerPgid: int)
    | Woken(ownerPgid: int, ownerDied: bool) | Resumed(ownerDied: bool)
    | Exited

  /** The groups never change; stopTo and contTo are who was sent SIGSTOP and
      SIGCONT, refused that kill(2) would not send the SIGCONT, restored that the
      helper gave the terminal back. */
  datatype State = State(
    targetPgid: int, helperPgid: int, ownerPgid: int,
    target: Target, owner: OwnerAt, helper: HelperAt,
    writeOpen: bool, data: bool, acked: bool,
    stopTo: Option<Recipient>, contTo: Option<Recipient>, refused: bool, restored: bool)

  predicate Init(s: State) {
    && s.helperPgid > 1 && s.ownerPgid > 1 && s.helperPgid != s.ownerPgid
    && s.target != Stopped && s.owner == Idle && s.helper == NotStarted
    && !s.writeOpen && !s.data && !s.acked && s.stopTo == None && s.contTo == None && !s.refused && !s.restored
  }

  function Recipients(s: State, ownerRead: int): Recipient {
    RecipientOf(GroupToSignal(true, s.targetPgid, s.helperPgid, ownerRead))
  }

  /** Freeze, then Thaw. */
  predicate OwnerStep(s: State, t: State) {
    match s.owner
    case Idle => t == s.(owner := AwaitAck, helper := Checking, writeOpen := true)
    case AwaitAck =>
      || (s.acked && t == s.(owner := Holding))
      || t == s.(owner := Aborting, writeOpen := false)
    case Aborting => s.helper.Exited? && t == s.(owner := Failed)
    case Holding =>
      || t == s.(owner := Closing, data := true)
      || (s.helper.Exited? && t == s.(owner := Closing))
      || t == s.(owner := Stuck)
    case Closing => t == s.(owner := Waiting, writeOpen := false)
    case Waiting => s.helper.Exited? && t == s.(owner := if s.refused then ThawFailed else Thawed)
    case _ => false
  }

  predicate OwnerDies(s: State, t: State) {
    s.owner != Dead && t == s.(owner := Dead, writeOpen := false)
  }

  /** RunFreezerHelper.  It ignores every signal it could be sent short of
      SIGKILL, so it has no step of its own death. */
  predicate HelperStep(s: State, t: State) {
    match s.helper
    case NotStarted => false
    case Checking =>
      if s.target == Gone then t == s.(helper := Exited)
      else t == s.(helper := Knowing(if s.owner == Dead then 0 else s.ownerPgid))
    case Knowing(o) =>
      || t == s.(helper := Exited)
      || (s.target != Gone && t == s.(target := Stopped, stopTo := Some(Recipients(s, o)), helper := Acking(o)))
    case Acking(o) => t == s.(acked := true, helper := Reading(o))
    case Reading(o) => (s.data || !s.writeOpen) && t == s.(helper := Woken(o, !s.data))
    case Woken(o, died) =>
      if s.target == Gone then t == s.(helper := Exited)
      else
        || t == s.(target := Running, contTo := Some(Recipients(s, o)), helper := Resumed(died))
        || t == s.(refused := true, helper := Exited)
    case Resumed(died) => t == s.(restored := died, helper := Exited)
    case Exited => false
  }

  /** The target ends, or somebody else continues it. */
  predicate TargetStep(s: State, t: State) {
    || (s.target != Gone && t == s.(target := Gone))
    || (s.target == Stopped && t == s.(target := Running))
  }

  predicate Next(s: State, t: State) {
    OwnerStep(s, t) || OwnerDies(s, t) || HelperStep(s, t) || TargetStep(s, t)
  }

  // ---- the invariant -----------------------------------------------------------------

  /** Between its SIGSTOP and its SIGCONT. */
  predicate Guarding(h: HelperAt) {
    h.Acking? || h.Reading? || h.Woken?
  }

  predicate KnowsOwner(h: HelperAt) {
    h.Knowing? || h.Acking? || h.Reading? || h.Woken?
  }

  predicate Inv(s: State) {
    && s.helperPgid > 1 && s.ownerPgid > 1
    && (s.target == Stopped ==> Guarding(s.helper) || s.refused)
    && (s.refused ==> s.helper.Exited? && s.stopTo != None && s.contTo == None && (s.data || !s.writeOpen))
    && (s.contTo != None ==> s.helper.Resumed? || s.helper.Exited?)
    && (s.owner.Thawed? ==> !s.refused) && (s.owner.ThawFailed? ==> s.refused)
    && (Guarding(s.helper) ==> s.stopTo == Some(Recipients(s, s.helper.ownerPgid)))
    && (KnowsOwner(s.helper) ==> s.helper.ownerPgid == s.ownerPgid || (s.helper.ownerPgid == 0 && s.owner == Dead))
    && (s.stopTo != None ==> Safe(s, s.stopTo.value))
    && (s.stopTo != None && s.targetPgid > 1 && s.targetPgid != s.helperPgid && s.targetPgid != s.ownerPgid ==>
          s.stopTo == Some(Group(s.targetPgid)))
    && (s.contTo != None ==> s.contTo == s.stopTo)
    && (s.stopTo == None ==> s.contTo == None)
    && (s.helper.NotStarted? ==> s.stopTo == None && (s.owner == Idle || s.owner == Dead))
    && (s.owner == Idle ==> s.helper.NotStarted?)
    && (s.helper.Checking? || s.helper.Knowing? ==> s.stopTo == None && !s.acked)
    && (s.acked ==> s.stopTo != None && !s.helper.Acking?)
    && (s.owner.Aborting? || s.owner.Waiting? || s.owner.Dead? ==> !s.writeOpen)
    && (s.owner.Closing? ==> s.data || s.helper.Exited?)
    && (s.owner.Thawed? || s.owner.ThawFailed? || s.owner.Failed? ==> s.helper.Exited?)
    && (s.owner.Holding? || s.owner.Closing? || s.owner.Waiting? || s.owner.Thawed? || s.owner.ThawFailed? || s.owner.Stuck? ==> s.acked)
    && (s.data ==> s.owner.Closing? || s.owner.Waiting? || s.owner.Thawed? || s.owner.ThawFailed? || s.owner.Dead?)
    && ((s.helper.Woken? || s.helper.Resumed?) && s.helper.ownerDied ==> !s.writeOpen)
    && (s.restored ==> !s.writeOpen && s.contTo != None)
    && (s.helper.Resumed? ==> s.contTo != None)
    && (s.helper.Woken? || s.helper.Resumed? ==> s.data || !s.writeOpen)
  }

  /** Not the helper's own group, nor the group of a living owner. */
  predicate Safe(s: State, r: Recipient) {
    r.Group? ==> r.pgid == s.targetPgid && r.pgid > 1 && r.pgid != s.helperPgid && (s.owner != Dead ==> r.pgid != s.ownerPgid)
  }

  lemma InitInv(s: State)
    requires Init(s)
    ensures Inv(s)
  {
  }

  lemma OwnerKeeps(s: State, t: State)
    requires Inv(s) && OwnerStep(s, t)
    ensures Inv(t)
  {
    hide Inv, OwnerStep;
    if s.owner.Idle? || s.owner.AwaitAck? || s.owner.Aborting? {
      FreezeKeeps(s, t);
    } else {
      ThawKeeps(s, t);
    }
  }

  lemma FreezeKeeps(s: State, t: State)
    requires Inv(s) && OwnerStep(s, t) && (s.owner.Idle? || s.owner.AwaitAck? || s.owner.Aborting?)
    ensures Inv(t)
  {
    match s.owner {
      case Idle =>
      case AwaitAck =>
      case _ =>
    }
  }

  lemma ThawKeeps(s: State, t: State)
    requires Inv(s) && OwnerStep(s, t) && !s.owner.Idle? && !s.owner.AwaitAck? && !s.owner.Aborting?
    ensures Inv(t)
  {
    match s.owner {
      case Holding =>
      case Closing =>
      case _ =>
    }
  }

  lemma DeathKeeps(s: State, t: State)
    requires Inv(s) && OwnerDies(s, t)
    ensures Inv(t)
  {
  }

  lemma HelperKeeps(s: State, t: State)
    requires Inv(s) && HelperStep(s, t)
    ensures Inv(t)
  {
  }

  lemma TargetKeeps(s: State, t: State)
    requires Inv(s) && TargetStep(s, t)
    ensures Inv(t)
  {
  }

  lemma NextKeeps(s: State, t: State)
    requires Inv(s) && Next(s, t)
    ensures Inv(t)
  {
    if OwnerStep(s, t) {
      OwnerKeeps(s, t);
    } else if OwnerDies(s, t) {
      DeathKeeps(s, t);
    } else if HelperStep(s, t) {
      HelperKeeps(s, t);
    } else {
      TargetKeeps(s, t);
    }
  }

  predicate StepAt(run: seq<State>, i: nat)
    requires i + 1 < |run|
  {
    Next(run[i], run[i + 1])
  }

  ghost predicate IsRun(run: seq<State>) {
    run != [] && Init(run[0]) && forall i :: 0 <= i < |run| - 1 ==> StepAt(run, i)
  }

  lemma {:induction false} RunInv(run: seq<State>, i: nat)
    requires IsRun(run) && i < |run|
    ensures Inv(run[i])
  {
    if i == 0 {
      InitInv(run[0]);
    } else {
      RunInv(run, i - 1);
      assert StepAt(run, i - 1);
      NextKeeps(run[i - 1], run[i]);
    }
  }

  // ---- what is promised -----------------------------------------------------------------

  /** A stopped target has a live helper between its SIGSTOP and its SIGCONT,
      unless and only unless kill refused that SIGCONT; both signals go to the
      same recipients, never to the helper's group or a living owner's. */
  lemma StoppedIsGuarded(run: seq<State>, i: nat)
    requires IsRun(run) && i < |run|
    ensures var s := run[i];
            && (s.target == Stopped ==> (Guarding(s.helper) <==> !s.refused))
            && (s.stopTo != None ==> Safe(s, s.stopTo.value))
            && (s.contTo != None ==> s.contTo == s.stopTo)
  {
    RunInv(run, i);
  }

  /** Who is stopped, read off the groups: the target's group, unless it is no
      real job's, the helper's or its living owner's; then the target alone. */
  lemma WhoIsStopped(run: seq<State>, i: nat)
    requires IsRun(run) && i < |run| && run[i].stopTo != None
    ensures var s := run[i];
            && (s.targetPgid > 1 && s.targetPgid != s.helperPgid && s.targetPgid != s.ownerPgid ==>
                  s.stopTo == Some(Group(s.targetPgid)))
            && (s.targetPgid <= 1 || s.targetPgid == s.helperPgid || (s.targetPgid == s.ownerPgid && s.owner != Dead) ==>
                  s.stopTo == Some(OnlyPid))
  {
    RunInv(run, i);
  }

  /** What Freeze and Thaw report is so: a Freezer means the target was sent
      SIGSTOP; a Thaw without an error leaves it not stopped, one with an error
      had its SIGCONT refused; a failed Freeze leaves it stopped only then. */
  lemma ReportsAreTrue(run: seq<State>, i: nat)
    requires IsRun(run) && i < |run|
    ensures run[i].owner.Holding? ==> run[i].stopTo != None
    ensures run[i].owner.Thawed? ==> run[i].target != Stopped
    ensures run[i].owner.ThawFailed? ==> run[i].refused
    ensures run[i].owner.Failed? && run[i].target == Stopped ==> run[i].refused
  {
    RunInv(run, i);
  }

  /** The consequence: after a refused SIGCONT nobody here continues the target;
      it stays stopped until it ends or somebody else continues it. */
  lemma RefusedIsLeft(s: State, t: State)
    requires Inv(s) && Next(s, t) && s.refused
    ensures t.refused && (s.target == Stopped ==> t.target == Stopped || TargetStep(s, t))
  {
  }

  /** And it can happen: a thawed target whose SIGCONT is refused. */
  lemma RefusalLeavesStopped(s: State)
    requires Inv(s) && s.helper.Woken? && s.target == Stopped
    ensures exists t :: HelperStep(s, t) && t.refused && t.target == Stopped && t.helper.Exited?
  {
    assert HelperStep(s, s.(refused := true, helper := Exited));
  }

  /** Steps the helper still has to take. */
  function Rank(h: HelperAt): nat {
    match h
    case NotStarted => 7
    case Checking => 6
    case Knowing(_) => 5
    case Acking(_) => 4
    case Reading(_) => 3
    case Woken(_, _) => 2
    case Resumed(_) => 1
    case Exited => 0
  }

  /** The pipe says thaw: data, or its end. */
  predicate Released(s: State) {
    s.data || !s.writeOpen
  }

  ghost predicate HelperCanStep(s: State) {
    exists t :: HelperStep(s, t)
  }

  /** Once the owner has thawed, given up or died, the helper is never blocked
      while the target is stopped, unless it has had its SIGCONT refused... */
  lemma HelperNeverBlocks(s: State)
    requires Inv(s) && Released(s) && s.target == Stopped
    ensures HelperCanStep(s) <==> !s.refused
  {
    match s.helper {
      case Acking(o) => assert HelperStep(s, s.(acked := true, helper := Reading(o)));
      case Reading(o) => assert HelperStep(s, s.(helper := Woken(o, !s.data)));
      case Woken(o, died) =>
        assert HelperStep(s, s.(target := Running, contTo := Some(Recipients(s, o)), helper := Resumed(died)));
      case _ =>
    }
  }

  /** ... its steps only ever bring it nearer its end, nobody else's take it
      further away or take the release back, and at its end the target runs or
      is gone, or the SIGCONT was refused: so after at most Rank steps. */
  lemma ReleaseLeadsToRunning(s: State, t: State)
    requires Inv(s) && Next(s, t) && s.helper != NotStarted && Released(s)
    ensures Released(t) && t.helper != NotStarted
    ensures Rank(t.helper) + (if s.helper != t.helper then 1 else 0) <= Rank(s.helper)
    ensures HelperStep(s, t) ==> Rank(t.helper) < Rank(s.helper)
  {
    hide Inv;
    if HelperStep(s, t) {
      HelperAdvances(s, t);
    } else if OwnerStep(s, t) {
      OwnerKeepsRelease(s, t);
    }
  }

  lemma HelperAdvances(s: State, t: State)
    requires HelperStep(s, t)
    ensures t.helper != NotStarted && Rank(t.helper) < Rank(s.helper) && (Released(s) ==> Released(t))
  {
    match s.helper {
      case Checking =>
      case Knowing(_) =>
      case Acking(_) =>
      case Reading(_) =>
      case Woken(_, _) =>
      case _ =>
    }
  }

  lemma OwnerKeepsRelease(s: State, t: State)
    requires Inv(s) && OwnerStep(s, t) && s.helper != NotStarted && Released(s)
    ensures Released(t) && t.helper == s.helper
  {
  }

  lemma LowRankRuns(s: State)
    requires Inv(s) && Rank(s.helper) <= 1
    ensures s.target == Stopped ==> s.refused
  {
  }

  /** Owner death releases, whatever it was doing. */
  lemma DeathReleases(s: State, t: State)
    requires Inv(s) && OwnerDies(s, t)
    ensures Released(t)
  {
  }

  lemma {:induction false} RankCountsDown(run: seq<State>, i: nat, k: nat)
    requires IsRun(run) && i <= k < |run| && Released(run[i]) && run[i].helper != NotStarted
    ensures Released(run[k]) && run[k].helper != NotStarted
    ensures Rank(run[k].helper) + HelperSteps(run, i, k) <= Rank(run[i].helper)
    decreases k
  {
    hide Inv, OwnerStep, HelperStep, Released, Rank;
    if k > i {
      var s, t := run[k - 1], run[k];
      RankCountsDown(run, i, k - 1);
      RunInv(run, k - 1);
      assert StepAt(run, k - 1);
      ReleaseLeadsToRunning(s, t);
      assert HelperSteps(run, i, k) == HelperSteps(run, i, k - 1) + (if s.helper != t.helper then 1 else 0);
    }
  }

  /** Whole runs: from a released state, any continuation in which the helper
      took its remaining steps ends with the target not stopped, unless kill
      refused the SIGCONT. */
  lemma EnoughStepsThaw(run: seq<State>, i: nat, k: nat)
    requires IsRun(run) && i <= k < |run| && Released(run[i]) && run[i].helper != NotStarted
    requires HelperSteps(run, i, k) >= Rank(run[i].helper)
    ensures run[k].target == Stopped ==> run[k].refused
  {
    RankCountsDown(run, i, k);
    RunInv(run, k);
    LowRankRuns(run[k]);
  }

  function HelperSteps(run: seq<State>, i: nat, k: nat): nat
    requires i <= k < |run|
    decreases k
  {
    if i == k then 0
    else HelperSteps(run, i, k - 1) + (if run[k - 1].helper != run[k].helper then 1 else 0)
  }

  /** When the owner is gone, the helper gives the terminal back before it
      exits; the ordinary thaw leaves that to the owner. */
  lemma RestoreOnlyForTheDead(run: seq<State>, i: nat)
    requires IsRun(run) && i < |run| && run[i].restored
    ensures !run[i].writeOpen && run[i].contTo != None
  {
    RunInv(run, i);
  }

  // ---- it does freeze and thaw -----------------------------------------------------------

  function Last(run: seq<State>): State
    requires run != []
  {
    run[|run| - 1]
  }

  lemma Then(run: seq<State>, t: State) returns (longer: seq<State>)
    requires IsRun(run) && Next(Last(run), t)
    ensures IsRun(longer) && Last(longer) == t && longer[0] == run[0]
  {
    longer := run + [t];
    forall i | 0 <= i < |longer| - 1 ensures StepAt(longer, i) {
      if i + 1 < |run| {
        assert StepAt(run, i);
      } else {
        assert longer[i] == Last(run);
      }
    }
  }

  /** A running target is stopped and the owner holds a Freezer. */
  lemma Freezes(s0: State) returns (run: seq<State>)
    requires Init(s0) && s0.target == Running
    ensures IsRun(run) && run[0] == s0
    ensures Last(run) == s0.(owner := Holding, target := Stopped, helper := Reading(s0.ownerPgid), writeOpen := true,
                             acked := true, stopTo := Some(Recipients(s0, s0.ownerPgid)))
  {
    run := [s0];
    run := Then(run, s0.(owner := AwaitAck, helper := Checking, writeOpen := true));
    run := Then(run, Last(run).(helper := Knowing(s0.ownerPgid)));
    run := Then(run, Last(run).(target := Stopped, stopTo := Some(Recipients(s0, s0.ownerPgid)), helper := Acking(s0.ownerPgid)));
    run := Then(run, Last(run).(acked := true, helper := Reading(s0.ownerPgid)));
    run := Then(run, Last(run).(owner := Holding));
  }

  /** Freeze and Thaw: the target runs again, SIGCONT went where SIGSTOP did, and
      the terminal is left to the owner. */
  lemma FreezesAndThaws(s0: State) returns (run: seq<State>)
    requires Init(s0) && s0.target == Running
    ensures IsRun(run) && run[0] == s0
    ensures var s := Last(run);
            s.owner == Thawed && s.target == Running && s.stopTo.Some? && s.contTo == s.stopTo && !s.refused && !s.restored
  {
    run := Freezes(s0);
    run := Then(run, Last(run).(owner := Closing, data := true));
    run := Then(run, Last(run).(owner := Waiting, writeOpen := false));
    run := Then(run, Last(run).(helper := Woken(s0.ownerPgid, false)));
    run := Then(run, Last(run).(target := Running, contTo := Some(Recipients(s0, s0.ownerPgid)), helper := Resumed(false)));
    run := Then(run, Last(run).(restored := false, helper := Exited));
    run := Then(run, Last(run).(owner := Thawed));
  }

  /** An owner that dies holding it: the target runs again and has its terminal
      back. */
  lemma DeathThaws(s0: State) returns (run: seq<State>)
    requires Init(s0) && s0.target == Running
    ensures IsRun(run) && run[0] == s0
    ensures var s := Last(run); s.owner == Dead && s.target == Running && s.contTo == s.stopTo && s.contTo.Some? && s.restored
  {
    run := Freezes(s0);
    run := Then(run, Last(run).(owner := Dead, writeOpen := false));
    run := Then(run, Last(run).(helper := Woken(s0.ownerPgid, true)));
    run := Then(run, Last(run).(target := Running, contTo := Some(Recipients(s0, s0.ownerPgid)), helper := Resumed(true)));
    run := Then(run, Last(run).(restored := true, helper := Exited));
  }

  /** A target that is gone is never signalled: the helper just exits. */
  lemma GoneIsLeft(s: State, t: State)
    requires HelperStep(s, t) && s.target == Gone && (s.helper.Checking? || s.helper.Knowing? || s.helper.Woken?)
    ensures t == s.(helper := Exited)
  {
  }

  /** What may always happen: the owner dies, gives up waiting for the
      acknowledgement, or cannot write; the target ends, or somebody else
      continues it; a signal is refused. */
  lemma AnythingMayHappen(s: State)
    ensures s.owner != Dead ==> Next(s, s.(owner := Dead, writeOpen := false))
    ensures s.owner.AwaitAck? ==> Next(s, s.(owner := Aborting, writeOpen := false))
    ensures s.owner.Aborting? && s.helper.Exited? ==> Next(s, s.(owner := Failed))
    ensures s.owner.Holding? ==> Next(s, s.(owner := Stuck)) && (s.helper.Exited? ==> Next(s, s.(owner := Closing)))
    ensures s.target != Gone ==> Next(s, s.(target := Gone))
    ensures s.target == Stopped ==> Next(s, s.(target := Running))
    ensures s.helper.Knowing? ==> Next(s, s.(helper := Exited))
  {
  }
}
