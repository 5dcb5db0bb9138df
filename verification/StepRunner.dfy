/** The resumable step machine: job.Run over a journal.  A step's callbacks may
    answer anything; saving the journal may fail; the process may die between
    any two events of the trace. */
module StepRunner {
  import opened Common

  datatype Status = Pending | Running | Done | Failed

  datatype StepState = StepState(name: string, status: Status, attempts: nat, error: string)

  /** What Save writes of the journal. */
  datatype Snapshot = Snapshot(steps: seq<StepState>, finished: bool, outcome: string)

  datatype Event = Saved(snap: Snapshot) | SaveFailed | Entered(name: string)

  datatype Answer = Good | Bad(msg: string)

  datatype Verdict = NoVerify | VerifyError(msg: string) | Verified(done: bool)

  /** One step of the plan with what its callbacks would answer this time:
      Verify, the context when Run is about to start, and Run itself. */
  datatype Script = Script(name: string, verify: Verdict, context: Answer, run: Answer)

  // ---- the reference: which steps hold ----------------------------------------

  /** Run is attempted unless Verify is content, or failed, or there is no
      Verify and the journal says Done. */
  predicate NeedsRun(s: Script, before: Status) {
    match s.verify
    case NoVerify => before != Done
    case VerifyError(_) => false
    case Verified(done) => !done
  }

  predicate Enters(s: Script, before: Status) {
    NeedsRun(s, before) && s.context.Good?
  }

  /** The step ends up satisfied in this invocation. */
  predicate Holds(s: Script, before: Status) {
    !s.verify.VerifyError? && (NeedsRun(s, before) ==> s.context.Good? && s.run.Good?)
  }

  function StatusOf(steps: seq<StepState>, i: nat): Status {
    if i < |steps| then steps[i].status else Pending
  }

  function AttemptsOf(steps: seq<StepState>, i: nat): nat {
    if i < |steps| then steps[i].attempts else 0
  }

  ghost predicate AllHold(plan: seq<Script>, before: seq<StepState>, n: nat)
    requires n <= |plan|
  {
    forall i :: 0 <= i < n ==> Holds(plan[i], StatusOf(before, i))
  }

  ghost predicate Fits(steps: seq<StepState>, plan: seq<Script>) {
    |steps| <= |plan| && forall i :: 0 <= i < |steps| ==> steps[i].name == plan[i].name
  }

  ghost predicate DistinctNames(plan: seq<Script>) {
    forall i, k :: 0 <= i < k < |plan| ==> plan[i].name != plan[k].name
  }

  // ---- reading a journal ----------------------------------------------------------

  function FirstWith(steps: seq<StepState>, p: Status -> bool): (r: Option<string>)
    ensures r.None? <==> forall s :: s in steps ==> !p(s.status)
  {
    if steps == [] then None
    else if p(steps[0].status) then Some(steps[0].name)
    else FirstWith(steps[1..], p)
  }

  function FirstIncomplete(steps: seq<StepState>): Option<string> {
    FirstWith(steps, s => s != Done)
  }

  function FailedStep(steps: seq<StepState>): Option<string> {
    FirstWith(steps, s => s == Failed)
  }

  function ExitCode(j: Snapshot): int {
    if j.outcome == "success" then 0
    else if j.outcome == "failed" then
      if FailedStep(j.steps) == Some("start") then 5 else 1
    else 1
  }

  lemma {:induction false} FirstWithIs(steps: seq<StepState>, p: Status -> bool, k: nat)
    requires k < |steps| && p(steps[k].status)
    requires forall i :: 0 <= i < k ==> !p(steps[i].status)
    ensures FirstWith(steps, p) == Some(steps[k].name)
  {
    if k > 0 {
      FirstWithIs(steps[1..], p, k - 1);
    }
  }

  /** Exit code 0 says success, 5 that the step "start" failed, and 1 all the rest. */
  lemma ExitCodeIs(j: Snapshot, k: nat)
    requires k < |j.steps| && j.steps[k].status == Failed && forall i :: 0 <= i < k ==> j.steps[i].status != Failed
    ensures ExitCode(j) == 0 <==> j.outcome == "success"
    ensures ExitCode(j) == 5 <==> j.outcome == "failed" && j.steps[k].name == "start"
    ensures ExitCode(j) in {0, 1, 5}
  {
    FirstWithIs(j.steps, s => s == Failed, k);
  }

  // ---- the contract of one invocation ---------------------------------------------

  datatype Outcome = Success | AtStep(k: nat, msg: string, saved: bool) | SaveError

  function ErrorText(s: Script): string {
    match s.verify
    case VerifyError(msg) => "verify: " + msg
    case _ => if s.context.Bad? then s.context.msg else if s.run.Bad? then s.run.msg else ""
  }

  /** The steps list after an invocation that stopped at step k. */
  ghost predicate StoppedAt(plan: seq<Script>, before: seq<StepState>, after: seq<StepState>, k: nat) {
    && k < |plan| && Fits(after, plan)
    && |after| == (if |before| > k then |before| else k + 1)
    && (forall i :: 0 <= i < k ==> after[i].status == Done)
    && after[k].status == Failed && after[k].error == ErrorText(plan[k])
    && (forall i :: k < i < |after| ==> after[i] == before[i])
  }

  ghost predicate AttemptsCounted(plan: seq<Script>, before: seq<StepState>, after: seq<StepState>, n: nat)
    requires n <= |plan|
  {
    forall i :: 0 <= i < |after| ==>
      after[i].attempts == AttemptsOf(before, i) + (if i < n && Enters(plan[i], StatusOf(before, i)) then 1 else 0)
  }

  /** After a failed invocation the journal names the failing step both ways,
      and the exit code is 5 exactly when it is "start". */
  lemma FailureIsNamed(plan: seq<Script>, before: seq<StepState>, j: Snapshot, k: nat)
    requires StoppedAt(plan, before, j.steps, k) && j.outcome == "failed"
    ensures FirstIncomplete(j.steps) == Some(plan[k].name) == FailedStep(j.steps)
    ensures ExitCode(j) == (if plan[k].name == "start" then 5 else 1)
  {
    FirstWithIs(j.steps, s => s != Done, k);
    FirstWithIs(j.steps, s => s == Failed, k);
  }

  // ---- durability ---------------------------------------------------------------------

  /** The journal on disk after these events. */
  function Disk(start: Snapshot, trace: seq<Event>): Snapshot {
    if trace == [] then start
    else
      var e := trace[|trace| - 1];
      if e.Saved? then e.snap else Disk(start, trace[..|trace| - 1])
  }

  function Entries(trace: seq<Event>, name: string): nat {
    if trace == [] then 0
    else Entries(trace[..|trace| - 1], name) + (if trace[|trace| - 1] == Entered(name) then 1 else 0)
  }

  /** At one moment: the journal on disk can be continued with the same plan,
      and its attempts are the Run entries so far, or one more for a step that
      was announced but not entered. */
  ghost predicate DurableAt(plan: seq<Script>, start: Snapshot, trace: seq<Event>) {
    var d := Disk(start, trace);
    && Fits(d.steps, plan)
    && forall i :: 0 <= i < |plan| ==>
         var n := AttemptsOf(start.steps, i) + Entries(trace, plan[i].name);
         n <= AttemptsOf(d.steps, i) <= n + 1
  }

  /** The same at every moment the process may die. */
  ghost predicate Durable(plan: seq<Script>, start: Snapshot, trace: seq<Event>) {
    forall t :: 0 <= t <= |trace| ==> DurableAt(plan, start, trace[..t])
  }

  lemma DurableSnoc(plan: seq<Script>, start: Snapshot, trace: seq<Event>, e: Event)
    requires Durable(plan, start, trace) && DurableAt(plan, start, trace + [e])
    ensures Durable(plan, start, trace + [e])
  {
    forall t | 0 <= t <= |trace + [e]| ensures DurableAt(plan, start, (trace + [e])[..t]) {
      if t <= |trace| {
        assert (trace + [e])[..t] == trace[..t];
      } else {
        assert (trace + [e])[..t] == trace + [e];
      }
    }
  }

  /** Attempts in memory against the entries of the trace: exact, and exact on
      disk too once announced is None; the step announced is one ahead. */
  ghost predicate Counted(plan: seq<Script>, start: Snapshot, steps: seq<StepState>, trace: seq<Event>, announced: nat) {
    && Fits(steps, plan)
    && forall i :: 0 <= i < |plan| ==>
         AttemptsOf(steps, i) == AttemptsOf(start.steps, i) + Entries(trace, plan[i].name) + (if i == announced then 1 else 0)
  }

  lemma SaveIsDurable(plan: seq<Script>, start: Snapshot, trace: seq<Event>, snap: Snapshot, announced: nat, ok: bool)
    requires Durable(plan, start, trace) && Counted(plan, start, snap.steps, trace, announced)
    ensures var longer := trace + [if ok then Saved(snap) else SaveFailed];
            Durable(plan, start, longer) && Counted(plan, start, snap.steps, longer, announced)
  {
    var e := if ok then Saved(snap) else SaveFailed;
    var longer := trace + [e];
    assert longer[..|longer| - 1] == trace;
    forall name ensures Entries(longer, name) == Entries(trace, name) {
    }
    if !ok {
      assert DurableAt(plan, start, trace[..|trace|]) && trace[..|trace|] == trace;
    }
    DurableSnoc(plan, start, trace, e);
  }

  lemma EnteredIsDurable(plan: seq<Script>, start: Snapshot, trace: seq<Event>, snap: Snapshot, k: nat)
    requires DistinctNames(plan) && k < |plan|
    requires Durable(plan, start, trace) && Counted(plan, start, snap.steps, trace, k) && Disk(start, trace) == snap
    ensures Durable(plan, start, trace + [Entered(plan[k].name)])
    ensures Counted(plan, start, snap.steps, trace + [Entered(plan[k].name)], |plan|)
  {
    var longer := trace + [Entered(plan[k].name)];
    assert longer[..|longer| - 1] == trace;
    forall i | 0 <= i < |plan|
      ensures Entries(longer, plan[i].name) == Entries(trace, plan[i].name) + (if i == k then 1 else 0)
    {
    }
    DurableSnoc(plan, start, trace, Entered(plan[k].name));
  }

  class Journal {
    var steps: seq<StepState>
    var finished: bool
    var outcome: string
    var trace: seq<Event>

    function Snap(): Snapshot
      reads this
    {
      Snapshot(steps, finished, outcome)
    }

    constructor Load(s: Snapshot)
      ensures Snap() == s && trace == []
    {
      steps, finished, outcome, trace := s.steps, s.finished, s.outcome, [];
    }

    /** Step: the index of the named step, appended as pending when absent. */
    method Step(name: string) returns (i: nat)
      modifies this`steps
      ensures i < |steps| && steps[i].name == name
      ensures (forall k :: 0 <= k < i ==> steps[k].name != name)
      ensures steps == old(steps) || steps == old(steps) + [StepState(name, Pending, 0, "")]
      ensures (exists s :: s in old(steps) && s.name == name) ==> steps == old(steps)
    {
      i := 0;
      while i < |steps|
        invariant i <= |steps|
        invariant forall k :: 0 <= k < i ==> steps[k].name != name
      {
        if steps[i].name == name {
          return;
        }
        i := i + 1;
      }
      steps := steps + [StepState(name, Pending, 0, "")];
    }

    /** Nothing is owed to the disk but what the trace says. */
    ghost predicate Kept(plan: seq<Script>, start: Snapshot, announced: nat)
      reads this
    {
      Durable(plan, start, trace) && Counted(plan, start, steps, trace, announced)
    }

    /** Save: durable, or failed with the disk as it was. */
    method Save(ghost plan: seq<Script>, ghost start: Snapshot, ghost announced: nat) returns (ok: bool)
      requires Kept(plan, start, announced)
      modifies this`trace
      ensures trace == old(trace) + [if ok then Saved(Snap()) else SaveFailed]
      ensures Kept(plan, start, announced) && (ok ==> Disk(start, trace) == Snap())
    {
      ok := *;
      SaveIsDurable(plan, start, trace, Snap(), announced, ok);
      trace := trace + [if ok then Saved(Snap()) else SaveFailed];
    }

    method Fail(i: nat, msg: string, ghost plan: seq<Script>, ghost start: Snapshot) returns (saved: bool)
      requires i < |steps| && Kept(plan, start, |plan|)
      modifies this
      ensures steps == old(steps)[i := old(steps)[i].(status := Failed, error := msg)]
      ensures finished == old(finished) && outcome == "failed"
      ensures Kept(plan, start, |plan|) && (if saved then Disk(start, trace) == Snap() else SaveLost())
    {
      steps := steps[i := steps[i].(status := Failed, error := msg)];
      outcome := "failed";
      saved := Save(plan, start, |plan|);
    }

    /** The last thing that happened is a failed save. */
    ghost predicate SaveLost()
      reads this
    {
      trace != [] && trace[|trace| - 1].SaveFailed?
    }

    /** Marks step i done and saves. */
    method Finish(i: nat, ghost plan: seq<Script>, ghost start: Snapshot) returns (saved: bool)
      requires i < |steps| && Kept(plan, start, |plan|)
      modifies this`steps, this`trace
      ensures steps == old(steps)[i := old(steps)[i].(status := Done)]
      ensures Kept(plan, start, |plan|) && (!saved ==> SaveLost())
    {
      steps := steps[i := steps[i].(status := Done)];
      saved := Save(plan, start, |plan|);
    }

    /** Announces the attempt durably, then enters Run. */
    method Enter(i: nat, plan: seq<Script>, ghost start: Snapshot) returns (saved: bool)
      requires DistinctNames(plan) && i < |steps| && Kept(plan, start, |plan|)
      modifies this`steps, this`trace
      ensures steps == old(steps)[i := StepState(old(steps)[i].name, Running, old(steps)[i].attempts + 1, "")]
      ensures saved ==> Kept(plan, start, |plan|)
      ensures Durable(plan, start, trace) && Fits(steps, plan) && (!saved ==> SaveLost())
    {
      steps := steps[i := StepState(steps[i].name, Running, steps[i].attempts + 1, "")];
      saved := Save(plan, start, i);
      if saved {
        EnteredIsDurable(plan, start, trace, Snap(), i);
        trace := trace + [Entered(plan[i].name)];
      }
    }

    /** The loop is about to look at step i. */
    ghost predicate Reached(plan: seq<Script>, start: Snapshot, i: nat)
      reads this
    {
      && i <= |plan| && Kept(plan, start, |plan|)
      && |steps| == (if |start.steps| > i then |start.steps| else i)
      && (forall k :: 0 <= k < i ==> steps[k].status == Done)
      && (forall k :: i <= k < |steps| ==> steps[k] == start.steps[k])
      && AllHold(plan, start.steps, i) && AttemptsCounted(plan, start.steps, steps, i)
      && finished == start.finished && outcome == start.outcome
    }

    /** The loop stopped at step i because of what the step answered. */
    ghost predicate Stopped(plan: seq<Script>, start: Snapshot, i: nat, r: Outcome)
      reads this
    {
      && StoppedAt(plan, start.steps, steps, i)
      && AllHold(plan, start.steps, i) && !Holds(plan[i], StatusOf(start.steps, i))
      && AttemptsCounted(plan, start.steps, steps, i + 1)
      && Counted(plan, start, steps, trace, |plan|)
      && r.AtStep? && r.k == i && r.msg == ErrorText(plan[i])
      && outcome == "failed" && finished == start.finished
      && (if r.saved then Disk(start, trace) == Snap() else SaveLost())
    }

    /** job.Run: if every save works, it succeeds exactly when every step holds,
        and otherwise stops at the first that does not. */
    method Run(plan: seq<Script>) returns (r: Outcome)
      requires DistinctNames(plan) && Fits(steps, plan) && trace == []
      modifies this
      ensures r.Success? ==>
        && AllHold(plan, old(Snap()).steps, |plan|) && |steps| == |plan|
        && (forall s :: s in steps ==> s.status == Done) && finished && outcome == "success"
        && AttemptsCounted(plan, old(Snap()).steps, steps, |plan|)
        && Counted(plan, old(Snap()), steps, trace, |plan|) && Disk(old(Snap()), trace) == Snap()
      ensures r.AtStep? ==> Stopped(plan, old(Snap()), r.k, r)
      ensures r.SaveError? ==> SaveLost()
      ensures Durable(plan, old(Snap()), trace) && Fits(steps, plan)
    {
      ghost var start := Snap();
      StartIsKept(plan, start);
      var i := 0;
      while i < |plan|
        invariant Reached(plan, start, i)
      {
        var held: bool;
        held, r := RunStep(plan, i, start);
        if !held {
          return;
        }
        i := i + 1;
      }
      finished, outcome := true, "success";
      var saved := Save(plan, start, |plan|);
      r := if saved then Success else SaveError;
    }

    /** As Reached, once Step has found or appended step i. */
    ghost predicate Located(plan: seq<Script>, start: Snapshot, i: nat)
      reads this
    {
      && i < |plan| && Kept(plan, start, |plan|)
      && |steps| == (if |start.steps| > i then |start.steps| else i + 1)
      && (forall k :: 0 <= k < i ==> steps[k].status == Done)
      && steps[i] == (if i < |start.steps| then start.steps[i] else StepState(plan[i].name, Pending, 0, ""))
      && (forall k :: i < k < |steps| ==> steps[k] == start.steps[k])
      && AllHold(plan, start.steps, i) && AttemptsCounted(plan, start.steps, steps, i)
      && finished == start.finished && outcome == start.outcome
    }

    method Locate(plan: seq<Script>, i: nat, ghost start: Snapshot) returns (at: nat)
      requires DistinctNames(plan) && i < |plan| && Reached(plan, start, i)
      modifies this`steps
      ensures Located(plan, start, i) && at == i
    {
      assert i < |steps| ==> steps[i].name == plan[i].name && steps[i] in steps;
      at := Step(plan[i].name);
    }

    /** The step fails before Run is entered. */
    method Refuse(plan: seq<Script>, i: nat, msg: string, ghost start: Snapshot) returns (r: Outcome)
      requires Located(plan, start, i) && msg == ErrorText(plan[i])
      requires !Holds(plan[i], StatusOf(start.steps, i)) && !Enters(plan[i], StatusOf(start.steps, i))
      modifies this
      ensures Stopped(plan, start, i, r)
      ensures Durable(plan, start, trace) && Fits(steps, plan)
    {
      var saved := Fail(i, msg, plan, start);
      r := AtStep(i, msg, saved);
    }

    /** The step is satisfied without entering Run. */
    method Skip(plan: seq<Script>, i: nat, ghost start: Snapshot) returns (held: bool)
      requires Located(plan, start, i)
      requires Holds(plan[i], StatusOf(start.steps, i)) && !Enters(plan[i], StatusOf(start.steps, i))
      modifies this
      ensures if held then Reached(plan, start, i + 1) else SaveLost()
      ensures Durable(plan, start, trace) && Fits(steps, plan)
    {
      held := true;
      if steps[i].status != Done {
        held := Finish(i, plan, start);
      }
    }

    /** One turn of the loop. */
    method RunStep(plan: seq<Script>, i: nat, ghost start: Snapshot) returns (held: bool, r: Outcome)
      requires DistinctNames(plan) && i < |plan| && Reached(plan, start, i)
      modifies this
      ensures held ==> Reached(plan, start, i + 1)
      ensures !held ==> Stopped(plan, start, i, r) || (r.SaveError? && SaveLost())
      ensures Durable(plan, start, trace) && Fits(steps, plan)
    {
      var at := Locate(plan, i, start);
      held, r := false, SaveError;
      match plan[i].verify {
        case VerifyError(msg) =>
          r := Refuse(plan, i, "verify: " + msg, start);
          return;
        case Verified(done) =>
          if done {
            held := Skip(plan, i, start);
            return;
          }
        case NoVerify =>
          if steps[at].status == Done {
            return true, r;
          }
      }
      held, r := Attempt(plan, i, start);
    }

    /** The half of the turn that enters Run. */
    method Attempt(plan: seq<Script>, i: nat, ghost start: Snapshot) returns (held: bool, r: Outcome)
      requires DistinctNames(plan) && Located(plan, start, i) && NeedsRun(plan[i], StatusOf(start.steps, i))
      modifies this
      ensures held ==> Reached(plan, start, i + 1)
      ensures !held ==> Stopped(plan, start, i, r) || (r.SaveError? && SaveLost())
      ensures Durable(plan, start, trace) && Fits(steps, plan)
    {
      held, r := false, SaveError;
      if plan[i].context.Bad? {
        r := Refuse(plan, i, plan[i].context.msg, start);
        return;
      }
      var announced := Enter(i, plan, start);
      if announced {
        held, r := Conclude(plan, i, start);
      }
    }

    /** Inside Run, and after it. */
    method Conclude(plan: seq<Script>, i: nat, ghost start: Snapshot) returns (held: bool, r: Outcome)
      requires DistinctNames(plan) && i < |plan| && Enters(plan[i], StatusOf(start.steps, i))
      requires Kept(plan, start, |plan|) && |steps| == (if |start.steps| > i then |start.steps| else i + 1)
      requires (forall k :: 0 <= k < i ==> steps[k].status == Done)
      requires (forall k :: i < k < |steps| ==> steps[k] == start.steps[k])
      requires AllHold(plan, start.steps, i) && AttemptsCounted(plan, start.steps, steps, i + 1)
      requires finished == start.finished && outcome == start.outcome
      modifies this
      ensures held ==> Reached(plan, start, i + 1)
      ensures !held ==> Stopped(plan, start, i, r) || (r.SaveError? && SaveLost())
      ensures Durable(plan, start, trace) && Fits(steps, plan)
    {
      if plan[i].run.Bad? {
        var saved := Fail(i, plan[i].run.msg, plan, start);
        return false, AtStep(i, plan[i].run.msg, saved);
      }
      r := SaveError;
      held := Finish(i, plan, start);
    }
  }

  lemma StartIsKept(plan: seq<Script>, start: Snapshot)
    requires Fits(start.steps, plan)
    ensures Durable(plan, start, []) && Counted(plan, start, start.steps, [], |plan|)
  {
    var none: seq<Event> := [];
    assert none[..0] == none && DurableAt(plan, start, none);
  }

  // ---- histories ----------------------------------------------------------------------

  /** One invocation of a history: what its steps would answer, and after how
      many events its process died (if it got that far). */
  datatype Invocation = Invocation(plan: seq<Script>, dies: nat)

  ghost predicate SameNames(a: seq<Script>, b: seq<Script>) {
    |a| == |b| && forall i :: 0 <= i < |a| ==> a[i].name == b[i].name
  }

  lemma {:induction false} EntriesConcat(a: seq<Event>, b: seq<Event>, name: string)
    ensures Entries(a + b, name) == Entries(a, name) + Entries(b, name)
    decreases |b|
  {
    if b == [] {
      assert a + b == a;
    } else {
      assert (a + b)[..|a + b| - 1] == a + b[..|b| - 1];
      EntriesConcat(a, b[..|b| - 1], name);
    }
  }

  /** The journal against everything that happened: Attempts never counts a
      step fewer times than its Run was entered, and over-counts it at most
      once per invocation. */
  ghost predicate AttemptsBound(plan: seq<Script>, start: Snapshot, disk: Snapshot, past: seq<Event>, invocations: nat) {
    && Fits(disk.steps, plan)
    && forall i :: 0 <= i < |plan| ==>
         var n := AttemptsOf(start.steps, i) + Entries(past, plan[i].name);
         n <= AttemptsOf(disk.steps, i) <= n + invocations
  }

  lemma BoundGrows(plan: seq<Script>, start: Snapshot, mid: Snapshot, past: seq<Event>, n: nat,
                   again: seq<Script>, trace: seq<Event>)
    requires SameNames(plan, again) && AttemptsBound(plan, start, mid, past, n) && DurableAt(again, mid, trace)
    ensures AttemptsBound(plan, start, Disk(mid, trace), past + trace, n + 1)
  {
    forall i | 0 <= i < |plan| ensures Entries(past + trace, plan[i].name) == Entries(past, plan[i].name) + Entries(trace, plan[i].name) {
      EntriesConcat(past, trace, plan[i].name);
    }
  }

  /** Any history of invocations, each killed anywhere, leaves a journal the
      next one can continue, with attempts accounted for. */
  method Replay(plan: seq<Script>, start: Snapshot, history: seq<Invocation>) returns (disk: Snapshot, ghost past: seq<Event>)
    requires DistinctNames(plan) && Fits(start.steps, plan)
    requires forall v :: v in history ==> SameNames(plan, v.plan)
    ensures AttemptsBound(plan, start, disk, past, |history|)
  {
    disk, past := start, [];
    var i := 0;
    while i < |history|
      invariant i <= |history| && AttemptsBound(plan, start, disk, past, i)
    {
      var v := history[i];
      assert v in history;
      var j := new Journal.Load(disk);
      var r := j.Run(v.plan);
      var died := if v.dies <= |j.trace| then v.dies else |j.trace|;
      BoundGrows(plan, start, disk, past, i, v.plan, j.trace[..died]);
      past := past + j.trace[..died];
      disk := Disk(disk, j.trace[..died]);
      i := i + 1;
    }
  }
}
