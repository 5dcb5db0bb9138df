/** One teleport job over its whole life: the ten steps of the runner, every
    answer of the two hosts, saves that fail, invocations that die anywhere and
    are continued from the plan on disk.  The log is everything that happened,
    over all invocations; a crash keeps a prefix of it. */
module Orchestrate {
  import opened Common

  type Ref = nat

  datatype Target = TargetRunning | TargetSuspended | TargetIdle | TargetUnknown

  datatype Side = Source | Destination

  /** The plan fields the steps read and write.  tmux and sourceTmux say that
      the destination has tmux and that the source runs in a pane. */
  datatype Plan = Plan(
    tmux: bool, sourceTmux: bool, sourceRunning: bool, bang: bool, trusted: bool, target: Target,
    destRef: Option<Ref>, destRegistry: bool, createdWindow: bool,
    installedIDs: seq<int>, recordedSrc: bool, recordedDst: bool)
  {
    predicate Recorded(s: Side) {
      if s.Source? then recordedSrc else recordedDst
    }
  }

  const START := 6
  const THAW_EXIT := 8
  const STEPS := 10

  datatype Event =
    | Began(plan: Plan)
    | Persisted(plan: Plan)
    | Held(step: int)
    | Opened(ref: Ref)
    | Confirmed(ref: Ref)
    | PtyResumed
    | Reported(ids: seq<int>)
    | TypedResume(ref: Ref)
    | Thawing(plan: Plan)
    | Exiting(side: Side, pane: Option<Ref>, plan: Plan)
    | TypedAtDestination(pane: Option<Ref>, plan: Plan)
    | KilledWindow(plan: Plan)
    | SourceGone
    | TypedAtSource
    | Recording(side: Side)
    | Cleaning(side: Side)

  // ---- what the log promises -----------------------------------------------------

  /** e happened in the invocation the log ends in. */
  predicate Now(log: seq<Event>, e: Event) {
    log != [] && !log[|log| - 1].Began? && (log[|log| - 1] == e || Now(log[..|log| - 1], e))
  }

  lemma NowSnoc(log: seq<Event>, x: Event, e: Event)
    ensures Now(log + [x], e) <==> !x.Began? && (x == e || Now(log, e))
  {
    assert (log + [x])[..|log + [x]| - 1] == log;
  }

  lemma {:induction false} NowIsPast(log: seq<Event>, e: Event)
    requires Now(log, e)
    ensures e in log
  {
    if log[|log| - 1] != e {
      NowIsPast(log[..|log| - 1], e);
    }
  }

  /** The plan a new invocation loads. */
  function OnDisk(log: seq<Event>): Option<Plan> {
    if log == [] then None
    else
      var e := log[|log| - 1];
      if e.Persisted? then Some(e.plan) else OnDisk(log[..|log| - 1])
  }

  lemma {:induction false} OnDiskIsPersisted(log: seq<Event>)
    requires OnDisk(log).Some?
    ensures Persisted(OnDisk(log).value) in log
  {
    if !log[|log| - 1].Persisted? {
      OnDiskIsPersisted(log[..|log| - 1]);
    }
  }

  lemma {:induction false} PersistedReachesDisk(log: seq<Event>, p: Plan)
    requires Persisted(p) in log
    ensures OnDisk(log).Some?
  {
    if !log[|log| - 1].Persisted? {
      PersistedReachesDisk(log[..|log| - 1], p);
    }
  }

  /** The destination is up: confirmed in this very invocation on the pane ref,
      or, with no tmux there, resumed under a pty by this job. */
  ghost predicate DestinationUp(log: seq<Event>, p: Plan) {
    if p.tmux then p.destRef.Some? && Now(log, Confirmed(p.destRef.value)) else PtyResumed in log
  }

  ghost predicate HeldBefore(log: seq<Event>, step: int) {
    forall k :: 0 <= k < step ==> Now(log, Held(k))
  }

  /** Ordering of plans of one job over time. */
  ghost predicate Grows(p: Plan, q: Plan) {
    && p.tmux == q.tmux && p.installedIDs <= q.installedIDs
    && (p.recordedSrc ==> q.recordedSrc) && (p.recordedDst ==> q.recordedDst)
  }

  /** Everything the plan claims did happen; it forgets nothing that was ever
      on disk, nor what this invocation's Install reported. */
  ghost predicate Justified(log: seq<Event>, p: Plan) {
    && (!p.tmux && p.destRegistry ==> PtyResumed in log)
    && (forall id :: id in p.installedIDs ==> exists ids :: Reported(ids) in log && id in ids)
    && (p.recordedSrc ==> Recording(Source) in log) && (p.recordedDst ==> Recording(Destination) in log)
    && (forall q :: Persisted(q) in log ==> Grows(q, p))
  }

  ghost predicate ReportsFolded(log: seq<Event>, p: Plan) {
    forall ids :: Now(log, Reported(ids)) ==> forall id :: id in ids ==> id in p.installedIDs
  }

  /** A plan on disk says that side has been recorded. */
  ghost predicate Saved(log: seq<Event>, side: Side) {
    exists q :: Persisted(q) in log && q.Recorded(side)
  }

  /** When e may happen after log. */
  ghost predicate EventOk(log: seq<Event>, e: Event) {
    match e
    case Began(p) => OnDisk(log) == Some(p)
    case Persisted(p) => Justified(log, p) && ReportsFolded(log, p)
    case Held(k) => HeldBefore(log, k)
    case Exiting(side, pane, p) =>
      && HeldBefore(log, if side.Source? then THAW_EXIT else START + 1) && DestinationUp(log, p)
      && (forall q :: Persisted(q) in log ==> Grows(q, p))
      && (side.Destination? ==> pane == p.destRef)
    case Thawing(p) => HeldBefore(log, THAW_EXIT) && DestinationUp(log, p)
    case TypedAtDestination(pane, p) => HeldBefore(log, START + 1) && p.target == TargetSuspended && pane == p.destRef
    case KilledWindow(p) => HeldBefore(log, START + 1) && p.target == TargetIdle && p.createdWindow
    case TypedAtSource => HeldBefore(log, THAW_EXIT) && Now(log, SourceGone)
    case Recording(side) => !Now(log, e) && !Saved(log, side)
    case Cleaning(_) =>
      && HeldBefore(log, THAW_EXIT + 1)
      && Recording(Source) in log && Recording(Destination) in log
    case _ => true
  }

  ghost predicate Safe(log: seq<Event>) {
    forall i :: 0 <= i < |log| ==> EventOk(log[..i], log[i])
  }

  lemma SafeSnoc(log: seq<Event>, e: Event)
    requires Safe(log) && EventOk(log, e)
    ensures Safe(log + [e])
  {
    var longer := log + [e];
    forall i | 0 <= i < |longer| ensures EventOk(longer[..i], longer[i]) {
      assert longer[..i] == log[..i];
      assert i == |log| ==> log[..i] == log;
    }
  }

  lemma SafePrefix(log: seq<Event>, n: nat)
    requires Safe(log) && n <= |log|
    ensures Safe(log[..n])
  {
    forall i | 0 <= i < n ensures EventOk(log[..n][..i], log[..n][i]) {
      assert log[..n][..i] == log[..i];
    }
  }

  // ---- how the promises survive more events -------------------------------------------

  /** b continues a within the same invocation... */
  ghost predicate Extends(a: seq<Event>, b: seq<Event>) {
    a <= b && forall i :: |a| <= i < |b| ==> !b[i].Began?
  }

  /** ... and records nothing. */
  ghost predicate Continues(a: seq<Event>, b: seq<Event>) {
    Extends(a, b) && forall i :: |a| <= i < |b| ==> !b[i].Recording?
  }

  /** This invocation has not recorded side. */
  predicate Unrecorded(log: seq<Event>, side: Side) {
    !Now(log, Recording(side))
  }

  predicate NothingRecorded(log: seq<Event>) {
    Unrecorded(log, Source) && Unrecorded(log, Destination)
  }

  lemma {:induction false} ContinuesUnrecorded(a: seq<Event>, b: seq<Event>, side: Side)
    requires Continues(a, b) && Unrecorded(a, side)
    ensures Unrecorded(b, side)
    decreases |b|
  {
    if a == b {
    } else {
      var last := |b| - 1;
      assert a <= b[..last];
      ContinuesUnrecorded(a, b[..last], side);
    }
  }

  lemma {:induction false} NowContinues(a: seq<Event>, b: seq<Event>, e: Event)
    requires Extends(a, b) && Now(a, e)
    ensures Now(b, e)
    decreases |b|
  {
    if |a| < |b| {
      NowContinues(a, b[..|b| - 1], e);
    } else {
      assert a == b;
    }
  }

  lemma ContinuesHeld(a: seq<Event>, b: seq<Event>, step: int)
    requires Continues(a, b) && HeldBefore(a, step)
    ensures HeldBefore(b, step)
  {
    forall k | 0 <= k < step ensures Now(b, Held(k)) {
      NowContinues(a, b, Held(k));
    }
  }

  lemma ContinuesKeeps(a: seq<Event>, b: seq<Event>, step: int, p: Plan)
    requires Extends(a, b)
    ensures HeldBefore(a, step) ==> HeldBefore(b, step)
    ensures DestinationUp(a, p) ==> DestinationUp(b, p)
    ensures Now(a, SourceGone) ==> Now(b, SourceGone)
  {
    forall e | Now(a, e) ensures Now(b, e) {
      NowContinues(a, b, e);
    }
  }

  lemma JustifiedSnoc(log: seq<Event>, e: Event, p: Plan)
    requires Justified(log, p) && (e.Persisted? ==> Grows(e.plan, p))
    ensures Justified(log + [e], p)
  {
    var longer := log + [e];
    forall x | x in log ensures x in longer {
    }
    forall q | Persisted(q) in longer ensures Grows(q, p) {
      if Persisted(q) !in log {
        assert Persisted(q) == e;
      }
    }
  }

  lemma FoldedSnoc(log: seq<Event>, e: Event, p: Plan)
    requires ReportsFolded(log, p) && !e.Reported?
    ensures ReportsFolded(log + [e], p)
  {
    forall ids | Now(log + [e], Reported(ids)) ensures Now(log, Reported(ids)) {
      NowSnoc(log, e, Reported(ids));
    }
  }

  /** What an invocation loads is justified by everything before it. */
  lemma {:induction false} LoadedIsJustified(log: seq<Event>)
    requires Safe(log) && OnDisk(log).Some?
    ensures Justified(log, OnDisk(log).value)
  {
    var before, e := log[..|log| - 1], log[|log| - 1];
    assert log == before + [e] && EventOk(log[..|log| - 1], log[|log| - 1]);
    SafePrefix(log, |log| - 1);
    if !e.Persisted? {
      LoadedIsJustified(before);
    }
    JustifiedSnoc(before, e, OnDisk(log).value);
  }

  predicate Distinct(s: seq<int>) {
    forall i, k :: 0 <= i < k < |s| ==> s[i] != s[k]
  }

  /** foldInstalledIDs: the report's ids, added once each; nothing recorded is
      ever dropped. */
  method FoldInstalledIDs(known: seq<int>, ids: seq<int>) returns (all: seq<int>)
    ensures known <= all
    ensures forall id :: id in all <==> id in known || id in ids
    ensures Distinct(known) ==> Distinct(all)
  {
    all := known;
    var seen := set id | id in known;
    var i := 0;
    while i < |ids|
      invariant i <= |ids| && known <= all
      invariant forall id :: id in all <==> id in known || id in ids[..i]
      invariant forall id :: id in seen <==> id in all
      invariant Distinct(known) ==> Distinct(all)
    {
      assert ids[..i + 1] == ids[..i] + [ids[i]];
      if ids[i] !in seen {
        all := all + [ids[i]];
        seen := seen + {ids[i]};
      }
      i := i + 1;
    }
    assert ids[..|ids|] == ids;
  }

  lemma OthersUnrecorded(log: seq<Event>, side: Side)
    ensures forall o :: o != side && Unrecorded(log, o) ==> Unrecorded(log + [Recording(side)], o)
  {
    forall o | o != side && Unrecorded(log, o) ensures Unrecorded(log + [Recording(side)], o) {
      NowSnoc(log, Recording(side), Recording(o));
    }
  }

  lemma StaysUnrecorded(a: seq<Event>, b: seq<Event>)
    requires Continues(a, b)
    ensures forall o :: Unrecorded(a, o) ==> Unrecorded(b, o)
  {
    forall o | Unrecorded(a, o) ensures Unrecorded(b, o) {
      ContinuesUnrecorded(a, b, o);
    }
  }

  function Marked(p: Plan, side: Side): Plan {
    if side.Source? then p.(recordedSrc := true) else p.(recordedDst := true)
  }

  datatype Verdict = Error | Satisfied | Unsatisfied

  // ---- what the hosts answer ----------------------------------------------------------

  /** persist: the journal saved here, and then taken by both hosts. */
  datatype Writes = Writes(saved: bool, taken: bool) {
    predicate Ok() {
      saved && taken
    }
  }

  /** What reaches the disk of a plan that is persisted. */
  function Saving(p: Plan, saved: bool): seq<Event> {
    if saved then [Persisted(p)] else []
  }

  /** What runStart adds in the pane ref: the resume typed unless Claude waits
      there, and the confirmation, with the plan p that is then saved. */
  function Started(ref: Ref, waiting: bool, starts: bool, confirms: bool, p: Plan, w: Writes): seq<Event> {
    (if !waiting && starts then [TypedResume(ref)] else [])
    + (if (waiting || starts) && confirms then [Confirmed(ref)] + Saving(p, w.saved) else [])
  }

  /** The plan with a pane of the job's own. */
  function Adopted(p: Plan, opens: Option<Ref>): Plan {
    p.(destRef := opens, createdWindow := true)
  }

  lemma AdoptAnew(p: Plan, opens: Option<Ref>)
    ensures Adopted(p.(destRef := None), opens) == Adopted(p, opens) && Adopted(p, opens).destRef == opens
    ensures Adopted(p, opens).tmux == p.tmux
  {
  }

  lemma ThreeParts(log: seq<Event>, a: seq<Event>, b: seq<Event>, c: seq<Event>)
    ensures log + a + b + c == log + (a + (b + c))
  {
  }

  /** ClaudeStatus: an error, this session's process, or none. */
  datatype Status = NoAnswer | Alive | NotAlive

  /** PaneState: no such pane, no tmux server, an error, or what runs there. */
  datatype Pane = NotFound | NoServer | PaneError | AtShell | AtPlaceholder | AtTrustPrompt | AtOther

  /** Thaw: done, the terminal could not be given back, or an error. */
  datatype Thaw = Thawed | Conflict | ThawError

  class Runner {
    var plan: Plan       // r.p, in memory
    var journal: Plan    // r.j.Plan, what any Save writes
    var log: seq<Event>

    ghost predicate Valid()
      reads this
    {
      && Safe(log) && Justified(log, plan) && Justified(log, journal)
      && ReportsFolded(log, journal) && Grows(journal, plan)
    }

    /** What the step numbered k leaves, when it holds. */
    ghost predicate Done(k: int)
      reads this
    {
      && (k == START ==> DestinationUp(log, plan))
      && (k == THAW_EXIT && plan.sourceRunning ==> Now(log, SourceGone))
    }

    /** Steps before k hold, with what they leave. */
    ghost predicate Through(k: int)
      reads this
    {
      HeldBefore(log, k) && (k > START ==> Done(START)) && (k > THAW_EXIT ==> Done(THAW_EXIT))
    }

    constructor Load(past: seq<Event>)
      requires Safe(past) && OnDisk(past).Some?
      ensures Valid() && Through(0) && NothingRecorded(log)
      ensures log == past + [Began(OnDisk(past).value)] && plan == OnDisk(past).value
    {
      plan := OnDisk(past).value;
      journal := OnDisk(past).value;
      log := past + [Began(OnDisk(past).value)];
      new;
      LoadedIsJustified(past);
      SafeSnoc(past, Began(plan));
      JustifiedSnoc(past, Began(plan), plan);
      forall e ensures !Now(log, e) {
        NowSnoc(past, Began(plan), e);
      }
    }

    method Note(e: Event)
      requires Valid() && EventOk(log, e) && !e.Reported? && !e.Persisted? && !e.Began?
      modifies this`log
      ensures Valid() && log == old(log) + [e] && Extends(old(log), log)
      ensures !e.Recording? ==> Continues(old(log), log)
    {
      SafeSnoc(log, e);
      JustifiedSnoc(log, e, plan);
      JustifiedSnoc(log, e, journal);
      FoldedSnoc(log, e, journal);
      log := log + [e];
    }

    /** Journal.Save, with whatever plan the journal carries. */
    method Save(works: bool)
      requires Valid()
      modifies this`log
      ensures Valid() && Continues(old(log), log) && log == old(log) + Saving(journal, works)
    {
      if works {
        var e := Persisted(journal);
        SafeSnoc(log, e);
        JustifiedSnoc(log, e, plan);
        JustifiedSnoc(log, e, journal);
        FoldedSnoc(log, e, journal);
        log := log + [e];
      }
    }

    /** persist: the plan into the journal, here and on both hosts. */
    method Persist(w: Writes) returns (ok: bool)
      requires Safe(log) && Justified(log, plan) && ReportsFolded(log, plan)
      modifies this`journal, this`log
      ensures Valid() && Continues(old(log), log) && journal == plan
      ensures log == old(log) + Saving(plan, w.saved) && ok == w.Ok()
    {
      journal := plan;
      Save(w.saved);
      ok := w.saved && w.taken;
    }

    // ---- steps before start -------------------------------------------------------

    /** The hosts' part of a step that touches neither claude nor the plan's
        claims: it may persist what it learnt, and may fail. */
    method AskHosts(k: int) returns (v: Verdict)
      requires Valid() && Through(k)
      modifies this
      ensures Valid() && Through(k) && Continues(old(log), log) && plan == old(plan)
    {
      ghost var before := log;
      var ok, persists, done := *, *, *;
      if persists {
        var saved, taken := *, *;
        ok := Persist(Writes(saved, taken));
        ContinuesKeeps(before, log, k, plan);
      }
      v := if !ok then Error else if done then Satisfied else Unsatisfied;
    }

    /** runInstall: whatever a report carries, even one that comes with a
        failure, is folded and persisted before the outcome is looked at. */
    method RunInstall(prepared: bool, report: Option<seq<int>>, works: bool, w: Writes) returns (ok: bool)
      requires Valid() && Through(4)
      modifies this
      ensures Valid() && Through(4) && Continues(old(log), log)
      ensures ok <==> prepared && works && (report.Some? ==> w.Ok())
      ensures !prepared || report.None? ==> log == old(log) && plan == old(plan)
      ensures prepared && report.Some? ==>
        && log == old(log) + [Reported(report.value)] + Saving(plan, w.saved)
        && old(plan.installedIDs) <= plan.installedIDs
        && (forall id :: id in plan.installedIDs <==> id in old(plan.installedIDs) || id in report.value)
    {
      ghost var before := log;
      if !prepared {
        return false;
      }
      ok := works;
      if report.Some? {
        Report(report.value);
        var persisted := Persist(w);
        ok := ok && persisted;
      }
      ContinuesKeeps(before, log, 4, plan);
    }

    /** Install answers with a report, which is folded into the plan. */
    method Report(ids: seq<int>)
      requires Valid()
      modifies this`plan, this`log
      ensures Safe(log) && Justified(log, plan) && ReportsFolded(log, plan)
      ensures log == old(log) + [Reported(ids)] && old(plan.installedIDs) <= plan.installedIDs
      ensures forall id :: id in plan.installedIDs <==> id in old(plan.installedIDs) || id in ids
    {
      ghost var before, was := log, plan;
      log := log + [Reported(ids)];
      SafeSnoc(before, Reported(ids));
      var all := FoldInstalledIDs(plan.installedIDs, ids);
      plan := plan.(installedIDs := all);
      forall id | id in plan.installedIDs ensures exists r :: Reported(r) in log && id in r {
        if id in ids {
          assert Reported(ids) in log;
        } else {
          var r :| Reported(r) in before && id in r;
          assert Reported(r) in log;
        }
      }
      forall q | Persisted(q) in log ensures Grows(q, plan) {
        assert Persisted(q) in before && Grows(q, was);
      }
      forall x | x in before ensures x in log {
      }
      forall r | Now(log, Reported(r)) ensures forall id :: id in r ==> id in plan.installedIDs {
        NowSnoc(before, Reported(ids), Reported(r));
      }
    }

    // ---- start ------------------------------------------------------------------------

    /** ConfirmClaude on the pane in the plan. */
    method Confirm(confirms: bool)
      requires Valid() && plan.tmux && plan.destRef.Some?
      modifies this`log
      ensures Valid() && Continues(old(log), log) && (confirms ==> DestinationUp(log, plan))
      ensures log == if confirms then old(log) + [Confirmed(plan.destRef.value)] else old(log)
    {
      if confirms {
        ghost var before := log;
        Note(Confirmed(plan.destRef.value));
        NowSnoc(before, Confirmed(plan.destRef.value), Confirmed(plan.destRef.value));
      }
    }

    /** Registers the confirmed claude and persists. */
    method Register(w: Writes) returns (ok: bool)
      requires Valid() && DestinationUp(log, plan)
      modifies this
      ensures Valid() && Continues(old(log), log) && DestinationUp(log, plan)
      ensures ok == w.Ok() && plan == old(plan).(destRegistry := true) && log == old(log) + Saving(plan, w.saved)
    {
      ghost var before := log;
      plan := plan.(destRegistry := true);
      ok := Persist(w);
      ContinuesKeeps(before, log, 0, plan);
    }

    /** verifyStart: the session alive in our own pane is confirmed again; with
        no tmux there, the plan has to do. */
    method VerifyStart(status: Status, ours: bool, confirms: bool, w: Writes) returns (v: Verdict)
      requires Valid() && Through(START)
      modifies this
      ensures Valid() && Through(START) && Continues(old(log), log)
      ensures v.Satisfied? ==> DestinationUp(log, plan)
      ensures v.Satisfied? <==> if !old(plan.tmux) then old(plan.destRegistry)
                                else old(plan.destRef).Some? && status.Alive? && ours && confirms && w.Ok()
      ensures v.Error? <==>
        old(plan.tmux) && old(plan.destRef).Some? && (status.NoAnswer? || (status.Alive? && ours && !(confirms && w.Ok())))
      ensures log == if old(plan.tmux) && old(plan.destRef).Some? && status.Alive? && ours && confirms
                     then old(log) + [Confirmed(old(plan.destRef).value)] + Saving(plan, w.saved) else old(log)
    {
      if !plan.tmux {
        return if plan.destRegistry then Satisfied else Unsatisfied;
      }
      if plan.destRef.None? {
        return Unsatisfied;
      }
      if status.NoAnswer? {
        return Error;
      }
      if status.NotAlive? || !ours {
        return Unsatisfied;
      }
      var done := ConfirmAndRegister(confirms, w);
      v := if done then Satisfied else Error;
    }

    /** The pane the job opened earlier: usable as it is, at Claude's trust
        prompt, gone, or not to be typed over. */
    method LookAtPane(pane: Pane) returns (ok: bool, atTrustPrompt: bool)
      requires Valid() && Through(START)
      modifies this`plan
      ensures Valid() && Through(START) && plan == if pane.NotFound? then old(plan).(destRef := None) else old(plan)
      ensures ok <==> old(plan.destRef).None? || pane.NotFound? || pane.AtShell? || (pane.AtTrustPrompt? && plan.trusted)
      ensures atTrustPrompt <==> old(plan.destRef).Some? && pane.AtTrustPrompt? && plan.trusted
    {
      ok, atTrustPrompt := true, false;
      if plan.destRef.Some? {
        if pane.NotFound? {
          plan := plan.(destRef := None);
        } else if pane.NoServer? || pane.PaneError? {
          ok := false;
        } else if !pane.AtShell? {
          ok := pane.AtTrustPrompt? && plan.trusted;
          atTrustPrompt := ok;
        }
      }
    }

    method Adopt(ref: Ref)
      requires Valid()
      modifies this`plan
      ensures Valid() && plan == old(plan).(destRef := Some(ref), createdWindow := true)
    {
      plan := plan.(destRef := Some(ref), createdWindow := true);
    }

    /** A window of its own where there is none, on disk before anything is typed
        into it. */
    method OpenPane(opens: Option<Ref>, w: Writes) returns (ok: bool)
      requires Valid() && Through(START)
      modifies this
      ensures Valid() && Through(START) && Continues(old(log), log)
      ensures old(plan.destRef).Some? ==> ok && plan == old(plan) && log == old(log)
      ensures old(plan.destRef).None? ==>
        && (ok <==> opens.Some? && w.Ok())
        && plan == (if opens.Some? then Adopted(old(plan), opens) else old(plan))
        && log == (if opens.Some? then old(log) + [Opened(opens.value)] + Saving(plan, w.saved) else old(log))
    {
      if plan.destRef.Some? {
        return true;
      }
      if opens.None? {
        return false;
      }
      ghost var before := log;
      Note(Opened(opens.value));
      Adopt(opens.value);
      ok := Persist(w);
      ContinuesHeld(before, log, START);
    }

    /** runStart with no tmux there: a resume under a pty. */
    method StartUnderPty(resumes: bool, w: Writes) returns (ok: bool)
      requires Valid() && Through(START) && !plan.tmux
      modifies this
      ensures Valid() && Through(START) && Continues(old(log), log)
      ensures ok ==> DestinationUp(log, plan)
      ensures ok <==> resumes && w.Ok()
      ensures log == if resumes then old(log) + [PtyResumed] + Saving(plan, w.saved) else old(log)
    {
      ghost var before := log;
      ok := resumes;
      if resumes {
        Note(PtyResumed);
        ok := Register(w);
      }
      ContinuesKeeps(before, log, START, plan);
    }

    /** The pane to start in: the plan's when it is at a shell, or at the trust
        prompt of our own Claude; a new one when there is none; else none, for
        what runs there is not to be typed over. */
    method FindPane(pane: Pane, opens: Option<Ref>, w: Writes) returns (ok: bool, waiting: bool)
      requires Valid() && Through(START) && plan.tmux
      modifies this
      ensures Valid() && Through(START) && Continues(old(log), log) && plan.tmux && (ok ==> plan.destRef.Some?)
      ensures waiting <==> old(plan.destRef).Some? && pane.AtTrustPrompt? && old(plan.trusted)
      ensures old(plan.destRef).Some? && !pane.NotFound? ==>
        (ok <==> pane.AtShell? || waiting) && plan == old(plan) && log == old(log)
      ensures old(plan.destRef).None? || pane.NotFound? ==>
        && (ok <==> opens.Some? && w.Ok())
        && (opens.Some? ==> plan == Adopted(old(plan), opens))
        && log == (if opens.Some? then old(log) + [Opened(opens.value)] + Saving(plan, w.saved) else old(log))
    {
      hide Valid, Through, Saving, Adopted;
      AdoptAnew(plan, opens);
      ok, waiting := LookAtPane(pane);
      if ok {
        ok := OpenPane(opens, w);
      }
    }

    /** Types the resume, unless Claude already waits there. */
    method TypeResume(waiting: bool, starts: bool) returns (ok: bool)
      requires Valid() && Through(START) && plan.destRef.Some?
      modifies this`log
      ensures Valid() && Through(START) && Continues(old(log), log) && (ok <==> waiting || starts)
      ensures log == if !waiting && starts then old(log) + [TypedResume(plan.destRef.value)] else old(log)
    {
      ghost var before := log;
      ok := waiting || starts;
      if !waiting && starts {
        Note(TypedResume(plan.destRef.value));
        ContinuesKeeps(before, log, START, plan);
      }
    }

    method ConfirmAndRegister(confirms: bool, w: Writes) returns (ok: bool)
      requires Valid() && Through(START) && plan.tmux && plan.destRef.Some?
      modifies this
      ensures Valid() && Through(START) && Continues(old(log), log)
      ensures ok ==> DestinationUp(log, plan)
      ensures ok <==> confirms && w.Ok()
      ensures plan == if confirms then old(plan).(destRegistry := true) else old(plan)
      ensures log == if confirms then old(log) + [Confirmed(plan.destRef.value)] + Saving(plan, w.saved) else old(log)
    {
      ghost var before := log;
      Confirm(confirms);
      ok := confirms;
      if ok {
        ok := Register(w);
      }
      ContinuesKeeps(before, log, START, plan);
    }

    /** runStart in a pane: the window opened, the resume typed, and Claude
        confirmed, as far as it gets. */
    method StartInPane(pane: Pane, opens: Option<Ref>, w1: Writes, starts: bool, confirms: bool, w2: Writes) returns (ok: bool)
      requires Valid() && Through(START) && plan.tmux
      modifies this
      ensures Valid() && Through(START) && Continues(old(log), log)
      ensures ok ==> DestinationUp(log, plan) && plan.destRegistry
      ensures var kept := old(plan.destRef).Some? && !pane.NotFound?;
              var waiting := old(plan.destRef).Some? && pane.AtTrustPrompt? && old(plan.trusted);
              var found := if kept then pane.AtShell? || waiting else opens.Some? && w1.Ok();
              && (ok <==> found && (waiting || starts) && confirms && w2.Ok())
              && (!found && kept ==> plan == old(plan) && log == old(log))
              && (found && kept ==> log == old(log) + Started(old(plan.destRef).value, waiting, starts, confirms, plan, w2))
              && (found && !kept ==>
                    var first := [Opened(opens.value)] + Saving(Adopted(old(plan), opens), w1.saved);
                    log == old(log) + first + Started(opens.value, waiting, starts, confirms, plan, w2))
    {
      hide Valid, Through, Started, Saving, DestinationUp;
      var waiting;
      ok, waiting := FindPane(pane, opens, w1);
      if ok {
        ok := StartThere(waiting, starts, confirms, w2);
      }
    }

    method StartThere(waiting: bool, starts: bool, confirms: bool, w: Writes) returns (ok: bool)
      requires Valid() && Through(START) && plan.tmux && plan.destRef.Some?
      modifies this
      ensures Valid() && Through(START) && Continues(old(log), log)
      ensures ok ==> DestinationUp(log, plan) && plan.destRegistry
      ensures ok <==> (waiting || starts) && confirms && w.Ok()
      ensures log == old(log) + Started(old(plan.destRef).value, waiting, starts, confirms, plan, w)
    {
      hide Valid, Through, DestinationUp, Saving;
      ghost var typed := if !waiting && starts then [TypedResume(plan.destRef.value)] else [];
      ok := TypeResume(waiting, starts);
      assert log == old(log) + typed;
      if ok {
        ok := ConfirmAndRegister(confirms, w);
        if confirms {
          ThreeParts(old(log), typed, [Confirmed(plan.destRef.value)], Saving(plan, w.saved));
        }
      }
    }

    // ---- shape ----------------------------------------------------------------------

    /** verifyShape */
    method VerifyShape(pane: Pane) returns (v: Verdict)
      requires Valid()
      ensures v.Satisfied? <==>
        || plan.target.TargetRunning?
        || (plan.target.TargetSuspended? && plan.destRef.Some? && pane.AtPlaceholder?)
        || (plan.target.TargetIdle? &&
             (!plan.tmux || (plan.destRef.Some? && (pane.NotFound? || (pane.AtShell? && !plan.createdWindow)))))
      ensures v.Error? <==>
        || plan.target.TargetUnknown?
        || (plan.target.TargetSuspended? && plan.destRef.Some? && (pane.NotFound? || pane.NoServer? || pane.PaneError?))
        || (plan.target.TargetIdle? && plan.tmux && plan.destRef.Some? && (pane.NoServer? || pane.PaneError?))
    {
      var failed := pane.NotFound? || pane.NoServer? || pane.PaneError?;
      match plan.target {
        case TargetRunning => v := Satisfied;
        case TargetSuspended =>
          v := if plan.destRef.None? then Unsatisfied else if failed then Error
               else if pane.AtPlaceholder? then Satisfied else Unsatisfied;
        case TargetIdle =>
          v := if !plan.tmux then Satisfied else if plan.destRef.None? then Unsatisfied
               else if pane.NotFound? then Satisfied else if failed then Error
               else if !plan.createdWindow && pane.AtShell? then Satisfied else Unsatisfied;
        case TargetUnknown => v := Error;
      }
    }

    /** runShape: the destination's Claude exits, and its pane gets a placeholder,
        or is killed with a window of our own that is back at a shell. */
    method RunShape(status: Status, exits: bool, pane: Pane, works: bool) returns (ok: bool)
      requires Valid() && Through(START + 1)
      modifies this`log
      ensures Valid() && Continues(old(log), log)
      ensures var exit := if status.Alive? then [Exiting(Destination, plan.destRef, plan)] else [];
              var gone := status.NotAlive? || (status.Alive? && exits);
              var types := gone && plan.target.TargetSuspended?;
              var kills := gone && plan.target.TargetIdle? && plan.createdWindow && pane.AtShell?;
              && log == old(log) + exit + (if types then [TypedAtDestination(plan.destRef, plan)] else [])
                   + (if kills then [KilledWindow(plan)] else [])
              && (ok <==>
                    && gone && (types || kills ==> works)
                    && (plan.target.TargetIdle? && plan.createdWindow ==> !pane.NotFound? && !pane.NoServer? && !pane.PaneError?))
    {
      ghost var before := log;
      if status.NoAnswer? {
        return false;
      }
      if status.Alive? {
        Note(Exiting(Destination, plan.destRef, plan));
        ContinuesKeeps(before, log, START + 1, plan);
        if !exits {
          return false;
        }
      }
      match plan.target {
        case TargetSuspended =>
          Note(TypedAtDestination(plan.destRef, plan));
          ok := works;
        case TargetIdle =>
          if !plan.createdWindow {
            return true;
          }
          if pane.NotFound? || pane.NoServer? || pane.PaneError? {
            return false;
          }
          if !pane.AtShell? {
            return true;
          }
          Note(KilledWindow(plan));
          ok := works;
        case _ => ok := true;
      }
    }

    // ---- thaw+exit ----------------------------------------------------------------------

    /** verifyThawExit: the source is gone, and its pane is gone, holds the
        placeholder, or is back at a shell. */
    method VerifyThawExit(status: Status, pane: Pane) returns (v: Verdict)
      requires Valid() && Through(THAW_EXIT)
      modifies this`log
      ensures Valid() && Through(THAW_EXIT) && Continues(old(log), log)
      ensures v.Satisfied? ==> Done(THAW_EXIT)
      ensures v.Satisfied? <==>
        || !plan.sourceRunning
        || (status.NotAlive? && (!plan.sourceTmux || pane.NotFound? || pane.NoServer? || pane.AtPlaceholder? || pane.AtShell?))
      ensures v.Error? <==> plan.sourceRunning && (status.NoAnswer? || (status.NotAlive? && plan.sourceTmux && pane.PaneError?))
      ensures log == if plan.sourceRunning && status.NotAlive? then old(log) + [SourceGone] else old(log)
    {
      if !plan.sourceRunning {
        return Satisfied;
      }
      if status.NoAnswer? {
        return Error;
      }
      if status.Alive? {
        return Unsatisfied;
      }
      SeeSourceGone();
      v := if !plan.sourceTmux || pane.NotFound? || pane.NoServer? then Satisfied else if pane.PaneError? then Error
           else if pane.AtPlaceholder? || pane.AtShell? then Satisfied else Unsatisfied;
    }

    method SeeSourceGone()
      requires Valid() && Through(THAW_EXIT)
      modifies this`log
      ensures Valid() && Through(THAW_EXIT) && Continues(old(log), log) && Now(log, SourceGone)
      ensures log == old(log) + [SourceGone]
    {
      ghost var before := log;
      Note(SourceGone);
      NowSnoc(before, SourceGone, SourceGone);
      ContinuesKeeps(before, log, THAW_EXIT, plan);
    }

    method StartThaw()
      requires Valid() && Through(THAW_EXIT)
      modifies this`log
      ensures Valid() && Through(THAW_EXIT) && Continues(old(log), log)
      ensures log == old(log) + [Thawing(plan)]
    {
      ghost var before := log;
      Note(Thawing(plan));
      ContinuesKeeps(before, log, THAW_EXIT, plan);
    }

    method AskSource(pane: Option<Ref>)
      requires Valid() && Through(THAW_EXIT)
      modifies this`log
      ensures Valid() && Through(THAW_EXIT) && Continues(old(log), log)
      ensures log == old(log) + [Exiting(Source, pane, plan)]
    {
      ghost var before := log;
      Note(Exiting(Source, pane, plan));
      ContinuesKeeps(before, log, THAW_EXIT, plan);
    }

    /** The first half of runThawExit: a source still alive is thawed, in !-mode
        waited for, and asked to exit, by signal when its pane could not be given
        back. */
    method LetSourceGo(sourcePane: Ref, thaw: Thaw, idles: bool, exits: bool) returns (ok: bool)
      requires Valid() && Through(THAW_EXIT)
      modifies this`log
      ensures Valid() && Through(THAW_EXIT) && Continues(old(log), log)
      ensures var asks := !thaw.ThawError? && (plan.bang && thaw.Thawed? ==> idles);
              && (ok <==> asks && exits)
              && log == old(log) + [Thawing(plan)] + (if asks then
                   [Exiting(Source, if thaw.Thawed? && plan.sourceTmux then Some(sourcePane) else None, plan)] else [])
    {
      hide Valid, Through;
      StartThaw();
      if thaw.ThawError? {
        return false;
      }
      if plan.bang && !thaw.Conflict? && !idles {
        return false;
      }
      AskSource(if !thaw.Conflict? && plan.sourceTmux then Some(sourcePane) else None);
      ok := exits;
    }

    /** And the second: the placeholder, typed only at a shell, and not where the
        terminal could not be given back. */
    method LeavePlaceholder(restored: bool, pane: Pane, works: bool) returns (ok: bool)
      requires Valid() && Through(THAW_EXIT) && Now(log, SourceGone)
      modifies this`log
      ensures Valid() && Through(THAW_EXIT) && Continues(old(log), log) && Now(log, SourceGone)
      ensures var looks := plan.sourceTmux && restored;
              && log == (if looks && pane.AtShell? then old(log) + [TypedAtSource] else old(log))
              && (ok <==> (looks && pane.AtShell? ==> works) && (looks ==> !pane.PaneError?))
    {
      ghost var before := log;
      if !plan.sourceTmux || !restored || pane.NotFound? || pane.NoServer? {
        return true;
      }
      if pane.PaneError? {
        return false;
      }
      if !pane.AtShell? {
        return true;
      }
      Note(TypedAtSource);
      ContinuesKeeps(before, log, THAW_EXIT, plan);
      ok := works;
    }

    /** runThawExit */
    method RunThawExit(sourcePane: Ref, status: Status, thaw: Thaw, idles: bool, exits: bool, pane: Pane, works: bool)
      returns (ok: bool)
      requires Valid() && Through(THAW_EXIT)
      modifies this`log
      ensures Valid() && Through(THAW_EXIT) && Continues(old(log), log)
      ensures ok ==> Now(log, SourceGone)
      ensures status.NoAnswer? ==> !ok && log == old(log)
      ensures status.Alive? ==> Thawing(plan) in log
      ensures ok && status.Alive? ==> !thaw.ThawError? && exits && (plan.bang && thaw.Thawed? ==> idles)
      ensures ok && status.Alive? ==>
        Exiting(Source, if thaw.Thawed? && plan.sourceTmux then Some(sourcePane) else None, plan) in log
    {
      hide Valid, Through;
      if status.NoAnswer? {
        return false;
      }
      var restored := true;
      if status.Alive? {
        ok := LetSourceGo(sourcePane, thaw, idles, exits);
        if !ok {
          return;
        }
        restored := thaw.Thawed?;
      }
      SeeSourceGone();
      ok := LeavePlaceholder(restored, pane, works);
    }

    // ---- record -------------------------------------------------------------------------

    /** The plan notes that side has been recorded. */
    method Mark(side: Side)
      requires Valid() && Through(9) && Recording(side) in log
      modifies this`plan
      ensures Safe(log) && Justified(log, plan) && ReportsFolded(log, plan) && Through(9)
      ensures plan == Marked(old(plan), side)
    {
      plan := Marked(plan, side);
    }

    method MarkAndPersist(side: Side, w: Writes) returns (ok: bool)
      requires Valid() && Through(9) && Recording(side) in log
      modifies this
      ensures Valid() && Through(9) && Continues(old(log), log)
      ensures ok == w.Ok() && plan == Marked(old(plan), side) && log == old(log) + Saving(plan, w.saved)
    {
      ghost var before := log;
      Mark(side);
      ok := Persist(w);
      ContinuesKeeps(before, log, 9, plan);
    }

    /** One side's history row, unless the plan says it is there: recorded, noted
        in the plan, and persisted, in this order. */
    method RecordAt(side: Side, records: bool, w: Writes) returns (ok: bool)
      requires Valid() && Through(9) && Unrecorded(log, side)
      modifies this
      ensures Valid() && Through(9) && Extends(old(log), log)
      ensures ok <==> old(plan).Recorded(side) || (records && w.Ok())
      ensures plan == if old(plan).Recorded(side) || !records then old(plan) else Marked(old(plan), side)
      ensures log == if old(plan).Recorded(side) then old(log)
                     else old(log) + [Recording(side)] + (if records then Saving(plan, w.saved) else [])
      ensures forall o :: o != side && Unrecorded(old(log), o) ==> Unrecorded(log, o)
    {
      ghost var before := log;
      ok := true;
      if !plan.Recorded(side) {
        Note(Recording(side));
        ContinuesKeeps(before, log, 9, plan);
        ghost var noted := log;
        OthersUnrecorded(before, side);
        ok := records;
        if ok {
          ok := MarkAndPersist(side, w);
          StaysUnrecorded(noted, log);
        }
      }
    }

    method CleanUp(side: Side)
      requires Valid() && Through(9) && plan.recordedSrc && plan.recordedDst
      modifies this`log
      ensures Valid() && Through(9) && Continues(old(log), log) && log == old(log) + [Cleaning(side)]
    {
      ghost var before := log;
      Note(Cleaning(side));
      ContinuesKeeps(before, log, 9, plan);
    }

    /** runRecord: both sides recorded, then both cleaned up, the destination
        first; the first failure ends it. */
    method RunRecord(records: Side -> bool, w: Side -> Writes, cleans: Side -> bool) returns (ok: bool)
      requires Valid() && Through(9) && NothingRecorded(log)
      modifies this
      ensures Valid() && Through(9) && Extends(old(log), log)
      ensures var src := old(plan.recordedSrc) || (records(Source) && w(Source).Ok());
              var dst := old(plan.recordedDst) || (records(Destination) && w(Destination).Ok());
              var cleaned := [Cleaning(Destination)] + (if cleans(Destination) then [Cleaning(Source)] else []);
              && (ok <==> src && dst && cleans(Destination) && cleans(Source))
              && (src && dst ==>
                    plan.recordedSrc && plan.recordedDst && |log| >= |cleaned| && log[|log| - |cleaned|..] == cleaned)
    {
      hide Valid, Through, Saving, Unrecorded;
      ok := RecordAt(Source, records(Source), w(Source));
      if !ok {
        return;
      }
      ok := RecordAt(Destination, records(Destination), w(Destination));
      if !ok {
        return;
      }
      CleanUp(Destination);
      if !cleans(Destination) {
        return false;
      }
      CleanUp(Source);
      ok := cleans(Source);
    }

    // ---- the run ----------------------------------------------------------------------------

    method Verify(k: int) returns (v: Verdict)
      requires Valid() && Through(k) && 0 <= k < STEPS
      modifies this
      ensures Valid() && Through(k) && Continues(old(log), log)
      ensures v.Satisfied? ==> Done(k)
    {
      if k == 1 {
        v := if plan.sourceRunning then Unsatisfied else Satisfied;
      } else if k == 2 && !plan.sourceTmux {
        v := Satisfied;
      } else if k == START {
        var status, ours, confirms, saved, taken := *, *, *, *, *;
        v := VerifyStart(status, ours, confirms, Writes(saved, taken));
      } else if k == START + 1 {
        var pane := *;
        v := VerifyShape(pane);
      } else if k == THAW_EXIT {
        var status, pane := *, *;
        v := VerifyThawExit(status, pane);
      } else {
        v := AskHosts(k);
      }
    }

    /** Whatever the hosts answer. */
    method AnyInstall() returns (ok: bool)
      requires Valid() && Through(4)
      modifies this
      ensures Valid() && Through(4) && Continues(old(log), log)
    {
      ghost var before := log;
      var v := AskHosts(4);
      var prepared, works, saved, taken, reported := *, *, *, *, *;
      var ids: seq<int> := *;
      ok := RunInstall(prepared && !v.Error?, if reported then Some(ids) else None, works, Writes(saved, taken));
    }

    method AnyStart() returns (ok: bool)
      requires Valid() && Through(START)
      modifies this
      ensures Valid() && Through(START) && Continues(old(log), log)
      ensures ok ==> DestinationUp(log, plan)
    {
      var starts, confirms, saved1, taken1, saved, taken, shown := *, *, *, *, *, *, *;
      if plan.tmux {
        var pane, ref := *, *;
        ok := StartInPane(pane, if shown then Some(ref) else None, Writes(saved1, taken1), starts, confirms, Writes(saved, taken));
      } else {
        ok := StartUnderPty(starts, Writes(saved, taken));
      }
    }

    method AnyRecord() returns (ok: bool)
      requires Valid() && Through(9) && NothingRecorded(log)
      modifies this
      ensures Valid() && Through(9) && Extends(old(log), log)
    {
      var r1, r2, s1, s2, t1, t2, c1, c2 := *, *, *, *, *, *, *, *;
      ok := RunRecord((side: Side) => if side.Source? then r1 else r2,
                      (side: Side) => if side.Source? then Writes(s1, t1) else Writes(s2, t2),
                      (side: Side) => if side.Source? then c1 else c2);
    }

    method RunBody(k: int, sourcePane: Ref) returns (ok: bool)
      requires Valid() && Through(k) && 0 <= k < STEPS && NothingRecorded(log)
      modifies this
      ensures k < 9 ==> Continues(old(log), log)
      ensures Valid() && Through(k) && Extends(old(log), log)
      ensures ok ==> Done(k)
    {
      ghost var before := log;
      if k == 4 {
        ok := AnyInstall();
      } else if k == START {
        ok := AnyStart();
      } else if k == START + 1 {
        var status, exits, pane, works := *, *, *, *;
        ok := RunShape(status, exits, pane, works);
      } else if k == THAW_EXIT {
        var status, thaw, idles, exits, pane, works := *, *, *, *, *, *;
        ok := RunThawExit(sourcePane, status, thaw, idles, exits, pane, works);
      } else if k == 9 {
        ok := AnyRecord();
      } else {
        var v := AskHosts(k);
        ok := !v.Error?;
      }
      ContinuesKeeps(before, log, k, plan);
    }

    /** One turn of job.Run. */
    method Step(k: int, sourcePane: Ref) returns (held: bool)
      requires Valid() && Through(k) && 0 <= k < STEPS && NothingRecorded(log)
      modifies this
      ensures k < 9 ==> Continues(old(log), log)
      ensures Valid() && Extends(old(log), log) && (held ==> Through(k + 1))
    {
      hide Valid, Done, Through;
      ghost var before := log;
      var v := Verify(k);
      StaysUnrecorded(before, log);
      held := v.Satisfied?;
      if v.Unsatisfied? {
        var saves;
        held, saves := Attempt(k, sourcePane);
        if !saves {
          return;
        }
      }
      var doneBefore := *;  // a satisfied step whose row says done is not saved again
      if !(v.Satisfied? && doneBefore) {
        var saved := *;
        SaveIn(k, held, saved);
        held := held && saved;
      }
      if held {
        Hold(k);
      }
    }

    /** Run, unless the context ended; saves is false when even announcing it
        could not be saved. */
    method Attempt(k: int, sourcePane: Ref) returns (held: bool, saves: bool)
      requires Valid() && Through(k) && 0 <= k < STEPS && NothingRecorded(log)
      modifies this
      ensures k < 9 ==> Continues(old(log), log)
      ensures Valid() && Through(k) && Extends(old(log), log)
      ensures held ==> saves && Done(k)
    {
      hide Valid, Done, Through;
      held, saves := false, true;
      var cancelled := *;
      if !cancelled {
        ghost var before := log;
        saves := SaveThrough(k);
        StaysUnrecorded(before, log);
        if saves {
          held := RunBody(k, sourcePane);
        }
      }
    }

    /** The step has held in this invocation. */
    method Hold(k: int)
      requires Valid() && Through(k) && Done(k) && 0 <= k < STEPS
      modifies this`log
      ensures Valid() && Through(k + 1) && Continues(old(log), log)
    {
      hide Valid;
      ghost var before := log;
      HoldMayHappen(k);
      Note(Held(k));
      ContinuesKeeps(before, log, k, plan);
      NowSnoc(before, Held(k), Held(k));
    }

    lemma HoldMayHappen(k: int)
      requires Through(k)
      ensures EventOk(log, Held(k))
    {
    }

    method SaveThrough(k: int) returns (ok: bool)
      requires Valid() && Through(k)
      modifies this`log
      ensures Valid() && Through(k) && Continues(old(log), log)
    {
      ok := *;
      SaveIn(k, false, ok);
    }

    /** Saves inside step k, which so far held or not. */
    method SaveIn(k: int, held: bool, works: bool)
      requires Valid() && Through(k) && (held ==> Done(k))
      modifies this`log
      ensures Valid() && Through(k) && Continues(old(log), log)
      ensures held ==> Done(k)
    {
      ghost var before := log;
      Save(works);
      ContinuesKeeps(before, log, k, plan);
    }

    /** job.Run: the steps in order up to the first that does not hold. */
    method RunSteps(sourcePane: Ref) returns (held: bool)
      requires Valid() && Through(0) && NothingRecorded(log)
      modifies this
      ensures Valid() && Extends(old(log), log) && (held ==> Through(STEPS))
    {
      ghost var before := log;
      var k := 0;
      while k < STEPS
        invariant 0 <= k <= STEPS && Valid() && Through(k) && Extends(old(log), log)
        invariant k <= 9 ==> Continues(old(log), log)
      {
        StaysUnrecorded(before, log);
        held := Step(k, sourcePane);
        if !held {
          return;
        }
        k := k + 1;
      }
      held := true;
    }

    /** RunJob: an early failure, or the run; the journal is saved last. */
    method RunJob(sourcePane: Ref) returns (success: bool)
      requires Valid() && Through(0) && NothingRecorded(log)
      modifies this
      ensures Valid() && Extends(old(log), log) && (success ==> Through(STEPS))
    {
      hide Valid, Through, NothingRecorded;
      var connected := *;
      var saved := connected;
      if connected {
        saved := StartUp();
      }
      if !saved {
        var last := *;
        Save(last);
        return false;
      }
      success := RunSteps(sourcePane);
      saved := LastSave();
      success := success && saved;
    }

    method StartUp() returns (ok: bool)
      requires Valid() && Through(0) && NothingRecorded(log)
      modifies this`log
      ensures Valid() && Through(0) && NothingRecorded(log) && Continues(old(log), log)
    {
      ghost var before := log;
      ok := *;
      Save(ok);
      ContinuesKeeps(before, log, 0, plan);
      StaysUnrecorded(before, log);
    }

    method LastSave() returns (ok: bool)
      requires Valid()
      modifies this`log
      ensures Valid() && Continues(old(log), log) && (old(Through(STEPS)) ==> Through(STEPS))
    {
      ghost var ran := log;
      ok := *;
      Save(ok);
      ContinuesKeeps(ran, log, STEPS, plan);
    }
  }

  // ---- whole histories ------------------------------------------------------------------------

  /** The plan preflight saves. */
  predicate NewJob(p: Plan) {
    p.destRef.None? && !p.destRegistry && p.installedIDs == [] && !p.recordedSrc && !p.recordedDst
  }

  lemma Died(log: seq<Event>, whole: seq<Event>, n: nat, p: Plan)
    requires Safe(whole) && log <= whole && |log| <= n <= |whole| && Persisted(p) in log
    ensures Safe(whole[..n]) && Persisted(p) in whole[..n] && OnDisk(whole[..n]).Some?
  {
    SafePrefix(whole, n);
    assert log == whole[..n][..|log|];
    PersistedReachesDisk(whole[..n], p);
  }

  /** The life of a job: invoked any number of times, each invocation dying
      after some event or ending by itself; everything it ever did is safe. */
  method Life(p: Plan, deaths: seq<nat>, sourcePane: Ref) returns (log: seq<Event>)
    requires NewJob(p)
    ensures Safe(log) && OnDisk(log).Some?
  {
    log := [Persisted(p)];
    SafeSnoc([], Persisted(p));
    assert [] + [Persisted(p)] == log;
    assert forall e :: !Now([], e);
    var i := 0;
    while i < |deaths|
      invariant Safe(log) && Persisted(p) in log && OnDisk(log).Some?
    {
      var r := new Runner.Load(log);
      var success := r.RunJob(sourcePane);
      var n := if deaths[i] <= |r.log| - |log| then |log| + deaths[i] else |r.log|;
      Died(log, r.log, n, p);
      log := r.log[..n];
      i := i + 1;
    }
  }

  // ---- what safety means, read off the log ---------------------------------------------------------

  lemma {:induction false} NowMeans(log: seq<Event>, e: Event)
    requires Now(log, e)
    ensures exists k :: 0 <= k < |log| && log[k] == e && forall i :: k <= i < |log| ==> !log[i].Began?
  {
    var last := |log| - 1;
    if log[last] == e {
      assert forall i :: last <= i < |log| ==> !log[i].Began?;
    } else {
      NowMeans(log[..last], e);
      var k :| 0 <= k < last && log[..last][k] == e && forall i :: k <= i < last ==> !log[..last][i].Began?;
      assert log[k] == e && forall i :: k <= i < |log| ==> i == last || !log[..last][i].Began?;
    }
  }

  /** Confirm before exit: whenever the source's Claude is asked to exit, the
      destination's was confirmed on the plan's pane earlier in the same
      invocation; with no tmux, this job had resumed it under a pty. */
  lemma ConfirmBeforeExit(log: seq<Event>, i: nat)
    requires Safe(log) && i < |log| && log[i].Exiting? && log[i].side.Source?
    ensures var p := log[i].plan;
            if p.tmux then
              && p.destRef.Some?
              && exists k :: 0 <= k < i && log[k] == Confirmed(p.destRef.value) && forall n :: k <= n < i ==> !log[n].Began?
            else exists k :: 0 <= k < i && log[k] == PtyResumed
  {
    var p := log[i].plan;
    assert EventOk(log[..i], log[i]);
    if p.tmux {
      var e := Confirmed(p.destRef.value);
      NowMeans(log[..i], e);
      var k :| 0 <= k < |log[..i]| && log[..i][k] == e && forall n :: k <= n < |log[..i]| ==> !log[..i][n].Began?;
      assert log[k] == e;
      assert forall n :: k <= n < i ==> log[n] == log[..i][n];
    } else {
      var k :| 0 <= k < i && log[..i][k] == PtyResumed;
      assert log[k] == PtyResumed;
    }
  }

  /** A side is recorded again only by a later invocation, and only while no
      plan on disk says it has been. */
  lemma RecordedAtMostOnce(log: seq<Event>, side: Side, i: nat, k: nat)
    requires Safe(log) && i < k < |log| && log[k] == Recording(side)
    ensures log[i].Persisted? ==> !log[i].plan.Recorded(side)
    ensures log[i] == Recording(side) ==> exists n :: i < n < k && log[n].Began?
  {
    assert EventOk(log[..k], log[k]);
    assert log[..k][i] == log[i];
    assert log[i] in log[..k];
    if log[i] == Recording(side) && forall n :: i < n < k ==> !log[n].Began? {
      NowFrom(log[..k], i);
    }
  }

  lemma {:induction false} NowFrom(log: seq<Event>, i: nat)
    requires i < |log| && forall n :: i <= n < |log| ==> !log[n].Began?
    ensures Now(log, log[i])
    decreases |log|
  {
    if i + 1 < |log| {
      NowFrom(log[..|log| - 1], i);
    }
  }

  /** The window that is left: an invocation that dies after Record and before
      the save leaves the next one free to record again. */
  lemma DeathForgetsRecord(log: seq<Event>, side: Side, p: Plan)
    requires Safe(log + [Recording(side)]) && OnDisk(log) == Some(p)
    ensures Safe(log + [Recording(side)] + [Began(p)] + [Recording(side)])
  {
    hide EventOk, Safe;
    var once := log + [Recording(side)];
    var again := once + [Began(p)];
    RecordsOnce(log, side, p);
    SafeSnoc(once, Began(p));
    NowSnoc(once, Began(p), Recording(side));
    assert Saved(again, side) ==> Saved(log, side);
    assert EventOk(again, Recording(side)) by { RecordingOk(again, side); }
    SafeSnoc(again, Recording(side));
  }

  lemma RecordsOnce(log: seq<Event>, side: Side, p: Plan)
    requires Safe(log + [Recording(side)]) && OnDisk(log) == Some(p)
    ensures EventOk(log + [Recording(side)], Began(p)) && !Saved(log, side)
  {
    var once := log + [Recording(side)];
    assert once[..|log|] == log && EventOk(once[..|log|], once[|log|]);
  }

  lemma RecordingOk(log: seq<Event>, side: Side)
    requires !Now(log, Recording(side)) && !Saved(log, side)
    ensures EventOk(log, Recording(side))
  {
  }

  /** No id the plan ever had on disk is lost, and each was reported by an
      Install of this job. */
  lemma InstalledIDsAreKept(log: seq<Event>, i: nat, k: nat, id: int)
    requires Safe(log) && i < k < |log| && log[i].Persisted? && log[k].Persisted?
    ensures log[i].plan.installedIDs <= log[k].plan.installedIDs
    ensures id in log[k].plan.installedIDs ==> exists ids :: Reported(ids) in log[..k] && id in ids
  {
    assert EventOk(log[..k], log[k]);
    assert log[..k][i] == log[i];
    assert Persisted(log[i].plan) in log[..k];
  }
}
