/** The main results on the transfer engine: which runs succeed, what they
    leave, what an interrupted run may have changed, and that resuming after
    any number of crashes ends in the tree of the uninterrupted run. */
module CrashResume {
  import opened Destination
  import opened Transfer
  import opened Interrupted
  import opened StagingArea
  import opened Placement

  // ---- claims -----------------------------------------------------------------

  lemma {:induction false} ClaimsExec(j: Job, w: World, roots: seq<Path>)
    ensures AllAllowed(j, w, Claims(roots))
    ensures Exec(w, Claims(roots)) == w.(roots := w.roots + set r | r in roots)
    decreases |roots|
  {
    if roots == [] {
      assert w.roots + (set r | r in roots) == w.roots;
    } else {
      var w1 := Step(w, ClaimRoot(roots[0]));
      ClaimsExec(j, w1, roots[1..]);
      assert Claims(roots) == [ClaimRoot(roots[0])] + Claims(roots[1..]);
      assert Claims(roots)[1..] == Claims(roots[1..]);
      assert w1.roots + (set r | r in roots[1..]) == w.roots + (set r | r in roots);
    }
  }

  lemma {:induction false} PendingRootsAre(fs: Fs, recorded: set<Path>, es: Manifest, pol: Policy)
    ensures forall e :: e in es && GitCategory(e.category) && !e.deferred && EntryRoot(e.dst, pol.roots) != []
              && EntryRoot(e.dst, pol.roots)[0].path !in recorded && EntryRoot(e.dst, pol.roots)[0].path !in fs
              ==> EntryRoot(e.dst, pol.roots)[0].path in PendingRoots(fs, recorded, es, pol)
    ensures forall p :: p in PendingRoots(fs, recorded, es, pol) ==>
              p !in fs && p !in recorded && exists e :: e in es && NeedsRoot(e) && RootIs(e, pol, p)
  {
    if es != [] {
      PendingRootsAre(fs, recorded, es[1..], pol);
      assert es[0] in es;
    }
  }

  predicate NeedsRoot(e: Entry) {
    e.category in {CatRepo, CatWorktree} && !e.deferred
  }

  ghost predicate RootIs(e: Entry, pol: Policy, p: Path) {
    EntryRoot(e.dst, pol.roots) != [] && EntryRoot(e.dst, pol.roots)[0].path == p
  }

  /** Claims are durable before the first placement. */
  lemma ClaimsComplete(j: Job, w: World)
    requires Midway(j, w)
    ensures var w' := Exec(w, Claims(PendingRoots(w.fs, w.roots, j.m, j.pol)));
            && ClaimsDone(j, w'.roots) && Midway(j, w')
            && w' == w.(roots := w'.roots)
            && forall p :: p in w'.roots && p !in w.roots ==> p !in w.fs && exists e :: e in j.m && NeedsRoot(e) && RootIs(e, j.pol, p)
  {
    var roots := PendingRoots(w.fs, w.roots, j.m, j.pol);
    var claims := Claims(roots);
    PendingRootsAre(w.fs, w.roots, j.m, j.pol);
    ClaimsExec(j, w, roots);
    PrefixMidway(j, w, claims, |claims|);
    assert claims[..|claims|] == claims;
    var w' := Exec(w, claims);
    forall e, root | e in j.m && RootOf(j, e, root) ensures root in w'.roots || root in j.fs0 {
    }
  }

  // ---- whole operations are allowed ------------------------------------------------

  lemma LoopStart(j: Job, w: World, st: map<int, Status>)
    requires WellFormed(j.m) && Midway(j, w) && StatusesMean(w, j.m, j.pol, st)
    requires CheckAll(w.fs, w.roots, j.m, j.pol) && !DeferredRefused(j.m)
    ensures var w' := Exec(w, Claims(PendingRoots(w.fs, w.roots, j.m, j.pol)));
            AtEntries(j, w', w', j.m, st)
  {
    ClaimsComplete(j, w);
    var w' := Exec(w, Claims(PendingRoots(w.fs, w.roots, j.m, j.pol)));
    forall e | e in j.m ensures StatusMeans(w', j.pol, e, StatusAt(st, e.id)) && StaticallyAllowed(j.pol, e) {
      assert Check(w.fs, w.roots, j.m, j.pol, e);
      StatusMeansStable(w, w', j.pol, e, StatusAt(st, e.id));
    }
  }

  lemma FlushAllowed(j: Job, w: World, records: map<Path, RecordKind>)
    ensures AllAllowed(j, w, Flush(records))
  {
    var flush := Flush(records);
    if flush != [] {
      assert flush[1..] == [] && AllAllowed(j, Step(w, flush[0]), []);
    }
  }

  lemma InstallActs(w: World, m: Manifest, st: map<int, Status>, pol: Policy)
    ensures var claims := Claims(PendingRoots(w.fs, w.roots, m, pol));
            var loop := InstallLoop(Exec(w, claims), m, st, pol);
            Install(w, m, st, pol).acts ==
              if !CheckAll(w.fs, w.roots, m, pol) then []
              else if DeferredRefused(m) then claims
              else claims + loop.acts + Flush(loop.records)
  {
  }

  lemma InstallAllowed(j: Job, w: World, st: map<int, Status>)
    requires WellFormed(j.m) && Midway(j, w) && StatusesMean(w, j.m, j.pol, st)
    ensures AllAllowed(j, w, Install(w, j.m, st, j.pol).acts)
  {
    assert AllAllowed(j, w, []);
    hide AllAllowed, Install, InstallLoop, Midway, StatusesMean, PendingRoots, Exec, CheckAll;
    InstallActs(w, j.m, st, j.pol);
    var roots := PendingRoots(w.fs, w.roots, j.m, j.pol);
    var claims := Claims(roots);
    if CheckAll(w.fs, w.roots, j.m, j.pol) {
      ClaimsExec(j, w, roots);
      if !DeferredRefused(j.m) {
        LoopStart(j, w, st);
        var w1 := Exec(w, claims);
        var loop := InstallLoop(w1, j.m, st, j.pol);
        InstallLoopAllowed(j, w1, w1, j.m, st);
        AllAllowedConcat(j, w, claims, loop.acts);
        FlushAllowed(j, Exec(w, claims + loop.acts), loop.records);
        AllAllowedConcat(j, w, claims + loop.acts, Flush(loop.records));
      }
    }
  }

  lemma DiffAndInstallAllowed(j: Job, w: World)
    requires WellFormed(j.m) && Midway(j, w)
    ensures AllAllowed(j, w, DiffAndInstall(w, j.m, j.pol).acts)
  {
    var d := Diff(w, j.m, j.pol);
    DiffFromMeans(w, j.m, j.m, j.pol);
    StagingOnly(j, w, d.acts);
    if d.ok {
      var w1 := Exec(w, d.acts);
      PrefixMidway(j, w, d.acts, |d.acts|);
      assert d.acts[..|d.acts|] == d.acts;
      InstallAllowed(j, w1, d.st);
      AllAllowedConcat(j, w, d.acts, Install(w1, j.m, d.st, j.pol).acts);
    }
  }

  /** Whatever the source sends, a run takes only allowed actions. */
  lemma FullRunAllowed(j: Job, w: World, src: map<int, Content>)
    requires WellFormed(j.m) && Midway(j, w)
    ensures AllAllowed(j, w, FullRun(w, j.m, src, j.pol).acts)
  {
    var (acts, ok) := Stage(w, j.m, src, j.pol);
    StageAllowed(j, w, src);
    if ok {
      PrefixMidway(j, w, acts, |acts|);
      assert acts[..|acts|] == acts;
      DiffAndInstallAllowed(j, Exec(w, acts));
      AllAllowedConcat(j, w, acts, DiffAndInstall(Exec(w, acts), j.m, j.pol).acts);
    }
  }

  // ---- histories of interrupted runs -----------------------------------------------

  /** One attempt: what the source sent, and after how many atomic actions the
      destination stopped. */
  datatype Attempt = Attempt(src: map<int, Content>, steps: nat)

  function Interrupt(w: World, m: Manifest, pol: Policy, attempts: seq<Attempt>): World
    decreases |attempts|
  {
    if attempts == [] then w
    else
      var acts := FullRun(w, m, attempts[0].src, pol).acts;
      var n := if attempts[0].steps <= |acts| then attempts[0].steps else |acts|;
      Interrupt(Exec(w, acts[..n]), m, pol, attempts[1..])
  }

  ghost predicate Untouched(j: Job, w: World) {
    && WellFormed(j.m) && TreeOk(w.fs) && w.fs == j.fs0 && w.roots == j.roots0 && StagedVerified(j.m, w.files)
  }

  lemma UntouchedMidway(j: Job, w: World)
    requires Untouched(j, w)
    ensures Midway(j, w)
  {
  }

  lemma {:induction false} InterruptedMidway(j: Job, w: World, attempts: seq<Attempt>)
    requires WellFormed(j.m) && Midway(j, w)
    ensures Midway(j, Interrupt(w, j.m, j.pol, attempts))
    decreases |attempts|
  {
    if attempts != [] {
      var acts := FullRun(w, j.m, attempts[0].src, j.pol).acts;
      var n := if attempts[0].steps <= |acts| then attempts[0].steps else |acts|;
      FullRunAllowed(j, w, attempts[0].src);
      PrefixMidway(j, w, acts, n);
      InterruptedMidway(j, Exec(w, acts[..n]), attempts[1..]);
    }
  }

  // ---- overwrite discipline ------------------------------------------------------------

  /** The only licences to change what stood at e.dst: the job's own capture,
      a fast-forward, or the user's force on a regular session file that both
      the source and the destination's own test give to this session, and that
      e neither equals nor extends. */
  ghost predicate LicensedToReplace(j: Job, e: Entry)
    requires e.dst in j.fs0
  {
    var was := j.fs0[e.dst];
    || (e.category.CatCapture? && e.deferred && e.dst == j.pol.capture && e.kind.Regular? && !was.Dir?)
    || (was.File? && e.ffAllowed && e.kind.Regular? && j.pol.ffTest(e.dst, was.content, e.digest.of))
    || (&& j.pol.force && e.kind.Regular? && e.ffAllowed && e.category.CatSession? && j.pol.ownsSession(e.dst)
        && was != e.Node() && !(was.File? && j.pol.ffTest(e.dst, was.content, e.digest.of)))
  }

  /** A manifest with one refused entry never changes the tree. */
  lemma {:induction false} RefusedIsIdle(j: Job, w: World, attempts: seq<Attempt>, e: Entry)
    requires WellFormed(j.m) && e in j.m && !Check(w.fs, w.roots, j.m, j.pol, e)
    ensures Interrupt(w, j.m, j.pol, attempts).fs == w.fs
    decreases |attempts|
  {
    hide Check;
    if attempts != [] {
      var src := attempts[0].src;
      var acts := FullRun(w, j.m, src, j.pol).acts;
      var n := if attempts[0].steps <= |acts| then attempts[0].steps else |acts|;
      if Diff(w, j.m, j.pol).ok {
        DiffAccepted(w, j.m, j.m, j.pol);
      }
      DiffFromMeans(w, j.m, j.m, j.pol);
      assert acts == Diff(w, j.m, j.pol).acts;
      StagingOnly(j, w, acts[..n]);
      RefusedIsIdle(j, Exec(w, acts[..n]), attempts[1..], e);
    }
  }

  /** After any number of attempts, each stopped anywhere, whatever stood on the
      destination before the job stands there unchanged, or an entry for that
      very path was licensed to replace it. */
  lemma OverwriteDiscipline(j: Job, w: World, attempts: seq<Attempt>, p: Path)
    requires Untouched(j, w) && p in j.fs0
    ensures var w' := Interrupt(w, j.m, j.pol, attempts);
            || (p in w'.fs && w'.fs[p] == j.fs0[p])
            || exists e :: e in j.m && e.dst == p && LicensedToReplace(j, e)
  {
    InterruptedMidway(j, w, attempts);
    var w' := Interrupt(w, j.m, j.pol, attempts);
    assert PathMidway(j, w'.fs, p);
    if !(p in w'.fs && w'.fs[p] == j.fs0[p]) {
      if p in w'.fs && DeliveredAt(j, p, w'.fs[p]) {
        var e :| e in j.m && e.dst == p && w'.fs[p] == e.Node() && MayReplace(j, e);
        if !Check(j.fs0, j.roots0, j.m, j.pol, e) {
          RefusedIsIdle(j, w, attempts, e);
        }
        assert LicensedToReplace(j, e);
      } else {
        assert ForcedAt(j, p);
        var e :| e in j.m && e.dst == p && Forces(j, e);
        assert LicensedToReplace(j, e);
      }
    }
  }

  // ---- where a job may write --------------------------------------------------------------

  /** root may hold a job's git entries: it is declared, in the home directory but
      not the home directory itself, not in the configuration or data directory,
      and its first name below home does not begin with a dot. */
  ghost predicate ProperRoot(pol: Policy, root: Root) {
    && root in pol.roots && pol.home < root.path && !(pol.configDir <= root.path) && !(pol.dataDir <= root.path)
    && (root.path[|pol.home|] == "" || root.path[|pol.home|][0] != '.')
  }

  /** A session entry of the job lies in the project that munge gives the path. */
  ghost predicate NamesProject(j: Job, path: Path) {
    exists s :: s in j.m && s.category == CatSession && j.pol.projects + [j.pol.munge(path)] <= s.dst
  }

  /** root was recorded as this job's, or missing, or it is a directory that may
      have been there and that a session entry names as its project, or e is a
      directory and root should not have been there. */
  ghost predicate ProvenRoot(j: Job, root: Root, e: Entry) {
    || root.path in j.roots0
    || root.path !in j.fs0
    || (root.mayPreExist && j.fs0[root.path] == Dir && NamesProject(j, root.path))
    || (!root.mayPreExist && e.kind == Directory)
  }

  /** Of the declared roots that contain dst, number i is the longest, and the
      first of those. */
  ghost predicate LongestRoot(roots: seq<Root>, dst: Path, i: int) {
    && 0 <= i < |roots| && roots[i].path <= dst
    && forall k :: 0 <= k < |roots| && roots[k].path <= dst ==>
         |roots[k].path| < |roots[i].path| || (|roots[k].path| == |roots[i].path| && i <= k)
  }

  ghost predicate InProperRoot(j: Job, e: Entry) {
    exists i: int :: LongestRoot(j.pol.roots, e.dst, i) && ProperRoot(j.pol, j.pol.roots[i]) && ProvenRoot(j, j.pol.roots[i], e)
  }

  /** Where an entry may lie, by its category, and where its link may lead. */
  ghost predicate Confined(j: Job, e: Entry) {
    && j.pol.home <= e.dst && e.dst != [] && Clean(e.dst)
    && (match e.category
        case CatSession => j.pol.configDir <= e.dst && !j.pol.forbidden(e.dst)
        case CatCapture => e.dst == j.pol.capture && j.pol.dataDir <= e.dst && e.kind == Regular
        case CatRepo => e.deferred || InProperRoot(j, e)
        case CatWorktree => e.deferred || InProperRoot(j, e)
        case CatOther(_) => false)
    && (e.kind.Link? && (e.category == CatSession || !e.deferred) ==> j.pol.linkAllowed(e.dst, e.kind.target))
  }

  lemma {:induction false} EntryRootIs(dst: Path, roots: seq<Root>, i: int)
    requires LongestRoot(roots, dst, i)
    ensures EntryRoot(dst, roots) == [roots[i]]
  {
    var n := |roots| - 1;
    if i < n {
      assert LongestRoot(roots[..n], dst, i);
      EntryRootIs(dst, roots[..n], i);
    }
  }

  lemma {:induction false} SomeLongestRoot(dst: Path, roots: seq<Root>) returns (i: nat)
    requires EntryRoot(dst, roots) != []
    ensures LongestRoot(roots, dst, i)
  {
    var n := |roots| - 1;
    var rest := EntryRoot(dst, roots[..n]);
    if UnderDir(dst, roots[n].path) && (rest == [] || |roots[n].path| > |rest[0].path|) {
      i := n;
    } else {
      i := SomeLongestRoot(dst, roots[..n]);
      EntryRootIs(dst, roots[..n], i);
    }
  }

  lemma ProjectsAreNamed(j: Job, path: Path)
    ensures NamesProject(j, path) <==> j.pol.munge(path) in ClaimedCwds(j.m, j.pol)
  {
    if s :| s in j.m && s.category == CatSession && j.pol.projects + [j.pol.munge(path)] <= s.dst {
      assert UnderDir(s.dst, j.pol.projects) && s.dst[|j.pol.projects|] == j.pol.munge(path);
    }
    if s :| s in j.m && s.category.CatSession? && UnderDir(s.dst, j.pol.projects) && s.dst != j.pol.projects
            && s.dst[|j.pol.projects|] == j.pol.munge(path) {
      assert j.pol.projects + [j.pol.munge(path)] <= s.dst;
    }
  }

  lemma ProperIsLegitimate(pol: Policy, root: Root)
    requires root in pol.roots
    ensures ProperRoot(pol, root) <==> RootLegitimate(pol, root.path)
  {
  }

  lemma ProvenIsAccepted(j: Job, root: Root, e: Entry)
    ensures ProvenRoot(j, root, e) <==> RootAccepted(j.fs0, j.roots0, ClaimedCwds(j.m, j.pol), j.pol, e, root)
  {
    hide ClaimedCwds, NamesProject;
    ProjectsAreNamed(j, root.path);
  }

  lemma GitConfined(j: Job, e: Entry)
    requires GitCategory(e.category) && !e.deferred
    ensures InProperRoot(j, e) <==>
      var r := EntryRoot(e.dst, j.pol.roots);
      r != [] && RootLegitimate(j.pol, r[0].path) && RootAccepted(j.fs0, j.roots0, ClaimedCwds(j.m, j.pol), j.pol, e, r[0])
  {
    hide EntryRoot, ProperRoot, ProvenRoot, RootLegitimate, RootAccepted, ClaimedCwds;
    var roots := j.pol.roots;
    if i :| LongestRoot(roots, e.dst, i) && ProperRoot(j.pol, roots[i]) && ProvenRoot(j, roots[i], e) {
      EntryRootIs(e.dst, roots, i);
      ProperIsLegitimate(j.pol, roots[i]);
      ProvenIsAccepted(j, roots[i], e);
    }
    if EntryRoot(e.dst, roots) != [] {
      var i := SomeLongestRoot(e.dst, roots);
      EntryRootIs(e.dst, roots, i);
      ProperIsLegitimate(j.pol, roots[i]);
      ProvenIsAccepted(j, roots[i], e);
    }
  }

  /** The validator accepts exactly the manifests whose entries are all confined. */
  lemma AcceptedExactly(j: Job)
    ensures Accepted(j) <==> forall e :: e in j.m ==> Confined(j, e)
  {
    hide InProperRoot, RootAccepted, RootLegitimate, EntryRoot;
    forall e | e in j.m ensures Check(j.fs0, j.roots0, j.m, j.pol, e) <==> Confined(j, e) {
      if GitCategory(e.category) && !e.deferred {
        GitConfined(j, e);
      }
    }
  }

  /** Whatever a job has changed after any history of interrupted attempts is the
      place of one of its entries, or a directory made above one, and every entry
      of such a job is confined. */
  lemma ChangesAreConfined(j: Job, w: World, attempts: seq<Attempt>, p: Path)
    requires Untouched(j, w)
    ensures var fs := Interrupt(w, j.m, j.pol, attempts).fs;
            || (p in fs && p in j.fs0 && fs[p] == j.fs0[p])
            || (p !in fs && p !in j.fs0)
            || (&& (forall e :: e in j.m ==> Confined(j, e))
                && exists e :: e in j.m && p <= e.dst && (p != e.dst ==> p in fs && fs[p] == Dir))
  {
    InterruptedMidway(j, w, attempts);
    var fs := Interrupt(w, j.m, j.pol, attempts).fs;
    AcceptedExactly(j);
    if e :| e in j.m && !Check(j.fs0, j.roots0, j.m, j.pol, e) {
      RefusedIsIdle(j, w, attempts, e);
    } else {
      assert PathMidway(j, fs, p);
    }
  }

  // ---- the validator keeps accepting -------------------------------------------------------

  ghost predicate Accepted(j: Job) {
    CheckAll(j.fs0, j.roots0, j.m, j.pol)
  }

  lemma RootKept(j: Job, w: World, e: Entry, root: Path)
    requires Accepted(j) && Midway(j, w) && e in j.m && RootOf(j, e, root)
    ensures root in j.fs0 ==> root in w.fs && (j.fs0[root].Dir? ==> w.fs[root].Dir?)
  {
    assert Check(j.fs0, j.roots0, j.m, j.pol, e);
    assert PathMidway(j, w.fs, root);
    forall f | f in j.m && f.dst == root ensures !f.category.CatSession? && !f.category.CatCapture? {
      assert Check(j.fs0, j.roots0, j.m, j.pol, f);
    }
  }

  /** Every root accepted at the start is accepted again after any crash:
      claims are written before anything is placed under them. */
  lemma ValidatorStable(j: Job, w: World)
    requires Accepted(j) && Midway(j, w)
    ensures CheckAll(w.fs, w.roots, j.m, j.pol)
  {
    forall e | e in j.m ensures Check(w.fs, w.roots, j.m, j.pol, e) {
      assert Check(j.fs0, j.roots0, j.m, j.pol, e);
      if GitCategory(e.category) && !e.deferred {
        var root := EntryRoot(e.dst, j.pol.roots)[0].path;
        assert RootOf(j, e, root);
        RootKept(j, w, e, root);
      }
    }
  }

  // ---- when a run succeeds ------------------------------------------------------------

  /** e can be delivered over the original tree. */
  ghost predicate EntryInstallable(j: Job, e: Entry) {
    && MayReplace(j, e)
    && (forall p :: p in j.fs0 && UnderDir(e.dst, p) && p != e.dst ==> j.fs0[p].Dir?)
    && (forall f :: f in j.m && UnderDir(e.dst, f.dst) && f != e ==> f.kind.Directory?)
    && (e.dst in j.fs0 && j.fs0[e.dst].Dir? && !e.kind.Directory? ==> Childless(j.fs0, e.dst))
  }

  ghost predicate Installable(j: Job) {
    && (forall e :: e in j.m && e.deferred ==> e.category == CatCapture)
    && forall e :: e in j.m ==> EntryInstallable(j, e)
  }

  /** Under an installable manifest nothing but directories ever stands above
      an entry. */
  lemma WayIsFree(j: Job, w: World, e: Entry, p: Path)
    requires WellFormed(j.m) && Midway(j, w) && Installable(j) && e in j.m
    requires p in w.fs && UnderDir(e.dst, p) && p != e.dst
    ensures w.fs[p].Dir?
  {
    assert EntryInstallable(j, e);
    assert PathMidway(j, w.fs, p);
    if p in w.fs && DeliveredAt(j, p, w.fs[p]) {
      var f :| f in j.m && f.dst == p && w.fs[p] == f.Node() && MayReplace(j, f);
      assert f != e;
    }
  }

  lemma AboveOtherIsDirectory(j: Job, e: Entry)
    requires Installable(j) && e in j.m && AboveOther(j.m, e)
    ensures e.kind.Directory?
  {
    var f :| f in j.m && f != e && UnderDir(f.dst, e.dst);
    assert EntryInstallable(j, f);
  }

  /** e.dst is a directory only where it was one, or for a directory entry. */
  lemma NoDirectoryInTheWay(j: Job, w: World, e: Entry)
    requires WellFormed(j.m) && Midway(j, w) && Installable(j) && e in j.m && !e.kind.Directory?
    requires e.dst in w.fs && w.fs[e.dst].Dir?
    ensures e.dst in j.fs0 && j.fs0[e.dst].Dir?
  {
    forall f | f in j.m && f.dst == e.dst ensures f == e {
      SameEntry(j.m, e, f);
    }
    forall f | f in j.m ensures !(UnderDir(f.dst, e.dst) && f != e) {
      assert EntryInstallable(j, f);
    }
    assert PathMidway(j, w.fs, e.dst);
  }

  lemma MkdirsSucceed(j: Job, w: World, e: Entry, fileOnly: bool)
    requires WellFormed(j.m) && Midway(j, w) && Installable(j) && e in j.m && e.dst != []
    requires e.kind.Directory? && !fileOnly && e.dst in w.fs ==> w.fs[e.dst].Dir?
    ensures MkdirAll(w.fs, PlaceParent(e, fileOnly)).1
  {
    var parent := PlaceParent(e, fileOnly);
    UnderParent(e.dst, Parent(e.dst));
    forall p | p in w.fs && UnderDir(parent, p) ensures w.fs[p].Dir? {
      if p != e.dst {
        assert UnderDir(e.dst, p);
        WayIsFree(j, w, e, p);
      }
    }
    MkdirAllSucceeds(w.fs, parent);
  }

  lemma PlaceSucceeds(j: Job, w: World, e: Entry, fileOnly: bool)
    requires WellFormed(j.m) && Midway(j, w) && Installable(j) && e in j.m && e.dst != []
    requires e.dst in w.fs ==>
      if AsFile(e, fileOnly) then !w.fs[e.dst].Dir? else e.kind.Directory? && w.fs[e.dst].Dir?
    requires AsFile(e, fileOnly) ==> e.id in w.files
    ensures Place(w, e, fileOnly).ok
  {
    var parent := PlaceParent(e, fileOnly);
    MkdirsSucceed(j, w, e, fileOnly);
    MkdirAllExec(w, parent);
    UnderParent(e.dst, Parent(e.dst));
    if AsFile(e, fileOnly) || e.kind.Link? {
      assert !UnderDir(parent, e.dst);
    }
  }

  lemma EntrySucceeds(j: Job, w0: World, w: World, e: Entry, s: Status)
    requires AtEntry(j, w0, w, e, s) && Installable(j) && Supplied(w0, e)
    ensures InstallEntry(w, e, s, j.pol).ok
  {
    assert EntryInstallable(j, e);
    match s {
      case StagedSame =>
        StagedSameIsClear(j, w0, w, e);
        PlaceSucceeds(j, w, e, false);
      case PresentSame =>
      case FFCandidate =>
        PlaceSucceeds(j, w, e, true);
      case PresentDifferent =>
        DifferentIsForced(j, w0, e);
        ForcedDirIsEmpty(j, w, e);
        ForcedRemoval(j, w0, w, e);
        ExecOne(w, Remove(e.dst));
        PlaceSucceeds(j, Step(w, Remove(e.dst)), e, true);
      case _ =>
    }
  }

  lemma StagedSameIsClear(j: Job, w0: World, w: World, e: Entry)
    requires AtEntry(j, w0, w, e, StagedSame) && Installable(j)
    ensures e.dst in w.fs && w.fs[e.dst].Dir? ==> e.kind.Directory?
    ensures e.dst in w.fs && !e.kind.Regular? ==> w.fs[e.dst].Dir?
  {
    assert EntryInstallable(j, e);
    if e.dst in w0.fs {
      if w.fs[e.dst].Dir? && !e.kind.Directory? {
        NoDirectoryInTheWay(j, w, e);
      }
    } else if AboveOther(j.m, e) {
      AboveOtherIsDirectory(j, e);
    }
  }

  lemma DifferentIsForced(j: Job, w: World, e: Entry)
    requires WellFormed(j.m) && Midway(j, w) && Installable(j) && e in j.m
    requires StatusMeans(w, j.pol, e, PresentDifferent) && Supplied(w, e)
    ensures MayForce(j.pol, e)
  {
    assert EntryInstallable(j, e);
    assert PathMidway(j, w.fs, e.dst);
    if DeliveredAt(j, e.dst, w.fs[e.dst]) {
      DeliveredIsEntry(j, e, w.fs[e.dst]);
    } else if !(e.dst in j.fs0 && w.fs[e.dst] == j.fs0[e.dst]) {
      if !e.kind.Directory? {
        NoDirectoryInTheWay(j, w, e);
        ForcedIsEntry(j, e);
      }
    }
  }

  lemma ForcedDirIsEmpty(j: Job, w: World, e: Entry)
    requires WellFormed(j.m) && Midway(j, w) && Installable(j) && e in j.m && MayForce(j.pol, e)
    ensures Removable(w.fs, e.dst)
  {
    if e.dst in w.fs && w.fs[e.dst].Dir? {
      NoDirectoryInTheWay(j, w, e);
      assert EntryInstallable(j, e);
      assert forall f :: f in j.m ==> EntryInstallable(j, f);
      forall q | q in w.fs && UnderDir(q, e.dst) ensures q == e.dst {
        assert PathMidway(j, w.fs, q);
      }
    }
  }

  lemma {:induction false} LoopSucceeds(j: Job, w0: World, w: World, es: Manifest, st: map<int, Status>)
    requires AtEntries(j, w0, w, es, st) && Installable(j)
    requires forall e :: e in es ==> Supplied(w0, e)
    ensures InstallLoop(w, es, st, j.pol).ok
    decreases |es|
  {
    if es != [] {
      assert es[0] in es;
      EntrySucceeds(j, w0, w, es[0], StatusAt(st, es[0].id));
      NextEntry(j, w0, w, es, st);
      LoopSucceeds(j, w0, Exec(w, InstallEntry(w, es[0], StatusAt(st, es[0].id), j.pol).acts), es[1..], st);
    }
  }

  lemma {:induction false} DiffSucceeds(w: World, es: Manifest, m: Manifest, pol: Policy)
    requires forall e :: e in es ==> Check(w.fs, w.roots, m, pol, e)
    ensures DiffFrom(w, es, m, pol).ok
    decreases |es|
  {
    if es != [] {
      assert es[0] in es;
      StagedStateCleans(w, es[0]);
      DiffSucceeds(Cleaned(w, es[0]), es[1..], m, pol);
    }
  }

  /** From any interrupted world, the run of an accepted, installable manifest
      succeeds. */
  lemma RunSucceeds(j: Job, w: World, src: map<int, Content>)
    requires WellFormed(j.m) && Midway(j, w) && SourceIntact(j.m, src)
    requires Accepted(j) && Installable(j)
    ensures FullRun(w, j.m, src, j.pol).ok
  {
    ValidatorStable(j, w);
    DiffSucceeds(w, j.m, j.m, j.pol);
    StageSupplies(j, w, src);
    StageAllowed(j, w, src);
    var acts := Stage(w, j.m, src, j.pol).0;
    PrefixMidway(j, w, acts, |acts|);
    assert acts[..|acts|] == acts;
    InstallSucceeds(j, Exec(w, acts));
  }

  lemma InstallSucceeds(j: Job, w: World)
    requires WellFormed(j.m) && Midway(j, w) && Accepted(j) && Installable(j)
    requires forall e :: e in j.m ==> Supplied(w, e)
    ensures DiffAndInstall(w, j.m, j.pol).ok
  {
    var d := Diff(w, j.m, j.pol);
    ValidatorStable(j, w);
    DiffSucceeds(w, j.m, j.m, j.pol);
    DiffFromMeans(w, j.m, j.m, j.pol);
    StagingOnly(j, w, d.acts);
    var w1 := Exec(w, d.acts);
    PrefixMidway(j, w, d.acts, |d.acts|);
    assert d.acts[..|d.acts|] == d.acts;
    ValidatorStable(j, w1);
    LoopStart(j, w1, d.st);
    ClaimsComplete(j, w1);
    var w2 := Exec(w1, Claims(PendingRoots(w1.fs, w1.roots, j.m, j.pol)));
    forall e | e in j.m ensures Supplied(w2, e) {
      assert Supplied(w, e) && (StagedCopy(w, e) ==> StagedCopy(w1, e));
    }
    LoopSucceeds(j, w2, w2, j.m, d.st);
  }

  // ---- what a successful run leaves ---------------------------------------------------------

  /** Paths of the target: what stood before, and every entry with the
      directories above it. */
  ghost predicate InTarget(j: Job, p: Path) {
    p in j.fs0 || exists e :: e in j.m && UnderDir(e.dst, p)
  }

  ghost predicate EntryAt(j: Job, p: Path) {
    exists e :: e in j.m && e.dst == p
  }

  ghost predicate AllDelivered(m: Manifest, fs: Fs) {
    forall e :: e in m ==> e.dst in fs && fs[e.dst] == e.Node()
  }

  /** The tree a job aims at: every entry delivered, the directories above them
      present, everything else as it was. */
  ghost predicate IsTarget(j: Job, fs: Fs) {
    && (forall p :: p in fs <==> InTarget(j, p))
    && AllDelivered(j.m, fs)
    && (forall p :: p in fs && !EntryAt(j, p) ==> fs[p] == if p in j.fs0 then j.fs0[p] else Dir)
  }

  lemma TargetUnique(j: Job, a: Fs, b: Fs)
    requires IsTarget(j, a) && IsTarget(j, b)
    ensures a == b
  {
    assert a.Keys == b.Keys by {
      forall p ensures p in a <==> p in b {
        assert p in a <==> InTarget(j, p);
      }
    }
    forall p | p in a ensures a[p] == b[p] {
      if EntryAt(j, p) {
        var e :| e in j.m && e.dst == p;
        assert a[e.dst] == b[e.dst] == e.Node();
      }
    }
  }

  lemma DeliveredAtPath(j: Job, fs: Fs, p: Path)
    requires TreeOk(fs) && PathMidway(j, fs, p) && AllDelivered(j.m, fs)
    ensures p in fs <==> InTarget(j, p)
    ensures p in fs && !EntryAt(j, p) ==> fs[p] == if p in j.fs0 then j.fs0[p] else Dir
  {
    if p !in fs {
      forall e | e in j.m ensures !UnderDir(e.dst, p) {
        AncestorsExist(fs, e.dst);
      }
    }
  }

  lemma DeliveredIsTarget(j: Job, w: World)
    requires Midway(j, w) && AllDelivered(j.m, w.fs)
    ensures IsTarget(j, w.fs)
  {
    forall p
      ensures p in w.fs <==> InTarget(j, p)
      ensures p in w.fs && !EntryAt(j, p) ==> w.fs[p] == if p in j.fs0 then j.fs0[p] else Dir
    {
      assert PathMidway(j, w.fs, p);
      DeliveredAtPath(j, w.fs, p);
    }
  }

  function Flush(records: map<Path, RecordKind>): seq<Action> {
    if records == map[] then [] else [SaveInstalled(records)]
  }

  lemma ExecNothing(w: World)
    ensures Exec(w, []) == w
  {
  }

  lemma FlushExec(w: World, records: map<Path, RecordKind>)
    ensures Exec(w, Flush(records)) == w.(installed := w.installed + records)
  {
    hide Exec;
    if records == map[] {
      ExecNothing(w);
      assert w.installed + records == w.installed;
    } else {
      ExecOne(w, SaveInstalled(records));
    }
  }

  lemma InstallEnds(w: World, m: Manifest, st: map<int, Status>, pol: Policy, w1: World, loop: LoopOut)
    requires Install(w, m, st, pol).ok
    requires w1 == Exec(w, Claims(PendingRoots(w.fs, w.roots, m, pol))) && loop == InstallLoop(w1, m, st, pol)
    ensures loop.ok
    ensures Exec(w, Install(w, m, st, pol).acts) == Exec(w1, loop.acts).(installed := Exec(w1, loop.acts).installed + loop.records)
  {
    var claims := Claims(PendingRoots(w.fs, w.roots, m, pol));
    assert Install(w, m, st, pol).acts == claims + loop.acts + Flush(loop.records);
    ExecConcat(w, claims + loop.acts, Flush(loop.records));
    ExecConcat(w, claims, loop.acts);
    FlushExec(Exec(w1, loop.acts), loop.records);
  }

  lemma InstallDelivers(j: Job, w: World, st: map<int, Status>)
    requires WellFormed(j.m) && Midway(j, w) && StatusesMean(w, j.m, j.pol, st)
    requires Install(w, j.m, st, j.pol).ok
    ensures AllDelivered(j.m, Exec(w, Install(w, j.m, st, j.pol).acts).fs)
  {
    LoopStart(j, w, st);
    var w1 := Exec(w, Claims(PendingRoots(w.fs, w.roots, j.m, j.pol)));
    InstallEnds(w, j.m, st, j.pol, w1, InstallLoop(w1, j.m, st, j.pol));
    InstallLoopDelivers(j, w1, w1, j.m, st);
  }

  /** The world in which a run's Install starts, and the statuses it is given. */
  function AtInstall(w: World, m: Manifest, src: map<int, Content>, pol: Policy): World {
    var w1 := Exec(w, Stage(w, m, src, pol).0);
    Exec(w1, Diff(w1, m, pol).acts)
  }

  function StatusesAtInstall(w: World, m: Manifest, src: map<int, Content>, pol: Policy): map<int, Status> {
    Diff(Exec(w, Stage(w, m, src, pol).0), m, pol).st
  }

  predicate ReachesInstall(w: World, m: Manifest, src: map<int, Content>, pol: Policy) {
    Stage(w, m, src, pol).1 && Diff(Exec(w, Stage(w, m, src, pol).0), m, pol).ok
  }

  /** Staging changes no tree and no record: a run is its Install, started from
      the same tree. */
  lemma RunIsInstall(j: Job, w: World, src: map<int, Content>)
    requires WellFormed(j.m) && Midway(j, w) && ReachesInstall(w, j.m, src, j.pol)
    ensures var w2 := AtInstall(w, j.m, src, j.pol);
            var st := StatusesAtInstall(w, j.m, src, j.pol);
            var run := FullRun(w, j.m, src, j.pol);
            var i := Install(w2, j.m, st, j.pol);
            && Midway(j, w2) && StatusesMean(w2, j.m, j.pol, st)
            && w2.fs == w.fs && w2.roots == w.roots && w2.installed == w.installed
            && run.ok == i.ok && run.newIds == i.newIds && Exec(w, run.acts) == Exec(w2, i.acts)
  {
    var staged := Stage(w, j.m, src, j.pol).0;
    StageAllowed(j, w, src);
    WholeMidway(j, w, staged);
    var w1 := Exec(w, staged);
    ExecConcat(w, staged, DiffAndInstall(w1, j.m, j.pol).acts);
    var d := Diff(w1, j.m, j.pol);
    DiffFromMeans(w1, j.m, j.m, j.pol);
    StagingOnly(j, w1, d.acts);
    WholeMidway(j, w1, d.acts);
    ExecConcat(w1, d.acts, Install(Exec(w1, d.acts), j.m, d.st, j.pol).acts);
  }

  lemma WholeMidway(j: Job, w: World, acts: seq<Action>)
    requires Midway(j, w) && AllAllowed(j, w, acts)
    ensures Midway(j, Exec(w, acts))
  {
    PrefixMidway(j, w, acts, |acts|);
    assert acts[..|acts|] == acts;
  }

  /** A run that stops before Install leaves tree and records alone. */
  lemma StoppedRunIsStaging(j: Job, w: World, src: map<int, Content>)
    requires WellFormed(j.m) && Midway(j, w) && !ReachesInstall(w, j.m, src, j.pol)
    ensures var run := FullRun(w, j.m, src, j.pol);
            && !run.ok && run.newIds == []
            && Exec(w, run.acts).fs == w.fs && Exec(w, run.acts).installed == w.installed
  {
    var (staged, ok) := Stage(w, j.m, src, j.pol);
    StageAllowed(j, w, src);
    if ok {
      var w1 := Exec(w, staged);
      DiffFromMeans(w1, j.m, j.m, j.pol);
      StagingOnly(j, w1, Diff(w1, j.m, j.pol).acts);
      ExecConcat(w, staged, Diff(w1, j.m, j.pol).acts);
    }
  }

  /** A run that succeeds, from any interrupted world, ends in the target. */
  lemma RunDelivers(j: Job, w: World, src: map<int, Content>)
    requires WellFormed(j.m) && Midway(j, w) && FullRun(w, j.m, src, j.pol).ok
    ensures IsTarget(j, Exec(w, FullRun(w, j.m, src, j.pol).acts).fs)
  {
    var acts := FullRun(w, j.m, src, j.pol).acts;
    FullRunAllowed(j, w, src);
    WholeMidway(j, w, acts);
    if !ReachesInstall(w, j.m, src, j.pol) {
      StoppedRunIsStaging(j, w, src);
    }
    RunIsInstall(j, w, src);
    InstallDelivers(j, AtInstall(w, j.m, src, j.pol), StatusesAtInstall(w, j.m, src, j.pol));
    DeliveredIsTarget(j, Exec(w, acts));
  }

  // ---- exactly when ------------------------------------------------------------------------

  lemma DeliveredWasInstallable(j: Job, w: World)
    requires WellFormed(j.m) && Midway(j, w) && AllDelivered(j.m, w.fs) && !DeferredRefused(j.m)
    ensures Installable(j)
  {
    forall e, f | e in j.m && f in j.m && UnderDir(e.dst, f.dst) && f != e ensures f.kind.Directory? {
      AncestorsExist(w.fs, e.dst);
      if f.dst == e.dst {
        SameEntry(j.m, e, f);
      }
    }
    forall e, f | e in j.m && f in j.m && e.dst == f.dst ensures e == f {
      SameEntry(j.m, e, f);
    }
    forall e | e in j.m ensures EntryInstallable(j, e) {
      AncestorsExist(w.fs, e.dst);
      assert PathMidway(j, w.fs, e.dst);
      forall p | p in j.fs0 && UnderDir(e.dst, p) && p != e.dst ensures j.fs0[p].Dir? {
        assert PathMidway(j, w.fs, p) && w.fs[p].Dir?;
      }
      if e.dst in j.fs0 && j.fs0[e.dst].Dir? && !e.kind.Directory? {
        forall q | q in j.fs0 && UnderDir(q, e.dst) ensures q == e.dst {
          assert PathMidway(j, w.fs, q);
          if q in w.fs {
            AncestorsExist(w.fs, q);
          }
        }
      }
    }
  }

  /** An uninterrupted run succeeds if and only if the validator accepts the
      manifest and every entry is installable over the original tree. */
  lemma RunSucceedsExactly(j: Job, w: World, src: map<int, Content>)
    requires Untouched(j, w) && SourceIntact(j.m, src)
    ensures FullRun(w, j.m, src, j.pol).ok <==> Accepted(j) && Installable(j)
  {
    hide Midway, Installable, FullRun, Untouched, SourceIntact;
    UntouchedMidway(j, w);
    assert WellFormed(j.m) by {
      UntouchedIsWellFormed(j, w);
    }
    if Accepted(j) && Installable(j) {
      RunSucceeds(j, w, src);
    }
    if FullRun(w, j.m, src, j.pol).ok {
      RunDelivers(j, w, src);
      FullRunAllowed(j, w, src);
      WholeMidway(j, w, FullRun(w, j.m, src, j.pol).acts);
      SuccessWasAccepted(j, w, src);
      DeliveredWasInstallable(j, Exec(w, FullRun(w, j.m, src, j.pol).acts));
    }
  }

  lemma UntouchedIsWellFormed(j: Job, w: World)
    requires Untouched(j, w)
    ensures WellFormed(j.m)
  {
  }

  /** A run that succeeds passed its first Diff, and its Install met no deferred
      entry it must refuse. */
  lemma SuccessWasAccepted(j: Job, w: World, src: map<int, Content>)
    requires Untouched(j, w) && FullRun(w, j.m, src, j.pol).ok
    ensures Accepted(j) && !DeferredRefused(j.m)
  {
    hide DiffFrom, InstallLoop, PendingRoots, Receive, Send, Check;
    DiffAccepted(w, j.m, j.m, j.pol);
  }

  /** Nor did it succeed on a stream that was cut short. */
  lemma SuccessHadTheStream(w: World, m: Manifest, src: map<int, Content>, pol: Policy)
    requires FullRun(w, m, src, pol).ok
    ensures var d := Diff(w, m, pol);
            && d.ok && Send(m, Need(m, d.st), src).1
            && Receive(Exec(w, d.acts), m, Send(m, Need(m, d.st), src).0).1
  {
  }

  lemma {:induction false} DiffAccepted(w: World, es: Manifest, m: Manifest, pol: Policy)
    requires DiffFrom(w, es, m, pol).ok
    ensures forall e :: e in es ==> Check(w.fs, w.roots, m, pol, e)
    decreases |es|
  {
    if es != [] {
      StagedStateCleans(w, es[0]);
      DiffAccepted(Cleaned(w, es[0]), es[1..], m, pol);
    }
  }

  /** Crash-resume: when the uninterrupted run succeeds, then after any number
      of attempts, each stopped between any two atomic actions and each fed
      whatever the source sent at the time, one more run with the intact source
      succeeds and ends in the very tree the uninterrupted run ends in. */
  lemma ResumeConverges(j: Job, w: World, src: map<int, Content>, attempts: seq<Attempt>)
    requires Untouched(j, w) && SourceIntact(j.m, src)
    requires FullRun(w, j.m, src, j.pol).ok
    ensures var w' := Interrupt(w, j.m, j.pol, attempts);
            && FullRun(w', j.m, src, j.pol).ok
            && Exec(w', FullRun(w', j.m, src, j.pol).acts).fs == Exec(w, FullRun(w, j.m, src, j.pol).acts).fs
  {
    var w' := Interrupt(w, j.m, j.pol, attempts);
    RunSucceedsExactly(j, w, src);
    UntouchedMidway(j, w);
    InterruptedMidway(j, w, attempts);
    RunSucceeds(j, w', src);
    RunDelivers(j, w, src);
    RunDelivers(j, w', src);
    TargetUnique(j, Exec(w', FullRun(w', j.m, src, j.pol).acts).fs, Exec(w, FullRun(w, j.m, src, j.pol).acts).fs);
  }
}
