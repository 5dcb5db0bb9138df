/** Conservation: what UninstallIDs may remove, and that it takes back exactly
    what a run added. */
module Uninstall {
  import opened Common
  import opened Destination
  import opened Transfer
  import opened Interrupted
  import opened StagingArea
  import opened Placement
  import opened CrashResume
  import opened Removal

  // ---- what the loop records -----------------------------------------------------------

  /** Directories in recs were missing in fs, above or at an entry of es. */
  ghost predicate RecordsSound(fs: Fs, es: Manifest, recs: map<Path, RecordKind>) {
    forall p :: p in recs && recs[p].DirRecord? ==> p !in fs && exists e :: e in es && UnderDir(e.dst, p)
  }

  lemma PlaceRecords(w: World, e: Entry, fileOnly: bool)
    requires TreeOk(w.fs) && e.dst != []
    ensures var recs := Place(w, e, fileOnly).records;
            && (e.dst in recs ==> recs[e.dst] == RecordOf(e))
            && forall p :: p in recs && p != e.dst ==> p !in w.fs && UnderDir(e.dst, p)
  {
    var parent := PlaceParent(e, fileOnly);
    AbsentAncestorsAre(w.fs, parent);
    UnderParent(e.dst, Parent(e.dst));
  }

  /** The books of a stretch of the loop: everything that changed is recorded,
      and every record is what stands there. */
  ghost predicate Ledger(w: World, w': World, recs: map<Path, RecordKind>) {
    && (forall p :: p in w.fs ==> p in w'.fs)
    && (forall p :: p in w'.fs && p !in recs ==> p in w.fs && w'.fs[p] == w.fs[p])
    && (forall p :: p in recs ==> p in w'.fs && recs[p] == NodeRecord(w'.fs[p]))
  }

  lemma LedgerTrans(w: World, w1: World, w2: World, r1: map<Path, RecordKind>, r2: map<Path, RecordKind>)
    requires Ledger(w, w1, r1) && Ledger(w1, w2, r2)
    ensures Ledger(w, w2, r1 + r2)
  {
  }

  lemma PlaceRecordsAre(w: World, e: Entry, fileOnly: bool)
    requires TreeOk(w.fs) && Place(w, e, fileOnly).ok
    ensures var recs := Place(w, e, fileOnly).records;
            && (forall p :: p in recs <==> p == e.dst || (UnderDir(PlaceParent(e, fileOnly), p) && p !in w.fs))
            && (forall p :: p in recs && p != e.dst ==> recs[p] == DirRecord) && recs[e.dst] == RecordOf(e)
  {
    AbsentAncestorsAre(w.fs, PlaceParent(e, fileOnly));
  }

  lemma PlaceLedger(w: World, e: Entry, fileOnly: bool, w': World)
    requires TreeOk(w.fs) && e.dst != [] && Place(w, e, fileOnly).ok
    requires w' == Exec(w, Place(w, e, fileOnly).acts) && TreeOk(w'.fs) && Placed(w, w', e)
    ensures Ledger(w, w', Place(w, e, fileOnly).records)
  {
    hide Place, TreeOk, Exec;
    var parent := PlaceParent(e, fileOnly);
    PlaceRecordsAre(w, e, fileOnly);
    AncestorsExist(w'.fs, e.dst);
    UnderParent(e.dst, parent);
    forall p | UnderDir(parent, p) ensures UnderDir(e.dst, p) && p in w'.fs {
      assert UnderDir(e.dst, p);
    }
    forall p | p in w'.fs && p !in w.fs && p != e.dst ensures UnderDir(parent, p) {
      UnderParent(e.dst, p);
    }
  }

  lemma EntryLedger(j: Job, w0: World, w: World, e: Entry, s: Status)
    requires AtEntry(j, w0, w, e, s) && InstallEntry(w, e, s, j.pol).ok
    ensures Ledger(w, Exec(w, InstallEntry(w, e, s, j.pol).acts), InstallEntry(w, e, s, j.pol).records)
  {
    var acts := InstallEntry(w, e, s, j.pol).acts;
    InstallEntryAllowed(j, w0, w, e, s);
    InstallEntryDelivers(j, w0, w, e, s);
    PrefixMidway(j, w, acts, |acts|);
    assert acts[..|acts|] == acts;
    match s {
      case StagedSame =>
        PlaceLedger(w, e, false, Exec(w, acts));
      case PresentSame =>
        DropStagedKeeps(w, e);
      case FFCandidate =>
        PlaceLedger(w, e, true, Exec(w, acts));
      case PresentDifferent =>
        ForcedRemoval(j, w0, w, e);
        var w1 := Step(w, Remove(e.dst));
        ExecOne(w, Remove(e.dst));
        ExecConcat(w, [Remove(e.dst)], Place(w1, e, true).acts);
        PlaceDelivers(w1, e, true);
        PlaceLedger(w1, e, true, Exec(w, acts));
      case _ =>
    }
  }

  lemma {:induction false} LoopLedger(j: Job, w0: World, w: World, es: Manifest, st: map<int, Status>)
    requires AtEntries(j, w0, w, es, st) && InstallLoop(w, es, st, j.pol).ok
    ensures Ledger(w, Exec(w, InstallLoop(w, es, st, j.pol).acts), InstallLoop(w, es, st, j.pol).records)
    decreases |es|
  {
    if es != [] {
      var o := InstallEntry(w, es[0], StatusAt(st, es[0].id), j.pol);
      assert es[0] in es;
      EntryLedger(j, w0, w, es[0], StatusAt(st, es[0].id));
      NextEntry(j, w0, w, es, st);
      var w1 := Exec(w, o.acts);
      var rest := InstallLoop(w1, es[1..], st, j.pol);
      LoopLedger(j, w0, w1, es[1..], st);
      ExecConcat(w, o.acts, rest.acts);
      LedgerTrans(w, w1, Exec(w1, rest.acts), o.records, rest.records);
    }
  }

  lemma PlaceRecordsSound(fs0: Fs, w: World, e: Entry, fileOnly: bool)
    requires TreeOk(w.fs) && e.dst != [] && (e.kind.Directory? ==> e.dst !in fs0)
    requires forall p :: p in fs0 && p != e.dst ==> p in w.fs
    ensures RecordsSound(fs0, [e], Place(w, e, fileOnly).records)
  {
    hide Place, TreeOk;
    PlaceRecords(w, e, fileOnly);
    assert e in [e];
  }

  lemma NothingRecorded(fs0: Fs, es: Manifest)
    ensures RecordsSound(fs0, es, map[])
  {
  }

  lemma RemovedTree(j: Job, w: World, e: Entry)
    requires Midway(j, Step(w, Remove(e.dst)))
    ensures TreeOk(Step(w, Remove(e.dst)).fs)
  {
  }

  lemma EntryRecordsSound(j: Job, w0: World, w: World, e: Entry, s: Status)
    requires AtEntry(j, w0, w, e, s) && w0.fs.Keys <= w.fs.Keys
    ensures RecordsSound(w0.fs, [e], InstallEntry(w, e, s, j.pol).records)
  {
    var o := InstallEntry(w, e, s, j.pol);
    assert TreeOk(w.fs) && e.dst != [];
    NothingRecorded(w0.fs, [e]);
    match s {
      case StagedSame =>
        assert e.kind.Directory? ==> !Deferrable(e);
        hide TreeOk, RecordsSound, Place, Midway, Pristine;
        PlaceRecordsSound(w0.fs, w, e, false);
      case FFCandidate =>
        hide TreeOk, RecordsSound, Place, Midway, Pristine;
        if o.records != map[] {
          PlaceRecordsSound(w0.fs, w, e, true);
        }
      case PresentDifferent =>
        hide TreeOk, RecordsSound, Place, Midway, Pristine, Allowed, MayPlace;
        if o.records != map[] {
          ForcedRemoval(j, w0, w, e);
          RemovedTree(j, w, e);
          ExecOne(w, Remove(e.dst));
          PlaceRecordsSound(w0.fs, Step(w, Remove(e.dst)), e, true);
        }
      case _ =>
    }
  }

  lemma {:induction false} LoopRecordsSound(j: Job, w0: World, w: World, es: Manifest, st: map<int, Status>)
    requires AtEntries(j, w0, w, es, st) && w0.fs.Keys <= w.fs.Keys
    ensures RecordsSound(w0.fs, es, InstallLoop(w, es, st, j.pol).records)
    decreases |es|
  {
    if es != [] {
      var o := InstallEntry(w, es[0], StatusAt(st, es[0].id), j.pol);
      assert es[0] in es;
      EntryRecordsSound(j, w0, w, es[0], StatusAt(st, es[0].id));
      if o.ok {
        NextEntry(j, w0, w, es, st);
        LoopRecordsSound(j, w0, Exec(w, o.acts), es[1..], st);
      }
    }
  }

  lemma {:induction false} LoopReportSound(w: World, es: Manifest, st: map<int, Status>, pol: Policy, id: int)
    requires id in InstallLoop(w, es, st, pol).newIds
    ensures exists e :: e in es && e.id == id && StatusAt(st, id).StagedSame?
    decreases |es|
  {
    var o := InstallEntry(w, es[0], StatusAt(st, es[0].id), pol);
    if !(o.isNew && id == es[0].id) {
      LoopReportSound(Exec(w, o.acts), es[1..], st, pol, id);
    }
  }

  lemma {:induction false} LoopReportsFresh(w: World, es: Manifest, st: map<int, Status>, pol: Policy, e: Entry)
    requires InstallLoop(w, es, st, pol).ok && e in es && StatusAt(st, e.id).StagedSame?
    ensures e.id in InstallLoop(w, es, st, pol).newIds
    decreases |es|
  {
    var o := InstallEntry(w, es[0], StatusAt(st, es[0].id), pol);
    if e != es[0] {
      LoopReportsFresh(Exec(w, o.acts), es[1..], st, pol, e);
    }
  }

  function IdSet(ids: seq<int>): set<int> {
    set id | id in ids
  }

  // ---- one run's report ---------------------------------------------------------------------

  /** What a run's reported ids, and what it adds to an earlier record, may
      name: paths missing in the tree it met, or the job's own capture. */
  ghost predicate ReportSound(fs: Fs, m: Manifest, pol: Policy, ids: set<int>,
                              before: map<Path, RecordKind>, installed: map<Path, RecordKind>) {
    && (forall e :: e in m && e.id in ids ==> e.dst !in fs || e.dst == pol.capture)
    && (forall p :: p in installed && installed[p].DirRecord? ==> p !in fs || (p in before && before[p].DirRecord?))
  }

  lemma InstallReportSound(j: Job, w: World, st: map<int, Status>)
    requires WellFormed(j.m) && Midway(j, w) && StatusesMean(w, j.m, j.pol, st)
    ensures var i := Install(w, j.m, st, j.pol);
            ReportSound(w.fs, j.m, j.pol, IdSet(i.newIds), w.installed, Exec(w, i.acts).installed)
  {
    var i := Install(w, j.m, st, j.pol);
    if CheckAll(w.fs, w.roots, j.m, j.pol) {
      var claims := Claims(PendingRoots(w.fs, w.roots, j.m, j.pol));
      ClaimsExec(j, w, PendingRoots(w.fs, w.roots, j.m, j.pol));
      if !DeferredRefused(j.m) {
        LoopStart(j, w, st);
        var w1 := Exec(w, claims);
        var loop := InstallLoop(w1, j.m, st, j.pol);
        LoopRecordsSound(j, w1, w1, j.m, st);
        InstallKeepsRecord(j, w, st);
        forall e | e in j.m && e.id in loop.newIds ensures e.dst !in w.fs || e.dst == j.pol.capture {
          LoopReportSound(w1, j.m, st, j.pol, e.id);
          assert StatusMeans(w, j.pol, e, StagedSame);
          assert Check(w.fs, w.roots, j.m, j.pol, e);
        }
      }
    }
  }

  /** The loop itself never touches installed.json. */
  lemma PlaceNoSaves(w: World, e: Entry, fileOnly: bool)
    ensures forall a :: a in Place(w, e, fileOnly).acts ==> !a.SaveInstalled?
  {
  }

  lemma EntryNoSaves(w: World, e: Entry, s: Status, pol: Policy)
    ensures forall a :: a in InstallEntry(w, e, s, pol).acts ==> !a.SaveInstalled?
  {
    PlaceNoSaves(w, e, false);
    PlaceNoSaves(w, e, true);
    PlaceNoSaves(Exec(w, [Destination.Action.Remove(e.dst)]), e, true);
    PlaceNoSaves(Exec(w, []), e, true);
  }

  lemma {:induction false} NoSaves(w: World, es: Manifest, st: map<int, Status>, pol: Policy)
    ensures forall a :: a in InstallLoop(w, es, st, pol).acts ==> !a.SaveInstalled?
    decreases |es|
  {
    if es != [] {
      var o := InstallEntry(w, es[0], StatusAt(st, es[0].id), pol);
      EntryNoSaves(w, es[0], StatusAt(st, es[0].id), pol);
      if o.ok {
        NoSaves(Exec(w, o.acts), es[1..], st, pol);
      }
    }
  }

  lemma {:induction false} ExecKeepsRecord(w: World, acts: seq<Action>)
    requires forall a :: a in acts ==> !a.SaveInstalled?
    ensures Exec(w, acts).installed == w.installed
    decreases |acts|
  {
    if acts != [] {
      assert acts[0] in acts;
      ExecKeepsRecord(Step(w, acts[0]), acts[1..]);
    }
  }

  lemma InstallKeepsRecord(j: Job, w: World, st: map<int, Status>)
    requires CheckAll(w.fs, w.roots, j.m, j.pol) && !DeferredRefused(j.m)
    ensures var claims := Claims(PendingRoots(w.fs, w.roots, j.m, j.pol));
            var loop := InstallLoop(Exec(w, claims), j.m, st, j.pol);
            Exec(w, Install(w, j.m, st, j.pol).acts).installed == w.installed + loop.records
  {
    var claims := Claims(PendingRoots(w.fs, w.roots, j.m, j.pol));
    var w1 := Exec(w, claims);
    var loop := InstallLoop(w1, j.m, st, j.pol);
    assert Install(w, j.m, st, j.pol).acts == claims + loop.acts + Flush(loop.records);
    ExecConcat(w, claims + loop.acts, Flush(loop.records));
    ExecConcat(w, claims, loop.acts);
    FlushExec(Exec(w1, loop.acts), loop.records);
    ClaimsExec(j, w, PendingRoots(w.fs, w.roots, j.m, j.pol));
    NoSaves(w1, j.m, st, j.pol);
    ExecKeepsRecord(w1, loop.acts);
  }

  // ---- conservation: nothing but what the job placed ---------------------------------------

  lemma RunReport(j: Job, w: World, src: map<int, Content>)
    requires WellFormed(j.m) && Midway(j, w)
    ensures var run := FullRun(w, j.m, src, j.pol);
            ReportSound(w.fs, j.m, j.pol, IdSet(run.newIds), w.installed, Exec(w, run.acts).installed)
  {
    if ReachesInstall(w, j.m, src, j.pol) {
      RunIsInstall(j, w, src);
      InstallReportSound(j, AtInstall(w, j.m, src, j.pol), StatusesAtInstall(w, j.m, src, j.pol));
    } else {
      StoppedRunIsStaging(j, w, src);
    }
  }

  /** Conservation, one run: UninstallIDs with the ids the run reported, even
      if the run failed part way and whatever happened to the tree since,
      removes only what the record names and what reads as recorded, at paths
      that held nothing before the job, its own capture excepted.  It is the
      job's own node that goes, if nobody put a link in its place. */
  lemma UninstallIsConservative(j: Job, w0: World, src: map<int, Content>, later: World, order: seq<Path>)
    requires Untouched(j, w0) && w0.installed == map[] && TreeOk(later.fs)
    requires later.installed == Exec(w0, FullRun(w0, j.m, src, j.pol).acts).installed
    requires DeepestFirst(order, Selected(j.m, IdSet(FullRun(w0, j.m, src, j.pol).newIds)), later.installed,
                          KeptPaths(j.m, IdSet(FullRun(w0, j.m, src, j.pol).newIds)))
    ensures var acts := UninstallIDs(later, j.m, IdSet(FullRun(w0, j.m, src, j.pol).newIds), j.pol, order);
            && TakesBack(j.fs0, p => p == j.pol.capture, later, acts)
            && (NoLinkStandsIn(later) ==> TakesBackOwn(j.fs0, p => p == j.pol.capture, later, acts))
  {
    UntouchedMidway(j, w0);
    RunReport(j, w0, src);
    var ids := IdSet(FullRun(w0, j.m, src, j.pol).newIds);
    var exempt := p => p == j.pol.capture;
    UninstallTakesBack(j.fs0, exempt, later, j.m, ids, j.pol, order);
    if NoLinkStandsIn(later) {
      StraightTakesOwn(j.fs0, exempt, later, UninstallIDs(later, j.m, ids, j.pol, order));
    }
  }

  lemma {:induction false} SelectOne(m: Manifest, e: Entry)
    requires WellFormed(m) && e in m
    ensures Selected(m, {e.id}) == [e]
  {
    WellFormedTail(m);
    if m[0] == e {
      SelectNone(m[1..], e.id);
    } else {
      SelectOne(m[1..], e);
    }
  }

  lemma {:induction false} SelectNone(m: Manifest, id: int)
    requires forall e :: e in m ==> e.id != id
    ensures Selected(m, {id}) == []
  {
    if m != [] {
      SelectNone(m[1..], id);
    }
  }

  /** The failing input: the user moves the placed file aside and links to it
      from where it was.  The uninstall removes the user's link. */
  lemma LinkIsRemoved(w: World, m: Manifest, pol: Policy, order: seq<Path>, e: Entry, c: string)
    requires WellFormed(m) && e in m && TreeOk(w.fs) && Check(w.fs, w.roots, [e], pol, e)
    requires e.kind.Regular? && e.dst in w.installed && w.installed[e.dst] == FileRecord(e.digest)
    requires e.dst in w.fs && w.fs[e.dst] == Symlink(c) && PlainName(c)
    requires Parent(e.dst) + [c] in w.fs && w.fs[Parent(e.dst) + [c]] == e.Node()
    ensures var acts := UninstallIDs(w, m, {e.id}, pol, order);
            acts != [] && acts[0] == Remove(e.dst) && !Own(w.fs, e.dst, w.installed[e.dst])
  {
    SelectOne(m, e);
    LinkIsTaken(w.fs, e.dst, c, w.installed[e.dst]);
    assert [e][0] == e;
  }

  // ---- only the selected entries ---------------------------------------------------------

  /** q is the place of a selected entry, or a recorded directory at or above
      one; and no entry that stays has its place there. */
  ghost predicate SelectedPlace(m: Manifest, ids: set<int>, installed: map<Path, RecordKind>, q: Path) {
    && (exists e :: e in m && e.id in ids && (e.dst == q || (UnderDir(e.dst, q) && q in installed && installed[q].DirRecord?)))
    && (forall e :: e in m && e.id !in ids ==> e.dst != q)
  }

  ghost predicate OnlySelected(m: Manifest, ids: set<int>, installed: map<Path, RecordKind>, acts: seq<Action>) {
    forall a :: a in acts ==> a.Remove? && SelectedPlace(m, ids, installed, a.path)
  }

  lemma {:induction false} FilesOnlySelected(w: World, m: Manifest, ids: set<int>, es: Manifest)
    requires WellFormed(m) && TreeOk(w.fs) && NoLinkStandsIn(w)
    requires forall e :: e in es ==> e in m && e.id in ids && Clean(e.dst) && e.dst != []
    ensures var acts := RemoveFiles(w.fs, w.installed, es);
            && OnlySelected(m, ids, w.installed, acts) && TreeOk(Exec(w, acts).fs) && NoLinkStandsIn(Exec(w, acts))
            && Exec(w, acts).installed == w.installed
    decreases |es|
  {
    hide Victim, SelectedPlace;
    if es != [] {
      var e := es[0];
      var q := FileVictim(w.fs, w.installed, e);
      if q.Some? {
        StraightIsOwn(w, e.dst);
        RemovalKeepsTree(w, e.dst);
        EntryIsSelected(m, ids, w.installed, e);
        var w1 := Step(w, Remove(e.dst));
        FilesOnlySelected(w1, m, ids, es[1..]);
        ExecConcat(w, [Remove(e.dst)], RemoveFiles(w1.fs, w1.installed, es[1..]));
        ExecOne(w, Remove(e.dst));
      } else {
        FilesOnlySelected(w, m, ids, es[1..]);
      }
    }
  }

  lemma EntryIsSelected(m: Manifest, ids: set<int>, installed: map<Path, RecordKind>, e: Entry)
    requires WellFormed(m) && e in m && e.id in ids
    ensures SelectedPlace(m, ids, installed, e.dst)
  {
    forall f | f in m && f.id !in ids ensures f.dst != e.dst {
      var i :| 0 <= i < |m| && m[i] == e;
      var k :| 0 <= k < |m| && m[k] == f;
    }
  }

  lemma {:induction false} DirsOnlySelected(w: World, m: Manifest, ids: set<int>, order: seq<Path>)
    requires TreeOk(w.fs) && NoLinkStandsIn(w)
    requires forall d :: d in order ==> Clean(d) && CreatedDir(Selected(m, ids), w.installed, KeptPaths(m, ids), d)
    ensures OnlySelected(m, ids, w.installed, RemoveDirs(w.fs, order))
    decreases |order|
  {
    hide Victim;
    if order != [] {
      var d := order[0];
      assert d in order;
      var q := Victim(w.fs, d, DirRecord);
      if q.Some? {
        StraightDir(w, d);
        RemovalKeepsTree(w, d);
        assert SelectedPlace(m, ids, w.installed, d);
        DirsOnlySelected(Step(w, Remove(d)), m, ids, order[1..]);
      } else {
        DirsOnlySelected(w, m, ids, order[1..]);
      }
    }
  }

  lemma StraightDir(w: World, d: Path)
    requires TreeOk(w.fs) && NoLinkStandsIn(w) && Clean(d) && d in w.installed && w.installed[d].DirRecord?
    requires Victim(w.fs, d, DirRecord).Some?
    ensures Victim(w.fs, d, DirRecord) == Some(d) && d != [] && Own(w.fs, d, DirRecord)
  {
    if d != [] {
      StraightIsOwn(w, d);
    }
  }

  /** An uninstall of some ids leaves the places of all other entries alone,
      where no link stands in. */
  lemma KeptAreSpared(w: World, m: Manifest, ids: set<int>, pol: Policy, order: seq<Path>)
    requires WellFormed(m) && TreeOk(w.fs) && NoLinkStandsIn(w)
    requires DeepestFirst(order, Selected(m, ids), w.installed, KeptPaths(m, ids))
    ensures OnlySelected(m, ids, w.installed, UninstallIDs(w, m, ids, pol, order))
  {
    hide SelectedPlace, NoLinkStandsIn, CreatedDir;
    var sub := Selected(m, ids);
    if CheckAll(w.fs, w.roots, sub, pol) {
      forall e | e in sub ensures Clean(e.dst) && e.dst != [] {
        assert Check(w.fs, w.roots, sub, pol, e);
      }
      FilesOnlySelected(w, m, ids, sub);
      forall d | d in order ensures Clean(d) {
        assert CreatedDir(sub, w.installed, KeptPaths(m, ids), d);
        AboveSelected(sub, w.installed, KeptPaths(m, ids), d);
      }
      DirsOnlySelected(Exec(w, RemoveFiles(w.fs, w.installed, sub)), m, ids, order);
    }
  }

  lemma AboveSelected(sub: Manifest, installed: map<Path, RecordKind>, kept: set<Path>, d: Path)
    requires CreatedDir(sub, installed, kept, d) && forall e :: e in sub ==> Clean(e.dst)
    ensures Clean(d)
  {
    var e :| e in sub && UnderDir(e.dst, d);
    CleanAbove(e.dst, d);
  }

  // ---- C2: install, then uninstall, restores the tree -----------------------------------

  lemma WellFormedCons(e: Entry, rest: Manifest)
    requires WellFormed(rest) && forall f :: f in rest ==> f.id != e.id && f.dst != e.dst
    ensures WellFormed([e] + rest)
  {
    var all := [e] + rest;
    forall i, k | 0 <= i < k < |all| ensures all[i].id != all[k].id && all[i].dst != all[k].dst {
      assert all[k] == rest[k - 1] && rest[k - 1] in rest;
      assert i > 0 ==> all[i] == rest[i - 1];
    }
  }

  lemma {:induction false} SelectedWellFormed(m: Manifest, ids: set<int>)
    requires WellFormed(m)
    ensures WellFormed(Selected(m, ids))
  {
    if m == [] {
    } else {
      hide WellFormed;
      WellFormedTail(m);
      SelectedWellFormed(m[1..], ids);
      if m[0].id in ids {
        WellFormedCons(m[0], Selected(m[1..], ids));
      }
    }
  }

  function FilePaths(es: Manifest): set<Path> {
    set e | e in es && !e.kind.Directory? :: e.dst
  }

  lemma FilePathsTail(es: Manifest)
    requires es != []
    ensures FilePaths(es) == (if es[0].kind.Directory? then {} else {es[0].dst}) + FilePaths(es[1..])
  {
    assert forall e :: e in es <==> e == es[0] || e in es[1..];
  }

  /** e's own node stands at its place, as recorded. */
  ghost predicate StillOwn(w: World, e: Entry) {
    Clean(e.dst) && e.dst != [] && RecordedKind(w.installed, e) && Own(w.fs, e.dst, w.installed[e.dst])
  }

  ghost predicate AllOwn(w: World, es: Manifest) {
    forall e :: e in es ==> e.kind.Directory? || StillOwn(w, e)
  }

  lemma RemovalKeepsOthers(w: World, es: Manifest)
    requires WellFormed(es) && es != [] && AllOwn(w, es)
    ensures AllOwn(Step(w, Remove(es[0].dst)), es[1..]) && AllOwn(w, es[1..])
  {
    var w1 := Step(w, Remove(es[0].dst));
    forall i | 0 <= i < |es[1..]| ensures es[1..][i].kind.Directory? || StillOwn(w1, es[1..][i]) {
      assert es[1..][i] == es[i + 1] && es[i + 1] in es && es[i + 1].dst != es[0].dst;
    }
  }

  lemma {:induction false} RemoveFilesResult(w: World, es: Manifest)
    requires WellFormed(es) && AllOwn(w, es) && TreeOk(w.fs)
    ensures Exec(w, RemoveFiles(w.fs, w.installed, es)) == w.(fs := w.fs - FilePaths(es))
    decreases |es|
  {
    hide Victim, Own, TreeOk;
    if es == [] {
      assert w.fs - FilePaths(es) == w.fs;
    } else {
      WellFormedTail(es);
      FilePathsTail(es);
      RemovalKeepsOthers(w, es);
      assert es[0] in es;
      if es[0].kind.Directory? {
        RemoveFilesResult(w, es[1..]);
      } else {
        var p := es[0].dst;
        OwnIsVictim(w.fs, p, w.installed[p]);
        RemovalKeepsTree(w, p);
        var w1 := Step(w, Remove(p));
        RemoveFilesResult(w1, es[1..]);
        var rest := RemoveFiles(w1.fs, w1.installed, es[1..]);
        ExecConcat(w, [Remove(p)], rest);
        ExecOne(w, Remove(p));
        assert w1.fs - FilePaths(es[1..]) == w.fs - FilePaths(es);
      }
    }
  }

  lemma {:induction false} RemoveDirsResult(w: World, fs0: Fs, order: seq<Path>)
    requires TreeOk(fs0) && TreeOk(w.fs)
    requires forall p :: p in w.fs <==> p in fs0 || p in order
    requires forall p :: p in fs0 ==> p !in order && w.fs[p] == fs0[p]
    requires forall p :: p in order ==> w.fs[p].Dir? && Clean(p)
    requires forall i, k :: 0 <= i < k < |order| ==> order[i] != order[k] && |order[i]| >= |order[k]|
    ensures Exec(w, RemoveDirs(w.fs, order)).fs == fs0
    decreases |order|
  {
    hide Victim, Clean;
    if order == [] {
      assert w.fs.Keys == fs0.Keys;
    } else {
      var d := order[0];
      assert d in order;
      forall q | q in w.fs && UnderDir(q, d) ensures q == d {
        if q in fs0 {
          AncestorsExist(fs0, q);
        }
      }
      OwnIsVictim(w.fs, d, DirRecord);
      var w1 := Step(w, Remove(d));
      TreeShrinks(w.fs, d);
      assert forall p :: p in order <==> p == d || p in order[1..];
      RemoveDirsResult(w1, fs0, order[1..]);
      var rest := RemoveDirs(w1.fs, order[1..]);
      assert ([Remove(d)] + rest)[1..] == rest;
    }
  }

  /** Nothing that stood before differs from what the job delivers. */
  ghost predicate PureAddition(j: Job) {
    forall e :: e in j.m && e.dst in j.fs0 ==> !Deferrable(e) && j.fs0[e.dst] == e.Node()
  }

  /** Every root the manifest uses was missing, or is already this job's. */
  ghost predicate OwnRoots(j: Job) {
    forall e, root :: e in j.m && RootOf(j, e, root) ==> root in j.roots0 || root !in j.fs0
  }

  /** installed.json names everything that is new in the tree, as it stands
      there, and its directories are new. */
  ghost predicate RecordExact(fs0: Fs, w: World) {
    && (forall p :: p in w.fs && p !in fs0 ==> p in w.installed && w.installed[p] == NodeRecord(w.fs[p]))
    && (forall p :: p in w.installed && w.installed[p].DirRecord? ==> p !in fs0 && p in w.fs)
  }

  ghost predicate IdsExact(j: Job, ids: set<int>) {
    forall e :: e in j.m ==> (e.id in ids <==> e.dst !in j.fs0)
  }

  /** What a successful pure addition leaves in the tree, the record and the
      report. */
  ghost predicate Books(j: Job, w: World, ids: set<int>) {
    IsTarget(j, w.fs) && RecordExact(j.fs0, w) && IdsExact(j, ids) && ClaimsDone(j, w.roots)
  }

  /** The reported ids are those whose place was free. */
  lemma InstallReports(j: Job, w1: World, st: map<int, Status>)
    requires AtEntries(j, w1, w1, j.m, st) && w1.fs == j.fs0 && PureAddition(j)
    requires InstallLoop(w1, j.m, st, j.pol).ok
    ensures forall e :: e in j.m ==> (e.id in InstallLoop(w1, j.m, st, j.pol).newIds <==> e.dst !in j.fs0)
  {
    forall e | e in j.m ensures e.id in InstallLoop(w1, j.m, st, j.pol).newIds <==> e.dst !in j.fs0 {
      if e.id in InstallLoop(w1, j.m, st, j.pol).newIds {
        LoopReportSound(w1, j.m, st, j.pol, e.id);
      }
      LoopStatuses(w1, j.m, st, j.pol, e);
      if StatusAt(st, e.id).StagedSame? {
        LoopReportsFresh(w1, j.m, st, j.pol, e);
      }
    }
  }

  lemma InstallBooks(j: Job, w: World, st: map<int, Status>)
    requires WellFormed(j.m) && Midway(j, w) && StatusesMean(w, j.m, j.pol, st)
    requires w.fs == j.fs0 && w.installed == map[] && PureAddition(j)
    requires Install(w, j.m, st, j.pol).ok
    ensures Books(j, Exec(w, Install(w, j.m, st, j.pol).acts), IdSet(Install(w, j.m, st, j.pol).newIds))
  {
    var i := Install(w, j.m, st, j.pol);
    var w1 := Exec(w, Claims(PendingRoots(w.fs, w.roots, j.m, j.pol)));
    var loop := InstallLoop(w1, j.m, st, j.pol);
    LoopStart(j, w, st);
    InstallEnds(w, j.m, st, j.pol, w1, loop);
    InstallAllowed(j, w, st);
    PrefixMidway(j, w, i.acts, |i.acts|);
    assert i.acts[..|i.acts|] == i.acts;
    ClaimsComplete(j, w);
    NoSaves(w1, j.m, st, j.pol);
    ExecKeepsRecord(w1, loop.acts);
    LoopBooks(j, w1, Exec(w, i.acts), st, loop);
  }

  lemma RecordFromLedger(m: Manifest, w1: World, w2: World)
    requires Ledger(w1, w2, w2.installed) && RecordsSound(w1.fs, m, w2.installed)
    ensures RecordExact(w1.fs, w2)
  {
  }

  lemma LoopBooks(j: Job, w1: World, w2: World, st: map<int, Status>, loop: LoopOut)
    requires AtEntries(j, w1, w1, j.m, st) && w1.fs == j.fs0 && w1.installed == map[] && PureAddition(j)
    requires loop == InstallLoop(w1, j.m, st, j.pol) && loop.ok && Midway(j, w2)
    requires w2 == Exec(w1, loop.acts).(installed := w1.installed + loop.records)
    ensures Books(j, w2, IdSet(loop.newIds))
  {
    assert w2.installed == loop.records;
    LoopLedger(j, w1, w1, j.m, st);
    LoopRecordsSound(j, w1, w1, j.m, st);
    InstallLoopDelivers(j, w1, w1, j.m, st);
    InstallReports(j, w1, st);
    DeliveredIsTarget(j, w2);
    RecordFromLedger(j.m, w1, w2);
    assert IdsExact(j, IdSet(loop.newIds));
  }

  /** A loop that ended well met only statuses it can act on. */
  lemma {:induction false} LoopStatuses(w: World, es: Manifest, st: map<int, Status>, pol: Policy, e: Entry)
    requires InstallLoop(w, es, st, pol).ok && e in es
    ensures var s := StatusAt(st, e.id);
            s.StagedSame? || s.PresentSame? || s.FFCandidate? || s.PresentDifferent?
    decreases |es|
  {
    var o := InstallEntry(w, es[0], StatusAt(st, es[0].id), pol);
    if e != es[0] {
      LoopStatuses(Exec(w, o.acts), es[1..], st, pol, e);
    }
  }

  lemma NewDirsAreCandidates(j: Job, w: World, ids: set<int>, d: Path)
    requires TreeOk(j.fs0) && Books(j, w, ids)
    ensures CreatedDir(Selected(j.m, ids), w.installed, KeptPaths(j.m, ids), d)
      <==> d in w.fs && d !in j.fs0 && w.fs[d].Dir?
  {
    if d in w.fs && d !in j.fs0 && w.fs[d].Dir? {
      var e :| e in j.m && UnderDir(e.dst, d);
      if e.dst in j.fs0 {
        AncestorsExist(j.fs0, e.dst);
      }
      assert e in Selected(j.m, ids);
    }
  }

  lemma RecordedIsOwn(fs0: Fs, w: World, e: Entry)
    requires RecordExact(fs0, w) && e.dst !in fs0 && e.dst in w.fs && w.fs[e.dst] == e.Node()
    requires Clean(e.dst) && e.dst != []
    ensures e.kind.Directory? || StillOwn(w, e)
  {
    assert w.installed[e.dst] == NodeRecord(e.Node());
  }

  lemma NewFilesAreOwn(j: Job, w: World, ids: set<int>, e: Entry)
    requires AllDelivered(j.m, w.fs) && RecordExact(j.fs0, w) && IdsExact(j, ids) && e in Selected(j.m, ids)
    requires Accepted(j)
    ensures e.kind.Directory? || StillOwn(w, e)
  {
    assert e in j.m && e.id in ids;
    assert Check(j.fs0, j.roots0, j.m, j.pol, e);
    RecordedIsOwn(j.fs0, w, e);
  }

  lemma OrderAre(j: Job, w: World, ids: set<int>, order: seq<Path>)
    requires TreeOk(j.fs0) && Books(j, w, ids)
    requires DeepestFirst(order, Selected(j.m, ids), w.installed, KeptPaths(j.m, ids))
    ensures forall p :: p in order <==> p in w.fs && p !in j.fs0 && w.fs[p].Dir?
  {
    hide Books, CreatedDir, TreeOk;
    forall p ensures p in order <==> p in w.fs && p !in j.fs0 && w.fs[p].Dir? {
      NewDirsAreCandidates(j, w, ids, p);
    }
  }

  lemma GoneIsNew(j: Job, w: World, ids: set<int>, e: Entry)
    requires IsTarget(j, w.fs) && IdsExact(j, ids) && e in Selected(j.m, ids) && !e.kind.Directory?
    ensures e.dst in w.fs && e.dst !in j.fs0 && !w.fs[e.dst].Dir?
  {
    assert e in j.m && e.id in ids;
    assert w.fs[e.dst] == e.Node();
  }

  lemma NewIsGone(j: Job, w: World, ids: set<int>, p: Path)
    requires IsTarget(j, w.fs) && IdsExact(j, ids) && p in w.fs && p !in j.fs0 && !w.fs[p].Dir?
    ensures p in FilePaths(Selected(j.m, ids))
  {
    assert EntryAt(j, p);
    var e :| e in j.m && e.dst == p;
    assert w.fs[p] == e.Node() && e in Selected(j.m, ids);
  }

  lemma GoneAre(j: Job, w: World, ids: set<int>)
    requires Books(j, w, ids)
    ensures forall p :: p in FilePaths(Selected(j.m, ids)) <==> p in w.fs && p !in j.fs0 && !w.fs[p].Dir?
  {
    hide RecordExact, ClaimsDone, IsTarget, IdsExact;
    forall p | p in w.fs && p !in j.fs0 && !w.fs[p].Dir? ensures p in FilePaths(Selected(j.m, ids)) {
      NewIsGone(j, w, ids, p);
    }
    forall p | p in FilePaths(Selected(j.m, ids)) ensures p in w.fs && p !in j.fs0 && !w.fs[p].Dir? {
      var e :| e in Selected(j.m, ids) && !e.kind.Directory? && e.dst == p;
      GoneIsNew(j, w, ids, e);
    }
  }

  /** The tree between the two passes of the uninstall: what stood before, and
      the directories the job created. */
  lemma AfterFiles(j: Job, w: World, ids: set<int>, order: seq<Path>, fs1: Fs)
    requires WellFormed(j.m) && TreeOk(j.fs0) && PureAddition(j) && Books(j, w, ids)
    requires DeepestFirst(order, Selected(j.m, ids), w.installed, KeptPaths(j.m, ids))
    requires fs1 == w.fs - FilePaths(Selected(j.m, ids))
    ensures forall p :: p in fs1 <==> p in j.fs0 || p in order
    ensures forall p :: p in j.fs0 ==> p !in order && fs1[p] == j.fs0[p]
    ensures forall p :: p in order ==> fs1[p].Dir?
  {
    hide TreeOk, DeepestFirst, FilePaths, RecordExact, IdsExact, ClaimsDone, IsTarget, WellFormed, PureAddition;
    OrderAre(j, w, ids, order);
    GoneAre(j, w, ids);
    OriginalKept(j, w.fs);
  }

  lemma OriginalKept(j: Job, fs: Fs)
    requires PureAddition(j) && IsTarget(j, fs)
    ensures forall p :: p in j.fs0 ==> p in fs && fs[p] == j.fs0[p]
  {
    forall p | p in j.fs0 ensures p in fs && fs[p] == j.fs0[p] {
      assert InTarget(j, p);
      if EntryAt(j, p) {
        var e :| e in j.m && e.dst == p;
        assert fs[p] == e.Node();
      }
    }
  }

  lemma UninstallAccepted(j: Job, w: World, ids: set<int>)
    requires Accepted(j) && OwnRoots(j) && j.roots0 <= w.roots && ClaimsDone(j, w.roots)
    ensures CheckAll(w.fs, w.roots, Selected(j.m, ids), j.pol)
  {
    forall e | e in Selected(j.m, ids) ensures Check(w.fs, w.roots, Selected(j.m, ids), j.pol, e) {
      assert Check(j.fs0, j.roots0, j.m, j.pol, e);
      if GitCategory(e.category) && !e.deferred {
        assert RootOf(j, e, EntryRoot(e.dst, j.pol.roots)[0].path);
      }
    }
  }

  lemma UninstallRestores(j: Job, w: World, ids: set<int>, order: seq<Path>)
    requires WellFormed(j.m) && TreeOk(j.fs0) && Midway(j, w) && Accepted(j)
    requires PureAddition(j) && OwnRoots(j) && Books(j, w, ids)
    requires DeepestFirst(order, Selected(j.m, ids), w.installed, KeptPaths(j.m, ids))
    ensures Exec(w, UninstallIDs(w, j.m, ids, j.pol, order)).fs == j.fs0
  {
    var sub := Selected(j.m, ids);
    UninstallAccepted(j, w, ids);
    SelectedWellFormed(j.m, ids);
    forall e | e in sub ensures e.kind.Directory? || StillOwn(w, e) {
      NewFilesAreOwn(j, w, ids, e);
    }
    var files := RemoveFiles(w.fs, w.installed, sub);
    RemoveFilesResult(w, sub);
    var w1 := Exec(w, files);
    ExecConcat(w, files, RemoveDirs(w1.fs, order));
    DirsRestored(j, w, ids, order, w1);
  }

  lemma DirsRestored(j: Job, w: World, ids: set<int>, order: seq<Path>, w1: World)
    requires WellFormed(j.m) && TreeOk(j.fs0) && TreeOk(w.fs) && PureAddition(j) && Books(j, w, ids) && Accepted(j)
    requires DeepestFirst(order, Selected(j.m, ids), w.installed, KeptPaths(j.m, ids))
    requires w1 == w.(fs := w.fs - FilePaths(Selected(j.m, ids)))
    ensures Exec(w1, RemoveDirs(w1.fs, order)).fs == j.fs0
  {
    hide TreeOk, Books, DeepestFirst, PureAddition, WellFormed, FilePaths, Clean;
    AfterFiles(j, w, ids, order, w1.fs);
    DirsStay(j, w, ids, w1.fs);
    OriginalWithDirs(j.fs0, w1.fs, w.fs, order);
    OrderIsClean(j, w, ids, order);
    OrderIsDeepestFirst(j, w, ids, order);
    RemoveDirsResult(w1, j.fs0, order);
  }

  lemma DirsStay(j: Job, w: World, ids: set<int>, fs1: Fs)
    requires Books(j, w, ids) && fs1 == w.fs - FilePaths(Selected(j.m, ids))
    ensures forall p :: p in w.fs && w.fs[p].Dir? ==> p in fs1
  {
    hide Books, FilePaths, TreeOk;
    GoneAre(j, w, ids);
  }

  lemma OrderIsClean(j: Job, w: World, ids: set<int>, order: seq<Path>)
    requires Accepted(j) && DeepestFirst(order, Selected(j.m, ids), w.installed, KeptPaths(j.m, ids))
    ensures forall d :: d in order ==> Clean(d)
  {
    forall d | d in order ensures Clean(d) {
      var e :| e in Selected(j.m, ids) && UnderDir(e.dst, d);
      assert Check(j.fs0, j.roots0, j.m, j.pol, e);
      CleanAbove(e.dst, d);
    }
  }

  lemma OrderIsDeepestFirst(j: Job, w: World, ids: set<int>, order: seq<Path>)
    requires DeepestFirst(order, Selected(j.m, ids), w.installed, KeptPaths(j.m, ids))
    ensures forall i, k :: 0 <= i < k < |order| ==> order[i] != order[k] && |order[i]| >= |order[k]|
  {
  }

  lemma OriginalWithDirs(fs0: Fs, fs1: Fs, fs2: Fs, order: seq<Path>)
    requires TreeOk(fs0) && TreeOk(fs2)
    requires forall p :: p in fs1 ==> p in fs2 && fs1[p] == fs2[p]
    requires forall p :: p in fs1 <==> p in fs0 || p in order
    requires forall p :: p in fs2 && fs2[p].Dir? ==> p in fs1
    ensures TreeOk(fs1)
  {
    forall p | p in fs1 && p != [] ensures Parent(p) in fs1 && fs1[Parent(p)].Dir? {
      assert p in fs2;
    }
  }

  /** Conservation, restored: when every entry was missing or already there,
      and every root was this job's own, a run followed by UninstallIDs with
      its report gives back the original tree, created directories included. */
  lemma RunThenUninstallRestores(j: Job, w0: World, src: map<int, Content>, order: seq<Path>)
    requires Untouched(j, w0) && w0.installed == map[] && SourceIntact(j.m, src)
    requires PureAddition(j) && OwnRoots(j) && FullRun(w0, j.m, src, j.pol).ok
    requires DeepestFirst(order, Selected(j.m, IdSet(FullRun(w0, j.m, src, j.pol).newIds)),
                          Exec(w0, FullRun(w0, j.m, src, j.pol).acts).installed,
                          KeptPaths(j.m, IdSet(FullRun(w0, j.m, src, j.pol).newIds)))
    ensures var run := FullRun(w0, j.m, src, j.pol);
            var w := Exec(w0, run.acts);
            Exec(w, UninstallIDs(w, j.m, IdSet(run.newIds), j.pol, order)).fs == j.fs0
  {
    UntouchedMidway(j, w0);
    RunSucceedsExactly(j, w0, src);
    var run := FullRun(w0, j.m, src, j.pol);
    RunBooks(j, w0, src);
    FullRunAllowed(j, w0, src);
    WholeMidway(j, w0, run.acts);
    UninstallRestores(j, Exec(w0, run.acts), IdSet(run.newIds), order);
  }

  lemma RunBooks(j: Job, w: World, src: map<int, Content>)
    requires Untouched(j, w) && w.installed == map[] && PureAddition(j) && FullRun(w, j.m, src, j.pol).ok
    ensures Books(j, Exec(w, FullRun(w, j.m, src, j.pol).acts), IdSet(FullRun(w, j.m, src, j.pol).newIds))
  {
    UntouchedMidway(j, w);
    if !ReachesInstall(w, j.m, src, j.pol) {
      StoppedRunIsStaging(j, w, src);
    }
    RunIsInstall(j, w, src);
    InstallBooks(j, AtInstall(w, j.m, src, j.pol), StatusesAtInstall(w, j.m, src, j.pol));
  }

  // ---- C1 over histories with crashes -------------------------------------------------------

  /** All ids the runs of a history could report. */
  function InterruptIds(w: World, m: Manifest, pol: Policy, attempts: seq<Attempt>): set<int>
    decreases |attempts|
  {
    if attempts == [] then {}
    else
      var run := FullRun(w, m, attempts[0].src, pol);
      var n := if attempts[0].steps <= |run.acts| then attempts[0].steps else |run.acts|;
      IdSet(run.newIds) + InterruptIds(Exec(w, run.acts[..n]), m, pol, attempts[1..])
  }

  /** At most the last action of a run saves the record. */
  lemma SavesLast(j: Job, w: World, src: map<int, Content>, n: nat)
    requires WellFormed(j.m) && n <= |FullRun(w, j.m, src, j.pol).acts|
    ensures var acts := FullRun(w, j.m, src, j.pol).acts;
            var cut := Exec(w, acts[..n]).installed;
            cut == w.installed || cut == Exec(w, acts).installed
  {
    var acts := FullRun(w, j.m, src, j.pol).acts;
    if n == |acts| {
      assert acts[..n] == acts;
    } else {
      RunSavesLast(j, w, src);
      ExecKeepsRecord(w, acts[..n]);
    }
  }

  predicate SavesOnlyLast(acts: seq<Action>) {
    forall i :: 0 <= i < |acts| - 1 ==> !acts[i].SaveInstalled?
  }

  lemma InstallSavesLast(w: World, m: Manifest, st: map<int, Status>, pol: Policy)
    ensures SavesOnlyLast(Install(w, m, st, pol).acts)
  {
    var claims := Claims(PendingRoots(w.fs, w.roots, m, pol));
    var w1 := Exec(w, claims);
    NoSaves(w1, m, st, pol);
    var loop := InstallLoop(w1, m, st, pol);
    assert forall i :: 0 <= i < |claims + loop.acts| ==> (claims + loop.acts)[i] in claims || (claims + loop.acts)[i] in loop.acts;
  }

  lemma StagingThenLast(a: seq<Action>, b: seq<Action>)
    requires SavesOnlyLast(b) && forall x :: x in a ==> !x.SaveInstalled?
    ensures SavesOnlyLast(a + b)
  {
    forall i | 0 <= i < |a + b| - 1 ensures !(a + b)[i].SaveInstalled? {
      if i < |a| {
        assert (a + b)[i] == a[i];
      } else {
        assert (a + b)[i] == b[i - |a|];
      }
    }
  }

  lemma {:induction false} ReceiveNoSaves(w: World, m: Manifest, stream: seq<Packet>)
    ensures forall a :: a in Receive(w, m, stream).0 ==> !a.SaveInstalled?
    decreases |stream|
  {
    if stream != [] {
      ReceiveNoSaves(Exec(w, ReceivePacket(w, m, stream[0]).0), m, stream[1..]);
    }
  }

  lemma NoneSavesLast(acts: seq<Action>)
    requires forall a :: a in acts ==> !a.SaveInstalled?
    ensures SavesOnlyLast(acts)
  {
    forall i | 0 <= i < |acts| ensures !acts[i].SaveInstalled? {
      assert acts[i] in acts;
    }
  }

  lemma DiffAndInstallSavesLast(j: Job, w: World)
    requires WellFormed(j.m)
    ensures SavesOnlyLast(DiffAndInstall(w, j.m, j.pol).acts)
  {
    var d := Diff(w, j.m, j.pol);
    DiffFromMeans(w, j.m, j.m, j.pol);
    if d.ok {
      InstallSavesLast(Exec(w, d.acts), j.m, d.st, j.pol);
      StagingThenLast(d.acts, Install(Exec(w, d.acts), j.m, d.st, j.pol).acts);
    } else {
      NoneSavesLast(d.acts);
    }
  }

  lemma RunSavesLast(j: Job, w: World, src: map<int, Content>)
    requires WellFormed(j.m)
    ensures SavesOnlyLast(FullRun(w, j.m, src, j.pol).acts)
  {
    var (staged, ok) := Stage(w, j.m, src, j.pol);
    var d := Diff(w, j.m, j.pol);
    DiffFromMeans(w, j.m, j.m, j.pol);
    if d.ok {
      ReceiveNoSaves(Exec(w, d.acts), j.m, Send(j.m, Need(j.m, d.st), src).0);
    }
    if ok {
      DiffAndInstallSavesLast(j, Exec(w, staged));
      StagingThenLast(staged, DiffAndInstall(Exec(w, staged), j.m, j.pol).acts);
    } else {
      NoneSavesLast(staged);
    }
  }

  /** The record of a history names as directories only paths that were missing
      before the job, or at which it forced an entry. */
  ghost predicate HistorySound(j: Job, installed: map<Path, RecordKind>) {
    forall p :: p in installed && installed[p].DirRecord? ==> p in j.fs0 ==> ForcedAt(j, p)
  }

  lemma {:induction false} HistoryReport(j: Job, w: World, attempts: seq<Attempt>)
    requires WellFormed(j.m) && Midway(j, w) && HistorySound(j, w.installed)
    ensures HistorySound(j, Interrupt(w, j.m, j.pol, attempts).installed)
    ensures forall e :: e in j.m && e.id in InterruptIds(w, j.m, j.pol, attempts) ==>
      e.dst in j.fs0 ==> e.dst == j.pol.capture || ForcedAt(j, e.dst)
    decreases |attempts|
  {
    if attempts != [] {
      var src := attempts[0].src;
      var run := FullRun(w, j.m, src, j.pol);
      var n := if attempts[0].steps <= |run.acts| then attempts[0].steps else |run.acts|;
      RunReport(j, w, src);
      FullRunAllowed(j, w, src);
      PrefixMidway(j, w, run.acts, n);
      SavesLast(j, w, src, n);
      forall p | p in j.fs0 && p !in w.fs ensures ForcedAt(j, p) {
        assert PathMidway(j, w.fs, p);
      }
      HistoryReport(j, Exec(w, run.acts[..n]), attempts[1..]);
    }
  }

  /** Conservation over any history of crashed and resumed runs: what a later
      UninstallIDs removes is recorded, reads as recorded, and stood at a path
      free before the job, or was the capture, or was forced: what the job
      found equal, or extended, is never among it. */
  lemma HistoryUninstallIsConservative(j: Job, w0: World, attempts: seq<Attempt>, ids: set<int>, later: World, order: seq<Path>)
    requires Untouched(j, w0) && w0.installed == map[] && TreeOk(later.fs)
    requires ids <= InterruptIds(w0, j.m, j.pol, attempts)
    requires later.installed == Interrupt(w0, j.m, j.pol, attempts).installed
    requires DeepestFirst(order, Selected(j.m, ids), later.installed, KeptPaths(j.m, ids))
    ensures var acts := UninstallIDs(later, j.m, ids, j.pol, order);
            && TakesBack(j.fs0, p => p == j.pol.capture || ForcedAt(j, p), later, acts)
            && (NoLinkStandsIn(later) ==> TakesBackOwn(j.fs0, p => p == j.pol.capture || ForcedAt(j, p), later, acts))
  {
    UntouchedMidway(j, w0);
    HistoryReport(j, w0, attempts);
    var exempt := p => p == j.pol.capture || ForcedAt(j, p);
    UninstallTakesBack(j.fs0, exempt, later, j.m, ids, j.pol, order);
    if NoLinkStandsIn(later) {
      StraightTakesOwn(j.fs0, exempt, later, UninstallIDs(later, j.m, ids, j.pol, order));
    }
  }

  // ---- the exemption for forced paths is needed --------------------------------------------

  /** The status of a forced entry once its copy is staged. */
  lemma ForcedIsDifferent(j: Job, w: World, e: Entry, s: Status)
    requires WellFormed(j.m) && Midway(j, w) && w.fs == j.fs0 && e in j.m && Forces(j, e)
    requires StatusMeans(w, j.pol, e, s) && Supplied(w, e)
    ensures s == PresentDifferent
  {
    assert StagedCopy(w, e);
    assert Sha256(w.files[e.id]) == e.digest;
  }

  /** In a loop that succeeds, the entry's old file is removed at some point. */
  lemma {:induction false} LoopForces(j: Job, w0: World, w: World, es: Manifest, st: map<int, Status>, e: Entry) returns (k: nat)
    requires AtEntries(j, w0, w, es, st) && InstallLoop(w, es, st, j.pol).ok
    requires e in es && StatusAt(st, e.id).PresentDifferent?
    ensures k < |InstallLoop(w, es, st, j.pol).acts| && InstallLoop(w, es, st, j.pol).acts[k] == Remove(e.dst)
    decreases |es|
  {
    hide InstallEntry, InstallLoop, AtEntries;
    var o := InstallEntry(w, es[0], StatusAt(st, es[0].id), j.pol);
    var rest := InstallLoop(Exec(w, o.acts), es[1..], st, j.pol);
    LoopUnfolds(w, es, st, j.pol);
    if es[0] == e {
      EntryForces(j, w0, w, es, st);
      k := 0;
    } else {
      NextEntry(j, w0, w, es, st);
      assert e in es[1..];
      var n := LoopForces(j, w0, Exec(w, o.acts), es[1..], st, e);
      k := |o.acts| + n;
      assert (o.acts + rest.acts)[k] == rest.acts[n];
    }
  }

  lemma LoopUnfolds(w: World, es: Manifest, st: map<int, Status>, pol: Policy)
    requires es != [] && InstallLoop(w, es, st, pol).ok
    ensures var o := InstallEntry(w, es[0], StatusAt(st, es[0].id), pol);
            var rest := InstallLoop(Exec(w, o.acts), es[1..], st, pol);
            o.ok && rest.ok && InstallLoop(w, es, st, pol).acts == o.acts + rest.acts
  {
  }

  lemma EntryForces(j: Job, w0: World, w: World, es: Manifest, st: map<int, Status>)
    requires AtEntries(j, w0, w, es, st) && es != [] && StatusAt(st, es[0].id).PresentDifferent?
    requires InstallEntry(w, es[0], PresentDifferent, j.pol).ok
    ensures var acts := InstallEntry(w, es[0], PresentDifferent, j.pol).acts;
            acts != [] && acts[0] == Remove(es[0].dst)
  {
    hide Midway, Place, WellFormed, ClaimsDone;
    var e := es[0];
    assert e in es && StatusMeans(w0, j.pol, e, PresentDifferent) && Pristine(j.m, w0, w, e);
    assert e.dst in w.fs;
  }

  lemma InstallForces(j: Job, w: World, st: map<int, Status>, e: Entry) returns (k: nat)
    requires WellFormed(j.m) && Midway(j, w) && StatusesMean(w, j.m, j.pol, st)
    requires Install(w, j.m, st, j.pol).ok && e in j.m && StatusAt(st, e.id).PresentDifferent?
    ensures k < |Install(w, j.m, st, j.pol).acts| && Install(w, j.m, st, j.pol).acts[k] == Remove(e.dst)
  {
    hide Install, InstallLoop, Midway, StatusesMean, PendingRoots, AtEntries, Exec;
    var claims := Claims(PendingRoots(w.fs, w.roots, j.m, j.pol));
    var w1 := Exec(w, claims);
    InstallAccepted(w, j.m, st, j.pol);
    LoopStart(j, w, st);
    InstallIsLoop(w, j.m, st, j.pol);
    InstallActs(w, j.m, st, j.pol);
    var loop := InstallLoop(w1, j.m, st, j.pol);
    var n := LoopForces(j, w1, w1, j.m, st, e);
    k := |claims| + n;
    assert (claims + loop.acts + Flush(loop.records))[k] == (claims + loop.acts)[k] == loop.acts[n];
  }

  lemma InstallAccepted(w: World, m: Manifest, st: map<int, Status>, pol: Policy)
    requires Install(w, m, st, pol).ok
    ensures CheckAll(w.fs, w.roots, m, pol) && !DeferredRefused(m)
  {
  }

  /** The whole run removes the forced entry's old file at some point. */
  lemma RunForces(j: Job, w: World, src: map<int, Content>, e: Entry) returns (k: nat)
    requires Untouched(j, w) && SourceIntact(j.m, src) && Accepted(j) && Installable(j) && e in j.m && Forces(j, e)
    ensures k < |FullRun(w, j.m, src, j.pol).acts| && FullRun(w, j.m, src, j.pol).acts[k] == Remove(e.dst)
  {
    hide Install, Stage, Diff, Supplied, Untouched;
    UntouchedFacts(j, w);
    RunSucceeds(j, w, src);
    RunParts(j, w, src);
    RunIsInstall(j, w, src);
    var w2, st := AtInstall(w, j.m, src, j.pol), StatusesAtInstall(w, j.m, src, j.pol);
    SuppliedAtInstall(j, w, src, e);
    ForcedIsDifferent(j, w2, e, StatusAt(st, e.id));
    var n := InstallForces(j, w2, st, e);
    k := InstallWithin(j, w, src, n);
  }

  lemma UntouchedFacts(j: Job, w: World)
    requires Untouched(j, w)
    ensures WellFormed(j.m) && Midway(j, w) && w.fs == j.fs0
  {
    UntouchedMidway(j, w);
  }

  /** A run that succeeds reaches its Install, and its actions end with it. */
  lemma RunParts(j: Job, w: World, src: map<int, Content>)
    requires WellFormed(j.m) && Midway(j, w) && FullRun(w, j.m, src, j.pol).ok
    ensures ReachesInstall(w, j.m, src, j.pol)
  {
    if !ReachesInstall(w, j.m, src, j.pol) {
      StoppedRunIsStaging(j, w, src);
    }
  }

  lemma InstallWithin(j: Job, w: World, src: map<int, Content>, n: nat) returns (k: nat)
    requires ReachesInstall(w, j.m, src, j.pol)
    requires n < |Install(AtInstall(w, j.m, src, j.pol), j.m, StatusesAtInstall(w, j.m, src, j.pol), j.pol).acts|
    ensures k < |FullRun(w, j.m, src, j.pol).acts|
    ensures FullRun(w, j.m, src, j.pol).acts[k]
      == Install(AtInstall(w, j.m, src, j.pol), j.m, StatusesAtInstall(w, j.m, src, j.pol), j.pol).acts[n]
  {
    hide Install, Stage, Diff;
    var staged := Stage(w, j.m, src, j.pol).0;
    var d := Diff(Exec(w, staged), j.m, j.pol);
    var i := Install(AtInstall(w, j.m, src, j.pol), j.m, d.st, j.pol);
    k := |staged| + |d.acts| + n;
    assert (staged + (d.acts + i.acts))[k] == (d.acts + i.acts)[|d.acts| + n] == i.acts[n];
  }

  lemma SuppliedAtInstall(j: Job, w: World, src: map<int, Content>, e: Entry)
    requires WellFormed(j.m) && Midway(j, w) && SourceIntact(j.m, src) && ReachesInstall(w, j.m, src, j.pol) && e in j.m
    ensures Supplied(AtInstall(w, j.m, src, j.pol), e)
  {
    hide Stage, Diff, DiffFrom;
    StageDiffed(w, j.m, src, j.pol);
    StageSupplies(j, w, src);
    var w1 := Exec(w, Stage(w, j.m, src, j.pol).0);
    DiffIsFrom(w1, j.m, j.pol);
    DiffFromMeans(w1, j.m, j.m, j.pol);
    assert Supplied(w1, e);
  }

  lemma StageDiffed(w: World, m: Manifest, src: map<int, Content>, pol: Policy)
    requires Stage(w, m, src, pol).1
    ensures Diff(w, m, pol).ok
  {
  }

  lemma DiffIsFrom(w: World, m: Manifest, pol: Policy)
    ensures Diff(w, m, pol) == DiffFrom(w, m, m, pol)
  {
  }

  /** From any interrupted world in which e's place is free, the run reports
      e as newly installed. */
  lemma FreePlaceIsReported(j: Job, w: World, src: map<int, Content>, e: Entry)
    requires WellFormed(j.m) && Midway(j, w) && SourceIntact(j.m, src) && FullRun(w, j.m, src, j.pol).ok
    requires e in j.m && e.dst !in w.fs
    ensures e.id in IdSet(FullRun(w, j.m, src, j.pol).newIds)
  {
    hide Install, Stage, Diff, InstallLoop;
    RunParts(j, w, src);
    RunIsInstall(j, w, src);
    var w2, st := AtInstall(w, j.m, src, j.pol), StatusesAtInstall(w, j.m, src, j.pol);
    SuppliedAtInstall(j, w, src, e);
    assert StatusMeans(w2, j.pol, e, StatusAt(st, e.id));
    assert StatusAt(st, e.id) == StagedSame;
    InstallIsLoop(w2, j.m, st, j.pol);
    LoopReportsFresh(Exec(w2, Claims(PendingRoots(w2.fs, w2.roots, j.m, j.pol))), j.m, st, j.pol, e);
  }

  lemma InstallIsLoop(w: World, m: Manifest, st: map<int, Status>, pol: Policy)
    requires Install(w, m, st, pol).ok
    ensures var loop := InstallLoop(Exec(w, Claims(PendingRoots(w.fs, w.roots, m, pol))), m, st, pol);
            loop.ok && Install(w, m, st, pol).newIds == loop.newIds
  {
  }

  /** After a run that placed e in a free place, the record has it. */
  lemma PlacedIsRecorded(j: Job, w: World, src: map<int, Content>, e: Entry)
    requires WellFormed(j.m) && Midway(j, w) && FullRun(w, j.m, src, j.pol).ok && e in j.m && e.dst !in w.fs
    ensures var w' := Exec(w, FullRun(w, j.m, src, j.pol).acts);
            && TreeOk(w'.fs) && e.dst in w'.fs && w'.fs[e.dst] == e.Node()
            && e.dst in w'.installed && w'.installed[e.dst] == NodeRecord(e.Node())
  {
    hide Install, Stage, Diff, InstallLoop;
    RunParts(j, w, src);
    RunIsInstall(j, w, src);
    RunDelivers(j, w, src);
    FullRunAllowed(j, w, src);
    WholeMidway(j, w, FullRun(w, j.m, src, j.pol).acts);
    var w2, st := AtInstall(w, j.m, src, j.pol), StatusesAtInstall(w, j.m, src, j.pol);
    var w1 := Exec(w2, Claims(PendingRoots(w2.fs, w2.roots, j.m, j.pol)));
    InstallIsLoop(w2, j.m, st, j.pol);
    LoopStart2(j, w2, st);
    LoopLedger(j, w1, w1, j.m, st);
    InstallEnds(w2, j.m, st, j.pol, w1, InstallLoop(w1, j.m, st, j.pol));
  }

  lemma LoopStart2(j: Job, w: World, st: map<int, Status>)
    requires WellFormed(j.m) && Midway(j, w) && StatusesMean(w, j.m, j.pol, st) && Install(w, j.m, st, j.pol).ok
    ensures var w1 := Exec(w, Claims(PendingRoots(w.fs, w.roots, j.m, j.pol)));
            AtEntries(j, w1, w1, j.m, st) && w1.fs == w.fs
  {
    LoopStart(j, w, st);
    ClaimsExec(j, w, PendingRoots(w.fs, w.roots, j.m, j.pol));
  }

  /** What is recorded for one entry of the session alone goes with it. */
  lemma ForcedIsUninstalled(j: Job, w: World, e: Entry, order: seq<Path>)
    requires WellFormed(j.m) && Accepted(j) && e in j.m && MayForce(j.pol, e) && TreeOk(w.fs)
    requires e.dst in w.fs && w.fs[e.dst] == e.Node() && e.dst in w.installed && w.installed[e.dst] == NodeRecord(e.Node())
    ensures var acts := UninstallIDs(w, j.m, {e.id}, j.pol, order);
            acts != [] && acts[0] == Remove(e.dst)
  {
    SelectOne(j.m, e);
    assert Check(j.fs0, j.roots0, j.m, j.pol, e);
    assert Check(w.fs, w.roots, [e], j.pol, e);
    OwnIsVictim(w.fs, e.dst, w.installed[e.dst]);
    assert [e][0] == e;
  }

  /** The interrupted force, for every accepted and installable job and every
      path it forces: there is a point at which to stop it, right after the old
      file is removed, such that the resumed run succeeds and reports the entry
      as newly installed, and an uninstall of that entry removes a path that
      held a file before the job. */
  lemma ForcedCrashIsForgotten(j: Job, w0: World, src: map<int, Content>, e: Entry) returns (steps: nat)
    requires Untouched(j, w0) && SourceIntact(j.m, src) && Accepted(j) && Installable(j)
    requires e in j.m && Forces(j, e)
    ensures var w1 := Interrupt(w0, j.m, j.pol, [Attempt(src, steps)]);
            var run := FullRun(w1, j.m, src, j.pol);
            var w2 := Exec(w1, run.acts);
            && e.dst in j.fs0 && e.dst !in w1.fs && run.ok && e.id in IdSet(run.newIds)
            && forall order :: ForgetsOld(j, w2, e, order)
  {
    hide Install, Stage, Diff, FullRun, Supplied, Untouched, Forces, InstallLoop;
    UntouchedFacts(j, w0);
    assert MayForce(j.pol, e) && e.dst in j.fs0 by {
      ForcesMeans(j, e);
    }
    var k := RunForces(j, w0, src, e);
    steps := k + 1;
    var acts := FullRun(w0, j.m, src, j.pol).acts;
    var w1 := Exec(w0, acts[..k + 1]);
    OneAttempt(w0, j, src, k + 1);
    assert acts[..k + 1] == acts[..k] + [Remove(e.dst)];
    ExecSnoc(w0, acts[..k], Remove(e.dst));
    FullRunAllowed(j, w0, src);
    PrefixMidway(j, w0, acts, k + 1);
    RunSucceeds(j, w1, src);
    FreePlaceIsReported(j, w1, src, e);
    PlacedIsRecorded(j, w1, src, e);
    var w2 := Exec(w1, FullRun(w1, j.m, src, j.pol).acts);
    forall order ensures ForgetsOld(j, w2, e, order) {
      ForcedIsUninstalled(j, w2, e, order);
    }
  }

  lemma ForcesMeans(j: Job, e: Entry)
    requires Forces(j, e)
    ensures MayForce(j.pol, e) && e.dst in j.fs0
  {
  }

  /** The uninstall of e alone begins by removing e.dst. */
  ghost predicate ForgetsOld(j: Job, w: World, e: Entry, order: seq<Path>) {
    var acts := UninstallIDs(w, j.m, {e.id}, j.pol, order);
    acts != [] && acts[0] == Remove(e.dst)
  }

  lemma OneAttempt(w: World, j: Job, src: map<int, Content>, n: nat)
    requires n <= |FullRun(w, j.m, src, j.pol).acts|
    ensures Interrupt(w, j.m, j.pol, [Attempt(src, n)]) == Exec(w, FullRun(w, j.m, src, j.pol).acts[..n])
  {
    var one := [Attempt(src, n)];
    assert one[1..] == [];
    assert Interrupt(Exec(w, FullRun(w, j.m, src, j.pol).acts[..n]), j.m, j.pol, []) == Exec(w, FullRun(w, j.m, src, j.pol).acts[..n]);
  }

  // ---- a run that dies before it saves ------------------------------------------------------

  /** The loop records what was missing in fs, and places at which an entry was
      not already present. */
  ghost predicate RecordsNew(fs: Fs, es: Manifest, st: map<int, Status>, recs: map<Path, RecordKind>) {
    forall p :: p in recs ==> p !in fs || exists e :: e in es && e.dst == p && !StatusAt(st, e.id).PresentSame?
  }

  lemma PlaceRecordsNew(fs0: Fs, w: World, e: Entry, st: map<int, Status>, fileOnly: bool)
    requires TreeOk(w.fs) && e.dst != [] && !StatusAt(st, e.id).PresentSame?
    requires forall p :: p in fs0 && p != e.dst ==> p in w.fs
    ensures RecordsNew(fs0, [e], st, Place(w, e, fileOnly).records)
  {
    hide Place, TreeOk;
    PlaceRecords(w, e, fileOnly);
    assert e in [e];
  }

  lemma EntryRecordsNew(j: Job, w0: World, w: World, e: Entry, st: map<int, Status>)
    requires AtEntry(j, w0, w, e, StatusAt(st, e.id)) && w0.fs.Keys <= w.fs.Keys
    ensures RecordsNew(w0.fs, [e], st, InstallEntry(w, e, StatusAt(st, e.id), j.pol).records)
  {
    var s := StatusAt(st, e.id);
    var o := InstallEntry(w, e, s, j.pol);
    assert TreeOk(w.fs) && e.dst != [];
    match s {
      case StagedSame =>
        hide TreeOk, RecordsNew, Place, Midway, Pristine;
        PlaceRecordsNew(w0.fs, w, e, st, false);
      case FFCandidate =>
        hide TreeOk, Place, Midway, Pristine;
        PlaceRecordsNew(w0.fs, w, e, st, true);
      case PresentDifferent =>
        hide TreeOk, Place, Midway, Pristine, Allowed, MayPlace;
        if o.records != map[] {
          ForcedRemoval(j, w0, w, e);
          RemovedTree(j, w, e);
          ExecOne(w, Remove(e.dst));
          PlaceRecordsNew(w0.fs, Step(w, Remove(e.dst)), e, st, true);
        }
      case _ =>
    }
  }

  lemma {:induction false} LoopRecordsNew(j: Job, w0: World, w: World, es: Manifest, st: map<int, Status>)
    requires AtEntries(j, w0, w, es, st) && w0.fs.Keys <= w.fs.Keys
    ensures RecordsNew(w0.fs, es, st, InstallLoop(w, es, st, j.pol).records)
    decreases |es|
  {
    if es != [] {
      var o := InstallEntry(w, es[0], StatusAt(st, es[0].id), j.pol);
      assert es[0] in es;
      EntryRecordsNew(j, w0, w, es[0], st);
      if o.ok {
        NextEntry(j, w0, w, es, st);
        LoopRecordsNew(j, w0, Exec(w, o.acts), es[1..], st);
      }
    }
  }

  /** What stands delivered is present-same to an Install, which therefore
      neither reports nor records it. */
  lemma InstallPassesBy(j: Job, w: World, st: map<int, Status>, e: Entry)
    requires WellFormed(j.m) && Midway(j, w) && StatusesMean(w, j.m, j.pol, st)
    requires e in j.m && !Deferrable(e) && Stands(w, e)
    ensures var i := Install(w, j.m, st, j.pol);
            && e.id !in IdSet(i.newIds)
            && (e.dst in Exec(w, i.acts).installed ==> e.dst in w.installed)
  {
    hide Midway, InstallLoop;
    assert StatusMeans(w, j.pol, e, StatusAt(st, e.id));
    assert StatusAt(st, e.id).PresentSame?;
    if CheckAll(w.fs, w.roots, j.m, j.pol) {
      ClaimsExec(j, w, PendingRoots(w.fs, w.roots, j.m, j.pol));
      if !DeferredRefused(j.m) {
        LoopPassesBy(j, w, st, e);
        InstallKeepsRecord(j, w, st);
      }
    }
  }

  lemma LoopPassesBy(j: Job, w: World, st: map<int, Status>, e: Entry)
    requires WellFormed(j.m) && Midway(j, w) && StatusesMean(w, j.m, j.pol, st)
    requires CheckAll(w.fs, w.roots, j.m, j.pol) && !DeferredRefused(j.m)
    requires e in j.m && Stands(w, e) && StatusAt(st, e.id).PresentSame?
    ensures var loop := InstallLoop(Exec(w, Claims(PendingRoots(w.fs, w.roots, j.m, j.pol))), j.m, st, j.pol);
            e.id !in loop.newIds && e.dst !in loop.records
  {
    hide Midway, InstallLoop;
    var w1 := Exec(w, Claims(PendingRoots(w.fs, w.roots, j.m, j.pol)));
    ClaimsExec(j, w, PendingRoots(w.fs, w.roots, j.m, j.pol));
    LoopStart(j, w, st);
    LoopRecordsNew(j, w1, w1, j.m, st);
    var loop := InstallLoop(w1, j.m, st, j.pol);
    if e.id in loop.newIds {
      LoopReportSound(w1, j.m, st, j.pol, e.id);
    }
    forall f | f in j.m && f.dst == e.dst ensures f == e {
      SameEntry(j.m, e, f);
    }
  }

  /** A whole run passes it by, wherever it stops. */
  lemma RunPassesBy(j: Job, w: World, src: map<int, Content>, n: nat, e: Entry)
    requires WellFormed(j.m) && Midway(j, w) && n <= |FullRun(w, j.m, src, j.pol).acts|
    requires e in j.m && !Deferrable(e) && Stands(w, e) && e.dst !in w.installed
    ensures var run := FullRun(w, j.m, src, j.pol);
            var cut := Exec(w, run.acts[..n]);
            e.id !in IdSet(run.newIds) && Midway(j, cut) && Stands(cut, e) && e.dst !in cut.installed
  {
    hide FullRun, Install, Stage, Diff, Midway;
    var acts := FullRun(w, j.m, src, j.pol).acts;
    FullRunAllowed(j, w, src);
    PrefixMidway(j, w, acts, n);
    ExecKeepsDelivered(j, w, acts, n, e);
    SavesLast(j, w, src, n);
    if ReachesInstall(w, j.m, src, j.pol) {
      RunIsInstall(j, w, src);
      InstallPassesBy(j, AtInstall(w, j.m, src, j.pol), StatusesAtInstall(w, j.m, src, j.pol), e);
    } else {
      StoppedRunIsStaging(j, w, src);
    }
  }

  /** Nor does any further history of runs report or record it. */
  lemma {:induction false} HistoryPassesBy(j: Job, w: World, attempts: seq<Attempt>, e: Entry)
    requires WellFormed(j.m) && Midway(j, w) && e in j.m && !Deferrable(e) && Stands(w, e) && e.dst !in w.installed
    ensures var w' := Interrupt(w, j.m, j.pol, attempts); Stands(w', e) && e.dst !in w'.installed
    ensures e.id !in InterruptIds(w, j.m, j.pol, attempts)
    decreases |attempts|
  {
    hide FullRun, Midway, Stands;
    if attempts != [] {
      var acts := FullRun(w, j.m, attempts[0].src, j.pol).acts;
      var n := if attempts[0].steps <= |acts| then attempts[0].steps else |acts|;
      RunPassesBy(j, w, attempts[0].src, n, e);
      HistoryPassesBy(j, Exec(w, acts[..n]), attempts[1..], e);
    }
  }

  lemma {:induction false} OwnIsRecorded(fs0: Fs, exempt: Path -> bool, w: World, acts: seq<Action>, p: Path)
    requires TakesBackOwn(fs0, exempt, w, acts) && p !in w.installed
    ensures Destination.Action.Remove(p) !in acts
    decreases |acts|
  {
    if acts != [] {
      OwnIsRecorded(fs0, exempt, Step(w, acts[0]), acts[1..], p);
    }
  }

  /** An uninstall of any ids, on any tree in which no link stands in, leaves
      alone a path that is not in the record. */
  ghost predicate LeftAlone(j: Job, installed: map<Path, RecordKind>, p: Path, later: World, ids: set<int>, order: seq<Path>) {
    later.installed == installed && TreeOk(later.fs) && NoLinkStandsIn(later)
      && DeepestFirst(order, Selected(j.m, ids), installed, KeptPaths(j.m, ids)) ==>
    Destination.Action.Remove(p) !in UninstallIDs(later, j.m, ids, j.pol, order)
  }

  lemma UnrecordedIsLeft(j: Job, p: Path, later: World, ids: set<int>, order: seq<Path>)
    requires p !in later.installed
    ensures LeftAlone(j, later.installed, p, later, ids, order)
  {
    hide UninstallIDs;
    if TreeOk(later.fs) && NoLinkStandsIn(later)
      && DeepestFirst(order, Selected(j.m, ids), later.installed, KeptPaths(j.m, ids))
    {
      var any := (q: Path) => true;
      UninstallTakesBack(later.fs, any, later, j.m, ids, j.pol, order);
      StraightTakesOwn(later.fs, any, later, UninstallIDs(later, j.m, ids, j.pol, order));
      OwnIsRecorded(later.fs, any, later, UninstallIDs(later, j.m, ids, j.pol, order), p);
    }
  }

  /** The unsaved crash: a run that dies anywhere before its last action, the
      save, leaves unrecorded what it has placed.  Every later run finds it
      present-same, so over any history it is never reported and never recorded,
      and no uninstall removes it. */
  lemma UnsavedCrashIsForgotten(j: Job, w0: World, src: map<int, Content>, steps: nat, e: Entry, attempts: seq<Attempt>)
    requires Untouched(j, w0) && w0.installed == map[] && steps < |FullRun(w0, j.m, src, j.pol).acts|
    requires e in j.m && !Deferrable(e) && Stands(Interrupt(w0, j.m, j.pol, [Attempt(src, steps)]), e)
    ensures var w1 := Interrupt(w0, j.m, j.pol, [Attempt(src, steps)]);
            var w2 := Interrupt(w1, j.m, j.pol, attempts);
            && w1.installed == map[] && Stands(w2, e) && e.dst !in w2.installed
            && e.id !in InterruptIds(w1, j.m, j.pol, attempts)
            && forall later, ids, order :: LeftAlone(j, w2.installed, e.dst, later, ids, order)
  {
    hide FullRun, Untouched, Stands, LeftAlone;
    UntouchedFacts(j, w0);
    var acts := FullRun(w0, j.m, src, j.pol).acts;
    OneAttempt(w0, j, src, steps);
    var w1 := Exec(w0, acts[..steps]);
    RunSavesLast(j, w0, src);
    ExecKeepsRecord(w0, acts[..steps]);
    FullRunAllowed(j, w0, src);
    PrefixMidway(j, w0, acts, steps);
    HistoryPassesBy(j, w1, attempts, e);
    var w2 := Interrupt(w1, j.m, j.pol, attempts);
    forall later: World, ids, order ensures LeftAlone(j, w2.installed, e.dst, later, ids, order) {
      if later.installed == w2.installed {
        UnrecordedIsLeft(j, e.dst, later, ids, order);
      } else {
        OtherRecord(j, w2.installed, e.dst, later, ids, order);
      }
    }
  }

  lemma OtherRecord(j: Job, installed: map<Path, RecordKind>, p: Path, later: World, ids: set<int>, order: seq<Path>)
    requires later.installed != installed
    ensures LeftAlone(j, installed, p, later, ids, order)
  {
  }

  /** If a run changes the record, its last action does, and that changes
      nothing else. */
  lemma LastSaves(w: World, acts: seq<Action>) returns (n: nat)
    requires SavesOnlyLast(acts) && Exec(w, acts).installed != w.installed
    ensures n < |acts| && Exec(w, acts[..n]).fs == Exec(w, acts).fs
  {
    if acts == [] || !acts[|acts| - 1].SaveInstalled? {
      ExecKeepsRecord(w, acts);
      assert false;
    }
    n := |acts| - 1;
    assert acts == acts[..n] + [acts[n]];
    ExecSnoc(w, acts[..n], acts[n]);
  }

  /** And there is such a point for every entry whose place was free: right
      before the save everything has been placed. */
  lemma PlacedBeforeSaved(j: Job, w0: World, src: map<int, Content>, e: Entry) returns (steps: nat)
    requires Untouched(j, w0) && w0.installed == map[] && SourceIntact(j.m, src) && Accepted(j) && Installable(j)
    requires e in j.m && e.dst !in j.fs0
    ensures steps < |FullRun(w0, j.m, src, j.pol).acts| && Stands(Interrupt(w0, j.m, j.pol, [Attempt(src, steps)]), e)
  {
    hide FullRun, Untouched, TreeOk, Exec, Accepted, Installable, SourceIntact, Midway, SavesOnlyLast;
    UntouchedFacts(j, w0);
    RunSucceeds(j, w0, src);
    PlacedIsRecorded(j, w0, src, e);
    RunSavesLast(j, w0, src);
    steps := LastSaves(w0, FullRun(w0, j.m, src, j.pol).acts);
    OneAttempt(w0, j, src, steps);
  }
}
