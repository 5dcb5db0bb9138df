/** One placement, and the placement loop of Install: which actions they take,
    and what they leave behind. */
module Placement {
  import opened Destination
  import opened Transfer
  import opened Interrupted
  import opened StagingArea

  lemma AboveBelow(j: Job, p: Path, q: Path)
    requires AboveSome(j, p) && UnderDir(p, q)
    ensures AboveSome(j, q)
  {
    var e :| e in j.m && UnderDir(e.dst, p) && (e.dst == p ==> e.kind.Directory?);
    assert UnderDir(e.dst, q);
    if e.dst == q {
      assert p == q;
    }
  }

  lemma {:induction false} MkdirsAllowed(j: Job, w: World, p: Path)
    requires TreeOk(w.fs) && ClaimsDone(j, w.roots) && AboveSome(j, p) && MkdirAll(w.fs, p).1
    ensures AllAllowed(j, w, MkdirAll(w.fs, p).0)
    decreases |p|
  {
    if p !in w.fs {
      var parent := Parent(p);
      UnderParent(p, parent);
      AboveBelow(j, p, parent);
      MkdirsAllowed(j, w, parent);
      MkdirAllExec(w, parent);
      var acts := MkdirAll(w.fs, parent).0;
      var w1 := Exec(w, acts);
      DirPathOfParent(w.fs, p);
      MkdirAllSucceeds(w.fs, parent);
      assert Allowed(j, w1, Mkdir(p));
      assert AllAllowed(j, w1, [Mkdir(p)]);
      AllAllowedConcat(j, w, acts, [Mkdir(p)]);
    }
  }

  /** A placement is safe to try: what it would put at dst is allowed there,
      or a directory in the way makes it fail. */
  ghost predicate MayPlace(j: Job, w: World, e: Entry, fileOnly: bool) {
    && e in j.m && e.dst != []
    && (MayReplace(j, e) || (AsFile(e, fileOnly) && e.dst in w.fs && w.fs[e.dst].Dir?))
    && (AsFile(e, fileOnly) ==> e.kind.Regular?)
  }

  lemma ParentAboveSome(j: Job, e: Entry, fileOnly: bool)
    requires e in j.m && e.dst != []
    ensures AboveSome(j, PlaceParent(e, fileOnly))
  {
    UnderParent(e.dst, Parent(e.dst));
  }

  lemma PlaceAllowed(j: Job, w: World, e: Entry, fileOnly: bool)
    requires Midway(j, w) && ClaimsDone(j, w.roots) && MayPlace(j, w, e, fileOnly)
    ensures AllAllowed(j, w, Place(w, e, fileOnly).acts)
  {
    var parent := PlaceParent(e, fileOnly);
    ParentAboveSome(j, e, fileOnly);
    var (mkdirs, ok) := MkdirAll(w.fs, parent);
    if ok {
      MkdirsAllowed(j, w, parent);
      MkdirAllExec(w, parent);
      MkdirAllSucceeds(w.fs, parent);
      WithDirsTree(w.fs, parent);
      var w1 := Exec(w, mkdirs);
      var finish := FinishPlacement(w1, e, fileOnly);
      if finish != [] {
        assert ParentIsDir(w1.fs, e.dst) by {
          UnderParent(e.dst, Parent(e.dst));
        }
        assert Allowed(j, w1, finish[0]);
        if |finish| == 2 {
          assert finish[1..] == [RemoveLinkMark(e.id)];
          assert AllAllowed(j, Step(w1, finish[0]), finish[1..]);
        }
        assert AllAllowed(j, w1, finish);
        AllAllowedConcat(j, w, mkdirs, finish);
      } 
    }
  }

  /** A successful placement delivers e's node, creates the directories that
      were missing above it, and leaves every other path and the staging of
      every other entry alone. */
  ghost predicate Placed(w: World, w': World, e: Entry) {
    && e.dst in w'.fs && w'.fs[e.dst] == e.Node()
    && OthersKept(w, w', e)
  }

  ghost predicate OthersKept(w: World, w': World, e: Entry) {
    && (forall p :: p in w.fs && p != e.dst ==> p in w'.fs && w'.fs[p] == w.fs[p])
    && (forall p :: p in w'.fs && p !in w.fs && p != e.dst ==> w'.fs[p].Dir? && UnderDir(e.dst, p))
    && (forall id :: id != e.id ==> SameStaged(w, w', id))
    && w'.roots == w.roots && w'.installed == w.installed
  }

  lemma FileDelivers(w: World, e: Entry)
    requires e.kind.Regular? && e.id in w.files && Sha256(w.files[e.id]) == e.digest
    ensures Placed(w, Step(w, MoveIn(e.id, e.dst)), e)
  {
  }

  lemma DirDelivers(w: World, e: Entry)
    requires e.kind.Directory? && e.dst in w.fs && w.fs[e.dst].Dir?
    ensures Placed(w, Step(w, RemoveDirMark(e.id)), e)
  {
  }

  lemma LinkDelivers(w: World, e: Entry)
    requires e.kind.Link?
    ensures Placed(w, Step(Step(w, MakeLink(e.dst, e.kind.target)), RemoveLinkMark(e.id)), e)
  {
  }

  lemma FinishDelivers(w: World, e: Entry, fileOnly: bool)
    requires FinishPlacement(w, e, fileOnly) != []
    requires AsFile(e, fileOnly) ==> e.kind.Regular?
    requires e.kind.Regular? && e.id in w.files ==> Sha256(w.files[e.id]) == e.digest
    requires e.kind.Directory? ==> e.dst in w.fs && w.fs[e.dst].Dir?
    ensures Placed(w, Exec(w, FinishPlacement(w, e, fileOnly)), e)
  {
    hide Placed, Exec, Step;
    if AsFile(e, fileOnly) {
      ExecOne(w, MoveIn(e.id, e.dst));
      FileDelivers(w, e);
    } else if e.kind.Directory? {
      ExecOne(w, RemoveDirMark(e.id));
      DirDelivers(w, e);
    } else {
      ExecTwo(w, MakeLink(e.dst, e.kind.target), RemoveLinkMark(e.id));
      LinkDelivers(w, e);
    }
  }

  lemma PlaceDelivers(w: World, e: Entry, fileOnly: bool)
    requires TreeOk(w.fs) && e.dst != [] && Place(w, e, fileOnly).ok
    requires AsFile(e, fileOnly) ==> e.kind.Regular?
    requires e.kind.Regular? && e.id in w.files ==> Sha256(w.files[e.id]) == e.digest
    ensures Placed(w, Exec(w, Place(w, e, fileOnly).acts), e)
  {
    var parent := PlaceParent(e, fileOnly);
    UnderParent(e.dst, Parent(e.dst));
    MkdirAllExec(w, parent);
    MkdirAllSucceeds(w.fs, parent);
    var mkdirs := MkdirAll(w.fs, parent).0;
    var w1 := w.(fs := WithDirs(w.fs, parent));
    assert Exec(w, mkdirs) == w1;
    var finish := FinishPlacement(w1, e, fileOnly);
    ExecConcat(w, mkdirs, finish);
    FinishDelivers(w1, e, fileOnly);
    PlacedAfterDirs(w, w1, Exec(w1, finish), e, parent);
  }

  lemma PlacedAfterDirs(w: World, w1: World, w2: World, e: Entry, parent: Path)
    requires UnderDir(e.dst, parent) && w1 == w.(fs := WithDirs(w.fs, parent))
    requires Placed(w1, w2, e)
    ensures Placed(w, w2, e)
  {
    forall id | id != e.id ensures SameStaged(w, w2, id) {
      assert SameStaged(w1, w2, id);
    }
  }

  // ---- one entry of the loop ---------------------------------------------------

  ghost predicate AboveOther(m: Manifest, e: Entry) {
    exists f :: f in m && f != e && UnderDir(f.dst, e.dst)
  }

  /** Between taking the statuses in w0 and reaching e, only other entries were
      placed: e's staging is as it was, and so is e.dst, unless it has become a
      directory on the way to another entry. */
  ghost predicate Pristine(m: Manifest, w0: World, w: World, e: Entry) {
    && SameStaged(w0, w, e.id)
    && (e.dst in w0.fs ==> e.dst in w.fs && w.fs[e.dst] == w0.fs[e.dst])
    && (e.dst !in w0.fs && e.dst in w.fs ==> w.fs[e.dst].Dir? && AboveOther(m, e))
  }

  /** The state of the loop when it reaches e, statuses taken in w0. */
  ghost predicate AtEntry(j: Job, w0: World, w: World, e: Entry, s: Status) {
    && WellFormed(j.m) && !DeferredRefused(j.m)
    && Midway(j, w0) && Midway(j, w) && ClaimsDone(j, w.roots)
    && e in j.m && StaticallyAllowed(j.pol, e) && StatusMeans(w0, j.pol, e, s) && Pristine(j.m, w0, w, e)
  }

  lemma ForcedIsEntry(j: Job, e: Entry)
    requires WellFormed(j.m) && e in j.m && ForcedAt(j, e.dst)
    ensures Forces(j, e)
  {
    var f :| f in j.m && f.dst == e.dst && Forces(j, f);
    SameEntry(j.m, e, f);
  }

  lemma DeliveredIsEntry(j: Job, e: Entry, node: Node)
    requires WellFormed(j.m) && e in j.m && DeliveredAt(j, e.dst, node)
    ensures node == e.Node() && MayReplace(j, e)
  {
    var f :| f in j.m && f.dst == e.dst && node == f.Node() && MayReplace(j, f);
    SameEntry(j.m, e, f);
  }

  lemma StagedSameMayPlace(j: Job, w0: World, w: World, e: Entry)
    requires AtEntry(j, w0, w, e, StagedSame)
    ensures MayPlace(j, w, e, false)
  {
    assert PathMidway(j, w0.fs, e.dst) && PathMidway(j, w.fs, e.dst);
    if e.dst in j.fs0 && !MayReplace(j, e) {
      if e.dst !in w.fs || e.dst !in w0.fs {
        ForcedIsEntry(j, e);
      } else if DeliveredAt(j, e.dst, w.fs[e.dst]) {
        DeliveredIsEntry(j, e, w.fs[e.dst]);
      } else {
        assert Deferrable(e);
      }
    }
  }

  lemma ExtendsMayPlace(j: Job, w0: World, w: World, e: Entry)
    requires AtEntry(j, w0, w, e, FFCandidate) && e.id in w.files
    ensures MayPlace(j, w, e, true)
  {
    forall f | f in j.m && f.dst == e.dst ensures f == e {
      SameEntry(j.m, e, f);
    }
    assert PathMidway(j, w.fs, e.dst);
  }

  lemma LeafChildless(fs: Fs, p: Path)
    requires TreeOk(fs) && (p in fs ==> !fs[p].Dir?)
    ensures Childless(fs, p) || p !in fs
  {
    if p in fs {
      forall q | q in fs && UnderDir(q, p) ensures q == p {
        AncestorsExist(fs, q);
      }
    }
  }

  lemma RemovalKeepsOthers(w: World, e: Entry)
    ensures OthersKept(w, Step(w, Remove(e.dst)), e)
  {
    forall id ensures SameStaged(w, Step(w, Remove(e.dst)), id) {
    }
  }

  /** What stood at e.dst before the job, and differs now that the copy is
      staged, is forced. */
  lemma DifferentForces(j: Job, w0: World, e: Entry)
    requires WellFormed(j.m) && Midway(j, w0) && e in j.m && StatusMeans(w0, j.pol, e, PresentDifferent)
    requires MayForce(j.pol, e) && e.id in w0.files
    ensures e.dst in j.fs0 ==> ForcedAt(j, e.dst)
  {
    assert PathMidway(j, w0.fs, e.dst);
    assert Sha256(w0.files[e.id]) == e.digest;
    if DeliveredAt(j, e.dst, w0.fs[e.dst]) {
      DeliveredIsEntry(j, e, w0.fs[e.dst]);
    } else if e.dst in j.fs0 && w0.fs[e.dst] == j.fs0[e.dst] {
      assert Forces(j, e);
    }
  }

  /** The forced removal of e.dst is an allowed action, and e may follow. */
  lemma ForcedRemoval(j: Job, w0: World, w: World, e: Entry)
    requires AtEntry(j, w0, w, e, PresentDifferent) && MayForce(j.pol, e) && e.id in w.files && Removable(w.fs, e.dst)
    ensures Midway(j, Step(w, Remove(e.dst))) && Allowed(j, w, Remove(e.dst))
    ensures MayPlace(j, Step(w, Remove(e.dst)), e, true)
  {
    assert Childless(w.fs, e.dst) by {
      if !w.fs[e.dst].Dir? {
        LeafChildless(w.fs, e.dst);
      }
    }
    DifferentForces(j, w0, e);
    assert Allowed(j, w, Remove(e.dst));
    StepKeepsMidway(j, w, Remove(e.dst));
  }

  lemma InstallEntryAllowed(j: Job, w0: World, w: World, e: Entry, s: Status)
    requires AtEntry(j, w0, w, e, s)
    ensures AllAllowed(j, w, InstallEntry(w, e, s, j.pol).acts)
  {
    var o := InstallEntry(w, e, s, j.pol);
    match s {
      case StagedSame =>
        StagedSameMayPlace(j, w0, w, e);
        PlaceAllowed(j, w, e, false);
      case PresentSame =>
        StagingOnly(j, w, DropStaged(e));
      case FFCandidate =>
        if o.acts != [] {
          ExtendsMayPlace(j, w0, w, e);
          PlaceAllowed(j, w, e, true);
        }
      case PresentDifferent =>
        if o.acts != [] {
          ForcedRemoval(j, w0, w, e);
          var removal := [Remove(e.dst)];
          ExecOne(w, Remove(e.dst));
          var w1 := Step(w, Remove(e.dst));
          PlaceAllowed(j, w1, e, true);
          assert removal[1..] == [] && AllAllowed(j, w1, []);
          assert AllAllowed(j, w, removal);
          AllAllowedConcat(j, w, removal, Place(w1, e, true).acts);
        }
      case _ =>
    }
  }

  lemma OthersKeptTrans(w: World, w1: World, w2: World, e: Entry)
    requires OthersKept(w, w1, e) && OthersKept(w1, w2, e)
    ensures OthersKept(w, w2, e)
  {
    forall id | id != e.id ensures SameStaged(w, w2, id) {
      assert SameStaged(w, w1, id) && SameStaged(w1, w2, id);
    }
  }

  lemma DropStagedKeeps(w: World, e: Entry)
    ensures Exec(w, DropStaged(e)).fs == w.fs && OthersKept(w, Exec(w, DropStaged(e)), e)
  {
    var a, b, c := RemoveStaged(e.id), RemoveDirMark(e.id), RemoveLinkMark(e.id);
    ExecTwo(w, a, b);
    ExecSnoc(w, [a, b], c);
    assert [a, b] + [c] == DropStaged(e);
  }

  lemma InstallEntryDelivers(j: Job, w0: World, w: World, e: Entry, s: Status)
    requires AtEntry(j, w0, w, e, s) && InstallEntry(w, e, s, j.pol).ok
    ensures Placed(w, Exec(w, InstallEntry(w, e, s, j.pol).acts), e)
  {
    match s {
      case StagedSame =>
        PlaceDelivers(w, e, false);
      case PresentSame =>
        DropStagedKeeps(w, e);
      case FFCandidate =>
        PlaceDelivers(w, e, true);
      case PresentDifferent =>
        ForcedRemoval(j, w0, w, e);
        RemovalKeepsOthers(w, e);
        var w1 := Step(w, Remove(e.dst));
        ExecOne(w, Remove(e.dst));
        PlaceDelivers(w1, e, true);
        ExecConcat(w, [Remove(e.dst)], Place(w1, e, true).acts);
        OthersKeptTrans(w, w1, Exec(w1, Place(w1, e, true).acts), e);
      case _ =>
    }
  }

  // ---- the loop ----------------------------------------------------------------

  ghost predicate AtEntries(j: Job, w0: World, w: World, es: Manifest, st: map<int, Status>) {
    && WellFormed(es) && WellFormed(j.m) && !DeferredRefused(j.m)
    && Midway(j, w0) && Midway(j, w) && ClaimsDone(j, w.roots)
    && forall e :: e in es ==>
         e in j.m && StaticallyAllowed(j.pol, e) && StatusMeans(w0, j.pol, e, StatusAt(st, e.id)) && Pristine(j.m, w0, w, e)
  }

  lemma NextEntry(j: Job, w0: World, w: World, es: Manifest, st: map<int, Status>)
    requires AtEntries(j, w0, w, es, st) && es != []
    requires InstallEntry(w, es[0], StatusAt(st, es[0].id), j.pol).ok
    ensures var acts := InstallEntry(w, es[0], StatusAt(st, es[0].id), j.pol).acts;
            AllAllowed(j, w, acts) && Placed(w, Exec(w, acts), es[0]) && AtEntries(j, w0, Exec(w, acts), es[1..], st)
  {
    var e := es[0];
    var s := StatusAt(st, e.id);
    var acts := InstallEntry(w, e, s, j.pol).acts;
    assert e in es;
    InstallEntryAllowed(j, w0, w, e, s);
    InstallEntryDelivers(j, w0, w, e, s);
    var w' := Exec(w, acts);
    assert acts[..|acts|] == acts;
    PrefixMidway(j, w, acts, |acts|);
    WellFormedTail(es);
    forall f | f in es[1..] ensures Pristine(j.m, w0, w', f) {
      assert Pristine(j.m, w0, w, f) && SameStaged(w, w', f.id);
    }
  }

  lemma {:induction false} InstallLoopAllowed(j: Job, w0: World, w: World, es: Manifest, st: map<int, Status>)
    requires AtEntries(j, w0, w, es, st)
    ensures AllAllowed(j, w, InstallLoop(w, es, st, j.pol).acts)
    decreases |es|
  {
    if es != [] {
      var o := InstallEntry(w, es[0], StatusAt(st, es[0].id), j.pol);
      assert es[0] in es;
      InstallEntryAllowed(j, w0, w, es[0], StatusAt(st, es[0].id));
      if o.ok {
        NextEntry(j, w0, w, es, st);
        var w1 := Exec(w, o.acts);
        InstallLoopAllowed(j, w0, w1, es[1..], st);
        AllAllowedConcat(j, w, o.acts, InstallLoop(w1, es[1..], st, j.pol).acts);
      }
    }
  }

  lemma {:induction false} InstallLoopDelivers(j: Job, w0: World, w: World, es: Manifest, st: map<int, Status>)
    requires AtEntries(j, w0, w, es, st) && InstallLoop(w, es, st, j.pol).ok
    ensures var w' := Exec(w, InstallLoop(w, es, st, j.pol).acts);
            && (forall e :: e in es ==> e.dst in w'.fs && w'.fs[e.dst] == e.Node())
            && (forall p :: p in w.fs && (forall e :: e in es ==> e.dst != p) ==> p in w'.fs && w'.fs[p] == w.fs[p])
            && w'.roots == w.roots
    decreases |es|
  {
    if es != [] {
      var o := InstallEntry(w, es[0], StatusAt(st, es[0].id), j.pol);
      NextEntry(j, w0, w, es, st);
      WellFormedTail(es);
      var w1 := Exec(w, o.acts);
      var rest := InstallLoop(w1, es[1..], st, j.pol);
      InstallLoopDelivers(j, w0, w1, es[1..], st);
      ExecConcat(w, o.acts, rest.acts);
      var w' := Exec(w1, rest.acts);
      assert es[0].dst in w1.fs && forall e :: e in es[1..] ==> e.dst != es[0].dst;
      forall p | p in w.fs && (forall e :: e in es ==> e.dst != p) ensures p in w'.fs && w'.fs[p] == w.fs[p] {
        assert es[0] in es;
        assert p in w1.fs;
      }
    }
  }

  // ---- the checks right before a replacement --------------------------------------------

  /** Whatever has become of the tree since Diff, what an entry does under each
      status has passed the check made right before: the fast-forward test
      against what stands there now, or consent, ownership and a verified copy. */
  lemma ReplacementIsChecked(w: World, e: Entry, status: Status, pol: Policy)
    ensures var o := InstallEntry(w, e, status, pol);
            match status
            case StagedSame => o.isNew == o.ok
            case PresentSame => o.ok && !o.isNew && Exec(w, o.acts).fs == w.fs
            case FFCandidate =>
              !o.isNew && (o.ok || o.acts != [] ==>
                e.id in w.files && e.dst in w.fs && w.fs[e.dst].File? && pol.ffTest(e.dst, w.fs[e.dst].content, w.files[e.id]))
            case PresentDifferent =>
              !o.isNew && (o.ok || o.acts != [] ==>
                && pol.force && e.kind == Regular && e.ffAllowed && e.category == CatSession && pol.ownsSession(e.dst)
                && e.id in w.files && Sha256(w.files[e.id]) == e.digest
                && forall q :: q in w.fs && e.dst <= q && e.dst in w.fs && w.fs[e.dst] == Dir ==> q == e.dst)
            case _ => !o.ok && o.acts == []
  {
    if status.PresentSame? {
      DropStagedKeeps(w, e);
    }
  }
}
