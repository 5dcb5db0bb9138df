/** What a crash may leave behind: Midway describes the worlds of an interrupted
    transfer, Allowed the atomic actions that keep it, so that every prefix of
    a sequence of allowed actions ends in such a world. */
module Interrupted {
  import opened Destination
  import opened Transfer

  /** The tree and records before the job touched anything, and the job. */
  datatype Job = Job(fs0: Fs, roots0: set<Path>, m: Manifest, pol: Policy)

  ghost predicate WellFormed(m: Manifest) {
    && (forall i, j :: 0 <= i < j < |m| ==> m[i].id != m[j].id)
    && (forall i, j :: 0 <= i < j < |m| ==> m[i].dst != m[j].dst)
  }

  lemma SameEntry(m: Manifest, e: Entry, f: Entry)
    requires WellFormed(m) && e in m && f in m
    requires e.id == f.id || e.dst == f.dst
    ensures e == f
  {
    var i :| 0 <= i < |m| && m[i] == e;
    var j :| 0 <= j < |m| && m[j] == f;
    if i < j {
    } else if j < i {
    }
  }

  /** The overwrite rule of the original tree: when the job may change what
      already stood at e.dst. */
  ghost predicate MayReplace(j: Job, e: Entry) {
    e.dst in j.fs0 ==>
      var was := j.fs0[e.dst];
      || was == e.Node()
      || (Deferrable(e) && e.category.CatCapture? && e.kind.Regular? && !was.Dir?)
      || (was.File? && e.ffAllowed && e.kind.Regular? && j.pol.ffTest(e.dst, was.content, e.digest.of))
      || MayForce(j.pol, e)
  }

  /** What stood at e's place differs from e and is not extended by it: only
      force replaces that. */
  ghost predicate Forces(j: Job, e: Entry) {
    && MayForce(j.pol, e) && e.dst in j.fs0 && j.fs0[e.dst] != e.Node()
    && !(j.fs0[e.dst].File? && j.pol.ffTest(e.dst, j.fs0[e.dst].content, e.digest.of))
  }

  ghost predicate ForcedAt(j: Job, p: Path) {
    exists e :: e in j.m && e.dst == p && Forces(j, e)
  }

  /** p is a directory some entry needs: above it, or a directory entry. */
  ghost predicate AboveSome(j: Job, p: Path) {
    exists e :: e in j.m && UnderDir(e.dst, p) && (e.dst == p ==> e.kind.Directory?)
  }

  ghost predicate DeliveredAt(j: Job, p: Path, node: Node) {
    exists e :: e in j.m && e.dst == p && node == e.Node() && MayReplace(j, e)
  }

  /** One path of an interrupted job's tree. */
  ghost predicate PathMidway(j: Job, fs: Fs, p: Path) {
    if p in fs then
      || (p in j.fs0 && fs[p] == j.fs0[p])
      || DeliveredAt(j, p, fs[p])
      || (fs[p].Dir? && AboveSome(j, p) && (p in j.fs0 ==> ForcedAt(j, p)))
    else
      p in j.fs0 ==> ForcedAt(j, p)
  }

  /** The root that must be this job's before e may be placed. */
  ghost predicate RootOf(j: Job, e: Entry, root: Path) {
    && GitCategory(e.category) && !e.deferred
    && EntryRoot(e.dst, j.pol.roots) != [] && EntryRoot(e.dst, j.pol.roots)[0].path == root
  }

  ghost predicate ClaimsDone(j: Job, roots: set<Path>) {
    forall e, root :: e in j.m && RootOf(j, e, root) ==> root in roots || root in j.fs0
  }

  ghost predicate StagedVerified(m: Manifest, files: map<int, Content>) {
    forall e :: e in m && e.id in files ==> Sha256(files[e.id]) == e.digest
  }

  ghost predicate Midway(j: Job, w: World) {
    && TreeOk(w.fs)
    && StagedVerified(j.m, w.files)
    && j.roots0 <= w.roots
    && (w.fs == j.fs0 || ClaimsDone(j, w.roots))
    && forall p :: PathMidway(j, w.fs, p)
  }

  // ---- one action ---------------------------------------------------------

  ghost predicate ParentIsDir(fs: Fs, p: Path) {
    p != [] && Parent(p) in fs && fs[Parent(p)].Dir?
  }

  /** What some entry delivers at p stands there. */
  ghost predicate Delivered(j: Job, fs: Fs, p: Path) {
    p in fs && exists e :: e in j.m && e.dst == p && e.Node() == fs[p]
  }

  /** The actions the engine may take in world w. */
  ghost predicate Allowed(j: Job, w: World, a: Action) {
    match a
    case CommitPartial(id, c) => forall e :: e in j.m && e.id == id ==> Sha256(c) == e.digest
    case Mkdir(p) =>
      ClaimsDone(j, w.roots) && p !in w.fs && ParentIsDir(w.fs, p) && AboveSome(j, p)
    case MoveIn(id, p) =>
      && ClaimsDone(j, w.roots) && id in w.files && ParentIsDir(w.fs, p)
      && (p in w.fs ==> !w.fs[p].Dir?)
      && exists e :: e in j.m && e.id == id && e.dst == p && e.kind.Regular? && MayReplace(j, e)
    case MakeLink(p, t) =>
      && ClaimsDone(j, w.roots) && p !in w.fs && ParentIsDir(w.fs, p)
      && exists e :: e in j.m && e.dst == p && e.kind == Link(t) && MayReplace(j, e)
    case Remove(p) =>
      && ClaimsDone(j, w.roots) && p != [] && Childless(w.fs, p) && (p in j.fs0 ==> ForcedAt(j, p))
      && !Delivered(j, w.fs, p)
    case _ => true
  }

  lemma TreeGrows(fs: Fs, p: Path, node: Node)
    requires TreeOk(fs) && ParentIsDir(fs, p)
    requires p in fs ==> !fs[p].Dir?
    ensures TreeOk(fs[p := node])
  {
    var r := fs[p := node];
    forall q | q in r && q != [] ensures Parent(q) in r && r[Parent(q)].Dir? {
      assert Parent(q) in fs;
    }
  }

  lemma TreeShrinks(fs: Fs, p: Path)
    requires TreeOk(fs) && p != [] && Childless(fs, p)
    ensures TreeOk(fs - {p})
  {
    var r := fs - {p};
    forall q | q in r && q != [] ensures Parent(q) in r && r[Parent(q)].Dir? {
      if Parent(q) == p {
        UnderParent(q, p);
      }
    }
  }

  lemma StepKeepsMidway(j: Job, w: World, a: Action)
    requires Midway(j, w) && Allowed(j, w, a)
    ensures Midway(j, Step(w, a))
  {
    var w' := Step(w, a);
    match a {
      case Mkdir(p) =>
        TreeGrows(w.fs, p, Dir);
        assert PathMidway(j, w.fs, p);
        forall q ensures PathMidway(j, w'.fs, q) {
          assert PathMidway(j, w.fs, q);
        }
      case MoveIn(id, p) =>
        TreeGrows(w.fs, p, File(w.files[id]));
        forall q ensures PathMidway(j, w'.fs, q) {
          assert PathMidway(j, w.fs, q);
        }
      case MakeLink(p, t) =>
        TreeGrows(w.fs, p, Symlink(t));
        forall q ensures PathMidway(j, w'.fs, q) {
          assert PathMidway(j, w.fs, q);
        }
      case Remove(p) =>
        TreeShrinks(w.fs, p);
        forall q ensures PathMidway(j, w'.fs, q) {
          assert PathMidway(j, w.fs, q);
        }
      case _ =>
        forall q ensures PathMidway(j, w'.fs, q) {
          assert PathMidway(j, w.fs, q);
        }
    }
  }

  /** What was delivered stays, whatever the engine does next. */
  lemma StepKeepsDelivered(j: Job, w: World, a: Action, e: Entry)
    requires WellFormed(j.m) && Midway(j, w) && Allowed(j, w, a) && e in j.m && Stands(w, e)
    ensures Stands(Step(w, a), e)
  {
    match a {
      case MoveIn(id, p) =>
        if p == e.dst {
          var f :| f in j.m && f.id == id && f.dst == p && f.kind.Regular?;
          SameEntry(j.m, e, f);
        }
      case Remove(p) =>
        assert p == e.dst ==> Delivered(j, w.fs, p);
      case _ =>
    }
  }

  ghost predicate Stands(w: World, e: Entry) {
    e.dst in w.fs && w.fs[e.dst] == e.Node()
  }

  // ---- sequences of actions ---------------------------------------------------

  ghost predicate AllAllowed(j: Job, w: World, acts: seq<Action>)
    decreases |acts|
  {
    acts == [] || (Allowed(j, w, acts[0]) && AllAllowed(j, Step(w, acts[0]), acts[1..]))
  }

  lemma {:induction false} AllAllowedConcat(j: Job, w: World, a: seq<Action>, b: seq<Action>)
    requires AllAllowed(j, w, a) && AllAllowed(j, Exec(w, a), b)
    ensures AllAllowed(j, w, a + b)
    decreases |a|
  {
    if a == [] {
      assert a + b == b;
    } else {
      assert (a + b)[1..] == a[1..] + b;
      AllAllowedConcat(j, Step(w, a[0]), a[1..], b);
    }
  }

  lemma {:induction false} ExecKeepsDelivered(j: Job, w: World, acts: seq<Action>, n: nat, e: Entry)
    requires WellFormed(j.m) && Midway(j, w) && AllAllowed(j, w, acts) && n <= |acts| && e in j.m && Stands(w, e)
    ensures Stands(Exec(w, acts[..n]), e)
    decreases n
  {
    if n > 0 {
      StepKeepsMidway(j, w, acts[0]);
      StepKeepsDelivered(j, w, acts[0], e);
      ExecKeepsDelivered(j, Step(w, acts[0]), acts[1..], n - 1, e);
      assert acts[..n][1..] == acts[1..][..n - 1];
    }
  }

  /** Stopping anywhere inside allowed actions leaves an interrupted world. */
  lemma {:induction false} PrefixMidway(j: Job, w: World, acts: seq<Action>, n: nat)
    requires Midway(j, w) && AllAllowed(j, w, acts) && n <= |acts|
    ensures Midway(j, Exec(w, acts[..n]))
    decreases n
  {
    if n > 0 {
      StepKeepsMidway(j, w, acts[0]);
      PrefixMidway(j, Step(w, acts[0]), acts[1..], n - 1);
      assert acts[..n][1..] == acts[1..][..n - 1];
    }
  }
}
