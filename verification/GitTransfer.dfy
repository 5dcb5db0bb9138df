/** Git: the plan, the pack and the attach.  An object is identified with its
    content (a hash is injective), so the commit graph is acyclic by
    construction; go-git's operations appear as their effect on the sets of
    objects and refs. */
module GitTransfer {
  import opened Common

  datatype Object =
    | Blob(data: string)
    | Tree(entries: map<string, Object>)
    | Commit(parents: seq<Object>, tree: Object, message: string)

  // ---- reachability -------------------------------------------------------------

  /** o and everything it references, directly or not. */
  function Reach(o: Object): (r: set<Object>)
    ensures o in r
  {
    match o
    case Blob(_) => {o}
    case Tree(es) => {o} + set n, x | n in es && x in Reach(es[n]) :: x
    case Commit(ps, t, _) => {o} + Reach(t) + set i, x | 0 <= i < |ps| && x in Reach(ps[i]) :: x
  }

  /** object.Commit.IsAncestor */
  predicate IsAncestor(a: Object, d: Object)
    decreases d
  {
    a == d || (d.Commit? && exists i :: 0 <= i < |d.parents| && IsAncestor(a, d.parents[i]))
  }

  lemma {:induction false} ReachTrans(a: Object, b: Object)
    requires b in Reach(a)
    ensures Reach(b) <= Reach(a)
    decreases a
  {
    if a != b {
      match a {
        case Blob(_) =>
        case Tree(es) =>
          var n :| n in es && b in Reach(es[n]);
          ReachTrans(es[n], b);
        case Commit(ps, t, _) =>
          if b in Reach(t) {
            ReachTrans(t, b);
          } else {
            var i :| 0 <= i < |ps| && b in Reach(ps[i]);
            ReachTrans(ps[i], b);
          }
      }
    }
  }

  lemma {:induction false} AncestorsAreReached(a: Object, d: Object)
    requires IsAncestor(a, d)
    ensures a in Reach(d)
    decreases d
  {
    if a != d {
      var i :| 0 <= i < |d.parents| && IsAncestor(a, d.parents[i]);
      AncestorsAreReached(a, d.parents[i]);
    }
  }

  /** Ancestors are the commit itself, its parents, and theirs. */
  lemma ParentIsAncestor(d: Object, i: nat)
    requires d.Commit? && i < |d.parents|
    ensures IsAncestor(d, d) && IsAncestor(d.parents[i], d)
  {
  }

  lemma {:induction false} AncestorsTrans(a: Object, b: Object, d: Object)
    requires IsAncestor(a, b) && IsAncestor(b, d)
    ensures IsAncestor(a, d)
    decreases d
  {
    if b != d {
      var i :| 0 <= i < |d.parents| && IsAncestor(b, d.parents[i]);
      AncestorsTrans(a, b, d.parents[i]);
    }
  }

  /** A store that has every object its objects reference. */
  predicate Closed(store: set<Object>) {
    forall a :: a in store ==> Reach(a) <= store
  }

  predicate ReachedBy(tips: seq<Object>, o: Object) {
    exists i :: 0 <= i < |tips| && o in Reach(tips[i])
  }

  // ---- the plan -----------------------------------------------------------------------

  /** What the source repository says of the session's checkout. */
  datatype Info = Info(head: Object, branch: string, detached: bool, linked: bool,
                       root: Option<Object>, dirtySubmodules: bool)

  /** What the destination repository said at preflight.  branchTipReachable is
      answered by the source: the destination's tip is an ancestor of head. */
  datatype DestState = DestState(
    mainExists: bool, root: Option<Object>, refTips: seq<(string, Object)>, branchTip: Option<Object>,
    worktreeExists: bool, worktreeBranch: string, worktreeDetached: bool, clean: bool,
    checkedOutElsewhere: bool, branchTipReachable: bool)

  datatype Mode = NotRepo | FreshMain | ExistingMain

  datatype Plan = Plan(mode: Mode, branch: string, tip: Object, detached: bool, linked: bool,
                       needPack: bool, haveTips: seq<Object>, fastForward: bool, stagedBlobs: seq<Object>)

  datatype Planned = Refused(reason: string) | Accepted(plan: Plan)

  /** The destination branch is absent, at the tip, or behind it; a detached
      session names no branch. */
  predicate BranchAgrees(src: Info, dst: DestState) {
    src.detached || dst.branchTip.None? || dst.branchTip.value == src.head || dst.branchTipReachable
  }

  /** The destination checkout can take the session. */
  predicate CheckoutAgrees(src: Info, dst: DestState) {
    if src.linked then !dst.worktreeExists && !dst.checkedOutElsewhere
    else
      && dst.worktreeExists && dst.clean
      && (if src.detached then dst.worktreeDetached else dst.worktreeBranch != "" && dst.worktreeBranch == src.branch)
  }

  predicate Acceptable(src: Info, dst: DestState) {
    && !src.dirtySubmodules
    && (if !dst.mainExists then !dst.worktreeExists
        else dst.root.Some? && dst.root == src.root && BranchAgrees(src, dst) && CheckoutAgrees(src, dst))
  }

  predicate IsTip(refs: seq<(string, Object)>, o: Object) {
    exists i :: 0 <= i < |refs| && refs[i].1 == o
  }

  ghost predicate TipsOf(refs: seq<(string, Object)>, tips: seq<Object>) {
    && (forall o :: o in tips <==> IsTip(refs, o))
    && (forall i, k :: 0 <= i < k < |tips| ==> tips[i] != tips[k])
  }

  lemma AddedTip(refs: seq<(string, Object)>, i: nat, o: Object)
    requires i < |refs|
    ensures IsTip(refs[..i + 1], o) <==> o == refs[i].1 || IsTip(refs[..i], o)
  {
    var longer, shorter := refs[..i + 1], refs[..i];
    assert longer == shorter + [refs[i]];
    assert longer[i] == refs[i];
    if IsTip(shorter, o) {
      var k :| 0 <= k < |shorter| && shorter[k].1 == o;
      assert longer[k].1 == o;
    }
    if IsTip(longer, o) {
      var k :| 0 <= k < |longer| && longer[k].1 == o;
      assert k < i ==> shorter[k].1 == o;
    }
  }

  /** The HaveTips loop: every ref tip once. */
  method DistinctTips(refs: seq<(string, Object)>) returns (tips: seq<Object>, seen: set<Object>)
    ensures TipsOf(refs, tips) && forall o :: o in seen <==> o in tips
  {
    tips, seen := [], {};
    var i := 0;
    while i < |refs|
      invariant i <= |refs| && TipsOf(refs[..i], tips) && forall o :: o in seen <==> o in tips
    {
      forall o ensures IsTip(refs[..i + 1], o) <==> o == refs[i].1 || IsTip(refs[..i], o) {
        AddedTip(refs, i, o);
      }
      if refs[i].1 !in seen {
        tips, seen := tips + [refs[i].1], seen + {refs[i].1};
      }
      i := i + 1;
    }
    assert refs[..|refs|] == refs;
  }

  /** PlanTransfer for a source repository. */
  method PlanTransfer(src: Info, dst: DestState) returns (r: Planned)
    ensures r.Accepted? <==> Acceptable(src, dst)
    ensures r.Accepted? ==>
      var p := r.plan;
      && p.branch == src.branch && p.tip == src.head && p.detached == src.detached && p.linked == src.linked
      && p.stagedBlobs == [] && p.mode == (if dst.mainExists then ExistingMain else FreshMain)
    ensures r.Accepted? && dst.mainExists ==>
      var p := r.plan;
      && TipsOf(dst.refTips, p.haveTips)
      && (p.fastForward <==> !src.detached && dst.branchTip.Some? && dst.branchTip.value != src.head)
      && (!p.needPack <==> if src.detached then src.head in p.haveTips else dst.branchTip == Some(src.head))
  {
    if src.dirtySubmodules {
      return Refused("dirty submodules");
    }
    var p := Plan(FreshMain, src.branch, src.head, src.detached, src.linked, false, [], false, []);
    if !dst.mainExists {
      if dst.worktreeExists {
        return Refused("worktree directory exists");
      }
      return Accepted(p);
    }
    p := p.(mode := ExistingMain);
    if dst.root.None? {
      return Refused("empty repository");
    }
    if dst.root != src.root {
      return Refused("different repository");
    }
    var tips, seen := DistinctTips(dst.refTips);
    p := p.(haveTips := tips);
    if src.detached {
      p := p.(needPack := src.head !in seen);
    } else if dst.branchTip.None? {
      p := p.(needPack := true);
    } else if dst.branchTip.value == src.head {
      p := p.(needPack := false);
    } else if dst.branchTipReachable {
      p := p.(fastForward := true, needPack := true);
    } else {
      return Refused("not a fast-forward");
    }
    if src.linked {
      if dst.worktreeExists {
        return Refused("worktree directory exists");
      }
      if dst.checkedOutElsewhere {
        return Refused("checked out elsewhere");
      }
      return Accepted(p);
    }
    if !dst.worktreeExists {
      return Refused("no working tree");
    }
    if src.detached && dst.worktreeDetached {
    } else if src.detached {
      return Refused("a branch is checked out");
    } else if dst.worktreeBranch == "" {
      return Refused("no branch checked out");
    } else if dst.worktreeBranch != src.branch {
      return Refused("another branch is checked out");
    }
    if !dst.clean {
      return Refused("not clean");
    }
    r := Accepted(p);
  }

  /** SetStagedBlobs */
  function SetStagedBlobs(p: Plan, blobs: seq<Object>): Plan {
    p.(stagedBlobs := blobs, needPack := p.needPack || |blobs| > 0)
  }

  // ---- the pack -----------------------------------------------------------------------------

  function ReachAll(tips: seq<Object>): (r: set<Object>)
    ensures forall o :: o in r <==> ReachedBy(tips, o)
  {
    set i, o | 0 <= i < |tips| && o in Reach(tips[i]) :: o
  }

  /** revlist.Objects: reachable from want, not from have. */
  function RevList(want: seq<Object>, have: seq<Object>): set<Object> {
    ReachAll(want) - ReachAll(have)
  }

  /** WritePack: have-tips the source does not contain are skipped (they are
      commits only the destination has); missing wanted objects are an error. */
  method WritePack(source: set<Object>, want: seq<Object>, have: seq<Object>) returns (pack: Option<set<Object>>)
    requires Closed(source)
    ensures pack.Some? <==> forall o :: o in want ==> o in source
    ensures pack.Some? ==> pack.value <= source && PackFor(source, want, have, pack.value)
  {
    var known: seq<Object> := [];
    var i := 0;
    while i < |have|
      invariant i <= |have| && forall o :: o in known <==> o in have[..i] && o in source
    {
      if have[i] in source {
        known := known + [have[i]];
      }
      i := i + 1;
    }
    assert have[..|have|] == have;
    if exists o :: o in want && o !in source {
      return None;
    }
    pack := Some(RevList(want, known));
    forall o | o in pack.value ensures o in source {
      var k :| 0 <= k < |want| && o in Reach(want[k]);
      assert want[k] in want;
    }
  }

  /** The objects of want's closure that no have-tip the source knows reaches. */
  ghost predicate PackFor(source: set<Object>, want: seq<Object>, have: seq<Object>, pack: set<Object>) {
    forall o :: o in pack <==> ReachedBy(want, o) && !KnownReaches(source, have, o)
  }

  ghost predicate KnownReaches(source: set<Object>, have: seq<Object>, o: Object) {
    exists h :: h in have && h in source && o in Reach(h)
  }

  /** A pack completes any closed store that has the have-tips: afterwards it
      is closed again and holds everything wanted. */
  lemma PackCompletes(source: set<Object>, dest: set<Object>, want: seq<Object>, have: seq<Object>, pack: set<Object>)
    requires PackFor(source, want, have, pack)
    requires Closed(dest) && forall o :: o in have ==> o in dest
    ensures Closed(dest + pack) && ReachAll(want) <= dest + pack
  {
    forall o | ReachedBy(want, o) ensures o in dest + pack {
      if KnownReaches(source, have, o) {
        var h :| h in have && h in source && o in Reach(h);
        assert h in dest;
      }
    }
    forall a | a in dest + pack ensures Reach(a) <= dest + pack {
      if a !in dest {
        var i :| 0 <= i < |want| && a in Reach(want[i]);
        ReachTrans(want[i], a);
        forall b | b in Reach(a) ensures b in dest + pack {
          assert ReachedBy(want, b);
        }
      }
    }
  }

  // ---- the attach ------------------------------------------------------------------------------

  /** The destination repository's objects and branch refs. */
  datatype Stored = Stored(objects: set<Object>, refs: map<string, Object>)

  /** Branches other than p's keep their tips. */
  ghost predicate OtherRefsKept(p: Plan, before: Stored, after: Stored) {
    forall b :: b != p.branch || p.detached ==>
      (b in before.refs <==> b in after.refs) && (b in before.refs ==> after.refs[b] == before.refs[b])
  }

  /** p's branch is where it was, or has moved forward to the tip. */
  ghost predicate MovedForward(p: Plan, before: Stored, after: Stored) {
    || (p.branch in before.refs && p.branch in after.refs && after.refs[p.branch] == before.refs[p.branch])
    || (p.branch !in before.refs && p.branch !in after.refs)
    || (&& p.branch in after.refs && after.refs[p.branch] == p.tip
        && (p.branch in before.refs ==> IsAncestor(before.refs[p.branch], p.tip)))
  }

  ghost predicate OnlyForward(p: Plan, before: Stored, after: Stored) {
    before.objects <= after.objects && OtherRefsKept(p, before, after) && MovedForward(p, before, after)
  }

  ghost predicate Attached(p: Plan, pack: Option<set<Object>>, before: Stored, after: Stored) {
    && OnlyForward(p, before, after)
    && after.objects == before.objects + (if pack.Some? then pack.value else {})
    && p.tip in after.objects && (forall o :: o in p.stagedBlobs ==> o in after.objects)
    && (!p.detached ==> p.branch in after.refs && after.refs[p.branch] == p.tip)
  }

  /** A tree entry by its path. */
  function Lookup(t: Object, path: seq<string>): Option<Object>
    decreases |path|
  {
    match t
    case Blob(_) => if path == [] then Some(t) else None
    case Tree(es) => if path != [] && path[0] in es then Lookup(es[path[0]], path[1..]) else None
    case Commit(_, _, _) => None
  }

  /** One difference between two trees: what the path holds in the new one. */
  datatype Change = Change(path: seq<string>, to: Option<Object>)

  /** What DiffTree (renames off) promises. */
  ghost predicate DiffOf(from: Object, to: Object, changes: seq<Change>) {
    && (forall c :: c in changes ==> Lookup(from, c.path) != Lookup(to, c.path) && c.to == Lookup(to, c.path))
    && (forall path :: Lookup(from, path) != Lookup(to, path) ==> exists c :: c in changes && c.path == path)
  }

  type Files = map<seq<string>, Object>

  function At(files: Files, path: seq<string>): Option<Object> {
    if path in files then Some(files[path]) else None
  }

  /** The paths of a tree's files, and the tree as an index lists it. */
  function PathsOf(t: Object): (r: set<seq<string>>) {
    match t
    case Blob(_) => {[]}
    case Tree(es) => set n, q | n in es && q in PathsOf(es[n]) :: [n] + q
    case Commit(_, _, _) => {}
  }

  lemma {:induction false} PathsAre(t: Object, path: seq<string>)
    ensures path in PathsOf(t) <==> Lookup(t, path).Some?
    decreases |path|
  {
    match t {
      case Tree(es) =>
        if path in PathsOf(t) {
          var n, q :| n in es && q in PathsOf(es[n]) && path == [n] + q;
          assert path[0] == n && path[1..] == q;
          PathsAre(es[n], q);
        } else if path != [] && path[0] in es {
          PathsAre(es[path[0]], path[1..]);
          assert path == [path[0]] + path[1..];
        }
      case _ =>
    }
  }

  function Listed(t: Object): (r: Files)
    ensures forall path :: At(r, path) == Lookup(t, path)
  {
    forall path ensures path in PathsOf(t) <==> Lookup(t, path).Some? {
      PathsAre(t, path);
    }
    map path | path in PathsOf(t) && Lookup(t, path).Some? :: Lookup(t, path).value
  }

  ghost predicate Named(changes: seq<Change>, n: nat, path: seq<string>)
    requires n <= |changes|
  {
    exists k :: 0 <= k < n && changes[k].path == path
  }

  /** The files follow the difference of the trees, and nothing else changes. */
  ghost predicate MovedFiles(from: Object, to: Object, before: Files, after: Files) {
    forall path :: At(after, path) == if Lookup(from, path) != Lookup(to, path) then Lookup(to, path) else At(before, path)
  }

  /** A checkout: its index and the files in its directory. */
  datatype Checkout = Checkout(index: Files, files: Files)

  /** Nothing staged, modified, deleted or untracked. */
  predicate Clean(c: Checkout, tree: Object, ignored: seq<string> -> bool) {
    && c.index == Listed(tree)
    && (forall path :: path in c.index ==> path in c.files && c.files[path] == c.index[path])
    && (forall path :: path in c.files && path !in c.index ==> ignored(path))
  }

  /** The source's dirty files: its index, and what differs from it. */
  datatype Dirty = Dirty(index: Option<Files>, files: Files)

  function Dirtied(c: Checkout, d: Dirty): Checkout {
    Checkout(if d.index.Some? then d.index.value else c.index, c.files + d.files)
  }

  /** The dirty files on top of base: each of them is there as the source has
      it, every other path is as base says, and the index is the source's if it
      has one of its own. */
  ghost predicate OnTop(index: Files, base: seq<string> -> Option<Object>, d: Dirty, after: Checkout) {
    && (forall path :: path in d.files ==> path in after.files && after.files[path] == d.files[path])
    && (forall path :: path !in d.files ==> At(after.files, path) == base(path))
    && after.index == (if d.index.Some? then d.index.value else index)
  }

  /** What a path of a checkout holds once it has followed the two trees. */
  function Followed(from: Object, to: Object, files: Files): seq<string> -> Option<Object> {
    (path: seq<string>) => if Lookup(from, path) != Lookup(to, path) then Lookup(to, path) else At(files, path)
  }

  function Holds(files: Files): seq<string> -> Option<Object> {
    (path: seq<string>) => At(files, path)
  }

  lemma DirtiedIsOnTop(c: Checkout, d: Dirty, base: seq<string> -> Option<Object>)
    requires forall path :: At(c.files, path) == base(path)
    ensures OnTop(c.index, base, d, Dirtied(c, d))
  {
  }

  const NOTHING_DIRTY := Dirty(None, map[])

  /** A clean checkout whose index and files follow the trees is clean again. */
  lemma MovedIsClean(c: Checkout, from: Object, to: Object, files: Files, ignored: seq<string> -> bool)
    requires Clean(c, from, ignored) && MovedFiles(from, to, c.files, files)
    ensures Clean(Checkout(Listed(to), files), to, ignored)
  {
    var index := Listed(to);
    forall path | path in index ensures path in files && files[path] == index[path] {
      assert At(files, path) == if Lookup(from, path) != Lookup(to, path) then Lookup(to, path) else At(c.files, path);
      assert At(index, path) == Lookup(to, path) && At(c.index, path) == Lookup(from, path);
    }
    forall path | path in files && path !in index ensures ignored(path) {
      assert At(files, path) == if Lookup(from, path) != Lookup(to, path) then Lookup(to, path) else At(c.files, path);
      assert At(index, path) == Lookup(to, path) && At(c.index, path) == Lookup(from, path);
    }
  }

  lemma StayedIsMoved(tree: Object, files: Files)
    ensures MovedFiles(tree, tree, files, files)
  {
  }

  lemma NothingDirtied(c: Checkout)
    ensures Dirtied(c, NOTHING_DIRTY) == c
  {
    assert c.files + map[] == c.files;
  }

  class Repo {
    var objects: set<Object>
    var refs: map<string, Object>
    var headBranch: Option<string>              // None: detached
    var detachedHead: Object
    var main: Checkout
    const ignored: seq<string> -> bool
    var linked: Option<Checkout>                // the linked worktree, once populated
    var worktreeExists: bool                    // its directory
    var worktreeOurs: bool                      // linkedRerun: it is ours from an earlier attach
    var checkedOutElsewhere: bool

    function State(): Stored
      reads this
    {
      Stored(objects, refs)
    }

    predicate Valid()
      reads this
    {
      && (headBranch.Some? ==> headBranch.value in refs)
      && (worktreeOurs ==> linked.Some?)
    }

    function Head(): Object
      requires Valid()
      reads this
    {
      if headBranch.Some? then refs[headBranch.value] else detachedHead
    }

    /** The main checkout as the index, the files and HEAD have it. */
    predicate MainClean()
      reads this
    {
      Valid() && Head().Commit? && Clean(main, Head().tree, ignored)
    }

    /** ensureBranch */
    method EnsureBranch(p: Plan) returns (ok: bool)
      modifies `refs
      ensures ok ==> p.branch in refs && refs[p.branch] == p.tip
      ensures ok ==> refs == old(refs)[p.branch := p.tip]
      ensures ok && p.branch in old(refs) ==> IsAncestor(old(refs)[p.branch], p.tip)
      ensures !ok ==> refs == old(refs) && p.branch in refs && refs[p.branch] != p.tip
      ensures !ok && p.fastForward ==> !IsAncestor(refs[p.branch], p.tip)
    {
      if p.branch !in refs {
        refs := refs[p.branch := p.tip];
        return true;
      }
      if refs[p.branch] == p.tip {
        return true;
      }
      if !p.fastForward || !IsAncestor(refs[p.branch], p.tip) {
        return false;
      }
      refs := refs[p.branch := p.tip];
      ok := true;
    }

    /** checkLinkedDestination or checkFastForwardState, before anything is
        changed. */
    predicate Gate(p: Plan)
      reads this
    {
      if p.linked then (worktreeExists ==> worktreeOurs) && !checkedOutElsewhere
      else
        && MainClean()
        && (if p.detached then headBranch.None? else headBranch == Some(p.branch) && p.branch != "")
    }

    /** applyTreeDiff: exactly the paths in which the trees differ. */
    method ApplyTreeDiff(from: Object, to: Object, changes: seq<Change>)
      requires DiffOf(from, to, changes)
      modifies `main
      ensures main.index == old(main.index) && MovedFiles(from, to, old(main.files), main.files)
    {
      var i := 0;
      while i < |changes|
        invariant i <= |changes| && main.index == old(main.index)
        invariant forall path :: At(main.files, path) == if Named(changes, i, path) then Lookup(to, path) else At(old(main.files), path)
      {
        var c := changes[i];
        assert c in changes;
        if c.to.None? {
          main := main.(files := main.files - {c.path});
        } else {
          main := main.(files := main.files[c.path := c.to.value]);
        }
        i := i + 1;
      }
      forall path ensures Named(changes, |changes|, path) <==> Lookup(from, path) != Lookup(to, path) {
        if Lookup(from, path) != Lookup(to, path) {
          var c :| c in changes && c.path == path;
        }
        if k :| 0 <= k < |changes| && changes[k].path == path {
          assert changes[k] in changes;
        }
      }
    }

    /** fastForwardMainCheckout: nothing when the checkout already sat at the
        tip, else HEAD and the index are reset and the differing files move. */
    method FastForwardCheckout(p: Plan, head: Object, changes: seq<Change>)
      requires p.tip.Commit? && head.Commit? && DiffOf(head.tree, p.tip.tree, changes)
      requires Valid() && (if p.detached then headBranch.None? else headBranch == Some(p.branch) && refs[p.branch] == p.tip)
      modifies `main, `detachedHead
      ensures Valid()
      ensures head == p.tip ==> main == old(main) && detachedHead == old(detachedHead)
      ensures head != p.tip && p.detached ==> detachedHead == p.tip
      ensures head != p.tip ==>
        main.index == Listed(p.tip.tree) && MovedFiles(head.tree, p.tip.tree, old(main.files), main.files)
    {
      if head == p.tip {
        return;
      }
      if headBranch.None? {
        detachedHead := p.tip;
      }
      main := main.(index := Listed(p.tip.tree));
      ApplyTreeDiff(head.tree, p.tip.tree, changes);
    }

    /** createLinkedWorktree: populated from the tip, unless an earlier attach
        already has. */
    method CreateLinkedWorktree(p: Plan)
      requires Valid() && p.tip.Commit?
      modifies `linked, `worktreeExists, `worktreeOurs
      ensures Valid() && worktreeExists && worktreeOurs && linked.Some?
      ensures linked == if old(worktreeOurs) then old(linked) else Some(Checkout(Listed(p.tip.tree), Listed(p.tip.tree)))
    {
      if worktreeOurs {
        worktreeExists := true;
        return;
      }
      linked := Some(Checkout(Listed(p.tip.tree), Listed(p.tip.tree)));
      worktreeExists, worktreeOurs := true, true;
    }

    /** The checkout's half of the attach: the linked worktree, or the main one,
        and then the dirty files. */
    method Populate(p: Plan, head: Object, changes: seq<Change>, dirty: Dirty)
      requires Valid() && p.tip.Commit? && head.Commit? && DiffOf(head.tree, p.tip.tree, changes)
      requires !p.linked ==> Clean(main, head.tree, ignored)
      requires !p.linked ==> if p.detached then headBranch.None? else headBranch == Some(p.branch) && refs[p.branch] == p.tip
      requires !p.linked && p.detached && head == p.tip ==> detachedHead == p.tip
      modifies `main, `detachedHead, `linked, `worktreeExists, `worktreeOurs
      ensures Valid()
      ensures p.linked ==> main == old(main) && detachedHead == old(detachedHead) && linked.Some?
      ensures p.linked && old(worktreeOurs) ==>
        OnTop(old(linked).value.index, Holds(old(linked).value.files), dirty, linked.value)
      ensures p.linked && !old(worktreeOurs) ==>
        OnTop(Listed(p.tip.tree), (path: seq<string>) => Lookup(p.tip.tree, path), dirty, linked.value)
      ensures !p.linked ==>
        Head() == p.tip && OnTop(Listed(p.tip.tree), Followed(head.tree, p.tip.tree, old(main.files)), dirty, main)
      ensures !p.linked && dirty == NOTHING_DIRTY ==> MainClean()
    {
      hide DiffOf, Lookup, Listed;
      if p.linked {
        CreateLinkedWorktree(p);
        var base := linked.value;
        linked := Some(Dirtied(base, dirty));
        DirtiedIsOnTop(base, dirty, Holds(base.files));
        if !old(worktreeOurs) {
          DirtiedIsOnTop(base, dirty, (path: seq<string>) => Lookup(p.tip.tree, path));
        }
      } else {
        FastForwardCheckout(p, head, changes);
        StayedIsMoved(head.tree, main.files);
        MovedIsClean(old(main), head.tree, p.tip.tree, main.files, ignored);
        ghost var files := main.files;
        assert main == Checkout(Listed(p.tip.tree), files);
        NothingDirtied(main);
        DirtiedIsOnTop(main, dirty, Followed(head.tree, p.tip.tree, old(main).files));
        main := Dirtied(main, dirty);
      }
    }

    /** attachExisting.  A refusal before the pack is indexed changes nothing;
        whatever fails later, the branch has only moved forward, every other
        branch is as it was and no object is lost.  If it stops between the
        branch and the checkout, HEAD is at the tip over the old index, and no
        later attach passes the gate. */
    method AttachExisting(p: Plan, pack: Option<set<Object>>, changes: seq<Change>, dirty: Dirty) returns (ok: bool)
      requires Valid() && p.tip.Commit? && Head().Commit? && DiffOf(Head().tree, p.tip.tree, changes)
      modifies this
      ensures Valid() && OnlyForward(p, old(State()), State())
      ensures p.linked && ((old(worktreeExists) && !old(worktreeOurs)) || old(checkedOutElsewhere)) ==>
        !ok && State() == old(State())
      ensures !p.linked && !(old(MainClean()) && (if p.detached then old(headBranch) == None
                                                  else p.branch != "" && old(headBranch) == Some(p.branch))) ==>
        !ok && State() == old(State())
      ensures !ok ==> main == old(main) && linked == old(linked)
      ensures ok ==> Attached(p, pack, old(State()), State())
      ensures ok && p.linked ==> main == old(main) && linked.Some?
      ensures ok && p.linked && old(worktreeOurs) ==>
        OnTop(old(linked).value.index, Holds(old(linked).value.files), dirty, linked.value)
      ensures ok && p.linked && !old(worktreeOurs) ==>
        OnTop(Listed(p.tip.tree), (path: seq<string>) => Lookup(p.tip.tree, path), dirty, linked.value)
      ensures ok && !p.linked ==>
        Head() == p.tip && OnTop(Listed(p.tip.tree), Followed(old(Head()).tree, p.tip.tree, old(main.files)), dirty, main)
      ensures ok && !p.linked && dirty == NOTHING_DIRTY ==> MainClean()
      ensures !ok && !p.linked && Head() == p.tip && Listed(old(Head()).tree) != Listed(p.tip.tree) ==>
        forall q: Plan :: !q.linked ==> !Gate(q)
    {
      hide DiffOf, Lookup, Listed, IsAncestor, OnTop;
      if !Gate(p) {
        return false;
      }
      var head := Head();
      if pack.Some? {
        objects := objects + pack.value;
      }
      if p.tip !in objects || exists o :: o in p.stagedBlobs && o !in objects {
        return false;
      }
      if !p.detached {
        ok := EnsureBranch(p);
        if !ok {
          return;
        }
      }
      var cancelled := *;
      if cancelled {
        return false;
      }
      Populate(p, head, changes, dirty);
      ok := true;
    }
  }

  // ---- the whole transfer -----------------------------------------------------------------------

  /** What PlanTransfer returns for an existing main repository. */
  ghost predicate PlanFor(src: Info, ds: DestState, p: Plan) {
    && p.branch == src.branch && p.tip == src.head && p.detached == src.detached && p.linked == src.linked
    && TipsOf(ds.refTips, p.haveTips)
    && (p.fastForward <==> !src.detached && ds.branchTip.Some? && ds.branchTip.value != src.head)
    && (!p.needPack <==> if src.detached then src.head in p.haveTips else ds.branchTip == Some(src.head))
  }

  /** Forward-only and complete: for a plan made from what the destination said
      at preflight, with its staged blobs set, an attach that succeeds leaves
      the branch at the tip, ahead of where it stood, every other branch alone,
      and the whole closure of the tip and every staged blob in the store, with
      a pack or, when none was needed, without.  In between, the destination
      may have gained objects and moved refs. */
  lemma TransferIsComplete(src: Info, ds: DestState, p0: Plan, blobs: seq<Object>, source: set<Object>,
                           pack: Option<set<Object>>, before: Stored, after: Stored)
    requires PlanFor(src, ds, p0) && p0.stagedBlobs == []
    requires Closed(before.objects) && forall i :: 0 <= i < |ds.refTips| ==> ds.refTips[i].1 in before.objects
    requires var p := SetStagedBlobs(p0, blobs);
             && (if p.needPack then pack.Some? && PackFor(source, [p.tip] + blobs, p.haveTips, pack.value) else pack.None?)
             && Attached(p, pack, before, after)
    ensures Closed(after.objects) && ReachAll([src.head] + blobs) <= after.objects
    ensures !src.detached ==>
      && src.branch in after.refs && after.refs[src.branch] == src.head
      && (src.branch in before.refs ==> IsAncestor(before.refs[src.branch], src.head))
    ensures forall b :: b != src.branch || src.detached ==>
      (b in before.refs <==> b in after.refs) && (b in before.refs ==> after.refs[b] == before.refs[b])
  {
    var p := SetStagedBlobs(p0, blobs);
    forall o | o in p.haveTips ensures o in before.objects {
      assert IsTip(ds.refTips, o);
    }
    if p.needPack {
      PackCompletes(source, before.objects, [p.tip] + blobs, p.haveTips, pack.value);
    } else {
      forall o | ReachedBy([p.tip] + blobs, o) ensures o in after.objects {
        assert blobs == [] && [p.tip] + blobs == [p.tip];
      }
    }
    if !src.detached && src.branch in before.refs {
      assert IsAncestor(src.head, src.head);
    }
  }
}
