/** UninstallIDs on a tree with symbolic links: it reads what it is about to
    remove through links, and removes the name.  What it takes away, and exactly
    when that is the job's own node. */
module Removal {
  import opened Common
  import opened Destination
  import opened Transfer
  import Landing

  // ---- the operation ---------------------------------------------------------------

  function Selected(m: Manifest, ids: set<int>): (r: Manifest)
    ensures forall e :: e in r <==> e in m && e.id in ids
  {
    if m == [] then [] else
    if m[0].id in ids then [m[0]] + Selected(m[1..], ids) else Selected(m[1..], ids)
  }

  /** The node os.Remove and os.Readlink act on: p's directory is followed, its
      last name is not. */
  function EntryOf(fs: Fs, p: Path): (q: Option<Path>)
    ensures q.Some? ==> q.value in fs
  {
    if p == [] then None
    else
      match Landing.NameIn(fs, p)
      case None => None
      case Some(q) => if q in fs then Some(q) else None
  }

  /** p reads as recorded: a file and an empty directory through any link, a link
      by its own text. */
  predicate ReadsAs(fs: Fs, p: Path, k: RecordKind) {
    match k
    case SymlinkRecord(t) => EntryOf(fs, p).Some? && fs[EntryOf(fs, p).value] == Symlink(t)
    case FileRecord(d) =>
      var r := Landing.Stat(fs, p);
      r.Found? && r.path in fs && fs[r.path].File? && Sha256(fs[r.path].content) == d
    case DirRecord =>
      var r := Landing.Stat(fs, p);
      r.Found? && r.path in fs && fs[r.path].Dir? && Childless(fs, r.path)
  }

  /** The node that goes when p reads as recorded. */
  function Victim(fs: Fs, p: Path, k: RecordKind): (q: Option<Path>)
    ensures q.Some? ==> q.value in fs && q.value != [] && (fs[q.value].Dir? ==> Childless(fs, q.value))
  {
    var q := EntryOf(fs, p);
    if ReadsAs(fs, p, k) && q.Some? && q.value != [] && (fs[q.value].Dir? ==> Childless(fs, q.value)) then q else None
  }

  /** Directories are left to the second pass; the record must be of e's kind. */
  predicate RecordedKind(installed: map<Path, RecordKind>, e: Entry) {
    e.dst in installed &&
    match e.kind
    case Directory => false
    case Link(_) => installed[e.dst].SymlinkRecord?
    case Regular => installed[e.dst].FileRecord?
  }

  function FileVictim(fs: Fs, installed: map<Path, RecordKind>, e: Entry): (q: Option<Path>)
    ensures q.Some? ==> q.value in fs && q.value != []
  {
    if RecordedKind(installed, e) then Victim(fs, e.dst, installed[e.dst]) else None
  }

  function RemoveFiles(fs: Fs, installed: map<Path, RecordKind>, es: Manifest): seq<Action> {
    if es == [] then []
    else
      var q := FileVictim(fs, installed, es[0]);
      if q.Some? then [Remove(q.value)] + RemoveFiles(fs - {q.value}, installed, es[1..])
      else RemoveFiles(fs, installed, es[1..])
  }

  /** The directories createdDirsDeepestFirst considers. */
  predicate CreatedDir(sub: Manifest, installed: map<Path, RecordKind>, kept: set<Path>, d: Path) {
    && d in installed && installed[d].DirRecord? && d !in kept
    && exists e :: e in sub && UnderDir(e.dst, d)
  }

  ghost predicate DeepestFirst(order: seq<Path>, sub: Manifest, installed: map<Path, RecordKind>, kept: set<Path>) {
    && (forall d :: d in order <==> CreatedDir(sub, installed, kept, d))
    && (forall i, k :: 0 <= i < k < |order| ==> order[i] != order[k] && |order[i]| >= |order[k]|)
  }

  function RemoveDirs(fs: Fs, order: seq<Path>): seq<Action> {
    if order == [] then []
    else
      var q := Victim(fs, order[0], DirRecord);
      if q.Some? then [Remove(q.value)] + RemoveDirs(fs - {q.value}, order[1..])
      else RemoveDirs(fs, order[1..])
  }

  function KeptPaths(m: Manifest, ids: set<int>): set<Path> {
    set e | e in m && e.id !in ids :: e.dst
  }

  /** UninstallIDs: nothing at all when the reduced manifest is refused. */
  function UninstallIDs(w: World, m: Manifest, ids: set<int>, pol: Policy, order: seq<Path>): seq<Action> {
    var sub := Selected(m, ids);
    if !CheckAll(w.fs, w.roots, sub, pol) then []
    else
      var files := RemoveFiles(w.fs, w.installed, sub);
      files + RemoveDirs(Exec(w, files).fs, order)
  }

  function NodeRecord(n: Node): RecordKind {
    match n
    case File(c) => FileRecord(Sha256(c))
    case Dir => DirRecord
    case Symlink(t) => SymlinkRecord(t)
  }

  // ---- reading a real path ------------------------------------------------------------

  lemma {:induction false} WalkReal(fs: Fs, p: Path, i: nat, links: nat)
    requires TreeOk(fs) && p in fs && Clean(p) && !fs[p].Symlink? && i <= |p|
    ensures Landing.Walk(fs, p[..i], p[i..], links) == Landing.Found(p)
    decreases |p| - i
  {
    AncestorsExist(fs, p);
    assert UnderDir(p, p[..i]);
    if i == |p| {
      assert p[..i] == p && p[i..] == [];
    } else {
      assert UnderDir(p, p[..i + 1]) && p[..i] + [p[i..][0]] == p[..i + 1] && p[i..][1..] == p[i + 1..];
      WalkReal(fs, p, i + 1, links);
    }
  }

  lemma RealStat(fs: Fs, p: Path)
    requires TreeOk(fs) && p in fs && Clean(p) && !fs[p].Symlink?
    ensures Landing.Stat(fs, p) == Landing.Found(p)
  {
    WalkReal(fs, p, 0, Landing.KERNEL_LINKS);
    assert p[..0] == [] && p[0..] == p;
  }

  /** A node of the tree is its own directory entry. */
  lemma RealEntry(fs: Fs, p: Path)
    requires TreeOk(fs) && p in fs && Clean(p) && p != []
    ensures EntryOf(fs, p) == Some(p)
  {
    var up := Parent(p);
    assert forall i :: 0 <= i < |up| ==> up[i] == p[i];
    RealStat(fs, up);
    assert up + [p[|p| - 1]] == p;
  }

  ghost predicate NoLinkOn(fs: Fs, p: Path) {
    forall q :: q in fs && UnderDir(p, q) ==> !fs[q].Symlink?
  }

  lemma {:induction false} WalkStraight(fs: Fs, p: Path, i: nat, links: nat)
    requires Clean(p) && NoLinkOn(fs, p) && i <= |p| && Landing.Walk(fs, p[..i], p[i..], links).Found?
    ensures Landing.Walk(fs, p[..i], p[i..], links) == Landing.Found(p)
    decreases |p| - i
  {
    if i == |p| {
      assert p[..i] == p && p[i..] == [];
    } else {
      assert UnderDir(p, p[..i + 1]) && p[..i] + [p[i..][0]] == p[..i + 1] && p[i..][1..] == p[i + 1..];
      WalkStraight(fs, p, i + 1, links);
    }
  }

  /** With no link on the way, the entry acted on is the path itself. */
  lemma StraightEntry(fs: Fs, p: Path)
    requires Clean(p) && p != [] && NoLinkOn(fs, Parent(p)) && EntryOf(fs, p).Some?
    ensures EntryOf(fs, p) == Some(p)
  {
    var up := Parent(p);
    assert forall i :: 0 <= i < |up| ==> up[i] == p[i];
    WalkStraight(fs, up, 0, Landing.KERNEL_LINKS);
    assert up[..0] == [] && up[0..] == up && up + [p[|p| - 1]] == p;
  }

  // ---- exactly when the job's own node goes -----------------------------------------------

  /** p still holds the node that was recorded there, nothing in it. */
  ghost predicate Own(fs: Fs, p: Path, k: RecordKind) {
    p in fs && NodeRecord(fs[p]) == k && (fs[p].Dir? ==> Childless(fs, p))
  }

  lemma OwnIsVictim(fs: Fs, p: Path, k: RecordKind)
    requires TreeOk(fs) && Clean(p) && p != [] && Own(fs, p, k)
    ensures Victim(fs, p, k) == Some(p)
  {
    RealEntry(fs, p);
    if !fs[p].Symlink? {
      RealStat(fs, p);
    }
  }

  /** What reads as recorded is the job's own node if and only if p is a name of
      the real tree and holds no link but a recorded one. */
  lemma OwnExactly(fs: Fs, p: Path, k: RecordKind)
    requires TreeOk(fs) && Clean(p) && p != [] && Victim(fs, p, k).Some?
    ensures Own(fs, p, k) <==> p in fs && (fs[p].Symlink? ==> k.SymlinkRecord?)
    ensures Own(fs, p, k) ==> Victim(fs, p, k) == Some(p)
  {
    if p in fs {
      RealEntry(fs, p);
      if !fs[p].Symlink? {
        RealStat(fs, p);
      }
    }
  }

  /** A link to a sibling is read through to the sibling. */
  lemma SiblingIsRead(fs: Fs, p: Path, c: string)
    requires TreeOk(fs) && Clean(p) && p in fs && p != [] && fs[p] == Symlink(c) && PlainName(c)
    requires Parent(p) + [c] in fs && !fs[Parent(p) + [c]].Symlink?
    ensures Landing.Stat(fs, p) == Landing.Found(Parent(p) + [c])
  {
    var up, last := Parent(p), p[|p| - 1];
    assert p == up + [last] && forall i :: 0 <= i < |up| ==> up[i] == p[i];
    assert last != "..";
    AncestorsExist(fs, p);
    PlainLink(c);
    RealStat(fs, up);
    Landing.WalkLast(fs, [], up, Landing.KERNEL_LINKS, last);
    WalkKeepsLinks(fs, up, 0, Landing.KERNEL_LINKS);
    assert up[..0] == [] && up[0..] == up;
    assert [last][1..] == [] && [c] + [] == [c] && [c][1..] == [];
    assert Landing.Walk(fs, up + [c], [], Landing.KERNEL_LINKS - 1) == Landing.Found(up + [c]);
    assert Landing.Walk(fs, up, [c], Landing.KERNEL_LINKS - 1) == Landing.Found(up + [c]);
    assert Landing.Walk(fs, up, [last], Landing.KERNEL_LINKS) == Landing.Walk(fs, up, [c], Landing.KERNEL_LINKS - 1);
  }

  /** A link to "../c" leads out of its directory, to the directory's sibling. */
  lemma UpLinkIsRead(fs: Fs, p: Path, c: string)
    requires TreeOk(fs) && Clean(p) && p in fs && p != [] && fs[p] == Symlink("../" + c) && PlainName(c)
    requires var q := Landing.Up(Parent(p)) + [c]; q in fs && !fs[q].Symlink?
    ensures Landing.Stat(fs, p) == Landing.Found(Landing.Up(Parent(p)) + [c])
  {
    var up, last := Parent(p), p[|p| - 1];
    var out := Landing.Up(up);
    assert p == up + [last] && forall i :: 0 <= i < |up| ==> up[i] == p[i];
    AncestorsExist(fs, p);
    UpLink(c);
    RealStat(fs, up);
    Landing.WalkLast(fs, [], up, Landing.KERNEL_LINKS, last);
    WalkKeepsLinks(fs, up, 0, Landing.KERNEL_LINKS);
    assert up[..0] == [] && up[0..] == up;
    UpAndDown(fs, up, c, Landing.KERNEL_LINKS - 1);
    assert [last][1..] == [] && ["..", c] + [] == ["..", c];
    assert Landing.Walk(fs, up, [last], Landing.KERNEL_LINKS) == Landing.Walk(fs, up, ["..", c], Landing.KERNEL_LINKS - 1);
  }

  lemma UpAndDown(fs: Fs, d: Path, c: string, links: nat)
    requires TreeOk(fs) && d in fs && fs[d].Dir? && PlainName(c)
    requires var q := Landing.Up(d) + [c]; q in fs && !fs[q].Symlink?
    ensures Landing.Walk(fs, d, ["..", c], links) == Landing.Found(Landing.Up(d) + [c])
  {
    var out := Landing.Up(d);
    assert out in fs && fs[out].Dir?;
    assert ["..", c][1..] == [c] && [c][1..] == [];
    assert Landing.Walk(fs, out + [c], [], links) == Landing.Found(out + [c]);
    assert Landing.Walk(fs, out, [c], links) == Landing.Found(out + [c]);
  }

  lemma {:induction false} WalkKeepsLinks(fs: Fs, p: Path, i: nat, links: nat)
    requires TreeOk(fs) && p in fs && Clean(p) && !fs[p].Symlink? && i <= |p|
    ensures Landing.Walk(fs, p[..i], p[i..], links).Found? && Landing.Left(fs, p[..i], p[i..], links) == links
    decreases |p| - i
  {
    WalkReal(fs, p, i, links);
    AncestorsExist(fs, p);
    if i == |p| {
      assert p[i..] == [];
    } else {
      assert UnderDir(p, p[..i + 1]) && p[..i] + [p[i..][0]] == p[..i + 1] && p[i..][1..] == p[i + 1..];
      assert i + 1 < |p| ==> fs[p[..i + 1]].Dir?;
      assert i + 1 == |p| ==> p[..i + 1] == p;
      WalkKeepsLinks(fs, p, i + 1, links);
    }
  }

  /** The failing input: what was placed is moved aside and a link put in its
      place.  It still reads as recorded, so the link goes, which the job never
      placed.  The same for a directory and a link to an empty one. */
  lemma LinkIsTaken(fs: Fs, p: Path, c: string, k: RecordKind)
    requires TreeOk(fs) && Clean(p) && p in fs && p != [] && fs[p] == Symlink(c) && PlainName(c)
    requires Parent(p) + [c] in fs && NodeRecord(fs[Parent(p) + [c]]) == k && !k.SymlinkRecord?
    requires k.DirRecord? ==> Childless(fs, Parent(p) + [c])
    ensures Victim(fs, p, k) == Some(p) && !Own(fs, p, k)
  {
    SiblingIsRead(fs, p, c);
    RealEntry(fs, p);
  }

  /** A link to a directory with something in it stays. */
  lemma FullDirStays(fs: Fs, p: Path, c: string)
    requires TreeOk(fs) && Clean(p) && p in fs && p != [] && fs[p] == Symlink(c) && PlainName(c)
    requires Parent(p) + [c] in fs && fs[Parent(p) + [c]].Dir? && !Childless(fs, Parent(p) + [c])
    ensures Victim(fs, p, DirRecord) == None
  {
    SiblingIsRead(fs, p, c);
  }

  // ---- sequences of removals ----------------------------------------------------------------

  /** Every removal is of a path the record names, that reads as recorded, and
      that was missing in fs0 or satisfies the exemption. */
  ghost predicate TakesBack(fs0: Fs, exempt: Path -> bool, w: World, acts: seq<Action>)
    decreases |acts|
  {
    acts == [] || (RecordedRemoval(fs0, exempt, w, acts[0]) && TakesBack(fs0, exempt, Step(w, acts[0]), acts[1..]))
  }

  ghost predicate RecordedRemoval(fs0: Fs, exempt: Path -> bool, w: World, a: Action) {
    a.Remove? && exists p :: RemovedFor(fs0, exempt, w, a.path, p)
  }

  /** q goes because of the record for p. */
  ghost predicate RemovedFor(fs0: Fs, exempt: Path -> bool, w: World, q: Path, p: Path) {
    && p in w.installed && Clean(p) && p != [] && (p in fs0 ==> exempt(p))
    && Victim(w.fs, p, w.installed[p]) == Some(q)
  }

  /** Every removal takes away the job's own node. */
  ghost predicate TakesBackOwn(fs0: Fs, exempt: Path -> bool, w: World, acts: seq<Action>)
    decreases |acts|
  {
    acts == [] || (OwnRemoval(fs0, exempt, w, acts[0]) && TakesBackOwn(fs0, exempt, Step(w, acts[0]), acts[1..]))
  }

  ghost predicate OwnRemoval(fs0: Fs, exempt: Path -> bool, w: World, a: Action) {
    && a.Remove? && a.path in w.installed && Own(w.fs, a.path, w.installed[a.path])
    && (a.path in fs0 ==> exempt(a.path))
  }

  /** Nobody has put a link where the record names something else, nor above
      anything it names. */
  ghost predicate NoLinkStandsIn(w: World) {
    forall p, q :: p in w.installed && q in w.fs && UnderDir(p, q) && w.fs[q].Symlink? ==>
      q == p && w.installed[p].SymlinkRecord?
  }

  lemma {:induction false} TakesBackConcat(fs0: Fs, exempt: Path -> bool, w: World, a: seq<Action>, b: seq<Action>)
    requires TakesBack(fs0, exempt, w, a) && TakesBack(fs0, exempt, Exec(w, a), b)
    ensures TakesBack(fs0, exempt, w, a + b)
    decreases |a|
  {
    hide RecordedRemoval;
    if a == [] {
      assert a + b == b;
    } else {
      assert (a + b)[0] == a[0] && (a + b)[1..] == a[1..] + b;
      TakesBackConcat(fs0, exempt, Step(w, a[0]), a[1..], b);
    }
  }

  lemma TakesBackCons(fs0: Fs, exempt: Path -> bool, w: World, a: Action, acts: seq<Action>)
    requires RecordedRemoval(fs0, exempt, w, a) && TakesBack(fs0, exempt, Step(w, a), acts)
    ensures TakesBack(fs0, exempt, w, [a] + acts)
  {
    assert ([a] + acts)[1..] == acts;
  }

  lemma {:induction false} FilesTakeBack(fs0: Fs, exempt: Path -> bool, w: World, es: Manifest)
    requires forall e :: e in es ==> Clean(e.dst) && e.dst != [] && (e.dst in fs0 ==> exempt(e.dst))
    ensures TakesBack(fs0, exempt, w, RemoveFiles(w.fs, w.installed, es))
    ensures Exec(w, RemoveFiles(w.fs, w.installed, es)).installed == w.installed
    decreases |es|
  {
    hide RecordedRemoval, Victim;
    if es != [] {
      assert es[0] in es;
      var q := FileVictim(w.fs, w.installed, es[0]);
      if q.Some? {
        assert RemovedFor(fs0, exempt, w, q.value, es[0].dst);
        OneRemoval(fs0, exempt, w, q.value, es[0].dst);
        var w1 := Step(w, Remove(q.value));
        FilesTakeBack(fs0, exempt, w1, es[1..]);
        var rest := RemoveFiles(w1.fs, w1.installed, es[1..]);
        TakesBackCons(fs0, exempt, w, Remove(q.value), rest);
        ExecConcat(w, [Remove(q.value)], rest);
        ExecOne(w, Remove(q.value));
      } else {
        FilesTakeBack(fs0, exempt, w, es[1..]);
      }
    }
  }

  lemma OneRemoval(fs0: Fs, exempt: Path -> bool, w: World, q: Path, p: Path)
    requires RemovedFor(fs0, exempt, w, q, p)
    ensures RecordedRemoval(fs0, exempt, w, Remove(q))
  {
  }

  lemma {:induction false} DirsTakeBack(fs0: Fs, exempt: Path -> bool, w: World, order: seq<Path>)
    requires forall d :: d in order ==>
      d in w.installed && w.installed[d].DirRecord? && Clean(d) && (d in fs0 ==> exempt(d))
    ensures TakesBack(fs0, exempt, w, RemoveDirs(w.fs, order))
    decreases |order|
  {
    hide RecordedRemoval, ReadsAs;
    if order != [] {
      assert order[0] in order;
      var q := Victim(w.fs, order[0], DirRecord);
      if q.Some? {
        assert RemovedFor(fs0, exempt, w, q.value, order[0]);
        OneRemoval(fs0, exempt, w, q.value, order[0]);
        var w1 := Step(w, Remove(q.value));
        DirsTakeBack(fs0, exempt, w1, order[1..]);
        TakesBackCons(fs0, exempt, w, Remove(q.value), RemoveDirs(w1.fs, order[1..]));
      } else {
        DirsTakeBack(fs0, exempt, w, order[1..]);
      }
    }
  }

  lemma CleanAbove(p: Path, q: Path)
    requires Clean(p) && UnderDir(p, q)
    ensures Clean(q)
  {
    assert forall i :: 0 <= i < |q| ==> q[i] == p[i];
  }

  lemma UninstallTakesBack(fs0: Fs, exempt: Path -> bool, w: World, m: Manifest, ids: set<int>, pol: Policy, order: seq<Path>)
    requires forall e :: e in m && e.id in ids ==> e.dst in fs0 ==> exempt(e.dst)
    requires forall p :: p in w.installed && w.installed[p].DirRecord? ==> p in fs0 ==> exempt(p)
    requires DeepestFirst(order, Selected(m, ids), w.installed, KeptPaths(m, ids))
    ensures TakesBack(fs0, exempt, w, UninstallIDs(w, m, ids, pol, order))
  {
    hide RecordedRemoval, Victim, FileVictim;
    var sub := Selected(m, ids);
    if CheckAll(w.fs, w.roots, sub, pol) {
      forall e | e in sub ensures Clean(e.dst) && e.dst != [] {
        assert Check(w.fs, w.roots, sub, pol, e);
      }
      var files := RemoveFiles(w.fs, w.installed, sub);
      FilesTakeBack(fs0, exempt, w, sub);
      forall d | d in order ensures Clean(d) {
        var e :| e in sub && UnderDir(e.dst, d);
        CleanAbove(e.dst, d);
      }
      DirsTakeBack(fs0, exempt, Exec(w, files), order);
      TakesBackConcat(fs0, exempt, w, files, RemoveDirs(Exec(w, files).fs, order));
    }
  }

  lemma RemovalKeepsTree(w: World, q: Path)
    requires TreeOk(w.fs) && q in w.fs && q != [] && (w.fs[q].Dir? ==> Childless(w.fs, q))
    ensures TreeOk(Step(w, Remove(q)).fs)
  {
    forall p | p in w.fs && p != [] ensures Parent(p) != q {
      assert UnderDir(p, Parent(p)) && w.fs[Parent(p)].Dir?;
    }
  }

  /** With no link standing in, what is taken back is the job's own. */
  lemma {:induction false} StraightTakesOwn(fs0: Fs, exempt: Path -> bool, w: World, acts: seq<Action>)
    requires TreeOk(w.fs) && NoLinkStandsIn(w) && TakesBack(fs0, exempt, w, acts)
    ensures TakesBackOwn(fs0, exempt, w, acts)
    decreases |acts|
  {
    hide Victim, EntryOf, ReadsAs;
    if acts != [] {
      var q := acts[0].path;
      var p :| RemovedFor(fs0, exempt, w, q, p);
      StraightIsOwn(w, p);
      RemovalKeepsTree(w, q);
      StraightTakesOwn(fs0, exempt, Step(w, acts[0]), acts[1..]);
    }
  }

  lemma StraightIsOwn(w: World, p: Path)
    requires TreeOk(w.fs) && NoLinkStandsIn(w) && p in w.installed && Clean(p) && p != []
    requires Victim(w.fs, p, w.installed[p]).Some?
    ensures Victim(w.fs, p, w.installed[p]) == Some(p) && Own(w.fs, p, w.installed[p])
  {
    forall q | q in w.fs && UnderDir(Parent(p), q) ensures !w.fs[q].Symlink? {
      assert UnderDir(p, q) && q != p;
    }
    StraightEntry(w.fs, p);
    OwnExactly(w.fs, p, w.installed[p]);
  }
}
