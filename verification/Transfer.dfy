/** The transfer engine: validation, Diff, Need, Send, Receive and Install of a
    fixed manifest.  Each operation is given as the atomic actions it performs
    from a world, so that every crash is a prefix of those actions. */
module Transfer {
  import opened Destination

  datatype Category = CatSession | CatCapture | CatRepo | CatWorktree | CatOther(name: string)

  datatype Kind = Regular | Directory | Link(target: string)

  datatype Entry = Entry(id: int, category: Category, dst: Path, kind: Kind,
                         size: nat, digest: Digest, ffAllowed: bool, deferred: bool)
  {
    /** What a finished placement of this entry leaves at dst. */
    function Node(): Node {
      match kind
      case Regular => File(digest.of)
      case Directory => Dir
      case Link(t) => Symlink(t)
    }
  }

  type Manifest = seq<Entry>

  datatype Root = Root(path: Path, mayPreExist: bool)

  /** The destination's own paths and decisions.  ffTest(dst, old, new) is the
      fast-forward prefix test, ownsSession(dst) re-derives from dst whether it
      belongs to this session, linkAllowed is the symlink-target rule. */
  datatype Policy = Policy(
    home: Path, configDir: Path, dataDir: Path, projects: Path, capture: Path,
    roots: seq<Root>, munge: Path -> string,
    forbidden: Path -> bool, linkAllowed: (Path, string) -> bool,
    ownsSession: Path -> bool, ffTest: (Path, Content, Content) -> bool, force: bool)

  datatype Status = Absent | PresentSame | StagedSame | PresentDifferent | FFCandidate | StagedMismatch | NoStatus

  function DirOf(p: Path): Path {
    if p == [] then [] else Parent(p)
  }

  // ---- validation ---------------------------------------------------------

  predicate GitCategory(c: Category) {
    c.CatRepo? || c.CatWorktree?
  }

  /** The longest declared root that contains dst; the earlier one on a tie. */
  function EntryRoot(dst: Path, roots: seq<Root>): (r: seq<Root>)
    ensures |r| <= 1
    ensures r != [] ==> r[0] in roots && UnderDir(dst, r[0].path)
    ensures forall x :: x in roots && UnderDir(dst, x.path) ==> r != [] && |x.path| <= |r[0].path|
  {
    if roots == [] then [] else
    var rest := EntryRoot(dst, roots[..|roots| - 1]);
    var x := roots[|roots| - 1];
    if UnderDir(dst, x.path) && (rest == [] || |x.path| > |rest[0].path|) then [x] else rest
  }

  predicate FirstComponentDotted(home: Path, p: Path) {
    |home| < |p| && p[|home|] != "" && p[|home|][0] == '.'
  }

  predicate RootLegitimate(pol: Policy, root: Path) {
    && UnderDir(root, pol.home) && root != pol.home
    && !UnderDir(root, pol.configDir) && !UnderDir(root, pol.dataDir)
    && !FirstComponentDotted(pol.home, root)
  }

  /** manifestClaimedCwds: the project directories the session entries use. */
  function ClaimedCwds(m: Manifest, pol: Policy): set<string> {
    set e | e in m && e.category.CatSession? && UnderDir(e.dst, pol.projects) && e.dst != pol.projects
      :: e.dst[|pol.projects|]
  }

  /** The part of validator.check that does not depend on the tree. */
  predicate StaticallyAllowed(pol: Policy, e: Entry) {
    && e.dst != [] && Clean(e.dst) && UnderDir(e.dst, pol.home)
    && match e.category
       case CatSession =>
         && UnderDir(e.dst, pol.configDir) && !pol.forbidden(e.dst)
         && (e.kind.Link? ==> pol.linkAllowed(e.dst, e.kind.target))
       case CatCapture => e.dst == pol.capture && e.kind.Regular? && UnderDir(e.dst, pol.dataDir)
       case CatOther(_) => false
       case _ =>
         e.deferred ||
         (&& EntryRoot(e.dst, pol.roots) != []
          && RootLegitimate(pol, EntryRoot(e.dst, pol.roots)[0].path)
          && (e.kind.Link? ==> pol.linkAllowed(e.dst, e.kind.target)))
  }

  /** The provenance rule for the root of a git entry. */
  predicate RootAccepted(fs: Fs, recorded: set<Path>, claimed: set<string>, pol: Policy, e: Entry, root: Root) {
    || root.path in recorded
    || root.path !in fs
    || (if root.mayPreExist then fs[root.path].Dir? && pol.munge(root.path) in claimed else e.kind.Directory?)
  }

  predicate Check(fs: Fs, recorded: set<Path>, m: Manifest, pol: Policy, e: Entry) {
    && StaticallyAllowed(pol, e)
    && (GitCategory(e.category) && !e.deferred ==>
          RootAccepted(fs, recorded, ClaimedCwds(m, pol), pol, e, EntryRoot(e.dst, pol.roots)[0]))
  }

  predicate CheckAll(fs: Fs, recorded: set<Path>, m: Manifest, pol: Policy) {
    forall e :: e in m ==> Check(fs, recorded, m, pol, e)
  }

  // ---- Diff ----------------------------------------------------------------

  datatype StagedState = StagedState(acts: seq<Action>, staged: bool, mismatch: bool)

  /** stagedState: drops a partial or wrong-size copy, then says what is left. */
  function StagedStateOf(w: World, e: Entry): StagedState {
    var partial := e.id in w.partials;
    var acts := if partial then [RemovePartial(e.id)] else [];
    match e.kind
    case Directory => StagedState(acts, e.id in w.dirMarks, partial)
    case Link(t) => StagedState(acts, e.id in w.linkMarks && w.linkMarks[e.id] == t, partial)
    case Regular =>
      if e.id !in w.files then StagedState(acts, false, partial)
      else if |w.files[e.id]| != e.size then StagedState(acts + [RemoveStaged(e.id)], false, true)
      else StagedState(acts, true, partial)
  }

  function StagedStatus(s: StagedState): Status {
    if s.staged then StagedSame else if s.mismatch then StagedMismatch else Absent
  }

  predicate Deferrable(e: Entry) {
    e.deferred && (e.category.CatCapture? || e.category.CatRepo? || e.category.CatWorktree?)
  }

  /** How Diff classifies e once its staging state is known. */
  function Classify(w: World, pol: Policy, e: Entry, s: StagedState): Status {
    if Deferrable(e) || e.dst !in w.fs then StagedStatus(s)
    else
      var node := w.fs[e.dst];
      match e.kind
      case Directory => if node.Dir? then PresentSame else PresentDifferent
      case Link(t) => if node == Symlink(t) then PresentSame else PresentDifferent
      case Regular =>
        if !node.File? then PresentDifferent
        else if Sha256(node.content) == e.digest then PresentSame
        else if !e.ffAllowed then PresentDifferent
        else if !s.staged || e.id !in w.files then FFCandidate
        else if pol.ffTest(e.dst, node.content, w.files[e.id]) then FFCandidate
        else PresentDifferent
  }

  /** What is staged: a copy of the right size or the mark counts, one of another
      size or a partial one does not and is told apart from none at all. */
  lemma StagedStatusIs(w: World, e: Entry)
    ensures var status, none := StagedStatus(StagedStateOf(w, e)), e.id !in w.partials;
            match e.kind
            case Regular =>
              && (status == StagedSame <==> e.id in w.files && |w.files[e.id]| == e.size)
              && (status == Absent <==> e.id !in w.files && none)
            case Directory =>
              (status == StagedSame <==> e.id in w.dirMarks) && (status == Absent <==> e.id !in w.dirMarks && none)
            case Link(t) =>
              var marked := e.id in w.linkMarks && w.linkMarks[e.id] == t;
              (status == StagedSame <==> marked) && (status == Absent <==> !marked && none)
    ensures StagedStatus(StagedStateOf(w, e)) in {StagedSame, Absent, StagedMismatch}
  {
  }

  /** Deferred captures and git entries are classified by what is staged alone;
      any other entry that stands there is present. */
  lemma DeferredIsStaged(w: World, pol: Policy, e: Entry, s: StagedState)
    ensures var waits := e.deferred && e.category in {CatCapture, CatRepo, CatWorktree};
            && (waits ==> Classify(w, pol, e, s) == StagedStatus(s))
            && (!waits && e.dst in w.fs && w.fs[e.dst] == e.Node() ==> Classify(w, pol, e, s) == PresentSame)
  {
  }

  datatype DiffOut = DiffOut(acts: seq<Action>, ok: bool, st: map<int, Status>)

  function DiffFrom(w: World, es: Manifest, m: Manifest, pol: Policy): DiffOut
    decreases |es|
  {
    if es == [] then DiffOut([], true, map[])
    else
      var e := es[0];
      if !Check(w.fs, w.roots, m, pol, e) then
        DiffFrom(w, es[1..], m, pol).(ok := false)
      else
        var s := StagedStateOf(w, e);
        var status := Classify(w, pol, e, s);
        var rest := DiffFrom(Exec(w, s.acts), es[1..], m, pol);
        DiffOut(s.acts + rest.acts, rest.ok, map[e.id := status] + rest.st)
  }

  function Diff(w: World, m: Manifest, pol: Policy): DiffOut {
    DiffFrom(w, m, m, pol)
  }

  function StatusAt(st: map<int, Status>, id: int): Status {
    if id in st then st[id] else NoStatus
  }

  predicate Needed(st: map<int, Status>, e: Entry) {
    var s := StatusAt(st, e.id);
    s.Absent? || s.StagedMismatch? || s.FFCandidate? || (s.PresentDifferent? && e.ffAllowed)
  }

  function Need(m: Manifest, st: map<int, Status>): seq<int> {
    if m == [] then [] else
    (if Needed(st, m[0]) then [m[0].id] else []) + Need(m[1..], st)
  }

  // ---- the stream -----------------------------------------------------------

  datatype Packet = DirPacket(id: int) | LinkPacket(id: int, target: string) | FilePacket(id: int, content: Content)

  /** Send: the stream produced before the end or the first source file whose
      size is no longer the manifest's. */
  function Send(m: Manifest, need: seq<int>, src: map<int, Content>): (seq<Packet>, bool) {
    if m == [] then ([], true)
    else if m[0].id !in need then Send(m[1..], need, src)
    else
      var e := m[0];
      match e.kind
      case Directory => var (ps, ok) := Send(m[1..], need, src); ([DirPacket(e.id)] + ps, ok)
      case Link(t) => var (ps, ok) := Send(m[1..], need, src); ([LinkPacket(e.id, t)] + ps, ok)
      case Regular =>
        if e.id !in src || |src[e.id]| != e.size then ([], false)
        else var (ps, ok) := Send(m[1..], need, src); ([FilePacket(e.id, src[e.id])] + ps, ok)
  }

  /** ByID, as the first entry with this id. */
  function ByID(m: Manifest, id: int): (r: seq<Entry>)
    ensures |r| <= 1
    ensures r != [] ==> r[0] in m && r[0].id == id
    ensures r == [] ==> forall e :: e in m ==> e.id != id
  {
    if m == [] then [] else if m[0].id == id then [m[0]] else ByID(m[1..], id)
  }

  function ReceivePacket(w: World, m: Manifest, p: Packet): (seq<Action>, bool) {
    var found := ByID(m, p.id);
    if found == [] then ([], false)
    else
      var e := found[0];
      match p
      case DirPacket(id) => ([MarkDir(id)], true)
      case LinkPacket(id, t) => ([MarkLink(id, t)], true)
      case FilePacket(id, c) =>
        if id in w.files && |w.files[id]| == e.size then ([], true)
        else if |c| == e.size && Sha256(c) == e.digest then ([WritePartial(id), CommitPartial(id, c)], true)
        else ([WritePartial(id), RemovePartial(id)], false)
  }

  function Receive(w: World, m: Manifest, stream: seq<Packet>): (seq<Action>, bool)
    decreases |stream|
  {
    if stream == [] then ([], true)
    else
      var (acts, ok) := ReceivePacket(w, m, stream[0]);
      if !ok then (acts, false)
      else
        var (rest, ok') := Receive(Exec(w, acts), m, stream[1..]);
        (acts + rest, ok')
  }

  // ---- Install ----------------------------------------------------------------

  /** The actions of one placement and what it records.  placedDirs are the
      directories that were missing when it began. */
  datatype PlaceOut = PlaceOut(acts: seq<Action>, ok: bool, records: map<Path, RecordKind>)

  function DirRecords(dirs: seq<Path>): (r: map<Path, RecordKind>)
    ensures forall p :: p in r <==> p in dirs
    ensures forall p :: p in r ==> r[p].DirRecord?
  {
    map p | p in dirs :: DirRecord
  }

  function RecordOf(e: Entry): RecordKind {
    match e.kind
    case Regular => FileRecord(e.digest)
    case Directory => DirRecord
    case Link(t) => SymlinkRecord(t)
  }

  predicate AsFile(e: Entry, fileOnly: bool) {
    fileOnly || e.kind.Regular?
  }

  function PlaceParent(e: Entry, fileOnly: bool): Path {
    if e.kind.Directory? && !fileOnly then e.dst else DirOf(e.dst)
  }

  /** The last action of a placement, or none where it must fail: a rename
      needs a staged copy and a destination that is not a directory, a
      symlink needs a free name. */
  function FinishPlacement(w: World, e: Entry, fileOnly: bool): seq<Action> {
    if AsFile(e, fileOnly) then
      (if e.id in w.files && !(e.dst in w.fs && w.fs[e.dst].Dir?) then [MoveIn(e.id, e.dst)] else [])
    else if e.kind.Directory? then [RemoveDirMark(e.id)]
    else if e.dst !in w.fs then [MakeLink(e.dst, e.kind.target), RemoveLinkMark(e.id)]
    else []
  }

  function Place(w: World, e: Entry, fileOnly: bool): PlaceOut {
    var parent := PlaceParent(e, fileOnly);
    var (mkdirs, ok) := MkdirAll(w.fs, parent);
    if !ok then PlaceOut([], false, map[])
    else
      var finish := FinishPlacement(Exec(w, mkdirs), e, fileOnly);
      if finish == [] then PlaceOut(mkdirs, false, map[])
      else PlaceOut(mkdirs + finish, true,
                    DirRecords(AbsentAncestors(w.fs, parent))[e.dst := RecordOf(e)])
  }

  function DropStaged(e: Entry): seq<Action> {
    [RemoveStaged(e.id), RemoveDirMark(e.id), RemoveLinkMark(e.id)]
  }

  /** checkForceOverwrite: consent, a regular file, and this session's own. */
  predicate MayForce(pol: Policy, e: Entry) {
    pol.force && e.kind.Regular? && e.ffAllowed && e.category.CatSession? && pol.ownsSession(e.dst)
  }

  predicate Childless(fs: Fs, p: Path) {
    forall q :: q in fs && UnderDir(q, p) ==> q == p
  }

  /** os.Remove succeeds, or finds nothing there. */
  predicate Removable(fs: Fs, p: Path) {
    p in fs && fs[p].Dir? ==> Childless(fs, p)
  }

  datatype EntryOut = EntryOut(acts: seq<Action>, ok: bool, records: map<Path, RecordKind>, isNew: bool)

  function InstallEntry(w: World, e: Entry, status: Status, pol: Policy): EntryOut {
    match status
    case StagedSame =>
      var p := Place(w, e, false);
      EntryOut(p.acts, p.ok, p.records, p.ok)
    case PresentSame => EntryOut(DropStaged(e), true, map[], false)
    case FFCandidate =>
      if e.id in w.files && e.dst in w.fs && w.fs[e.dst].File? && pol.ffTest(e.dst, w.fs[e.dst].content, w.files[e.id]) then
        var p := Place(w, e, true);
        EntryOut(p.acts, p.ok, p.records, false)
      else EntryOut([], false, map[], false)
    case PresentDifferent =>
      if MayForce(pol, e) && e.id in w.files && Sha256(w.files[e.id]) == e.digest && Removable(w.fs, e.dst) then
        var removal := if e.dst in w.fs then [Destination.Action.Remove(e.dst)] else [];
        var p := Place(Exec(w, removal), e, true);
        EntryOut(removal + p.acts, p.ok, p.records, false)
      else EntryOut([], false, map[], false)
    case _ => EntryOut([], false, map[], false)
  }

  /** The placement loop.  newIds collects InstalledIDs, records what
      installed.json will gain. */
  datatype LoopOut = LoopOut(acts: seq<Action>, ok: bool, records: map<Path, RecordKind>, newIds: seq<int>)

  function InstallLoop(w: World, es: Manifest, st: map<int, Status>, pol: Policy): LoopOut
    decreases |es|
  {
    if es == [] then LoopOut([], true, map[], [])
    else
      var o := InstallEntry(w, es[0], StatusAt(st, es[0].id), pol);
      if !o.ok then LoopOut(o.acts, false, o.records, [])
      else
        var rest := InstallLoop(Exec(w, o.acts), es[1..], st, pol);
        LoopOut(o.acts + rest.acts, rest.ok, o.records + rest.records,
                (if o.isNew then [es[0].id] else []) + rest.newIds)
  }

  /** The roots this pass found absent, in manifest order. */
  function PendingRoots(fs: Fs, recorded: set<Path>, es: Manifest, pol: Policy): seq<Path> {
    if es == [] then [] else
    var e := es[0];
    var root := EntryRoot(e.dst, pol.roots);
    var rest := PendingRoots(fs, recorded, es[1..], pol);
    if GitCategory(e.category) && !e.deferred && root != [] && root[0].path !in recorded && root[0].path !in fs
    then [root[0].path] + rest else rest
  }

  function Claims(roots: seq<Path>): (r: seq<Action>)
    ensures |r| == |roots| && forall i :: 0 <= i < |r| ==> r[i] == ClaimRoot(roots[i])
  {
    if roots == [] then [] else [ClaimRoot(roots[0])] + Claims(roots[1..])
  }

  predicate DeferredRefused(m: Manifest) {
    exists e :: e in m && e.deferred && !e.category.CatCapture?
  }

  datatype RunOut = RunOut(acts: seq<Action>, ok: bool, newIds: seq<int>)

  function Install(w: World, m: Manifest, st: map<int, Status>, pol: Policy): RunOut {
    if !CheckAll(w.fs, w.roots, m, pol) then RunOut([], false, [])
    else
      var claims := Claims(PendingRoots(w.fs, w.roots, m, pol));
      if DeferredRefused(m) then RunOut(claims, false, [])
      else
        var loop := InstallLoop(Exec(w, claims), m, st, pol);
        var flush := if loop.records == map[] then [] else [SaveInstalled(loop.records)];
        RunOut(claims + loop.acts + flush, loop.ok, loop.newIds)
  }

  // ---- one whole transfer ------------------------------------------------------

  /** Diff, Send(Need), Receive. */
  function Stage(w: World, m: Manifest, src: map<int, Content>, pol: Policy): (seq<Action>, bool) {
    var d := Diff(w, m, pol);
    if !d.ok then (d.acts, false)
    else
      var (stream, sent) := Send(m, Need(m, d.st), src);
      var (acts, ok) := Receive(Exec(w, d.acts), m, stream);
      (d.acts + acts, sent && ok)
  }

  /** Diff, Install. */
  function DiffAndInstall(w: World, m: Manifest, pol: Policy): RunOut {
    var d := Diff(w, m, pol);
    if !d.ok then RunOut(d.acts, false, [])
    else
      var i := Install(Exec(w, d.acts), m, d.st, pol);
      RunOut(d.acts + i.acts, i.ok, i.newIds)
  }

  function FullRun(w: World, m: Manifest, src: map<int, Content>, pol: Policy): RunOut {
    var (acts, ok) := Stage(w, m, src, pol);
    if !ok then RunOut(acts, false, [])
    else
      var i := DiffAndInstall(Exec(w, acts), m, pol);
      RunOut(acts + i.acts, i.ok, i.newIds)
  }
}
