/** The destination host as an object: the operations of the transfer engine
    with the loops, early exits and in-place updates they have, each proved to
    perform exactly the actions its specification lists. */
module Host {
  import opened Common
  import opened Destination
  import opened Transfer
  import opened Interrupted
  import opened StagingArea
  import opened CrashResume
  import opened Removal
  import opened Uninstall

  // ---- where a loop stands: what is done, and that the rest leads to the end -------

  ghost predicate DiffSofar(w: World, m: Manifest, pol: Policy, i: nat, ok: bool, st: map<int, Status>,
                            end: World, d: DiffOut)
    requires i <= |m|
  {
    var rest := DiffFrom(w, m[i..], m, pol);
    Exec(w, rest.acts) == end && d.ok == (ok && rest.ok) && d.st == st + rest.st
  }

  lemma MapThen(st: map<int, Status>, id: int, s: Status, rest: map<int, Status>)
    ensures st + (map[id := s] + rest) == st[id := s] + rest
  {
  }

  lemma DiffSofarNext(w: World, m: Manifest, pol: Policy, i: nat, ok: bool, st: map<int, Status>, end: World, d: DiffOut)
    requires i < |m| && DiffSofar(w, m, pol, i, ok, st, end, d)
    ensures if Check(w.fs, w.roots, m, pol, m[i]) then
              DiffSofar(Cleaned(w, m[i]), m, pol, i + 1, ok,
                        st[m[i].id := Classify(w, pol, m[i], StagedStateOf(w, m[i]))], end, d)
            else DiffSofar(w, m, pol, i + 1, false, st, end, d)
  {
    var es := m[i..];
    assert es[0] == m[i] && es[1..] == m[i + 1..];
    DiffUnfolds(w, es, m, pol);
    MapThen(st, m[i].id, Classify(w, pol, m[i], StagedStateOf(w, m[i])), DiffFrom(Cleaned(w, m[i]), m[i + 1..], m, pol).st);
  }

  ghost predicate ReceiveSofar(w: World, m: Manifest, stream: seq<Packet>, i: nat, end: World, ok: bool)
    requires i <= |stream|
  {
    var rest := Transfer.Receive(w, m, stream[i..]);
    Exec(w, rest.0) == end && ok == rest.1
  }

  lemma ReceiveSofarNext(w: World, m: Manifest, stream: seq<Packet>, i: nat, end: World, ok: bool)
    requires i < |stream| && ReceiveSofar(w, m, stream, i, end, ok)
    ensures var (acts, good) := ReceivePacket(w, m, stream[i]);
            if good then ReceiveSofar(Exec(w, acts), m, stream, i + 1, end, ok)
            else end == Exec(w, acts) && !ok
  {
    assert stream[i..][0] == stream[i] && stream[i..][1..] == stream[i + 1..];
    var (acts, good) := ReceivePacket(w, m, stream[i]);
    if good {
      ExecConcat(w, acts, Transfer.Receive(Exec(w, acts), m, stream[i + 1..]).0);
    }
  }

  ghost predicate LoopSofar(w: World, m: Manifest, st: map<int, Status>, pol: Policy, i: nat,
                            records: map<Path, RecordKind>, ids: seq<int>, end: World, whole: LoopOut)
    requires i <= |m|
  {
    var rest := InstallLoop(w, m[i..], st, pol);
    && Exec(w, rest.acts) == end && whole.ok == rest.ok
    && whole.records == records + rest.records && whole.newIds == ids + rest.newIds
  }

  lemma LoopSofarNext(w: World, m: Manifest, st: map<int, Status>, pol: Policy, i: nat,
                      records: map<Path, RecordKind>, ids: seq<int>, end: World, whole: LoopOut)
    requires i < |m| && LoopSofar(w, m, st, pol, i, records, ids, end, whole)
    ensures var o := InstallEntry(w, m[i], StatusAt(st, m[i].id), pol);
            if o.ok then LoopSofar(Exec(w, o.acts), m, st, pol, i + 1, records + o.records,
                                   ids + (if o.isNew then [m[i].id] else []), end, whole)
            else end == Exec(w, o.acts) && !whole.ok && whole.records == records + o.records && whole.newIds == ids
  {
    hide InstallEntry, InstallLoop, Exec;
    var o := InstallEntry(w, m[i], StatusAt(st, m[i].id), pol);
    LoopTurns(w, m, st, pol, i);
    if o.ok {
      var rest := InstallLoop(Exec(w, o.acts), m[i + 1..], st, pol);
      ExecConcat(w, o.acts, rest.acts);
      RecordsRegroup(records, o.records, rest.records);
      IdsRegroup(ids, if o.isNew then [m[i].id] else [], rest.newIds);
    } else {
      assert ids + [] == ids;
    }
  }

  lemma LoopTurns(w: World, m: Manifest, st: map<int, Status>, pol: Policy, i: nat)
    requires i < |m|
    ensures var o := InstallEntry(w, m[i], StatusAt(st, m[i].id), pol);
            InstallLoop(w, m[i..], st, pol) ==
              if !o.ok then LoopOut(o.acts, false, o.records, [])
              else
                var rest := InstallLoop(Exec(w, o.acts), m[i + 1..], st, pol);
                LoopOut(o.acts + rest.acts, rest.ok, o.records + rest.records,
                        (if o.isNew then [m[i].id] else []) + rest.newIds)
  {
    hide InstallEntry, Exec;
    assert m[i..][0] == m[i] && m[i..][1..] == m[i + 1..];
  }

  lemma RecordsRegroup(a: map<Path, RecordKind>, b: map<Path, RecordKind>, c: map<Path, RecordKind>)
    ensures a + (b + c) == (a + b) + c
  {
  }

  lemma IdsRegroup(a: seq<int>, b: seq<int>, c: seq<int>)
    ensures a + (b + c) == (a + b) + c
  {
  }

  ghost predicate FilesSofar(w: World, es: Manifest, i: nat, end: World)
    requires i <= |es|
  {
    Exec(w, RemoveFiles(w.fs, w.installed, es[i..])) == end
  }

  lemma FilesSofarNext(w: World, es: Manifest, i: nat, end: World)
    requires i < |es| && FilesSofar(w, es, i, end)
    ensures var q := FileVictim(w.fs, w.installed, es[i]);
            FilesSofar(if q.Some? then Step(w, Remove(q.value)) else w, es, i + 1, end)
  {
    hide FileVictim;
    assert es[i..][0] == es[i] && es[i..][1..] == es[i + 1..];
    var q := FileVictim(w.fs, w.installed, es[i]);
    if q.Some? {
      var rest := RemoveFiles(w.fs - {q.value}, w.installed, es[i + 1..]);
      assert ([Remove(q.value)] + rest)[1..] == rest;
    }
  }

  ghost predicate DirsSofar(w: World, order: seq<Path>, i: nat, end: World)
    requires i <= |order|
  {
    Exec(w, RemoveDirs(w.fs, order[i..])) == end
  }

  lemma DirsSofarNext(w: World, order: seq<Path>, i: nat, end: World)
    requires i < |order| && DirsSofar(w, order, i, end)
    ensures var q := Victim(w.fs, order[i], DirRecord);
            DirsSofar(if q.Some? then Step(w, Remove(q.value)) else w, order, i + 1, end)
  {
    hide Victim;
    assert order[i..][0] == order[i] && order[i..][1..] == order[i + 1..];
    var q := Victim(w.fs, order[i], DirRecord);
    if q.Some? {
      var rest := RemoveDirs(w.fs - {q.value}, order[i + 1..]);
      assert ([Remove(q.value)] + rest)[1..] == rest;
    }
  }

  // ---- createdDirsDeepestFirst ---------------------------------------------------------

  /** No path twice, none before a deeper one. */
  predicate Deepest(order: seq<Path>) {
    forall i, k :: 0 <= i < k < |order| ==> order[i] != order[k] && |order[i]| >= |order[k]|
  }

  function InsertDeep(order: seq<Path>, d: Path): seq<Path> {
    if order == [] || |order[0]| <= |d| then [d] + order else [order[0]] + InsertDeep(order[1..], d)
  }

  lemma {:induction false} InsertDeepHas(order: seq<Path>, d: Path)
    ensures forall p :: p in InsertDeep(order, d) <==> p == d || p in order
  {
    if order != [] && |order[0]| > |d| {
      InsertDeepHas(order[1..], d);
      assert forall p :: p in order <==> p == order[0] || p in order[1..];
    }
  }

  lemma {:induction false} InsertDeepOrdered(order: seq<Path>, d: Path)
    requires Deepest(order) && d !in order
    ensures Deepest(InsertDeep(order, d))
  {
    if order != [] && |order[0]| > |d| {
      var rest := InsertDeep(order[1..], d);
      InsertDeepOrdered(order[1..], d);
      InsertDeepHas(order[1..], d);
      forall k | 0 <= k < |rest| ensures rest[k] != order[0] && |rest[k]| <= |order[0]| {
        assert rest[k] in rest;
        if rest[k] in order[1..] {
          var n :| 0 <= n < |order[1..]| && order[1..][n] == rest[k];
          assert order[n + 1] == rest[k];
        }
      }
    }
  }

  /** The directories the record lets this reduced manifest remove, deepest
      first. */
  method CreatedDirs(installed: map<Path, RecordKind>, sub: Manifest, kept: set<Path>) returns (order: seq<Path>)
    ensures DeepestFirst(order, sub, installed, kept)
  {
    order := [];
    var left := installed.Keys;
    while exists d :: d in left
      invariant left <= installed.Keys && Deepest(order)
      invariant forall d :: d in order <==> CreatedDir(sub, installed, kept, d) && d !in left
      decreases |left|
    {
      var d :| d in left;
      if CreatedDir(sub, installed, kept, d) {
        InsertDeepHas(order, d);
        InsertDeepOrdered(order, d);
        order := InsertDeep(order, d);
      }
      left := left - {d};
    }
  }

  lemma CleanedClassifies(w: World, e: Entry, pol: Policy)
    ensures var s := StagedStateOf(w, e);
            Classify(Cleaned(w, e), pol, e, Transfer.StagedState([], s.staged, s.mismatch)) == Classify(w, pol, e, s)
  {
  }

  lemma ExecNone(w: World)
    ensures Exec(w, []) == w
  {
  }

  class Host {
    var fs: Fs
    var files: map<int, Content>
    var partials: set<int>
    var dirMarks: set<int>
    var linkMarks: map<int, string>
    var roots: set<Path>
    var installed: map<Path, RecordKind>

    function State(): World
      reads this
    {
      World(fs, files, partials, dirMarks, linkMarks, roots, installed)
    }

    /** One atomic action. */
    method Do(a: Action)
      modifies this
      ensures State() == Step(old(State()), a)
    {
      match a {
        case WritePartial(id) => partials := partials + {id};
        case CommitPartial(id, c) =>
          partials := partials - {id};
          files := files[id := c];
        case RemovePartial(id) => partials := partials - {id};
        case RemoveStaged(id) => files := files - {id};
        case MarkDir(id) => dirMarks := dirMarks + {id};
        case RemoveDirMark(id) => dirMarks := dirMarks - {id};
        case MarkLink(id, t) => linkMarks := linkMarks[id := t];
        case RemoveLinkMark(id) => linkMarks := linkMarks - {id};
        case Mkdir(p) => fs := fs[p := Dir];
        case MoveIn(id, p) =>
          if id in files {
            fs := fs[p := File(files[id])];
            files := files - {id};
          }
        case MakeLink(p, t) => fs := fs[p := Symlink(t)];
        case Remove(p) => fs := fs - {p};
        case ClaimRoot(p) => roots := roots + {p};
        case SaveInstalled(recs) => installed := installed + recs;
      }
    }

    // ---- Diff -------------------------------------------------------------------

    /** stagedState: removes a partial or wrong-size copy and reports. */
    method StagedState(e: Entry) returns (staged: bool, mismatch: bool)
      modifies this
      ensures State() == Cleaned(old(State()), e)
      ensures staged == StagedStateOf(old(State()), e).staged && mismatch == StagedStateOf(old(State()), e).mismatch
    {
      mismatch := e.id in partials;
      if mismatch {
        Do(RemovePartial(e.id));
      }
      match e.kind {
        case Directory => staged := e.id in dirMarks;
        case Link(t) => staged := e.id in linkMarks && linkMarks[e.id] == t;
        case Regular =>
          staged := e.id in files;
          if staged && |files[e.id]| != e.size {
            Do(RemoveStaged(e.id));
            staged, mismatch := false, true;
          }
      }
    }

    /** Diff: classifies every entry, refusing the manifest when any entry is
        refused, and cleans the staging area on the way. */
    method Diff(m: Manifest, pol: Policy) returns (ok: bool, st: map<int, Status>)
      modifies this
      ensures var d := Transfer.Diff(old(State()), m, pol);
              State() == Exec(old(State()), d.acts) && ok == d.ok && st == d.st
    {
      ghost var d := Transfer.Diff(State(), m, pol);
      ghost var end := Exec(State(), d.acts);
      ok, st := true, map[];
      var i := 0;
      assert m[0..] == m && map[] + d.st == d.st;
      while i < |m|
        invariant i <= |m|
        invariant DiffSofar(State(), m, pol, i, ok, st, end, d)
      {
        var e := m[i];
        DiffSofarNext(State(), m, pol, i, ok, st, end, d);
        if Check(fs, roots, m, pol, e) {
          CleanedClassifies(State(), e, pol);
          var staged, mismatch := StagedState(e);
          st := st[e.id := Classify(State(), pol, e, Transfer.StagedState([], staged, mismatch))];
        } else {
          ok := false;
        }
        i := i + 1;
      }
      assert m[|m|..] == [] && st + map[] == st;
    }

    // ---- Receive ------------------------------------------------------------------

    /** One item of the stream: a marker, or receiveFile. */
    method ReceiveItem(m: Manifest, p: Packet) returns (ok: bool)
      modifies this
      ensures State() == Exec(old(State()), ReceivePacket(old(State()), m, p).0)
      ensures ok == ReceivePacket(old(State()), m, p).1
    {
      ghost var w := State();
      var found := ByID(m, p.id);
      if found == [] {
        return false;
      }
      var e := found[0];
      match p {
        case DirPacket(id) =>
          Do(MarkDir(id));
          ExecOne(w, MarkDir(id));
          ok := true;
        case LinkPacket(id, t) =>
          Do(MarkLink(id, t));
          ExecOne(w, MarkLink(id, t));
          ok := true;
        case FilePacket(id, c) =>
          if id in files && |files[id]| == e.size {
            ok := true;
          } else {
            Do(WritePartial(id));
            ok := |c| == e.size && Sha256(c) == e.digest;
            var last := if ok then CommitPartial(id, c) else RemovePartial(id);
            Do(last);
            ExecTwo(w, WritePartial(id), last);
          }
      }
    }

    method Receive(m: Manifest, stream: seq<Packet>) returns (ok: bool)
      modifies this
      ensures State() == Exec(old(State()), Transfer.Receive(old(State()), m, stream).0)
      ensures ok == Transfer.Receive(old(State()), m, stream).1
    {
      ghost var whole := Transfer.Receive(State(), m, stream);
      ghost var end := Exec(State(), whole.0);
      var i := 0;
      assert stream[0..] == stream;
      while i < |stream|
        invariant i <= |stream|
        invariant ReceiveSofar(State(), m, stream, i, end, whole.1)
      {
        ReceiveSofarNext(State(), m, stream, i, end, whole.1);
        ok := ReceiveItem(m, stream[i]);
        if !ok {
          return;
        }
        i := i + 1;
      }
      assert stream[|stream|..] == [];
      ok := true;
    }

    // ---- placements ------------------------------------------------------------------

    /** absentAncestors */
    method FindAbsent(dir: Path) returns (missing: seq<Path>)
      ensures missing == AbsentAncestors(fs, dir)
    {
      missing := [];
      var d := dir;
      while d !in fs
        invariant missing + AbsentAncestors(fs, d) == AbsentAncestors(fs, dir)
        decreases |d|
      {
        missing := missing + [d];
        if d == [] {
          return;
        }
        d := Parent(d);
      }
    }

    /** os.MkdirAll */
    method MakeDirs(p: Path) returns (ok: bool)
      modifies this
      ensures State() == Exec(old(State()), MkdirAll(old(fs), p).0)
      ensures ok == MkdirAll(old(fs), p).1
      decreases |p|
    {
      ghost var w := State();
      if p in fs {
        return fs[p].Dir?;
      } else if p == [] {
        return false;
      }
      ok := MakeDirs(Parent(p));
      if ok {
        ExecSnoc(w, MkdirAll(w.fs, Parent(p)).0, Mkdir(p));
        Do(Mkdir(p));
      }
    }

    /** The rename, mkdir or symlink that ends a placement. */
    method Finish(e: Entry, fileOnly: bool) returns (ok: bool)
      modifies this
      ensures State() == Exec(old(State()), FinishPlacement(old(State()), e, fileOnly))
      ensures ok == (FinishPlacement(old(State()), e, fileOnly) != [])
    {
      ghost var w := State();
      ok := true;
      if AsFile(e, fileOnly) {
        if e.id in files && !(e.dst in fs && fs[e.dst].Dir?) {
          ExecOne(w, MoveIn(e.id, e.dst));
          Do(MoveIn(e.id, e.dst));
        } else {
          ok := false;
        }
      } else if e.kind.Directory? {
        ExecOne(w, RemoveDirMark(e.id));
        Do(RemoveDirMark(e.id));
      } else if e.dst !in fs {
        ExecTwo(w, MakeLink(e.dst, e.kind.target), RemoveLinkMark(e.id));
        Do(MakeLink(e.dst, e.kind.target));
        Do(RemoveLinkMark(e.id));
      } else {
        ok := false;
      }
    }

    /** place: notes the missing directories, places, and says what to record. */
    method Place(e: Entry, fileOnly: bool) returns (ok: bool, records: map<Path, RecordKind>)
      modifies this
      ensures var p := Transfer.Place(old(State()), e, fileOnly);
              State() == Exec(old(State()), p.acts) && ok == p.ok && records == p.records
    {
      ghost var w := State();
      var parent := PlaceParent(e, fileOnly);
      var created := FindAbsent(parent);
      records := map[];
      ok := MakeDirs(parent);
      if ok {
        ghost var w1 := State();
        ok := Finish(e, fileOnly);
        ExecConcat(w, MkdirAll(w.fs, parent).0, FinishPlacement(w1, e, fileOnly));
        if ok {
          records := DirRecords(created)[e.dst := RecordOf(e)];
        }
      }
    }

    method DropStagedCopy(e: Entry)
      modifies this
      ensures State() == Exec(old(State()), DropStaged(e))
    {
      ghost var w := State();
      ExecTwo(w, RemoveStaged(e.id), RemoveDirMark(e.id));
      ExecSnoc(w, [RemoveStaged(e.id), RemoveDirMark(e.id)], RemoveLinkMark(e.id));
      assert DropStaged(e) == [RemoveStaged(e.id), RemoveDirMark(e.id)] + [RemoveLinkMark(e.id)];
      Do(RemoveStaged(e.id));
      Do(RemoveDirMark(e.id));
      Do(RemoveLinkMark(e.id));
    }

    /** The forced replacement: remove what diverged, then place. */
    method ForceEntry(e: Entry, pol: Policy) returns (ok: bool, records: map<Path, RecordKind>)
      modifies this
      ensures var o := InstallEntry(old(State()), e, PresentDifferent, pol);
              State() == Exec(old(State()), o.acts) && ok == o.ok && records == o.records && !o.isNew
      ensures ok || State() != old(State()) ==>
        && pol.force && e.kind.Regular? && e.ffAllowed && e.category.CatSession? && pol.ownsSession(e.dst)
        && e.id in old(files) && Sha256(old(files)[e.id]) == e.digest
    {
      ghost var w := State();
      if !(MayForce(pol, e) && e.id in files && Sha256(files[e.id]) == e.digest && Removable(fs, e.dst)) {
        return false, map[];
      }
      ghost var removal := if e.dst in w.fs then [Destination.Action.Remove(e.dst)] else [];
      if e.dst in fs {
        ExecOne(w, Remove(e.dst));
        Do(Remove(e.dst));
      }
      ghost var w1 := State();
      ok, records := Place(e, true);
      ExecConcat(w, removal, Transfer.Place(w1, e, true).acts);
    }

    method PlaceByStatus(e: Entry, status: Status, pol: Policy)
      returns (ok: bool, records: map<Path, RecordKind>, isNew: bool)
      modifies this
      ensures var o := InstallEntry(old(State()), e, status, pol);
              State() == Exec(old(State()), o.acts) && ok == o.ok && records == o.records && isNew == o.isNew
    {
      ok, records, isNew := false, map[], false;
      match status {
        case StagedSame =>
          ok, records := Place(e, false);
          isNew := ok;
        case PresentSame =>
          DropStagedCopy(e);
          ok := true;
        case FFCandidate =>
          if e.id in files && e.dst in fs && fs[e.dst].File? && pol.ffTest(e.dst, fs[e.dst].content, files[e.id]) {
            ok, records := Place(e, true);
          }
        case PresentDifferent =>
          ok, records := ForceEntry(e, pol);
        case _ =>
      }
    }

    // ---- Install ------------------------------------------------------------------------

    /** commitClaims */
    method CommitClaims(pending: seq<Path>)
      modifies this
      ensures State() == Exec(old(State()), Claims(pending))
    {
      ghost var end := Exec(State(), Claims(pending));
      var i := 0;
      assert pending[0..] == pending;
      while i < |pending|
        invariant i <= |pending|
        invariant Exec(State(), Claims(pending[i..])) == end
      {
        assert pending[i..][0] == pending[i] && pending[i..][1..] == pending[i + 1..];
        assert Claims(pending[i..])[1..] == Claims(pending[i + 1..]);
        Do(ClaimRoot(pending[i]));
        i := i + 1;
      }
      assert pending[|pending|..] == [];
    }

    /** The placement loop: stops at the first entry it cannot place; records
        gathers v.placed, newIds gathers InstalledIDs. */
    method PlaceAll(m: Manifest, st: map<int, Status>, pol: Policy)
      returns (ok: bool, records: map<Path, RecordKind>, newIds: seq<int>)
      modifies this
      ensures var l := InstallLoop(old(State()), m, st, pol);
              State() == Exec(old(State()), l.acts) && ok == l.ok && records == l.records && newIds == l.newIds
    {
      ghost var whole := InstallLoop(State(), m, st, pol);
      ghost var end := Exec(State(), whole.acts);
      records, newIds := map[], [];
      var i := 0;
      assert m[0..] == m && map[] + whole.records == whole.records && [] + whole.newIds == whole.newIds;
      while i < |m|
        invariant i <= |m|
        invariant LoopSofar(State(), m, st, pol, i, records, newIds, end, whole)
      {
        LoopSofarNext(State(), m, st, pol, i, records, newIds, end, whole);
        var placed, recs, isNew := PlaceByStatus(m[i], StatusAt(st, m[i].id), pol);
        records := records + recs;
        if !placed {
          return false, records, newIds;
        }
        newIds := newIds + if isNew then [m[i].id] else [];
        i := i + 1;
      }
      assert m[|m|..] == [] && records + map[] == records && newIds + [] == newIds;
      ok := true;
    }

    /** Install: validates, claims, places, and writes the record on every
        exit path. */
    method Install(m: Manifest, st: map<int, Status>, pol: Policy) returns (ok: bool, newIds: seq<int>)
      modifies this
      ensures var r := Transfer.Install(old(State()), m, st, pol);
              State() == Exec(old(State()), r.acts) && ok == r.ok && newIds == r.newIds
    {
      ghost var w := State();
      if !CheckAll(fs, roots, m, pol) {
        return false, [];
      }
      var pending := PendingRoots(fs, roots, m, pol);
      CommitClaims(pending);
      if DeferredRefused(m) {
        return false, [];
      }
      ghost var w1 := State();
      var records;
      ok, records, newIds := PlaceAll(m, st, pol);
      ghost var loop := InstallLoop(w1, m, st, pol);
      ExecConcat(w, Claims(pending), loop.acts);
      ExecConcat(w, Claims(pending) + loop.acts, Flush(loop.records));
      if records != map[] {
        ExecOne(State(), SaveInstalled(records));
        Do(SaveInstalled(records));
      }
    }

    /** A whole run on an untouched host: Diff, Receive of what the source
        sends for Need, Diff, Install.  It succeeds exactly when the validator
        accepts the manifest and every entry is installable, and then leaves
        the target tree. */
    method Run(ghost j: Job, m: Manifest, src: map<int, Content>, pol: Policy) returns (ok: bool, newIds: seq<int>)
      requires Untouched(j, State()) && j.m == m && j.pol == pol && SourceIntact(m, src)
      modifies this
      ensures ok <==> Accepted(j) && Installable(j)
      ensures ok ==> IsTarget(j, fs)
      ensures State() == Exec(old(State()), FullRun(old(State()), m, src, pol).acts)
      ensures newIds == FullRun(old(State()), m, src, pol).newIds
    {
      ghost var w := State();
      RunSucceedsExactly(j, w, src);
      if FullRun(w, m, src, pol).ok {
        UntouchedMidway(j, w);
        RunDelivers(j, w, src);
      }
      newIds := [];
      var st;
      ok, st := Diff(m, pol);
      if !ok {
        return;
      }
      ghost var w1 := State();
      var (stream, sent) := Send(m, Need(m, st), src);
      ok := Receive(m, stream);
      ExecConcat(w, Transfer.Diff(w, m, pol).acts, Transfer.Receive(w1, m, stream).0);
      if !(sent && ok) {
        return false, [];
      }
      ghost var w2 := State();
      ok, st := Diff(m, pol);
      ghost var d := Transfer.Diff(w2, m, pol);
      ExecConcat(w, Stage(w, m, src, pol).0, DiffAndInstall(w2, m, pol).acts);
      if ok {
        ghost var w3 := State();
        ok, newIds := Install(m, st, pol);
        ExecConcat(w2, d.acts, Transfer.Install(w3, m, st, pol).acts);
      }
    }

    // ---- UninstallIDs -----------------------------------------------------------------

    /** UninstallIDs: the files and links of the named entries that read as
        recorded, then the created directories that are empty, deepest first;
        order is that list. */
    method UninstallIDs(m: Manifest, ids: set<int>, pol: Policy) returns (order: seq<Path>)
      modifies this
      ensures DeepestFirst(order, Selected(m, ids), old(installed), KeptPaths(m, ids))
      ensures State() == Exec(old(State()), Removal.UninstallIDs(old(State()), m, ids, pol, order))
    {
      ghost var w := State();
      var sub := Selected(m, ids);
      order := CreatedDirs(installed, sub, KeptPaths(m, ids));
      if !CheckAll(fs, roots, sub, pol) {
        ExecNone(w);
        return;
      }
      ghost var files := RemoveFiles(w.fs, w.installed, sub);
      ghost var w1 := Exec(w, files);
      RemoveRecorded(sub, w1);
      ExecConcat(w, files, RemoveDirs(w1.fs, order));
      RemoveEmptied(order);
    }

    method RemoveRecorded(sub: Manifest, ghost end: World)
      requires end == Exec(State(), RemoveFiles(fs, installed, sub))
      modifies this
      ensures State() == end
    {
      var i := 0;
      assert sub[0..] == sub;
      while i < |sub|
        invariant i <= |sub|
        invariant FilesSofar(State(), sub, i, end)
      {
        FilesSofarNext(State(), sub, i, end);
        var q := FileVictim(fs, installed, sub[i]);
        if q.Some? {
          Do(Remove(q.value));
        }
        i := i + 1;
      }
      assert sub[|sub|..] == [];
      ExecNone(State());
    }

    method RemoveEmptied(order: seq<Path>)
      modifies this
      ensures State() == Exec(old(State()), RemoveDirs(old(fs), order))
    {
      ghost var end := Exec(State(), RemoveDirs(fs, order));
      var i := 0;
      assert order[0..] == order;
      while i < |order|
        invariant i <= |order|
        invariant DirsSofar(State(), order, i, end)
      {
        DirsSofarNext(State(), order, i, end);
        var q := Victim(fs, order[i], DirRecord);
        if q.Some? {
          Do(Remove(q.value));
        }
        i := i + 1;
      }
      assert order[|order|..] == [];
      ExecNone(State());
    }
  }
}
