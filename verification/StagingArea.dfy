/** Diff, Send and Receive: what they do to the staging area and what their
    statuses promise. */
module StagingArea {
  import opened Destination
  import opened Transfer
  import opened Interrupted

  predicate Staging(a: Action) {
    a.WritePartial? || a.RemovePartial? || a.RemoveStaged? || a.MarkDir? || a.RemoveDirMark?
    || a.MarkLink? || a.RemoveLinkMark?
  }

  lemma {:induction false} StagingOnly(j: Job, w: World, acts: seq<Action>)
    requires forall a :: a in acts ==> Staging(a)
    ensures AllAllowed(j, w, acts)
    ensures Exec(w, acts).fs == w.fs && Exec(w, acts).roots == w.roots && Exec(w, acts).installed == w.installed
    decreases |acts|
  {
    if acts != [] {
      assert Staging(acts[0]);
      StagingOnly(j, Step(w, acts[0]), acts[1..]);
    }
  }

  /** The staging entries of one id. */
  predicate SameStaged(w: World, w': World, id: int) {
    && (id in w.files <==> id in w'.files) && (id in w.files ==> w.files[id] == w'.files[id])
    && (id in w.dirMarks <==> id in w'.dirMarks)
    && (id in w.linkMarks <==> id in w'.linkMarks) && (id in w.linkMarks ==> w.linkMarks[id] == w'.linkMarks[id])
  }

  /** A staged copy stagedState accepts. */
  predicate StagedCopy(w: World, e: Entry) {
    match e.kind
    case Regular => e.id in w.files && |w.files[e.id]| == e.size
    case Directory => e.id in w.dirMarks
    case Link(t) => e.id in w.linkMarks && w.linkMarks[e.id] == t
  }

  /** The fast-forward conditions Diff and Install check. */
  predicate Extends(w: World, pol: Policy, e: Entry) {
    && e.kind.Regular? && e.ffAllowed && e.dst in w.fs && w.fs[e.dst].File?
    && (e.id in w.files ==> pol.ffTest(e.dst, w.fs[e.dst].content, w.files[e.id]))
  }

  /** What a status promises about the world it was taken in. */
  predicate StatusMeans(w: World, pol: Policy, e: Entry, s: Status) {
    match s
    case StagedSame => (Deferrable(e) || e.dst !in w.fs) && StagedCopy(w, e)
    case PresentSame => !Deferrable(e) && e.dst in w.fs && w.fs[e.dst] == e.Node()
    case FFCandidate => !Deferrable(e) && Extends(w, pol, e) && w.fs[e.dst] != e.Node()
    case PresentDifferent => !Deferrable(e) && e.dst in w.fs && w.fs[e.dst] != e.Node() && !Extends(w, pol, e)
    case NoStatus => false
    case _ => (Deferrable(e) || e.dst !in w.fs) && !StagedCopy(w, e)
  }

  /** The world once stagedState has dropped what it drops for e. */
  function Cleaned(w: World, e: Entry): World {
    w.(partials := w.partials - {e.id},
       files := if e.kind.Regular? && e.id in w.files && |w.files[e.id]| != e.size then w.files - {e.id} else w.files)
  }

  lemma StagedStateCleans(w: World, e: Entry)
    ensures Exec(w, StagedStateOf(w, e).acts) == Cleaned(w, e)
    ensures forall a :: a in StagedStateOf(w, e).acts ==> Staging(a)
  {
    var a, b := RemovePartial(e.id), RemoveStaged(e.id);
    ExecOne(w, a);
    ExecOne(w, b);
    ExecTwo(w, a, b);
    assert [a] + [b] == [a, b] && [] + [b] == [b];
    if e.id !in w.partials {
      assert w.partials - {e.id} == w.partials;
    }
  }

  lemma StagedStateMeans(w: World, pol: Policy, e: Entry)
    ensures StatusMeans(Cleaned(w, e), pol, e, Classify(w, pol, e, StagedStateOf(w, e)))
  {
  }

  /** Cleaning touches nothing but e's own staging. */
  lemma CleanedOthers(w: World, e: Entry, id: int)
    ensures id != e.id ==> SameStaged(w, Cleaned(w, e), id)
    ensures id in Cleaned(w, e).files ==> id in w.files && Cleaned(w, e).files[id] == w.files[id]
    ensures StagedCopy(w, e) <==> StagedCopy(Cleaned(w, e), e)
  {
  }

  lemma WellFormedTail(m: Manifest)
    requires WellFormed(m) && m != []
    ensures WellFormed(m[1..])
    ensures forall e :: e in m[1..] ==> e in m && e.id != m[0].id && e.dst != m[0].dst
    ensures forall e :: e in m ==> e == m[0] || e in m[1..]
  {
    forall i, k | 0 <= i < k < |m[1..]| ensures m[1..][i].id != m[1..][k].id && m[1..][i].dst != m[1..][k].dst {
      assert m[1..][i] == m[i + 1] && m[1..][k] == m[k + 1];
    }
  }

  /** The effect of Diff on the world: it only drops staged copies of entries
      in es, and its statuses mean what they say in the world it leaves. */
  ghost predicate DiffEffect(w: World, w': World, es: Manifest) {
    && w'.fs == w.fs && w'.roots == w.roots && w'.installed == w.installed
    && (forall id :: (forall e :: e in es ==> e.id != id) ==> SameStaged(w, w', id))
    && (forall id :: id in w'.files ==> id in w.files && w'.files[id] == w.files[id])
  }

  ghost predicate StatusesMean(w: World, es: Manifest, pol: Policy, st: map<int, Status>) {
    forall e :: e in es ==> StatusMeans(w, pol, e, StatusAt(st, e.id))
  }

  lemma StatusMeansStable(w: World, w': World, pol: Policy, e: Entry, s: Status)
    requires StatusMeans(w, pol, e, s) && w'.fs == w.fs && SameStaged(w, w', e.id)
    ensures StatusMeans(w', pol, e, s)
  {
  }

  lemma {:induction false} DiffKeys(w: World, es: Manifest, m: Manifest, pol: Policy, id: int)
    requires forall e :: e in es ==> e.id != id
    ensures id !in DiffFrom(w, es, m, pol).st
    decreases |es|
  {
    if es != [] {
      assert es[0] in es;
      DiffKeys(w, es[1..], m, pol, id);
      DiffKeys(Exec(w, StagedStateOf(w, es[0]).acts), es[1..], m, pol, id);
    }
  }

  lemma DiffUnfolds(w: World, es: Manifest, m: Manifest, pol: Policy)
    requires es != []
    ensures var d := DiffFrom(w, es, m, pol);
            if Check(w.fs, w.roots, m, pol, es[0]) then
              var rest := DiffFrom(Cleaned(w, es[0]), es[1..], m, pol);
              && d.acts == StagedStateOf(w, es[0]).acts + rest.acts
              && Exec(w, d.acts) == Exec(Cleaned(w, es[0]), rest.acts)
              && d.ok == rest.ok
              && d.st == map[es[0].id := Classify(w, pol, es[0], StagedStateOf(w, es[0]))] + rest.st
            else
              d.acts == DiffFrom(w, es[1..], m, pol).acts && !d.ok
  {
    StagedStateCleans(w, es[0]);
    ExecConcat(w, StagedStateOf(w, es[0]).acts, DiffFrom(Cleaned(w, es[0]), es[1..], m, pol).acts);
  }

  lemma DiffEffectStep(w: World, w2: World, es: Manifest)
    requires WellFormed(es) && es != [] && DiffEffect(Cleaned(w, es[0]), w2, es[1..])
    requires forall f :: f in es[1..] && StagedCopy(Cleaned(w, es[0]), f) ==> StagedCopy(w2, f)
    ensures DiffEffect(w, w2, es)
    ensures SameStaged(Cleaned(w, es[0]), w2, es[0].id)
    ensures forall f :: f in es && StagedCopy(w, f) ==> StagedCopy(w2, f)
  {
    WellFormedTail(es);
    var e := es[0];
    var w1 := Cleaned(w, e);
    assert SameStaged(w1, w2, e.id);
    forall id ensures (forall f :: f in es ==> f.id != id) ==> SameStaged(w, w2, id) {
      CleanedOthers(w, e, id);
      assert SameStaged(w1, w2, id) || exists f :: f in es[1..] && f.id == id;
    }
    forall f | f in es && StagedCopy(w, f) ensures StagedCopy(w2, f) {
      CleanedOthers(w, e, f.id);
    }
  }

  lemma {:induction false} DiffFromEffect(w: World, es: Manifest, m: Manifest, pol: Policy)
    requires WellFormed(es)
    ensures forall a :: a in DiffFrom(w, es, m, pol).acts ==> Staging(a)
    ensures DiffEffect(w, Exec(w, DiffFrom(w, es, m, pol).acts), es)
    ensures forall e :: e in es && StagedCopy(w, e) ==> StagedCopy(Exec(w, DiffFrom(w, es, m, pol).acts), e)
    decreases |es|
  {
    if es != [] {
      WellFormedTail(es);
      DiffUnfolds(w, es, m, pol);
      if Check(w.fs, w.roots, m, pol, es[0]) {
        StagedStateCleans(w, es[0]);
        DiffFromEffect(Cleaned(w, es[0]), es[1..], m, pol);
        DiffEffectStep(w, Exec(Cleaned(w, es[0]), DiffFrom(Cleaned(w, es[0]), es[1..], m, pol).acts), es);
      } else {
        DiffFromEffect(w, es[1..], m, pol);
        assert SameStaged(w, Exec(w, DiffFrom(w, es, m, pol).acts), es[0].id);
      }
    }
  }

  lemma {:induction false} DiffFromStatuses(w: World, es: Manifest, m: Manifest, pol: Policy)
    requires WellFormed(es) && DiffFrom(w, es, m, pol).ok
    ensures StatusesMean(Exec(w, DiffFrom(w, es, m, pol).acts), es, pol, DiffFrom(w, es, m, pol).st)
    decreases |es|
  {
    hide DiffFrom, Classify, StagedStateOf, StatusMeans, Check, Exec, WellFormed, SameStaged, Cleaned;
    if es != [] {
      var e := es[0];
      WellFormedTail(es);
      DiffUnfolds(w, es, m, pol);
      var w1 := Cleaned(w, e);
      var rest := DiffFrom(w1, es[1..], m, pol);
      var w2 := Exec(w1, rest.acts);
      DiffFromStatuses(w1, es[1..], m, pol);
      DiffFromEffect(w1, es[1..], m, pol);
      StagedStateMeans(w, pol, e);
      assert SameStaged(w1, w2, e.id);
      var s := Classify(w, pol, e, StagedStateOf(w, e));
      StatusMeansStable(w1, w2, pol, e, s);
      DiffKeys(w1, es[1..], m, pol, e.id);
      StatusesCons(w2, es, pol, s, rest.st);
    }
  }

  lemma StatusesCons(w: World, es: Manifest, pol: Policy, s: Status, st: map<int, Status>)
    requires WellFormed(es) && es != [] && StatusMeans(w, pol, es[0], s) && es[0].id !in st
    requires StatusesMean(w, es[1..], pol, st)
    ensures StatusesMean(w, es, pol, map[es[0].id := s] + st)
  {
    hide StatusMeans;
    WellFormedTail(es);
    forall e | e in es ensures StatusMeans(w, pol, e, StatusAt(map[es[0].id := s] + st, e.id)) {
      if e != es[0] {
        assert e in es[1..] && StatusAt(map[es[0].id := s] + st, e.id) == StatusAt(st, e.id);
      }
    }
  }

  lemma DiffFromMeans(w: World, es: Manifest, m: Manifest, pol: Policy)
    requires WellFormed(es)
    ensures forall a :: a in DiffFrom(w, es, m, pol).acts ==> Staging(a)
    ensures DiffEffect(w, Exec(w, DiffFrom(w, es, m, pol).acts), es)
    ensures forall e :: e in es && StagedCopy(w, e) ==> StagedCopy(Exec(w, DiffFrom(w, es, m, pol).acts), e)
    ensures DiffFrom(w, es, m, pol).ok ==>
      StatusesMean(Exec(w, DiffFrom(w, es, m, pol).acts), es, pol, DiffFrom(w, es, m, pol).st)
  {
    DiffFromEffect(w, es, m, pol);
    if DiffFrom(w, es, m, pol).ok {
      DiffFromStatuses(w, es, m, pol);
    }
  }

  // ---- Send and Receive -----------------------------------------------------

  /** The source still holds what the manifest describes. */
  ghost predicate SourceIntact(m: Manifest, src: map<int, Content>) {
    forall e :: e in m && e.kind.Regular? ==>
      e.id in src && Sha256(src[e.id]) == e.digest && |src[e.id]| == e.size
  }

  function PacketOf(e: Entry, src: map<int, Content>): Packet
    requires e.kind.Regular? ==> e.id in src
  {
    match e.kind
    case Directory => DirPacket(e.id)
    case Link(t) => LinkPacket(e.id, t)
    case Regular => FilePacket(e.id, src[e.id])
  }

  ghost predicate FromSource(m: Manifest, src: map<int, Content>, p: Packet)
    requires SourceIntact(m, src)
  {
    exists e :: e in m && p == PacketOf(e, src)
  }

  /** p is the packet of an entry that was asked for. */
  ghost predicate Asked(m: Manifest, need: seq<int>, src: map<int, Content>, p: Packet)
    requires SourceIntact(m, src)
  {
    exists e :: e in m && e.id in need && p == PacketOf(e, src)
  }

  lemma {:induction false} SendDelivers(m: Manifest, need: seq<int>, src: map<int, Content>)
    requires SourceIntact(m, src)
    ensures Send(m, need, src).1
    ensures forall e :: e in m && e.id in need ==> PacketOf(e, src) in Send(m, need, src).0
    ensures forall p :: p in Send(m, need, src).0 ==> FromSource(m, src, p) && Asked(m, need, src, p)
  {
    if m != [] {
      SendDelivers(m[1..], need, src);
      assert m[0] in m && forall e :: e in m[1..] ==> e in m;
      assert forall p :: FromSource(m[1..], src, p) ==> FromSource(m, src, p);
    }
  }

  lemma {:induction false} NeedIs(m: Manifest, st: map<int, Status>)
    ensures forall e :: e in m && Needed(st, e) ==> e.id in Need(m, st)
    ensures forall id :: id in Need(m, st) ==> exists e :: e in m && e.id == id && Needed(st, e)
  {
    if m != [] {
      NeedIs(m[1..], st);
      assert m[0] in m;
    }
  }

  /** Nothing is there, or not the right thing and it may be copied over. */
  lemma NeededIs(st: map<int, Status>, e: Entry)
    ensures Needed(st, e) <==>
      && e.id in st
      && (st[e.id] in {Absent, StagedMismatch, FFCandidate} || (st[e.id] == PresentDifferent && e.ffAllowed))
  {
  }

  /** Send ends well if and only if every file it needs still has its size. */
  lemma {:induction false} SendSucceeds(m: Manifest, need: seq<int>, src: map<int, Content>)
    ensures Send(m, need, src).1 <==>
      forall e :: e in m && e.id in need && e.kind == Regular ==> e.id in src && |src[e.id]| == e.size
  {
    if m != [] {
      SendSucceeds(m[1..], need, src);
      assert m == [m[0]] + m[1..];
    }
  }

  /** A copy of the right size that is already staged is not written again. */
  lemma StagedIsKept(w: World, m: Manifest, e: Entry, c: Content)
    requires WellFormed(m) && e in m && e.id in w.files && |w.files[e.id]| == e.size
    ensures ReceivePacket(w, m, FilePacket(e.id, c)) == ([], true)
  {
    ByIDFinds(m, e);
  }

  lemma ByIDFinds(m: Manifest, e: Entry)
    requires WellFormed(m) && e in m
    ensures ByID(m, e.id) == [e]
  {
    if ByID(m, e.id) != [] {
      SameEntry(m, e, ByID(m, e.id)[0]);
    }
  }

  /** One packet, whatever the stream says, keeps the staging verified. */
  lemma PacketAllowed(j: Job, w: World, p: Packet)
    requires WellFormed(j.m)
    ensures AllAllowed(j, w, ReceivePacket(w, j.m, p).0)
    ensures var w' := Exec(w, ReceivePacket(w, j.m, p).0);
            w'.fs == w.fs && w'.roots == w.roots && w'.installed == w.installed
  {
    var acts := ReceivePacket(w, j.m, p).0;
    if acts != [] {
      if |acts| == 1 {
        assert acts == [acts[0]];
        ExecOne(w, acts[0]);
      } else {
        assert acts == [acts[0], acts[1]];
        ExecTwo(w, acts[0], acts[1]);
        assert acts[1..] == [acts[1]] && acts[1..][1..] == [];
        forall e | e in j.m && e.id == p.id ensures ByID(j.m, p.id) == [e] {
          ByIDFinds(j.m, e);
        }
      }
    }
  }

  /** The source's own packet for e stages e and loses nothing staged. */
  lemma PacketStages(m: Manifest, w: World, src: map<int, Content>, e: Entry)
    requires WellFormed(m) && SourceIntact(m, src) && e in m
    ensures ReceivePacket(w, m, PacketOf(e, src)).1
    ensures var w' := Exec(w, ReceivePacket(w, m, PacketOf(e, src)).0);
            StagedCopy(w', e) && forall f :: f in m && StagedCopy(w, f) ==> StagedCopy(w', f)
  {
    ByIDFinds(m, e);
    var acts := ReceivePacket(w, m, PacketOf(e, src)).0;
    var w' := Exec(w, acts);
    if |acts| == 1 {
      assert acts == [acts[0]];
      ExecOne(w, acts[0]);
    } else if |acts| == 2 {
      assert acts == [acts[0], acts[1]];
      ExecTwo(w, acts[0], acts[1]);
    }
    forall f | f in m && StagedCopy(w, f) ensures StagedCopy(w', f) {
      if f.id == e.id {
        SameEntry(m, e, f);
      }
    }
  }

  lemma {:induction false} ReceiveAllowed(j: Job, w: World, stream: seq<Packet>)
    requires WellFormed(j.m)
    ensures AllAllowed(j, w, Receive(w, j.m, stream).0)
    ensures var w' := Exec(w, Receive(w, j.m, stream).0);
            w'.fs == w.fs && w'.roots == w.roots && w'.installed == w.installed
    decreases |stream|
  {
    if stream != [] {
      PacketAllowed(j, w, stream[0]);
      var (acts, ok) := ReceivePacket(w, j.m, stream[0]);
      if ok {
        var w1 := Exec(w, acts);
        ReceiveAllowed(j, w1, stream[1..]);
        AllAllowedConcat(j, w, acts, Receive(w1, j.m, stream[1..]).0);
        ExecConcat(w, acts, Receive(w1, j.m, stream[1..]).0);
      }
    }
  }

  lemma {:induction false} ReceiveStages(m: Manifest, w: World, src: map<int, Content>, stream: seq<Packet>)
    requires WellFormed(m) && SourceIntact(m, src)
    requires forall p :: p in stream ==> FromSource(m, src, p)
    ensures Receive(w, m, stream).1
    ensures var w' := Exec(w, Receive(w, m, stream).0);
            && (forall e :: e in m && PacketOf(e, src) in stream ==> StagedCopy(w', e))
            && (forall e :: e in m && StagedCopy(w, e) ==> StagedCopy(w', e))
    decreases |stream|
  {
    if stream != [] {
      assert stream[0] in stream && forall p :: p in stream[1..] ==> p in stream;
      var e :| e in m && stream[0] == PacketOf(e, src);
      PacketStages(m, w, src, e);
      var acts := ReceivePacket(w, m, stream[0]).0;
      var w1 := Exec(w, acts);
      ReceiveStages(m, w1, src, stream[1..]);
      ExecConcat(w, acts, Receive(w1, m, stream[1..]).0);
      forall f | f in m && PacketOf(f, src) in stream
        ensures StagedCopy(w1, f) || PacketOf(f, src) in stream[1..]
      {
        if PacketOf(f, src) == stream[0] {
          SameEntry(m, e, f);
        }
      }
    }
  }

  // ---- Stage: Diff, Send(Need), Receive -------------------------------------

  lemma StageAllowed(j: Job, w: World, src: map<int, Content>)
    requires WellFormed(j.m)
    ensures AllAllowed(j, w, Stage(w, j.m, src, j.pol).0)
    ensures var w' := Exec(w, Stage(w, j.m, src, j.pol).0);
            w'.fs == w.fs && w'.roots == w.roots && w'.installed == w.installed
  {
    var d := Diff(w, j.m, j.pol);
    DiffFromMeans(w, j.m, j.m, j.pol);
    StagingOnly(j, w, d.acts);
    if d.ok {
      var stream := Send(j.m, Need(j.m, d.st), src).0;
      var w1 := Exec(w, d.acts);
      ReceiveAllowed(j, w1, stream);
      AllAllowedConcat(j, w, d.acts, Receive(w1, j.m, stream).0);
      ExecConcat(w, d.acts, Receive(w1, j.m, stream).0);
    }
  }

  /** After a completed Stage nothing is missing: each entry is staged, or is
      already delivered, or differs and may not be sent at all. */
  predicate Supplied(w: World, e: Entry) {
    StagedCopy(w, e) || (!Deferrable(e) && e.dst in w.fs && (w.fs[e.dst] == e.Node() || !e.ffAllowed))
  }

  lemma StageSupplies(j: Job, w: World, src: map<int, Content>)
    requires WellFormed(j.m) && SourceIntact(j.m, src)
    requires Diff(w, j.m, j.pol).ok
    ensures Stage(w, j.m, src, j.pol).1
    ensures forall e :: e in j.m ==> Supplied(Exec(w, Stage(w, j.m, src, j.pol).0), e)
  {
    var m := j.m;
    var d := Diff(w, m, j.pol);
    DiffFromMeans(w, m, m, j.pol);
    var need := Need(m, d.st);
    NeedIs(m, d.st);
    SendDelivers(m, need, src);
    var stream := Send(m, need, src).0;
    var w1 := Exec(w, d.acts);
    ReceiveStages(m, w1, src, stream);
    var acts := Receive(w1, m, stream).0;
    ReceiveAllowed(j, w1, stream);
    ExecConcat(w, d.acts, acts);
    var w2 := Exec(w1, acts);
    forall e | e in m ensures Supplied(w2, e) {
      assert StatusMeans(w1, j.pol, e, StatusAt(d.st, e.id));
      if Needed(d.st, e) {
        assert e.id in need;
        assert PacketOf(e, src) in stream;
      }
    }
  }
}
