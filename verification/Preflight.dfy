/** The decisions made before and around a transfer: which entries belong to the
    session, which block the job, which still wait for a copy, and how these
    answers relate to what Install later does. */
module Preflight {
  import opened Common
  import opened Destination
  import opened Transfer
  import opened Interrupted
  import opened StagingArea
  import opened CrashResume

  // ---- whose file is it ------------------------------------------------------------

  /** A path component of the session: its id, or its id and an extension. */
  predicate OfSession(c: string, sid: string) {
    c == sid || sid + "." <= c
  }

  predicate AnyOfSession(cs: seq<string>, sid: string) {
    exists i :: 0 <= i < |cs| && OfSession(cs[i], sid)
  }

  /** The marker "/" + sid stands in "/" + rel at i. */
  predicate MarkedAt(rel: string, sid: string, i: nat) {
    i <= |rel| && (i == 0 || rel[i - 1] == '/') && sid <= rel[i..]
  }

  /** And what follows it ends the name. */
  predicate NamedAt(rel: string, sid: string, i: nat) {
    MarkedAt(rel, sid, i) && (i + |sid| == |rel| || rel[i + |sid|] == '.' || rel[i + |sid|] == '/')
  }

  ghost predicate Named(rel: string, sid: string) {
    exists i: nat :: NamedAt(rel, sid, i)
  }

  /** strings.Index of the marker from idx on. */
  method NextMarker(rel: string, sid: string, idx: nat) returns (at: int)
    ensures at >= idx ==> MarkedAt(rel, sid, at) && forall k :: idx <= k < at ==> !MarkedAt(rel, sid, k)
    ensures at < idx ==> at == -1 && forall k :: k >= idx ==> !MarkedAt(rel, sid, k)
  {
    at := idx;
    while at <= |rel|
      invariant at >= idx && forall k :: idx <= k < at ==> !MarkedAt(rel, sid, k)
    {
      if (at == 0 || rel[at - 1] == '/') && sid <= rel[at..] {
        return;
      }
      at := at + 1;
    }
    at := -1;
  }

  /** ffAllowed: some component of the path is the session's. */
  method FfAllowed(rel: string, sid: string) returns (ok: bool)
    requires '/' !in sid
    ensures ok <==> sid != "" && AnyOfSession(Components(rel), sid)
  {
    if sid == "" {
      return false;
    }
    ComponentsNamed(rel, sid);
    var idx := 0;
    while idx <= |rel|
      invariant forall k :: 0 <= k < idx ==> !NamedAt(rel, sid, k)
      decreases |rel| + 1 - idx
    {
      var at := NextMarker(rel, sid, idx);
      if at < 0 {
        return false;
      }
      var end := at + |sid|;
      if end == |rel| || rel[end] == '.' || rel[end] == '/' {
        assert NamedAt(rel, sid, at);
        return true;
      }
      idx := at + 1;
    }
    ok := false;
  }

  lemma FirstComponent(rel: string, sid: string)
    requires '/' !in sid
    ensures NamedAt(rel, sid, 0) <==> OfSession(rel[..NextSlash(rel)], sid)
  {
    var k := NextSlash(rel);
    var c := rel[..k];
    if sid <= rel {
      assert forall i :: 0 <= i < |sid| ==> sid[i] == rel[i] && sid[i] in sid;
      assert |sid| <= k;
      assert sid == c[..|sid|];
      if |sid| < k {
        assert c[|sid|] == rel[|sid|];
        assert c[|sid|] == '.' ==> c[..|sid| + 1] == sid + ".";
      }
    }
    if sid + "." <= c {
      assert c[|sid|] == (sid + ".")[|sid|] == '.';
      assert sid == c[..|sid|] == rel[..|sid|];
    }
    assert c == sid ==> sid == rel[..|sid|];
  }

  lemma LaterMarks(rel: string, sid: string, n: nat, i: nat)
    requires 0 < n <= |rel| && rel[n - 1] == '/'
    ensures MarkedAt(rel[n..], sid, i) <==> MarkedAt(rel, sid, n + i)
  {
    if i <= |rel[n..]| {
      assert rel[n..][i..] == rel[n + i..];
      assert i > 0 ==> rel[n..][i - 1] == rel[n + i - 1];
    }
  }

  lemma LaterNames(rel: string, sid: string, n: nat, i: nat)
    requires 0 < n <= |rel| && rel[n - 1] == '/'
    ensures NamedAt(rel[n..], sid, i) <==> NamedAt(rel, sid, n + i)
  {
    LaterMarks(rel, sid, n, i);
    if MarkedAt(rel[n..], sid, i) {
      MarkedInside(rel[n..], sid, i);
      LaterFollows(rel, n, i + |sid|);
    }
  }

  lemma LaterFollows(rel: string, n: nat, x: nat)
    requires n <= |rel| && x <= |rel[n..]|
    ensures x < |rel[n..]| ==> rel[n..][x] == rel[n + x]
  {
  }

  lemma LaterComponents(rel: string, sid: string, i: nat)
    requires NextSlash(rel) < |rel|
    ensures var k := NextSlash(rel);
            NamedAt(rel[k + 1..], sid, i) <==> NamedAt(rel, sid, k + 1 + i)
  {
    hide NextSlash, NamedAt;
    LaterNames(rel, sid, NextSlash(rel) + 1, i);
  }

  lemma MarkedInside(rel: string, sid: string, i: nat)
    requires MarkedAt(rel, sid, i)
    ensures i + |sid| <= |rel|
  {
  }

  /** Nothing is marked inside the first component but at its start. */
  lemma NoneInside(rel: string, sid: string, i: nat)
    requires NamedAt(rel, sid, i) && i > 0
    ensures i >= NextSlash(rel) + 1 && NextSlash(rel) < |rel|
  {
    assert rel[i - 1] == '/';
  }

  /** A name is the first component, or is found in what follows it. */
  lemma NamedSplits(rel: string, sid: string)
    requires '/' !in sid
    ensures var k := NextSlash(rel);
            Named(rel, sid) <==> OfSession(rel[..k], sid) || (k < |rel| && Named(rel[k + 1..], sid))
  {
    hide NextSlash, NamedAt, OfSession;
    var k := NextSlash(rel);
    FirstComponent(rel, sid);
    forall i: nat | NamedAt(rel, sid, i) && i > 0 ensures k < |rel| && Named(rel[k + 1..], sid) {
      NoneInside(rel, sid, i);
      LaterComponents(rel, sid, i - (k + 1));
    }
    if k < |rel| {
      var rest := rel[k + 1..];
      forall i: nat | NamedAt(rest, sid, i) ensures Named(rel, sid) {
        LaterComponents(rel, sid, i);
        assert NamedAt(rel, sid, k + 1 + i);
      }
    }
    assert NamedAt(rel, sid, 0) ==> Named(rel, sid);
  }

  /** The positions the scan accepts are the components of the session. */
  lemma {:induction false} ComponentsNamed(rel: string, sid: string)
    requires '/' !in sid
    ensures Named(rel, sid) <==> AnyOfSession(Components(rel), sid)
    decreases |rel|
  {
    hide Named, OfSession, AnyOfSession;
    var k := NextSlash(rel);
    NamedSplits(rel, sid);
    NoneOfSession(sid);
    if k == |rel| {
      assert [rel] + [] == Components(rel) && rel[..k] == rel;
      AnyCons(rel, [], sid);
    } else {
      ComponentsNamed(rel[k + 1..], sid);
      AnyCons(rel[..k], Components(rel[k + 1..]), sid);
    }
  }

  lemma NoneOfSession(sid: string)
    ensures !AnyOfSession([], sid)
  {
  }

  lemma AnyCons(c: string, cs: seq<string>, sid: string)
    ensures AnyOfSession([c] + cs, sid) <==> OfSession(c, sid) || AnyOfSession(cs, sid)
  {
    if i :| 0 <= i < |cs| && OfSession(cs[i], sid) {
      assert ([c] + cs)[i + 1] == cs[i];
    }
    assert OfSession(c, sid) ==> OfSession(([c] + cs)[0], sid);
  }

  // ---- Pending and Blocking ------------------------------------------------------------

  predicate Waits(st: map<int, Status>, e: Entry) {
    StatusAt(st, e.id).Absent? || StatusAt(st, e.id).StagedMismatch?
  }

  predicate Blocks(st: map<int, Status>, force: bool, e: Entry) {
    StatusAt(st, e.id).PresentDifferent? && !(force && e.ffAllowed && e.category.CatSession?)
  }

  /** Pending: the ids still to be sent. */
  method Pending(m: Manifest, st: map<int, Status>) returns (ids: seq<int>)
    ensures forall id :: id in ids <==> exists e :: e in m && e.id == id && Waits(st, e)
  {
    ids := [];
    var i := 0;
    while i < |m|
      invariant i <= |m|
      invariant forall id :: id in ids <==> exists e :: e in m[..i] && e.id == id && Waits(st, e)
    {
      assert m[..i + 1] == m[..i] + [m[i]];
      if Waits(st, m[i]) {
        ids := ids + [m[i].id];
      }
      i := i + 1;
    }
    assert m[..i] == m;
  }

  /** Blocking: the entries that refuse the job at preflight. */
  method Blocking(m: Manifest, st: map<int, Status>, force: bool) returns (out: seq<Entry>)
    ensures forall e :: e in out <==> e in m && Blocks(st, force, e)
  {
    out := [];
    var i := 0;
    while i < |m|
      invariant i <= |m|
      invariant forall e :: e in out <==> e in m[..i] && Blocks(st, force, e)
    {
      assert m[..i + 1] == m[..i] + [m[i]];
      if Blocks(st, force, m[i]) {
        out := out + [m[i]];
      }
      i := i + 1;
    }
    assert m[..i] == m;
  }

  // ---- what the answers are worth ---------------------------------------------------------

  /** Statuses taken on the original tree. */
  ghost predicate Classified(j: Job, w: World, st: map<int, Status>) {
    Untouched(j, w) && StatusesMean(w, j.m, j.pol, st)
  }

  /** The statuses Diff reports on an untouched host are such. */
  lemma DiffClassifies(j: Job, w: World)
    requires Untouched(j, w) && Diff(w, j.m, j.pol).ok
    ensures Classified(j, Exec(w, Diff(w, j.m, j.pol).acts), Diff(w, j.m, j.pol).st)
  {
    DiffFromMeans(w, j.m, j.m, j.pol);
    var w' := Exec(w, Diff(w, j.m, j.pol).acts);
    forall e | e in j.m && e.id in w'.files ensures Sha256(w'.files[e.id]) == e.digest {
      assert w'.files[e.id] == w.files[e.id];
    }
  }

  /** A blocking entry is one the job may not replace... */
  lemma BlockedMayNotReplace(j: Job, w: World, st: map<int, Status>, e: Entry)
    requires Classified(j, w, st) && e in j.m && Blocks(st, j.pol.force, e)
    ensures !MayReplace(j, e)
  {
    assert StatusMeans(w, j.pol, e, PresentDifferent);
    if e.id in w.files {
      assert Sha256(w.files[e.id]) == e.digest;
    }
  }

  /** ... so preflight refuses only jobs that could not have succeeded. */
  lemma BlockedNeverSucceeds(j: Job, w: World, st: map<int, Status>, src: map<int, Content>, e: Entry)
    requires Classified(j, w, st) && SourceIntact(j.m, src) && e in j.m && Blocks(st, j.pol.force, e)
    ensures !FullRun(w, j.m, src, j.pol).ok
  {
    BlockedMayNotReplace(j, w, st, e);
    RunSucceedsExactly(j, w, src);
    assert !EntryInstallable(j, e);
  }

  /** Once the copies are staged, not blocking means replaceable, but for an
      entry that only the destination's own ownership test denies. */
  lemma UnblockedMayReplace(j: Job, w: World, st: map<int, Status>, e: Entry)
    requires Classified(j, w, st) && e in j.m && StagedCopy(w, e)
    requires StaticallyAllowed(j.pol, e) && !DeferredRefused(j.m)
    requires Deferrable(e) && e.dst in w.fs ==> !w.fs[e.dst].Dir?
    ensures !Blocks(st, j.pol.force, e)
      <==> MayReplace(j, e) || (j.pol.force && e.ffAllowed && e.category.CatSession? && !(e.kind.Regular? && j.pol.ownsSession(e.dst)))
  {
    assert StatusMeans(w, j.pol, e, StatusAt(st, e.id));
    if e.id in w.files {
      assert Sha256(w.files[e.id]) == e.digest;
    }
  }

  /** Pending says exactly which entries have neither a node at their place nor a
      copy in staging; a fast-forward candidate is not asked for. */
  lemma PendingIsUnstaged(j: Job, w: World, st: map<int, Status>, e: Entry)
    requires Classified(j, w, st) && e in j.m
    ensures Waits(st, e) <==> (Deferrable(e) || e.dst !in w.fs) && !StagedCopy(w, e)
  {
    assert StatusMeans(w, j.pol, e, StatusAt(st, e.id));
  }
}
