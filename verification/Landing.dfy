/** Where a placement lands: path resolution over a tree with symbolic links,
    dangling and looping ones included, and the guard that resolves a
    destination right before it is written. */
module Landing {
  import opened Common
  import opened Destination

  datatype Resolved = Found(path: Path) | NotExist | Failed

  const KERNEL_LINKS: nat := 40
  const GO_LINKS: nat := 255

  function Up(p: Path): Path {
    if p == [] then [] else Parent(p)
  }

  /** Following the components rest from the real path cur, at most links
      symbolic links: stat(2), and EvalSymlinks. */
  function Walk(fs: Fs, cur: Path, rest: seq<string>, links: nat): Resolved
    decreases links, |rest|
  {
    if rest == [] then Found(cur)
    else if cur !in fs || !fs[cur].Dir? then Failed
    else if rest[0] == ".." then Walk(fs, Up(cur), rest[1..], links)
    else
      var q := cur + [rest[0]];
      if q !in fs then NotExist
      else if fs[q].Symlink? then
        if links == 0 then Failed
        else Walk(fs, if LinkAbsolute(fs[q].target) then [] else cur, LinkNames(fs[q].target) + rest[1..], links - 1)
      else Walk(fs, q, rest[1..], links)
  }

  function Stat(fs: Fs, p: seq<string>): Resolved {
    Walk(fs, [], p, KERNEL_LINKS)
  }

  function EvalSymlinks(fs: Fs, p: seq<string>): Resolved {
    Walk(fs, [], p, GO_LINKS)
  }

  // ---- resolveExisting -----------------------------------------------------------

  /** The longest prefix that resolves, with the components below it rejoined. */
  function ResolveExisting(fs: Fs, p: seq<string>): Option<Path> {
    match EvalSymlinks(fs, p)
    case Found(r) => Some(r)
    case Failed => None
    case NotExist =>
      if p == [] then Some([])
      else
        var up := ResolveExisting(fs, p[..|p| - 1]);
        if up.None? then None else Some(up.value + [p[|p| - 1]])
  }

  /** resolveExisting, as its loop walks up and rejoins. */
  method ResolveExistingLoop(fs: Fs, path: seq<string>) returns (r: Option<Path>)
    ensures r == ResolveExisting(fs, path)
  {
    var cur := path;
    var rest: seq<string> := [];
    assert path + [] == path;
    assert ResolveExisting(fs, path).Some? ==> ResolveExisting(fs, path).value + [] == ResolveExisting(fs, path).value;
    while true
      invariant path == cur + rest
      invariant ResolveExisting(fs, path) ==
        (if ResolveExisting(fs, cur).None? then None else Some(ResolveExisting(fs, cur).value + rest))
      decreases |cur|
    {
      var e := EvalSymlinks(fs, cur);
      if e.Found? {
        return Some(e.path + rest);
      }
      if e.Failed? {
        return None;
      }
      if cur == [] {
        return Some(rest);
      }
      var last := cur[|cur| - 1];
      assert path == cur[..|cur| - 1] + ([last] + rest);
      ghost var up := ResolveExisting(fs, cur[..|cur| - 1]);
      assert up.Some? ==> (up.value + [last]) + rest == up.value + ([last] + rest);
      cur, rest := cur[..|cur| - 1], [last] + rest;
    }
    assert false;
  }

  // ---- creating --------------------------------------------------------------------

  /** os.MkdirAll: the tree afterwards, or None when it fails. */
  function MkdirAll(fs: Fs, p: seq<string>): Option<Fs> {
    var st := Stat(fs, p);
    if st.Found? then (if st.path in fs && fs[st.path].Dir? then Some(fs) else None)
    else if p == [] then None
    else
      var up := MkdirAll(fs, p[..|p| - 1]);
      if up.None? then None
      else
        match NameIn(up.value, p)
        case None => None
        case Some(q) =>
          if q !in up.value then Some(up.value[q := Dir])
          else if up.value[q].Dir? then up else None
  }

  /** Where the last component of p is looked up: its directory resolved, the
      name itself not followed. */
  function NameIn(fs: Fs, p: seq<string>): Option<Path>
    requires p != []
  {
    match Stat(fs, p[..|p| - 1])
    case Found(d) => if d in fs && fs[d].Dir? then Some(d + [p[|p| - 1]]) else None
    case _ => None
  }

  datatype Placed = Placed(fs: Fs, at: Path)

  /** placeFile and placeEntry: the parents, then rename(2), symlink(2), or for
      a directory entry MkdirAll of the destination itself. */
  function Place(fs: Fs, dst: seq<string>, node: Node): Option<Placed>
    requires dst != []
  {
    if node.Dir? then
      var made := MkdirAll(fs, dst);
      if made.None? then None
      else match Stat(made.value, dst)
           case Found(d) => Some(Placed(made.value, d))
           case _ => None
    else
      var made := MkdirAll(fs, dst[..|dst| - 1]);
      if made.None? then None
      else
        match NameIn(made.value, dst)
        case None => None
        case Some(q) =>
          if q in made.value && (made.value[q].Dir? || node.Symlink?) then None
          else Some(Placed(made.value[q := node], q))
  }

  // ---- walking ------------------------------------------------------------------------

  /** More nodes never change a walk that found its way, nor do more links. */
  lemma {:induction false} WalkStays(fs: Fs, bigger: Fs, cur: Path, rest: seq<string>, links: nat, more: nat)
    requires (forall p :: p in fs ==> p in bigger && bigger[p] == fs[p]) && links <= more
    requires Walk(fs, cur, rest, links).Found?
    ensures Walk(bigger, cur, rest, more) == Walk(fs, cur, rest, links)
    decreases links, |rest|
  {
    if rest != [] {
      var q := cur + [rest[0]];
      if rest[0] == ".." {
        WalkStays(fs, bigger, Up(cur), rest[1..], links, more);
      } else if fs[q].Symlink? {
        WalkStays(fs, bigger, if LinkAbsolute(fs[q].target) then [] else cur, LinkNames(fs[q].target) + rest[1..], links - 1, more - 1);
      } else {
        WalkStays(fs, bigger, q, rest[1..], links, more);
      }
    }
  }

  /** A walk stays among the nodes of the tree. */
  lemma {:induction false} WalkFindsNodes(fs: Fs, cur: Path, rest: seq<string>, links: nat)
    requires TreeOk(fs) && cur in fs && !fs[cur].Symlink? && Walk(fs, cur, rest, links).Found?
    ensures var r := Walk(fs, cur, rest, links).path; r in fs && !fs[r].Symlink?
    decreases links, |rest|
  {
    if rest != [] {
      var q := cur + [rest[0]];
      if rest[0] == ".." {
        WalkFindsNodes(fs, Up(cur), rest[1..], links);
      } else if fs[q].Symlink? {
        WalkFindsNodes(fs, if LinkAbsolute(fs[q].target) then [] else cur, LinkNames(fs[q].target) + rest[1..], links - 1);
      } else {
        WalkFindsNodes(fs, q, rest[1..], links);
      }
    }
  }

  /** The links left over when a walk over rest ends. */
  function Left(fs: Fs, cur: Path, rest: seq<string>, links: nat): nat
    requires Walk(fs, cur, rest, links).Found?
    ensures Left(fs, cur, rest, links) <= links
    decreases links, |rest|
  {
    if rest == [] then links
    else if rest[0] == ".." then Left(fs, Up(cur), rest[1..], links)
    else
      var q := cur + [rest[0]];
      if fs[q].Symlink? then Left(fs, if LinkAbsolute(fs[q].target) then [] else cur, LinkNames(fs[q].target) + rest[1..], links - 1)
      else Left(fs, q, rest[1..], links)
  }

  /** One more component at the end: if the walk to its directory succeeds, the
      component is looked up there; if not, it fails in the same way. */
  lemma {:induction false} WalkLast(fs: Fs, cur: Path, rest: seq<string>, links: nat, c: string)
    ensures var w := Walk(fs, cur, rest, links);
            Walk(fs, cur, rest + [c], links) == (if w.Found? then Walk(fs, w.path, [c], Left(fs, cur, rest, links)) else w)
    decreases links, |rest|
  {
    if rest == [] {
      assert rest + [c] == [c];
    } else {
      assert (rest + [c])[0] == rest[0] && (rest + [c])[1..] == rest[1..] + [c];
      if cur in fs && fs[cur].Dir? {
        var q := cur + [rest[0]];
        if rest[0] == ".." {
          WalkLast(fs, Up(cur), rest[1..], links, c);
        } else if q in fs && fs[q].Symlink? {
          if links > 0 {
            assert (LinkNames(fs[q].target) + rest[1..]) + [c] == LinkNames(fs[q].target) + (rest[1..] + [c]);
            WalkLast(fs, if LinkAbsolute(fs[q].target) then [] else cur, LinkNames(fs[q].target) + rest[1..], links - 1, c);
          }
        } else if q in fs {
          WalkLast(fs, q, rest[1..], links, c);
        }
      }
    }
  }

  /** The last component of a clean path. */
  lemma LastComponent(fs: Fs, p: seq<string>, links: nat)
    requires p != [] && Clean(p)
    ensures var up := p[..|p| - 1];
            var w := Walk(fs, [], up, links);
            var all := Walk(fs, [], p, links);
            if !w.Found? then all == w
            else
              var q := w.path + [p[|p| - 1]];
              if w.path !in fs || !fs[w.path].Dir? then all == Failed
              else if q !in fs then all == NotExist
              else !fs[q].Symlink? ==> all == Found(q)
  {
    var up, c := p[..|p| - 1], p[|p| - 1];
    assert p == up + [c];
    WalkLast(fs, [], up, links, c);
    var w := Walk(fs, [], up, links);
    if w.Found? {
      var left := Left(fs, [], up, links);
      assert [c][1..] == [];
      assert w.path + [c] in fs && !fs[w.path + [c]].Symlink? ==> Walk(fs, w.path + [c], [], left) == Found(w.path + [c]);
    }
  }

  // ---- where MkdirAll and a placement land ---------------------------------------------------

  /** The tree has only gained directories on the way to r. */
  ghost predicate Grown(fs: Fs, grown: Fs, r: Path) {
    && (forall p :: p in fs ==> p in grown && grown[p] == fs[p])
    && (forall p :: p in grown && p !in fs ==> grown[p].Dir? && p <= r)
  }

  lemma {:induction false} PrefixesExist(fs: Fs, r: Path, p: Path)
    requires TreeOk(fs) && r in fs && p <= r
    ensures p in fs
    decreases |r|
  {
    if p != r {
      assert p == Parent(r)[..|p|];
      PrefixesExist(fs, Parent(r), p);
    }
  }

  lemma NothingMade(fs: Fs, grown: Fs, r: Path)
    requires TreeOk(fs) && Grown(fs, grown, r) && r in fs
    ensures grown == fs
  {
    forall p | p in grown ensures p in fs {
      if p <= r {
        PrefixesExist(fs, r, p);
      }
    }
  }

  lemma TreeGains(fs: Fs, d: Path, c: string, node: Node)
    requires TreeOk(fs) && d in fs && fs[d].Dir? && (d + [c] in fs ==> !fs[d + [c]].Dir?)
    ensures TreeOk(fs[d + [c] := node])
  {
    var q := d + [c];
    var r := fs[q := node];
    assert Parent(q) == d;
    forall p | p in r && p != [] ensures Parent(p) in r && r[Parent(p)].Dir? {
      if p != q {
        assert p in fs;
      }
    }
  }

  /** What resolveExisting says of p, when its directory part is known. */
  lemma ResolvesBelow(fs: Fs, p: seq<string>, d: Path)
    requires TreeOk(fs) && p != [] && Clean(p) && ResolveExisting(fs, p[..|p| - 1]) == Some(d)
    requires d in fs ==> fs[d].Dir?
    ensures var q := d + [p[|p| - 1]];
            && (q !in fs ==> ResolveExisting(fs, p) == Some(q))
            && (q in fs && !fs[q].Symlink? ==> ResolveExisting(fs, p) == Some(q))
            && (EvalSymlinks(fs, p).NotExist? ==> ResolveExisting(fs, p) == Some(q))
  {
    var up := p[..|p| - 1];
    LastComponent(fs, p, GO_LINKS);
    var w := EvalSymlinks(fs, up);
    var q := d + [p[|p| - 1]];
    if w.Found? {
      WalkFindsNodes(fs, [], up, GO_LINKS);
    } else if q in fs {
      assert Parent(q) == d;
      ResolvedIsNew(fs, up);
    }
  }

  /** A path that does not resolve has no node where resolveExisting puts it,
      unless a dangling link stands there. */
  lemma {:induction false} ResolvedIsNew(fs: Fs, p: seq<string>)
    requires TreeOk(fs) && Clean(p) && EvalSymlinks(fs, p).NotExist? && ResolveExisting(fs, p).Some?
    ensures var r := ResolveExisting(fs, p).value; r in fs ==> fs[r].Symlink?
    decreases |p|
  {
    var up := p[..|p| - 1];
    var d := ResolveExisting(fs, up).value;
    var q := d + [p[|p| - 1]];
    LastComponent(fs, p, GO_LINKS);
    if EvalSymlinks(fs, up).Found? {
    } else if q in fs {
      assert Parent(q) == d;
      ResolvedIsNew(fs, up);
    }
  }

  /** MkdirAll makes directories only on the way to resolveExisting(p), and
      that is where it ends. */
  lemma {:induction false} MkdirAllLands(fs: Fs, p: seq<string>) returns (r: Path)
    requires TreeOk(fs) && Clean(p) && MkdirAll(fs, p).Some?
    ensures var made := MkdirAll(fs, p).value;
            && ResolveExisting(fs, p) == Some(r) && Stat(made, p) == Found(r)
            && r in made && made[r].Dir? && Grown(fs, made, r) && TreeOk(made)
    decreases |p|
  {
    var st := Stat(fs, p);
    if st.Found? {
      r := st.path;
      WalkStays(fs, fs, [], p, KERNEL_LINKS, GO_LINKS);
    } else {
      var up := p[..|p| - 1];
      var d := MkdirAllLands(fs, up);
      var fs1 := MkdirAll(fs, up).value;
      r := d + [p[|p| - 1]];
      if r in fs1 {
        assert r in fs;
        assert Parent(r) == d;
        NothingMade(fs, fs1, d);
        LastComponent(fs, p, KERNEL_LINKS);
        assert false;
      }
      MadeOne(fs, fs1, p, d);
    }
  }

  lemma MadeOne(fs: Fs, fs1: Fs, p: seq<string>, d: Path)
    requires TreeOk(fs) && Clean(p) && p != [] && TreeOk(fs1) && Grown(fs, fs1, d)
    requires ResolveExisting(fs, p[..|p| - 1]) == Some(d) && Stat(fs1, p[..|p| - 1]) == Found(d)
    requires d in fs1 && fs1[d].Dir? && d + [p[|p| - 1]] !in fs1
    ensures var r := d + [p[|p| - 1]];
            var made := fs1[r := Dir];
            && ResolveExisting(fs, p) == Some(r) && Stat(made, p) == Found(r) && Grown(fs, made, r) && TreeOk(made)
  {
    var r := d + [p[|p| - 1]];
    var made := fs1[r := Dir];
    TreeGains(fs1, d, p[|p| - 1], Dir);
    WalkStays(fs1, made, [], p[..|p| - 1], KERNEL_LINKS, KERNEL_LINKS);
    LastComponent(made, p, KERNEL_LINKS);
    ResolvesBelow(fs, p, d);
    forall q | q in made && q !in fs ensures made[q].Dir? && q <= r {
      if q != r {
        assert q <= d && d == r[..|d|];
      }
    }
  }

  // ---- when they succeed -----------------------------------------------------------------------

  /** The first n components lead to a directory that has no entry of the next
      name. */
  predicate FreeBelow(fs: Fs, p: seq<string>, n: nat)
    requires n < |p|
  {
    var st := Stat(fs, p[..n]);
    st.Found? && st.path in fs && fs[st.path].Dir? && st.path + [p[n]] !in fs
  }

  predicate DirThere(fs: Fs, p: seq<string>) {
    var st := Stat(fs, p);
    st.Found? && st.path in fs && fs[st.path].Dir?
  }

  ghost predicate SomeFree(fs: Fs, p: seq<string>) {
    exists n :: 0 <= n < |p| && FreeBelow(fs, p, n)
  }

  lemma {:induction false} FreeIsMissing(fs: Fs, p: seq<string>, n: nat)
    requires Clean(p) && n < |p| && FreeBelow(fs, p, n)
    ensures Stat(fs, p).NotExist?
    decreases |p|
  {
    var up := p[..|p| - 1];
    LastComponent(fs, p, KERNEL_LINKS);
    if n < |up| {
      assert p[..n] == up[..n];
      FreeIsMissing(fs, up, n);
    } else {
      assert p[..n] == up;
    }
  }

  lemma FreeAbove(fs: Fs, p: seq<string>)
    requires p != []
    ensures SomeFree(fs, p) <==> SomeFree(fs, p[..|p| - 1]) || FreeBelow(fs, p, |p| - 1)
  {
    var up := p[..|p| - 1];
    forall n | 0 <= n < |up| ensures FreeBelow(fs, p, n) <==> FreeBelow(fs, up, n) {
      assert p[..n] == up[..n];
    }
  }

  /** MkdirAll succeeds if and only if the directory is there, or some directory
      on the way has room for the next name: never over a file, a loop or a
      dangling link. */
  lemma {:induction false} MkdirAllExactly(fs: Fs, p: seq<string>)
    requires TreeOk(fs) && Clean(p)
    ensures MkdirAll(fs, p).Some? <==> DirThere(fs, p) || SomeFree(fs, p)
    decreases |p|
  {
    hide Walk;
    if p == [] {
      RootIsThere(fs);
    } else {
      var up := p[..|p| - 1];
      FreeAbove(fs, p);
      MkdirAllExactly(fs, up);
      if Stat(fs, p).Found? {
        NothingFree(fs, p);
      } else if DirThere(fs, up) {
        LastInDir(fs, p);
        NothingFree(fs, up);
      } else if SomeFree(fs, up) {
        var d := MkdirAllLands(fs, up);
        MissingStaysFree(fs, p, d);
      }
    }
  }

  lemma RootIsThere(fs: Fs)
    requires TreeOk(fs)
    ensures Stat(fs, []) == Found([]) && DirThere(fs, [])
  {
  }

  lemma NothingFree(fs: Fs, p: seq<string>)
    requires Clean(p) && Stat(fs, p).Found?
    ensures !SomeFree(fs, p)
  {
    forall n | 0 <= n < |p| ensures !FreeBelow(fs, p, n) {
      if FreeBelow(fs, p, n) {
        FreeIsMissing(fs, p, n);
      }
    }
  }

  /** Its directory is there, and p itself leads nowhere: its name is free, or a
      link. */
  lemma LastInDir(fs: Fs, p: seq<string>)
    requires TreeOk(fs) && Clean(p) && p != [] && !Stat(fs, p).Found? && DirThere(fs, p[..|p| - 1])
    ensures NameIn(fs, p).Some? && MkdirAll(fs, p[..|p| - 1]) == Some(fs)
    ensures NameIn(fs, p).value !in fs <==> FreeBelow(fs, p, |p| - 1)
    ensures NameIn(fs, p).value in fs ==> fs[NameIn(fs, p).value].Symlink?
  {
    LastComponent(fs, p, KERNEL_LINKS);
  }

  lemma MissingStaysFree(fs: Fs, p: seq<string>, d: Path)
    requires TreeOk(fs) && Clean(p) && p != [] && SomeFree(fs, p[..|p| - 1]) && MkdirAll(fs, p[..|p| - 1]).Some?
    requires var made := MkdirAll(fs, p[..|p| - 1]).value;
             Stat(made, p[..|p| - 1]) == Found(d) && d in made && made[d].Dir? && Grown(fs, made, d) && TreeOk(made)
    requires ResolveExisting(fs, p[..|p| - 1]) == Some(d)
    ensures var made := MkdirAll(fs, p[..|p| - 1]).value;
            NameIn(made, p) == Some(d + [p[|p| - 1]]) && d + [p[|p| - 1]] !in made
  {
    var up := p[..|p| - 1];
    var made, q := MkdirAll(fs, up).value, d + [p[|p| - 1]];
    var n :| 0 <= n < |up| && FreeBelow(fs, up, n);
    FreeIsMissing(fs, up, n);
    if q in made {
      assert !(q <= d);
      assert q in fs && Parent(q) == d;
      MissingAtGo(fs, up);
      ResolvedIsNew(fs, up);
    }
  }

  /** What is missing for the kernel is missing for EvalSymlinks. */
  lemma {:induction false} WalkMisses(fs: Fs, cur: Path, rest: seq<string>, links: nat, more: nat)
    requires Walk(fs, cur, rest, links).NotExist? && links <= more
    ensures Walk(fs, cur, rest, more).NotExist?
    decreases links, |rest|
  {
    var q := cur + [rest[0]];
    if rest[0] == ".." {
      WalkMisses(fs, Up(cur), rest[1..], links, more);
    } else if q in fs {
      if fs[q].Symlink? {
        WalkMisses(fs, if LinkAbsolute(fs[q].target) then [] else cur, LinkNames(fs[q].target) + rest[1..], links - 1, more - 1);
      } else {
        WalkMisses(fs, q, rest[1..], links, more);
      }
    }
  }

  lemma MissingAtGo(fs: Fs, p: seq<string>)
    requires Stat(fs, p).NotExist?
    ensures EvalSymlinks(fs, p).NotExist?
  {
    WalkMisses(fs, [], p, KERNEL_LINKS, GO_LINKS);
  }

  /** A file or a link is placed if and only if its directory can be made and its
      name is free there, or, for a file, held by anything but a directory. */
  lemma PlaceExactly(fs: Fs, dst: seq<string>, node: Node)
    requires TreeOk(fs) && Clean(dst) && dst != [] && !node.Dir?
    ensures Place(fs, dst, node).Some? <==>
      var up := dst[..|dst| - 1];
      && MkdirAll(fs, up).Some? && ResolveExisting(fs, up).Some?
      && var q := ResolveExisting(fs, up).value + [dst[|dst| - 1]];
         q !in fs || (!fs[q].Dir? && !node.Symlink?)
  {
    var up := dst[..|dst| - 1];
    if MkdirAll(fs, up).Some? {
      var d := MkdirAllLands(fs, up);
      var made, q := MkdirAll(fs, up).value, d + [dst[|dst| - 1]];
      assert !(q <= d);
      assert q in made <==> q in fs;
    }
  }

  /** A directory is placed if and only if it can be made. */
  lemma DirPlaced(fs: Fs, dst: seq<string>)
    requires TreeOk(fs) && Clean(dst) && dst != []
    ensures Place(fs, dst, Dir).Some? <==> MkdirAll(fs, dst).Some?
  {
    if MkdirAll(fs, dst).Some? {
      var _ := MkdirAllLands(fs, dst);
    }
  }

  // ---- how many links ------------------------------------------------------------------------------

  /** name 0 links to name 1, and so on for n links; name n is a file. */
  ghost predicate Chain(fs: Fs, d: Path, name: nat -> string, n: nat) {
    && TreeOk(fs) && d in fs && fs[d].Dir?
    && (forall i: nat :: i <= n ==> PlainName(name(i)) && d + [name(i)] in fs)
    && (forall i: nat :: i < n ==> fs[d + [name(i)]] == Symlink(name(i + 1)))
    && fs[d + [name(n)]].File?
  }

  lemma {:induction false} ChainWalk(fs: Fs, d: Path, name: nat -> string, n: nat, i: nat, links: nat)
    requires Chain(fs, d, name, n) && i <= n
    ensures Walk(fs, d, [name(i)], links) == if n - i <= links then Found(d + [name(n)]) else Failed
    decreases n - i
  {
    assert [name(i)][1..] == [];
    if i < n {
      PlainLink(name(i + 1));
      assert [name(i + 1)] + [] == [name(i + 1)];
      if links > 0 {
        ChainWalk(fs, d, name, n, i + 1, links - 1);
      }
    } else {
      assert Walk(fs, d + [name(n)], [], links) == Found(d + [name(n)]);
    }
  }

  /** A chain of links is followed if and only if it has at most 40 links for
      the kernel, and at most 255 for EvalSymlinks. */
  lemma ChainIsFollowed(fs: Fs, name: nat -> string, n: nat)
    requires Chain(fs, [], name, n)
    ensures Stat(fs, [name(0)]).Found? <==> n <= 40
    ensures EvalSymlinks(fs, [name(0)]).Found? <==> n <= 255
  {
    ChainWalk(fs, [], name, n, 0, KERNEL_LINKS);
    ChainWalk(fs, [], name, n, 0, GO_LINKS);
  }

  /** dst is itself a symbolic link that leads somewhere. */
  predicate LiveLink(fs: Fs, dst: seq<string>)
    requires dst != []
  {
    && EvalSymlinks(fs, dst).Found?
    && NameIn(fs, dst).Some? && NameIn(fs, dst).value in fs && fs[NameIn(fs, dst).value].Symlink?
  }

  /** The node stands at the place, nothing else has changed but for new
      directories above it. */
  ghost predicate OnlyAt(fs: Fs, out: Placed, node: Node) {
    && out.at in out.fs && out.fs[out.at] == node
    && (forall p :: p in fs && p != out.at ==> p in out.fs && out.fs[p] == fs[p])
    && (forall p :: p in out.fs && p !in fs && p != out.at ==> out.fs[p].Dir? && p <= out.at)
  }

  /** Landing: a placement that succeeds lands exactly where resolveExisting
      resolved its destination to just before, if and only if it is a directory
      entry or the destination is not itself a link that leads elsewhere. */
  lemma PlacementLands(fs: Fs, dst: seq<string>, node: Node)
    requires TreeOk(fs) && Clean(dst) && dst != [] && ResolveExisting(fs, dst).Some? && Place(fs, dst, node).Some?
    ensures var out := Place(fs, dst, node).value;
            && OnlyAt(fs, out, node) && TreeOk(out.fs)
            && (out.at == ResolveExisting(fs, dst).value <==> node.Dir? || !LiveLink(fs, dst))
  {
    if node.Dir? {
      var r := MkdirAllLands(fs, dst);
    } else {
      var d := MkdirAllLands(fs, dst[..|dst| - 1]);
      var fs1 := MkdirAll(fs, dst[..|dst| - 1]).value;
      NodeLands(fs, fs1, dst, d);
      NodeAlone(fs, fs1, d, dst[|dst| - 1], node);
    }
  }

  lemma NodeAlone(fs: Fs, fs1: Fs, d: Path, c: string, node: Node)
    requires TreeOk(fs1) && Grown(fs, fs1, d) && d in fs1 && fs1[d].Dir? && (d + [c] in fs1 ==> !fs1[d + [c]].Dir?)
    ensures OnlyAt(fs, Placed(fs1[d + [c] := node], d + [c]), node) && TreeOk(fs1[d + [c] := node])
  {
    TreeGains(fs1, d, c, node);
    var q := d + [c];
    forall p | p in fs1 && p !in fs && p != q ensures p <= q {
      assert p <= d && d == q[..|d|];
    }
  }

  /** Anything but a directory entry lands in its directory, resolved, under its
      own last name, which is not followed. */
  lemma NodeLandsInDir(fs: Fs, dst: seq<string>, node: Node)
    requires TreeOk(fs) && Clean(dst) && dst != [] && !node.Dir? && Place(fs, dst, node).Some?
    ensures var d := ResolveExisting(fs, dst[..|dst| - 1]);
            d.Some? && Place(fs, dst, node).value.at == d.value + [dst[|dst| - 1]]
  {
    var d := MkdirAllLands(fs, dst[..|dst| - 1]);
  }

  lemma NodeLands(fs: Fs, fs1: Fs, dst: seq<string>, d: Path)
    requires TreeOk(fs) && Clean(dst) && dst != [] && ResolveExisting(fs, dst).Some?
    requires ResolveExisting(fs, dst[..|dst| - 1]) == Some(d) && Stat(fs1, dst[..|dst| - 1]) == Found(d)
    requires d in fs1 && fs1[d].Dir? && Grown(fs, fs1, d)
    ensures d + [dst[|dst| - 1]] == ResolveExisting(fs, dst).value <==> !LiveLink(fs, dst)
  {
    var q := d + [dst[|dst| - 1]];
    ResolvesBelow(fs, dst, d);
    if q in fs && fs[q].Symlink? && EvalSymlinks(fs, dst).Found? {
      assert Parent(q) == d;
      NothingMade(fs, fs1, d);
      WalkFindsNodes(fs, [], dst, GO_LINKS);
    } else if LiveLink(fs, dst) {
      WalkStays(fs, fs1, [], dst[..|dst| - 1], KERNEL_LINKS, KERNEL_LINKS);
    }
  }

  // ---- a guarded manifest -------------------------------------------------------------------------

  /** boundary is the resolved directory the entry must stay in, declared the
      same as the manifest or the host spells it. */
  datatype Entry = Entry(dst: seq<string>, node: Node, boundary: Path, declared: seq<string>)

  /** filepath.Join: ".." taken off the text, links or not. */
  function Joined(cur: seq<string>, names: seq<string>): seq<string>
    decreases |names|
  {
    if names == [] then cur
    else if names[0] == ".." then Joined(Up(cur), names[1..])
    else Joined(cur + [names[0]], names[1..])
  }

  /** checkSymlinkTarget: a relative target, inside the declared boundary by its
      spelling and, resolved, inside the resolved one. */
  predicate TargetInside(fs: Fs, e: Entry)
    requires e.node.Symlink?
  {
    var target := Joined(Up(e.dst), LinkNames(e.node.target));
    && e.node.target != "" && !LinkAbsolute(e.node.target) && e.declared <= target
    && ResolveExisting(fs, target).Some? && ResolveExisting(fs, e.declared).Some?
    && ResolveExisting(fs, e.declared).value <= ResolveExisting(fs, target).value
  }

  function Ups(k: nat): seq<string> {
    seq(k, i => "..")
  }

  lemma {:induction false} JoinedDown(cur: seq<string>, names: seq<string>)
    requires Clean(names)
    ensures Joined(cur, names) == cur + names
    decreases |names|
  {
    if names != [] {
      JoinedDown(cur + [names[0]], names[1..]);
      assert cur + [names[0]] + names[1..] == cur + names;
    } else {
      assert cur + names == cur;
    }
  }

  lemma {:induction false} JoinedUp(cur: seq<string>, k: nat, names: seq<string>)
    requires Clean(names) && k <= |cur|
    ensures Joined(cur, Ups(k) + names) == cur[..|cur| - k] + names
    decreases k
  {
    if k == 0 {
      assert Ups(0) + names == names && cur[..|cur|] == cur;
      JoinedDown(cur, names);
    } else {
      assert (Ups(k) + names)[0] == ".." && (Ups(k) + names)[1..] == Ups(k - 1) + names;
      JoinedUp(Up(cur), k - 1, names);
      assert Up(cur)[..|cur| - k] == cur[..|cur| - k];
    }
  }

  lemma TargetNames(k: nat, names: seq<string>)
    requires Ups(k) + names != [] && forall n :: n in names ==> PlainName(n)
    ensures LinkNames(JoinSlash(Ups(k) + names)) == Ups(k) + names && Clean(names)
  {
    hide LinkNames, JoinSlash;
    var all := Ups(k) + names;
    forall i | 0 <= i < |all| ensures '/' !in all[i] && all[i] != "" && all[i] != "." {
      if i >= k {
        assert all[i] == names[i - k] && names[i - k] in names;
      }
    }
    LinkNamesRead(all);
    forall i | 0 <= i < |names| ensures names[i] != ".." {
      assert names[i] in names;
    }
  }

  /** A target that climbs k directories and then goes down some names is let
      through only if that place, counted off the link's own path, lies under
      the declared directory, as it is spelled and as both resolve. */
  lemma TargetInsideMeans(fs: Fs, e: Entry, k: nat, names: seq<string>)
    requires e.dst != [] && k < |e.dst| && Ups(k) + names != [] && forall n :: n in names ==> PlainName(n)
    requires e.node == Symlink(JoinSlash(Ups(k) + names)) && TargetInside(fs, e)
    ensures var place := e.dst[..|e.dst| - 1 - k] + names;
            && e.declared <= place
            && ResolveExisting(fs, place).Some? && ResolveExisting(fs, e.declared).Some?
            && ResolveExisting(fs, e.declared).value <= ResolveExisting(fs, place).value
  {
    hide *;
    TargetNames(k, names);
    SpelledInside(fs, e);
    PlaceCounted(e.dst, k, names);
  }

  lemma SpelledInside(fs: Fs, e: Entry)
    requires e.node.Symlink? && TargetInside(fs, e)
    ensures var place := Joined(Up(e.dst), LinkNames(e.node.target));
            && e.declared <= place
            && ResolveExisting(fs, place).Some? && ResolveExisting(fs, e.declared).Some?
            && ResolveExisting(fs, e.declared).value <= ResolveExisting(fs, place).value
  {
  }

  lemma PlaceCounted(dst: seq<string>, k: nat, names: seq<string>)
    requires dst != [] && k < |dst| && Clean(names)
    ensures Joined(Up(dst), Ups(k) + names) == dst[..|dst| - 1 - k] + names
  {
    hide Joined, Ups;
    JoinedUp(Up(dst), k, names);
    assert Up(dst)[..|dst| - 1 - k] == dst[..|dst| - 1 - k];
  }

  /** So a link right below its declared directory never leads to the
      directory's sibling. */
  lemma SiblingIsRefused(fs: Fs, e: Entry, d: seq<string>, l: string, c: string)
    requires d != [] && e.declared == d && e.dst == d + [l] && PlainName(c) && c != d[|d| - 1]
    requires e.node == Symlink("../" + c)
    ensures !TargetInside(fs, e)
  {
    assert Ups(1) + [c] == ["..", c] && ["..", c][1..] == [c] && ".." + "/" + c == "../" + c;
    assert JoinSlash(Ups(1) + [c]) == "../" + c;
    var place := e.dst[..|e.dst| - 2] + [c];
    assert place[|d| - 1] == c && |place| == |d|;
    assert !(e.declared <= place);
    if TargetInside(fs, e) {
      TargetInsideMeans(fs, e, 1, [c]);
    }
  }

  /** And an absolute or an empty target is never let through. */
  lemma AbsoluteIsRefused(fs: Fs, e: Entry, text: string)
    requires e.node == Symlink("/" + text) || e.node == Symlink("")
    ensures !TargetInside(fs, e)
  {
  }

  /** recheckBeforePlacement: the destination resolves inside the boundary, and
      so does the target of a link. */
  predicate Recheck(fs: Fs, e: Entry) {
    && ResolveExisting(fs, e.dst).Some? && e.boundary <= ResolveExisting(fs, e.dst).value
    && (e.node.Symlink? ==> TargetInside(fs, e))
  }

  /** e's directory resolves inside the boundary, or its own name there is the
      boundary. */
  predicate DirInside(fs: Fs, e: Entry)
    requires e.dst != []
  {
    var d := ResolveExisting(fs, e.dst[..|e.dst| - 1]);
    d.Some? && (e.boundary <= d.value || e.boundary == d.value + [e.dst[|e.dst| - 1]])
  }

  /** A placement the guard let through stays inside the boundary if and only if
      it is a directory entry, its destination is no live link, or its directory
      resolves inside too. */
  lemma StaysInsideExactly(fs: Fs, e: Entry)
    requires TreeOk(fs) && e.dst != [] && Clean(e.dst) && Recheck(fs, e) && Place(fs, e.dst, e.node).Some?
    ensures e.boundary <= Place(fs, e.dst, e.node).value.at <==> e.node.Dir? || !LiveLink(fs, e.dst) || DirInside(fs, e)
  {
    PlacementLands(fs, e.dst, e.node);
    if !e.node.Dir? {
      NodeLandsInDir(fs, e.dst, e.node);
      PrefixOfLonger(e.boundary, ResolveExisting(fs, e.dst[..|e.dst| - 1]).value, e.dst[|e.dst| - 1]);
    }
  }

  lemma PrefixOfLonger(b: Path, d: Path, c: string)
    ensures b <= d + [c] <==> b <= d || b == d + [c]
  {
    if b <= d + [c] && b != d + [c] {
      assert d == (d + [c])[..|d|];
    }
  }

  /** The name a forced replacement removes before the guard is asked. */
  function ForcedVictim(fs: Fs, dst: seq<string>): (q: Option<Path>)
    requires dst != []
    ensures q.Some? ==> q.value in fs
  {
    var q := NameIn(fs, dst);
    if q.Some? && q.value in fs then q else None
  }

  /** It is inside the boundary if and only if its directory resolves inside,
      whatever the guard would have said. */
  lemma ForcedInsideExactly(fs: Fs, e: Entry)
    requires e.dst != [] && ForcedVictim(fs, e.dst).Some?
    ensures e.boundary <= ForcedVictim(fs, e.dst).value <==> DirInside(fs, e)
  {
    var up := e.dst[..|e.dst| - 1];
    WalkStays(fs, fs, [], up, KERNEL_LINKS, GO_LINKS);
    PrefixOfLonger(e.boundary, Stat(fs, up).path, e.dst[|e.dst| - 1]);
  }

  /** The tree after these guarded placements. */
  ghost predicate Reached(fs: Fs, entries: seq<Entry>, out: Fs)
    decreases |entries|
  {
    if entries == [] then out == fs
    else
      var last := entries[|entries| - 1];
      exists mid :: Reached(fs, entries[..|entries| - 1], mid) && last.dst != [] && Recheck(mid, last)
        && Place(mid, last.dst, last.node).Some? && Place(mid, last.dst, last.node).value.fs == out
  }

  /** e's node was written at the path at, inside e's boundary and exactly where
      its destination resolved, unless that was a live link, when it is inside
      exactly if the link itself is; a link was written only with a target
      inside its boundary. */
  ghost predicate LandsIn(mid: Fs, e: Entry, at: Path) {
    && e.dst != [] && Place(mid, e.dst, e.node).Some? && (e.node.Symlink? ==> TargetInside(mid, e))
    && OnlyAt(mid, Place(mid, e.dst, e.node).value, e.node) && Place(mid, e.dst, e.node).value.at == at
    && (e.node.Dir? || !LiveLink(mid, e.dst) ==> Some(at) == ResolveExisting(mid, e.dst) && e.boundary <= at)
    && (e.boundary <= at <==> e.node.Dir? || !LiveLink(mid, e.dst) || DirInside(mid, e))
  }

  /** The i-th placement landed inside its boundary, exactly where its
      destination resolved, unless that was a live link to elsewhere. */
  ghost predicate Lands(fs: Fs, entries: seq<Entry>, landed: seq<Path>, i: nat)
    requires i < |landed| <= |entries|
  {
    exists mid :: Reached(fs, entries[..i], mid) && LandsIn(mid, entries[i], landed[i])
  }

  /** Everything that stood before stands unchanged, or was landed upon. */
  ghost predicate OthersStand(fs: Fs, out: Fs, landed: seq<Path>) {
    forall p :: p in fs && p !in landed ==> p in out && out[p] == fs[p]
  }

  ghost predicate AllLand(fs: Fs, entries: seq<Entry>, landed: seq<Path>) {
    |landed| <= |entries| && forall i :: 0 <= i < |landed| ==> Lands(fs, entries, landed, i)
  }

  lemma OnePlacement(fs: Fs, entries: seq<Entry>, i: nat, mid: Fs, landed: seq<Path>)
    requires i < |entries| && |landed| == i && Reached(fs, entries[..i], mid) && TreeOk(mid)
    requires OthersStand(fs, mid, landed) && AllLand(fs, entries, landed)
    requires entries[i].dst != [] && Clean(entries[i].dst) && Recheck(mid, entries[i])
    requires Place(mid, entries[i].dst, entries[i].node).Some?
    ensures var placed := Place(mid, entries[i].dst, entries[i].node).value;
            && Reached(fs, entries[..i + 1], placed.fs) && TreeOk(placed.fs)
            && OthersStand(fs, placed.fs, landed + [placed.at]) && AllLand(fs, entries, landed + [placed.at])
  {
    var e := entries[i];
    var placed := Place(mid, e.dst, e.node).value;
    var longer := landed + [placed.at];
    PlacementLands(mid, e.dst, e.node);
    StaysInsideExactly(mid, e);
    assert entries[..i + 1][..i] == entries[..i] && entries[..i + 1][i] == e;
    forall k | 0 <= k < |longer| ensures Lands(fs, entries, longer, k) {
      if k < i {
        assert Lands(fs, entries, landed, k);
      }
    }
    forall p | p in fs && p !in longer ensures p in placed.fs && placed.fs[p] == fs[p] {
      assert longer[i] == placed.at;
      assert p !in landed;
    }
  }

  /** Every placement of a manifest, each behind the guard in the tree the
      earlier ones left: what is written stays inside its entry's boundary,
      links that earlier entries made included, unless the destination itself
      was a live link outside it; nothing that is not a landing place changes. */
  method PlaceAll(fs: Fs, entries: seq<Entry>) returns (out: Fs, landed: seq<Path>, ok: bool)
    requires TreeOk(fs) && forall e :: e in entries ==> e.dst != [] && Clean(e.dst)
    ensures TreeOk(out) && (ok <==> |landed| == |entries|)
    ensures OthersStand(fs, out, landed) && AllLand(fs, entries, landed)
    ensures Reached(fs, entries[..|landed|], out)
  {
    out, landed := fs, [];
    var i := 0;
    while i < |entries|
      invariant i <= |entries| && |landed| == i && TreeOk(out) && Reached(fs, entries[..i], out)
      invariant OthersStand(fs, out, landed) && AllLand(fs, entries, landed)
    {
      var e := entries[i];
      assert e in entries;
      if !Recheck(out, e) {
        return out, landed, false;
      }
      var placed := Place(out, e.dst, e.node);
      if placed.None? {
        return out, landed, false;
      }
      OnePlacement(fs, entries, i, out, landed);
      out, landed := placed.value.fs, landed + [placed.value.at];
      i := i + 1;
    }
    ok := true;
  }

  // ---- a placement that leaves its boundary ---------------------------------------------------------

  /** /r/l leads to /out, and /out/x back to /r/y. */
  ghost predicate Astray(fs: Fs) {
    && TreeOk(fs) && ["r", "l"] in fs && ["out"] in fs && ["out", "x"] in fs && ["r", "y"] in fs
    && fs[["r", "l"]] == Symlink("/out") && fs[["out"]].Dir?
    && fs[["out", "x"]] == Symlink("/r/y") && fs[["r", "y"]].File?
  }

  lemma AstrayIs()
    ensures Astray(map[[] := Dir, ["r"] := Dir, ["out"] := Dir, ["r", "l"] := Symlink("/out"),
                       ["out", "x"] := Symlink("/r/y"), ["r", "y"] := File([])])
  {
    assert Parent(["r"]) == [] && Parent(["out"]) == [] && Parent(["r", "l"]) == ["r"] && Parent(["r", "y"]) == ["r"]
      && Parent(["out", "x"]) == ["out"];
  }

  lemma AstrayFacts(fs: Fs)
    requires Astray(fs)
    ensures [] in fs && fs[[]].Dir? && ["r"] in fs && fs[["r"]].Dir?
  {
    assert Parent(["r", "l"]) == ["r"];
  }

  lemma OutNames()
    ensures LinkAbsolute("/out") && LinkNames("/out") == ["out"]
  {
    LinkNamesRead(["out"]);
    assert "/" + "out" == "/out";
  }

  lemma BackNames()
    ensures LinkAbsolute("/r/y") && LinkNames("/r/y") == ["r", "y"]
  {
    LinkNamesRead(["r", "y"]);
    assert ["r", "y"][1..] == ["y"] && "r" + "/" + "y" == "r/y" && "/" + "r/y" == "/r/y";
  }

  /** One component of a walk: a node that is no link, or an absolute link. */
  lemma NodeStep(fs: Fs, cur: Path, c: string, rest: seq<string>, links: nat)
    requires cur in fs && fs[cur].Dir? && c != ".." && cur + [c] in fs && !fs[cur + [c]].Symlink?
    ensures Walk(fs, cur, [c] + rest, links) == Walk(fs, cur + [c], rest, links)
    ensures Walk(fs, cur, [c] + rest, links).Found? ==> Left(fs, cur, [c] + rest, links) == Left(fs, cur + [c], rest, links)
  {
    assert ([c] + rest)[1..] == rest;
  }

  lemma LinkStep(fs: Fs, cur: Path, c: string, rest: seq<string>, links: nat)
    requires cur in fs && fs[cur].Dir? && c != ".." && cur + [c] in fs && fs[cur + [c]].Symlink? && links > 0
    requires LinkAbsolute(fs[cur + [c]].target)
    ensures var names := LinkNames(fs[cur + [c]].target);
            && Walk(fs, cur, [c] + rest, links) == Walk(fs, [], names + rest, links - 1)
            && (Walk(fs, cur, [c] + rest, links).Found? ==>
                  Left(fs, cur, [c] + rest, links) == Left(fs, [], names + rest, links - 1))
  {
    assert ([c] + rest)[1..] == rest;
  }

  lemma WalkEnds(fs: Fs, cur: Path, links: nat)
    ensures Walk(fs, cur, [], links) == Found(cur) && Left(fs, cur, [], links) == links
  {
  }

  /** The directory part leads out. */
  lemma AstrayDir(fs: Fs, links: nat)
    requires Astray(fs) && links > 0
    ensures Walk(fs, [], ["r", "l"], links) == Found(["out"])
    ensures Left(fs, [], ["r", "l"], links) == links - 1
  {
    OutNames();
    AstrayFacts(fs);
    hide Walk, Left, LinkNames, LinkAbsolute, TreeOk;
    assert [] + ["r"] == ["r"] && ["r"] + ["l"] == ["r", "l"] && ["l"] + [] == ["l"];
    assert ["out"] + [] == ["out"] && [] + ["out"] == ["out"];
    NodeStep(fs, [], "r", ["l"], links);
    LinkStep(fs, ["r"], "l", [], links);
    NodeStep(fs, [], "out", [], links - 1);
    WalkEnds(fs, ["out"], links - 1);
  }

  /** And the whole leads back. */
  lemma AstrayBack(fs: Fs)
    requires Astray(fs)
    ensures EvalSymlinks(fs, ["r", "l", "x"]) == Found(["r", "y"])
  {
    BackNames();
    AstrayFacts(fs);
    AstrayDir(fs, GO_LINKS);
    hide Walk, Left, LinkNames, LinkAbsolute, TreeOk;
    WalkLast(fs, [], ["r", "l"], GO_LINKS, "x");
    assert ["r", "l"] + ["x"] == ["r", "l", "x"];
    AstrayInner(fs, GO_LINKS - 1);
  }

  lemma AstrayInner(fs: Fs, links: nat)
    requires Astray(fs) && links > 0
    ensures Walk(fs, ["out"], ["x"], links) == Found(["r", "y"])
  {
    BackNames();
    AstrayFacts(fs);
    hide Walk, Left, LinkNames, LinkAbsolute, TreeOk;
    assert ["x"] + [] == ["x"] && ["y"] + [] == ["y"] && ["r", "y"] + [] == ["r", "y"] && ["r"] + ["y"] == ["r", "y"];
    assert ["out"] + ["x"] == ["out", "x"] && [] + ["r"] == ["r"];
    LinkStep(fs, ["out"], "x", [], links);
    NodeStep(fs, [], "r", ["y"], links - 1);
    NodeStep(fs, ["r"], "y", [], links - 1);
    WalkEnds(fs, ["r", "y"], links - 1);
  }

  const STRAYING := Entry(["r", "l", "x"], File([]), ["r"], ["r"])

  /** The guard passes for /r/l/x, and the node outside the boundary /r is
      replaced; a forced replacement removes it first. */
  lemma LinkLeadsOut(fs: Fs)
    requires Astray(fs)
    ensures Clean(STRAYING.dst) && Recheck(fs, STRAYING) && LiveLink(fs, STRAYING.dst)
    ensures var out := Place(fs, STRAYING.dst, STRAYING.node);
            out.Some? && out.value.at == ["out", "x"] && !(STRAYING.boundary <= out.value.at)
    ensures ForcedVictim(fs, STRAYING.dst) == Some(["out", "x"])
  {
    AstrayBack(fs);
    AstrayDir(fs, KERNEL_LINKS);
    hide Walk, TreeOk;
    var dst := ["r", "l", "x"];
    assert dst[..2] == ["r", "l"] && ["out"] + ["x"] == ["out", "x"];
    assert ["r"] <= ["r", "y"] && !(["r"] <= ["out", "x"]);
    assert MkdirAll(fs, ["r", "l"]) == Some(fs);
  }
}
