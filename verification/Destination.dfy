/** The destination host as the transfer engine sees it: a tree of nodes, the
    staging area of one job, and the job's two durable records.  Every change
    is one atomic action (a rename, a mkdir, a removal, a record replaced by
    rename), so that a crash may be placed between any two of them. */
module Destination {
  import opened Common

  type Content = seq<char>

  /** A clean absolute path as the sequence of its components; [] is "/". */
  type Path = seq<string>

  /** sha256, taken to be injective: a digest determines what was hashed. */
  datatype Digest = Sha256(of: Content)

  datatype Node = File(content: Content) | Dir | Symlink(target: string)

  type Fs = map<Path, Node>

  /** A path without "..", which is what filepath.Clean leaves of an absolute
      one. */
  predicate Clean(p: Path) {
    forall i :: 0 <= i < |p| ==> p[i] != ".."
  }

  /** The text of a symbolic link as the kernel reads it: from the root or from
      the link's own directory, name by name. */
  predicate LinkAbsolute(text: string) {
    text != "" && text[0] == '/'
  }

  function LinkNames(text: string): seq<string> {
    Names(Components(text))
  }

  function Names(parts: seq<string>): seq<string> {
    if parts == [] then []
    else (if parts[0] == "" || parts[0] == "." then [] else [parts[0]]) + Names(parts[1..])
  }

  /** One name, as it stands in a link's text. */
  predicate PlainName(c: string) {
    '/' !in c && c != "" && c != "." && c != ".."
  }

  function JoinSlash(parts: seq<string>): string {
    if parts == [] then "" else if |parts| == 1 then parts[0] else parts[0] + "/" + JoinSlash(parts[1..])
  }

  lemma {:induction false} FirstName(c: string, rest: string)
    requires '/' !in c && (rest == "" || rest[0] == '/')
    ensures NextSlash(c + rest) == |c|
    decreases |c|
  {
    if c == "" {
      assert c + rest == rest;
    } else {
      assert (c + rest)[0] == c[0] && c[0] in c && (c + rest)[1..] == c[1..] + rest;
      FirstName(c[1..], rest);
    }
  }

  lemma OneComponent(c: string)
    requires '/' !in c
    ensures Components(c) == [c]
  {
    hide NextSlash;
    FirstName(c, "");
    assert c + "" == c;
  }

  lemma NextComponent(c: string, rest: string)
    requires '/' !in c
    ensures Components(c + "/" + rest) == [c] + Components(rest)
  {
    hide NextSlash;
    var s := c + "/" + rest;
    FirstName(c, "/" + rest);
    assert c + ("/" + rest) == s && s[..|c|] == c && s[|c| + 1..] == rest;
  }

  lemma {:induction false} ComponentsOfJoin(parts: seq<string>)
    requires parts != [] && forall k :: 0 <= k < |parts| ==> '/' !in parts[k]
    ensures Components(JoinSlash(parts)) == parts
    decreases |parts|
  {
    hide Components;
    if |parts| == 1 {
      OneComponent(parts[0]);
      assert parts == [parts[0]];
    } else {
      NextComponent(parts[0], JoinSlash(parts[1..]));
      ComponentsOfJoin(parts[1..]);
      assert parts == [parts[0]] + parts[1..];
    }
  }

  /** Read name by name: names joined by slashes come back as they are, ".."
      among them... */
  lemma LinkNamesRead(names: seq<string>)
    requires names != [] && forall k :: 0 <= k < |names| ==> '/' !in names[k] && names[k] != "" && names[k] != "."
    ensures LinkNames(JoinSlash(names)) == names && !LinkAbsolute(JoinSlash(names))
    ensures LinkNames("/" + JoinSlash(names)) == names && LinkAbsolute("/" + JoinSlash(names))
  {
    hide Components, JoinSlash, Names, NextSlash;
    ComponentsOfJoin(names);
    NamesKept(names);
    JoinStarts(names);
    RootedNames(names);
    NextComponent("", JoinSlash(names));
    assert "" + "/" + JoinSlash(names) == "/" + JoinSlash(names);
  }

  lemma RootedNames(names: seq<string>)
    ensures Names([""] + names) == Names(names)
  {
    assert ([""] + names)[1..] == names;
  }

  lemma JoinStarts(names: seq<string>)
    requires names != [] && names[0] != ""
    ensures JoinSlash(names) != "" && JoinSlash(names)[0] == names[0][0]
  {
  }

  lemma {:induction false} NamesKept(names: seq<string>)
    requires forall k :: 0 <= k < |names| ==> names[k] != "" && names[k] != "."
    ensures Names(names) == names
    decreases |names|
  {
    if names != [] {
      NamesKept(names[1..]);
    }
  }

  /** ... and of the rest, only "." and nothing at all are passed over. */
  lemma LinkNamesAre(parts: seq<string>, c: string)
    requires parts != [] && forall k :: 0 <= k < |parts| ==> '/' !in parts[k]
    ensures c in LinkNames(JoinSlash(parts)) <==> c in parts && c != "" && c != "."
  {
    ComponentsOfJoin(parts);
    NamesAre(parts, c);
  }

  lemma {:induction false} NamesAre(parts: seq<string>, c: string)
    ensures c in Names(parts) <==> c in parts && c != "" && c != "."
    decreases |parts|
  {
    if parts != [] {
      NamesAre(parts[1..], c);
    }
  }

  lemma PlainLink(c: string)
    requires PlainName(c)
    ensures LinkNames(c) == [c] && !LinkAbsolute(c)
  {
    LinkNamesRead([c]);
  }

  lemma UpLink(c: string)
    requires PlainName(c)
    ensures LinkNames("../" + c) == ["..", c] && !LinkAbsolute("../" + c)
  {
    LinkNamesRead(["..", c]);
    assert ["..", c][1..] == [c] && ".." + "/" + c == "../" + c;
  }

  datatype RecordKind = FileRecord(digest: Digest) | DirRecord | SymlinkRecord(target: string)

  /** files, partials, dirMarks and linkMarks are staging/<id>, <id>.part,
      <id>.dir and <id>.symlink; roots and installed are roots.json and
      installed.json of the job. */
  datatype World = World(
    fs: Fs,
    files: map<int, Content>, partials: set<int>, dirMarks: set<int>, linkMarks: map<int, string>,
    roots: set<Path>, installed: map<Path, RecordKind>)

  datatype Action =
    | WritePartial(id: int)
    | CommitPartial(id: int, content: Content)
    | RemovePartial(id: int)
    | RemoveStaged(id: int)
    | MarkDir(id: int)
    | RemoveDirMark(id: int)
    | MarkLink(id: int, target: string)
    | RemoveLinkMark(id: int)
    | Mkdir(path: Path)
    | MoveIn(id: int, path: Path)
    | MakeLink(path: Path, target: string)
    | Remove(path: Path)
    | ClaimRoot(path: Path)
    | SaveInstalled(records: map<Path, RecordKind>)

  function Step(w: World, a: Action): World {
    match a
    case WritePartial(id) => w.(partials := w.partials + {id})
    case CommitPartial(id, c) => w.(partials := w.partials - {id}, files := w.files[id := c])
    case RemovePartial(id) => w.(partials := w.partials - {id})
    case RemoveStaged(id) => w.(files := w.files - {id})
    case MarkDir(id) => w.(dirMarks := w.dirMarks + {id})
    case RemoveDirMark(id) => w.(dirMarks := w.dirMarks - {id})
    case MarkLink(id, t) => w.(linkMarks := w.linkMarks[id := t])
    case RemoveLinkMark(id) => w.(linkMarks := w.linkMarks - {id})
    case Mkdir(p) => w.(fs := w.fs[p := Dir])
    case MoveIn(id, p) =>
      if id in w.files then w.(fs := w.fs[p := File(w.files[id])], files := w.files - {id}) else w
    case MakeLink(p, t) => w.(fs := w.fs[p := Symlink(t)])
    case Remove(p) => w.(fs := w.fs - {p})
    case ClaimRoot(p) => w.(roots := w.roots + {p})
    case SaveInstalled(recs) => w.(installed := w.installed + recs)
  }

  function Exec(w: World, acts: seq<Action>): World
    decreases |acts|
  {
    if acts == [] then w else Exec(Step(w, acts[0]), acts[1..])
  }

  lemma {:induction false} ExecConcat(w: World, a: seq<Action>, b: seq<Action>)
    ensures Exec(w, a + b) == Exec(Exec(w, a), b)
    decreases |a|
  {
    if a == [] {
      assert a + b == b;
    } else {
      assert (a + b)[1..] == a[1..] + b;
      ExecConcat(Step(w, a[0]), a[1..], b);
    }
  }

  // ---- directories ------------------------------------------------------

  function Parent(p: Path): Path
    requires p != []
  {
    p[..|p| - 1]
  }

  /** underDir: p is dir or lies below it. */
  predicate UnderDir(p: Path, dir: Path) {
    dir <= p
  }

  lemma UnderParent(p: Path, q: Path)
    requires p != []
    ensures UnderDir(p, q) <==> q == p || UnderDir(Parent(p), q)
  {
    if UnderDir(p, q) && q != p {
      assert q == p[..|q|] == Parent(p)[..|q|];
    }
  }

  /** Every node hangs below directories, up to the root. */
  ghost predicate TreeOk(fs: Fs) {
    && [] in fs && fs[[]].Dir?
    && forall p {:trigger Parent(p)} :: p in fs && p != [] ==> Parent(p) in fs && fs[Parent(p)].Dir?
  }

  /** Neither p nor any of its ancestors is anything but a directory. */
  ghost predicate DirPathFree(fs: Fs, p: Path) {
    forall q :: q in fs && UnderDir(p, q) ==> fs[q].Dir?
  }

  /** The mkdir calls of os.MkdirAll(p); false where it fails because
      something on the way is not a directory. */
  function MkdirAll(fs: Fs, p: Path): (r: (seq<Action>, bool))
    ensures forall a :: a in r.0 ==> a.Mkdir? && UnderDir(p, a.path) && a.path !in fs
    ensures !r.1 ==> r.0 == []
  {
    if p in fs then ([], fs[p].Dir?)
    else if p == [] then ([], false)
    else
      var (acts, ok) := MkdirAll(fs, Parent(p));
      if ok then (acts + [Mkdir(p)], true) else ([], false)
  }

  /** absentAncestors: the directories from d upward that do not exist,
      deepest first. */
  function AbsentAncestors(fs: Fs, d: Path): seq<Path> {
    if d in fs then [] else if d == [] then [[]] else [d] + AbsentAncestors(fs, Parent(d))
  }

  lemma {:induction false} AncestorsExist(fs: Fs, p: Path)
    requires TreeOk(fs) && p in fs
    ensures forall q :: UnderDir(p, q) ==> q in fs && (q != p ==> fs[q].Dir?)
    decreases |p|
  {
    if p != [] {
      AncestorsExist(fs, Parent(p));
      forall q | UnderDir(p, q) ensures q in fs && (q != p ==> fs[q].Dir?) {
        UnderParent(p, q);
      }
    }
  }

  lemma {:induction false} AbsentAncestorsAre(fs: Fs, d: Path)
    requires TreeOk(fs)
    ensures forall q :: q in AbsentAncestors(fs, d) <==> UnderDir(d, q) && q !in fs
    decreases |d|
  {
    if d in fs {
      AncestorsExist(fs, d);
    } else {
      AbsentAncestorsAre(fs, Parent(d));
      forall q ensures q in AbsentAncestors(fs, d) <==> UnderDir(d, q) && q !in fs {
        UnderParent(d, q);
      }
    }
  }

  function PrefixesOf(p: Path): (r: set<Path>)
    ensures forall q :: q in r <==> UnderDir(p, q)
  {
    var r := set k | 0 <= k <= |p| :: p[..k];
    assert forall q | UnderDir(p, q) :: q == p[..|q|];
    r
  }

  /** The tree after a successful MkdirAll(p): its absent ancestors become
      directories and nothing else changes. */
  ghost function WithDirs(fs: Fs, p: Path): (r: Fs)
    ensures forall q :: q in r <==> q in fs || UnderDir(p, q)
    ensures forall q :: q in r ==> r[q] == if q in fs then fs[q] else Dir
  {
    fs + map q | q in PrefixesOf(p) && q !in fs :: Dir
  }

  lemma DirPathOfParent(fs: Fs, p: Path)
    requires TreeOk(fs) && p !in fs && p != []
    ensures DirPathFree(fs, p) <==> DirPathFree(fs, Parent(p))
    ensures WithDirs(fs, p) == WithDirs(fs, Parent(p))[p := Dir]
  {
    forall q ensures UnderDir(p, q) <==> q == p || UnderDir(Parent(p), q) {
      UnderParent(p, q);
    }
  }

  lemma {:induction false} MkdirAllSucceeds(fs: Fs, p: Path)
    requires TreeOk(fs)
    ensures MkdirAll(fs, p).1 <==> DirPathFree(fs, p)
    decreases |p|
  {
    if p in fs {
      AncestorsExist(fs, p);
    } else {
      MkdirAllSucceeds(fs, Parent(p));
      DirPathOfParent(fs, p);
    }
  }

  lemma ExecSnoc(w: World, acts: seq<Action>, a: Action)
    ensures Exec(w, acts + [a]) == Step(Exec(w, acts), a)
  {
    ExecConcat(w, acts, [a]);
    var w1 := Exec(w, acts);
    assert [a][1..] == [];
    assert Exec(w1, [a]) == Exec(Step(w1, a), []);
  }

  lemma ExecOne(w: World, a: Action)
    ensures Exec(w, [a]) == Step(w, a)
  {
    assert [a][1..] == [];
    assert Exec(Step(w, a), []) == Step(w, a);
  }

  lemma ExecTwo(w: World, a: Action, b: Action)
    ensures Exec(w, [a, b]) == Step(Step(w, a), b)
  {
    ExecOne(w, a);
    ExecSnoc(w, [a], b);
    assert [a] + [b] == [a, b];
  }

  lemma {:induction false} MkdirAllExec(w: World, p: Path)
    requires TreeOk(w.fs) && MkdirAll(w.fs, p).1
    ensures Exec(w, MkdirAll(w.fs, p).0) == w.(fs := WithDirs(w.fs, p))
    decreases |p|
  {
    if p in w.fs {
      AncestorsExist(w.fs, p);
      assert WithDirs(w.fs, p) == w.fs;
    } else {
      MkdirAllExec(w, Parent(p));
      ExecSnoc(w, MkdirAll(w.fs, Parent(p)).0, Mkdir(p));
      DirPathOfParent(w.fs, p);
    }
  }

  lemma WithDirsTree(fs: Fs, p: Path)
    requires TreeOk(fs) && DirPathFree(fs, p)
    ensures TreeOk(WithDirs(fs, p))
  {
    var r := WithDirs(fs, p);
    forall q | q in r && q != [] ensures Parent(q) in r && r[Parent(q)].Dir? {
      if q !in fs {
        UnderParent(q, Parent(q));
        assert UnderDir(p, Parent(q));
      }
    }
  }
}
