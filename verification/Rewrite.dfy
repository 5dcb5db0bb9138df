/** Rewriting of JSONL files and the fast-forward tests: what RewriteJSONL may
    write, what IsRecordPrefix compares, and when a fast-forward survives the
    rewriting of both files. */
module Rewrite {
  import opened Common

  /** A decoded value; numbers are kept as text (UseNumber). */
  datatype Json =
    | Null | Bool(b: bool) | Number(text: string) | Str(s: string)
    | Arr(items: seq<Json>) | Obj(fields: map<string, Json>)

  /** The JSON text syntax and unicode.IsSpace, as this file needs them: the
      texts of numbers, and how deep a value may nest. */
  datatype Codec = Codec(decode: string -> Option<Json>, encode: Json -> string, isSpace: char -> bool,
                         isNumber: string -> bool, depth: nat)

  /** A value of the JSON data model, nesting at most d deep. */
  ghost predicate Sane(c: Codec, v: Json, d: nat)
    decreases v
  {
    match v
    case Number(text) => c.isNumber(text)
    case Arr(xs) => d > 0 && forall i :: 0 <= i < |xs| ==> Sane(c, xs[i], d - 1)
    case Obj(o) => d > 0 && forall k :: k in o ==> Sane(c, o[k], d - 1)
    case _ => true
  }

  ghost predicate Lawful(c: Codec) {
    && c.isSpace('\n') && c.isSpace('\r')
    && (forall v :: Sane(c, v, c.depth) ==> EncodesWell(c, v))
    && (forall s :: c.decode(s).Some? ==> Sane(c, c.decode(s).value, c.depth))
  }

  /** Compact encoding: one line, nothing to trim, read back as it was. */
  ghost predicate EncodesWell(c: Codec, v: Json) {
    var e := c.encode(v);
    && c.decode(e) == Some(v) && Tight(c, e)
  }

  // ---- one value ------------------------------------------------------------------

  /** w may be what rewriteValue makes of v, with f applied to every string and
      every key.  When keys collide, the entry met last wins, and the order of
      a Go map is arbitrary. */
  ghost predicate Rewritten(f: string -> string, v: Json, w: Json)
    decreases v
  {
    match v
    case Str(s) => w == Str(f(s))
    case Arr(xs) => w.Arr? && |w.items| == |xs| && forall i :: 0 <= i < |xs| ==> Rewritten(f, xs[i], w.items[i])
    case Obj(o) =>
      && w.Obj?
      && (forall k :: k in o ==> f(k) in w.fields)
      && (forall n :: n in w.fields ==> exists k :: k in o && f(k) == n && Rewritten(f, o[k], w.fields[n]))
    case _ => w == v
  }

  /** No two keys of one object rewrite to one. */
  ghost predicate NoCollision(f: string -> string, v: Json)
    decreases v
  {
    match v
    case Arr(xs) => forall i :: 0 <= i < |xs| ==> NoCollision(f, xs[i])
    case Obj(o) =>
      && (forall k, n :: k in o && n in o && f(k) == f(n) ==> k == n)
      && (forall k :: k in o ==> NoCollision(f, o[k]))
    case _ => true
  }

  /** Some string or key in v is changed by f. */
  ghost predicate Touched(f: string -> string, v: Json)
    decreases v
  {
    match v
    case Str(s) => f(s) != s
    case Arr(xs) => exists i :: 0 <= i < |xs| && Touched(f, xs[i])
    case Obj(o) => exists k :: k in o && (f(k) != k || Touched(f, o[k]))
    case _ => false
  }

  /** Without collisions the rewriting of a value is unique. */
  lemma {:induction false} RewrittenOnce(f: string -> string, v: Json, a: Json, b: Json)
    requires NoCollision(f, v) && Rewritten(f, v, a) && Rewritten(f, v, b)
    ensures a == b
    decreases v
  {
    match v {
      case Arr(xs) =>
        forall i | 0 <= i < |xs| ensures a.items[i] == b.items[i] {
          RewrittenOnce(f, xs[i], a.items[i], b.items[i]);
        }
      case Obj(o) =>
        forall n ensures n in a.fields <==> n in b.fields {
        }
        forall n | n in a.fields ensures a.fields[n] == b.fields[n] {
          var k :| k in o && f(k) == n && Rewritten(f, o[k], a.fields[n]);
          var m :| m in o && f(m) == n && Rewritten(f, o[m], b.fields[n]);
          RewrittenOnce(f, o[k], a.fields[n], b.fields[n]);
        }
        assert a.fields == b.fields;
      case _ =>
    }
  }

  /** Rewriting keeps a value in the data model. */
  lemma {:induction false} RewrittenIsSane(c: Codec, f: string -> string, v: Json, w: Json, d: nat)
    requires Sane(c, v, d) && Rewritten(f, v, w)
    ensures Sane(c, w, d)
    decreases v
  {
    match v {
      case Arr(xs) =>
        forall i | 0 <= i < |xs| ensures Sane(c, w.items[i], d - 1) {
          RewrittenIsSane(c, f, xs[i], w.items[i], d - 1);
        }
      case Obj(o) =>
        forall n | n in w.fields ensures Sane(c, w.fields[n], d - 1) {
          var k :| k in o && f(k) == n && Rewritten(f, o[k], w.fields[n]);
          RewrittenIsSane(c, f, o[k], w.fields[n], d - 1);
        }
      case _ =>
    }
  }

  /** What is not touched stays as it is, collisions or not. */
  lemma {:induction false} UntouchedStays(f: string -> string, v: Json, w: Json)
    requires !Touched(f, v) && Rewritten(f, v, w)
    ensures w == v
    decreases v
  {
    match v {
      case Arr(xs) =>
        forall i | 0 <= i < |xs| ensures w.items[i] == xs[i] {
          UntouchedStays(f, xs[i], w.items[i]);
        }
        assert w.items == xs;
      case Obj(o) =>
        forall n | n in w.fields ensures n in o && w.fields[n] == o[n] {
          var k :| k in o && f(k) == n && Rewritten(f, o[k], w.fields[n]);
          assert k == n;
          UntouchedStays(f, o[k], w.fields[n]);
        }
        forall k | k in o ensures k in w.fields {
          assert f(k) == k;
        }
        assert w.fields == o;
      case _ =>
    }
  }

  /** rewriteValue */
  method RewriteValue(f: string -> string, v: Json) returns (w: Json, changed: bool)
    ensures Rewritten(f, v, w) && (changed <==> Touched(f, v))
    decreases v, 1
  {
    match v {
      case Str(s) => w, changed := Str(f(s)), f(s) != s;
      case Arr(_) => w, changed := RewriteArray(f, v);
      case Obj(_) => w, changed := RewriteObject(f, v);
      case _ => w, changed := v, false;
    }
  }

  method RewriteArray(f: string -> string, v: Json) returns (w: Json, changed: bool)
    requires v.Arr?
    ensures Rewritten(f, v, w) && (changed <==> Touched(f, v))
    decreases v, 0
  {
    var xs, out := v.items, v.items;
    changed := false;
    var i := 0;
    while i < |xs|
      invariant i <= |xs| && |out| == |xs|
      invariant forall k :: 0 <= k < i ==> Rewritten(f, xs[k], out[k])
      invariant changed <==> exists k :: 0 <= k < i && Touched(f, xs[k])
    {
      var nv, c := RewriteValue(f, xs[i]);
      out := out[i := nv];
      changed := changed || c;
      i := i + 1;
    }
    w := Arr(out);
  }

  /** Of o, the entries with keys outside left have been rewritten into out. */
  ghost predicate FieldsRewritten(f: string -> string, o: map<string, Json>, left: set<string>, out: map<string, Json>) {
    && (forall k :: k in o && k !in left ==> f(k) in out)
    && (forall n :: n in out ==> exists k :: k in o && f(k) == n && Rewritten(f, o[k], out[n]))
  }

  ghost predicate FieldsTouched(f: string -> string, o: map<string, Json>, left: set<string>) {
    exists k :: k in o && k !in left && (f(k) != k || Touched(f, o[k]))
  }

  lemma OneField(f: string -> string, o: map<string, Json>, left: set<string>, out: map<string, Json>, k: string, w: Json)
    requires FieldsRewritten(f, o, left, out) && k in o && Rewritten(f, o[k], w)
    ensures FieldsRewritten(f, o, left - {k}, out[f(k) := w])
  {
    var out' := out[f(k) := w];
    forall n | n in out' ensures exists m :: m in o && f(m) == n && Rewritten(f, o[m], out'[n]) {
      if n != f(k) {
        var m :| m in o && f(m) == n && Rewritten(f, o[m], out[n]);
      }
    }
  }

  method RewriteObject(f: string -> string, v: Json) returns (w: Json, changed: bool)
    requires v.Obj?
    ensures Rewritten(f, v, w) && (changed <==> Touched(f, v))
    decreases v, 0
  {
    var o := v.fields;
    var out: map<string, Json> := map[];
    changed := false;
    var left := o.Keys;
    while exists k :: k in left
      invariant left <= o.Keys && FieldsRewritten(f, o, left, out)
      invariant changed <==> FieldsTouched(f, o, left)
      decreases |left|
    {
      var k :| k in left;
      var nv, c := RewriteValue(f, o[k]);
      OneField(f, o, left, out, k, nv);
      changed := changed || f(k) != k || c;
      out := out[f(k) := nv];
      left := left - {k};
    }
    w := Obj(out);
  }

  // ---- trimming -------------------------------------------------------------------

  /** bytes.TrimSpace */
  function Trim(c: Codec, s: string): string {
    TrimRight(c.isSpace, TrimLeft(c.isSpace, s))
  }

  /** The line without its line end: bytes.TrimRight(line, "\r\n"), the newline
      being gone already. */
  function Body(line: string): string {
    TrimRight(ch => ch == '\r', line)
  }

  lemma {:induction false} TrimDropsLast(c: Codec, s: string)
    requires s != "" && c.isSpace(s[|s| - 1])
    ensures Trim(c, s) == Trim(c, s[..|s| - 1])
    decreases |s|
  {
    var init := s[..|s| - 1];
    if c.isSpace(s[0]) {
      if |s| == 1 {
        assert s[1..] == "" && init == "";
      } else {
        TrimDropsLast(c, s[1..]);
        assert s[1..][..|s[1..]| - 1] == init[1..];
      }
    } else {
      assert init != "" && init[0] == s[0];
    }
  }

  lemma {:induction false} TrimOfBody(c: Codec, line: string)
    requires c.isSpace('\r')
    ensures Trim(c, Body(line)) == Trim(c, line)
    decreases |line|
  {
    if line != "" && line[|line| - 1] == '\r' {
      TrimDropsLast(c, line);
      TrimOfBody(c, line[..|line| - 1]);
      assert Body(line) == Body(line[..|line| - 1]);
    }
  }

  lemma EncodingIsTrimmed(c: Codec, v: Json)
    requires EncodesWell(c, v)
    ensures Trim(c, c.encode(v)) == c.encode(v)
  {
  }

  // ---- lines ------------------------------------------------------------------------

  /** The first newline of s, or its end, is at k. */
  predicate LineEndsAt(s: string, k: nat) {
    k <= |s| && (k < |s| ==> s[k] == '\n') && forall i :: 0 <= i < k ==> s[i] != '\n'
  }

  function NextNewline(s: string): (k: nat)
    ensures LineEndsAt(s, k)
  {
    if s == "" || s[0] == '\n' then 0 else NextNewline(s[1..]) + 1
  }

  /** The lines of a file without their newlines; a last line need not have
      one. */
  function Lines(s: string): seq<string>
    decreases |s|
  {
    if s == "" then []
    else
      var k := NextNewline(s);
      if k == |s| then [s] else [s[..k]] + Lines(s[k + 1..])
  }

  predicate Ended(s: string) {
    s == "" || s[|s| - 1] == '\n'
  }

  lemma NewlineAt(s: string, k: nat)
    requires LineEndsAt(s, k)
    ensures NextNewline(s) == k
  {
  }

  lemma FirstLine(s: string, k: nat)
    requires LineEndsAt(s, k) && k < |s|
    ensures Lines(s) == [s[..k]] + Lines(s[k + 1..])
  {
    hide NextNewline, LineEndsAt;
    NewlineAt(s, k);
  }

  lemma LastNewline(a: string)
    requires a != "" && Ended(a)
    ensures NextNewline(a) < |a|
  {
  }

  lemma {:induction false} LinesConcat(a: string, b: string)
    requires Ended(a)
    ensures Lines(a + b) == Lines(a) + Lines(b)
    decreases |a|
  {
    hide Lines, NextNewline;
    if a == "" {
      NoLines();
      assert a + b == b;
    } else {
      var k := NextNewline(a);
      LastNewline(a);
      FirstLine(a, k);
      FirstLine(a + b, k);
      assert (a + b)[..k] == a[..k];
      assert (a + b)[k + 1..] == a[k + 1..] + b;
      LinesConcat(a[k + 1..], b);
      assert [a[..k]] + (Lines(a[k + 1..]) + Lines(b)) == ([a[..k]] + Lines(a[k + 1..])) + Lines(b);
    }
  }

  lemma NoLines()
    ensures Lines("") == []
  {
  }

  lemma OneLine(line: string)
    requires forall i :: 0 <= i < |line| ==> line[i] != '\n'
    ensures Lines(line + "\n") == [line]
  {
    var s := line + "\n";
    FirstLine(s, |line|);
    assert s[..|line|] == line && s[|line| + 1..] == "";
  }

  // ---- RewriteJSONL -----------------------------------------------------------------------

  /** What may be written for one line. */
  ghost predicate LineRewritten(c: Codec, f: string -> string, line: string, out: string) {
    var body := Body(line);
    if Trim(c, body) == "" then out == "\n"
    else
      match c.decode(body)
      case None => out == body + "\n"
      case Some(v) => exists w :: Rewritten(f, v, w) && out == c.encode(w) + "\n"
  }

  function Join(outs: seq<string>): string {
    if outs == [] then "" else outs[0] + Join(outs[1..])
  }

  ghost predicate LinesRewritten(c: Codec, f: string -> string, lines: seq<string>, outs: seq<string>) {
    |outs| == |lines| && forall i :: 0 <= i < |lines| ==> LineRewritten(c, f, lines[i], outs[i])
  }

  /** out may be what RewriteJSONL writes for the file s. */
  ghost predicate FileRewritten(c: Codec, f: string -> string, s: string, out: string) {
    exists outs :: LinesRewritten(c, f, Lines(s), outs) && out == Join(outs)
  }

  lemma {:induction false} JoinConcat(a: seq<string>, b: seq<string>)
    ensures Join(a + b) == Join(a) + Join(b)
  {
    if a == [] {
      assert a + b == b;
    } else {
      assert (a + b)[1..] == a[1..] + b;
      JoinConcat(a[1..], b);
    }
  }

  /** Rewriting distributes over concatenation at a line end: the outputs for
      a + b are exactly the outputs for a followed by those for b. */
  lemma RewriteDistributes(c: Codec, f: string -> string, a: string, b: string, out: string)
    requires a == "" || a[|a| - 1] == '\n'
    ensures FileRewritten(c, f, a + b, out)
      <==> exists oa, ob :: FileRewritten(c, f, a, oa) && FileRewritten(c, f, b, ob) && out == oa + ob
  {
    if FileRewritten(c, f, a + b, out) {
      RewriteSplits(c, f, a, b, out);
    }
    if oa, ob :| FileRewritten(c, f, a, oa) && FileRewritten(c, f, b, ob) && out == oa + ob {
      RewriteJoins(c, f, a, b, oa, ob);
    }
  }

  lemma RewriteSplits(c: Codec, f: string -> string, a: string, b: string, out: string)
    requires Ended(a) && FileRewritten(c, f, a + b, out)
    ensures exists oa, ob :: FileRewritten(c, f, a, oa) && FileRewritten(c, f, b, ob) && out == oa + ob
  {
    hide LineRewritten, Lines;
    LinesConcat(a, b);
    var outs :| LinesRewritten(c, f, Lines(a + b), outs) && out == Join(outs);
    var n := |Lines(a)|;
    SplitRewritten(c, f, Lines(a), Lines(b), outs);
    assert outs == outs[..n] + outs[n..];
    JoinConcat(outs[..n], outs[n..]);
    assert FileRewritten(c, f, a, Join(outs[..n])) && FileRewritten(c, f, b, Join(outs[n..]));
  }

  lemma RewriteJoins(c: Codec, f: string -> string, a: string, b: string, oa: string, ob: string)
    requires Ended(a) && FileRewritten(c, f, a, oa) && FileRewritten(c, f, b, ob)
    ensures FileRewritten(c, f, a + b, oa + ob)
  {
    hide LineRewritten, Lines;
    LinesConcat(a, b);
    var xs :| LinesRewritten(c, f, Lines(a), xs) && oa == Join(xs);
    var ys :| LinesRewritten(c, f, Lines(b), ys) && ob == Join(ys);
    JoinConcat(xs, ys);
    assert LinesRewritten(c, f, Lines(a) + Lines(b), xs + ys);
  }

  lemma SplitRewritten(c: Codec, f: string -> string, la: seq<string>, lb: seq<string>, outs: seq<string>)
    requires LinesRewritten(c, f, la + lb, outs)
    ensures LinesRewritten(c, f, la, outs[..|la|]) && LinesRewritten(c, f, lb, outs[|la|..])
  {
    forall i | 0 <= i < |la| ensures LineRewritten(c, f, la[i], outs[..|la|][i]) {
      assert LineRewritten(c, f, (la + lb)[i], outs[i]);
    }
    forall i | 0 <= i < |lb| ensures LineRewritten(c, f, lb[i], outs[|la|..][i]) {
      assert LineRewritten(c, f, (la + lb)[|la| + i], outs[|la| + i]);
    }
  }

  datatype Stats = Stats(records: nat, rewritten: nat, unparseable: nat)

  ghost function LineStats(c: Codec, f: string -> string, line: string): Stats {
    var body := Body(line);
    if Trim(c, body) == "" then Stats(0, 0, 0)
    else
      match c.decode(body)
      case None => Stats(1, 0, 1)
      case Some(v) => Stats(1, if Touched(f, v) then 1 else 0, 0)
  }

  function Plus(a: Stats, b: Stats): Stats {
    Stats(a.records + b.records, a.rewritten + b.rewritten, a.unparseable + b.unparseable)
  }

  ghost function FileStats(c: Codec, f: string -> string, lines: seq<string>): Stats {
    if lines == [] then Stats(0, 0, 0)
    else Plus(FileStats(c, f, lines[..|lines| - 1]), LineStats(c, f, lines[|lines| - 1]))
  }

  method RewriteLine(c: Codec, f: string -> string, line: string) returns (out: string, st: Stats)
    ensures LineRewritten(c, f, line, out) && st == LineStats(c, f, line)
  {
    var body := Body(line);
    if Trim(c, body) == "" {
      return "\n", Stats(0, 0, 0);
    }
    match c.decode(body) {
      case None =>
        out, st := body + "\n", Stats(1, 0, 1);
      case Some(v) =>
        var w, changed := RewriteValue(f, v);
        out, st := c.encode(w) + "\n", Stats(1, if changed then 1 else 0, 0);
    }
  }

  /** Where the line after the one at pos, k bytes long, begins. */
  function After(r: string, pos: nat, k: nat): (next: nat)
    requires pos <= |r|
    ensures pos <= next <= |r|
  {
    if pos + k < |r| then pos + k + 1 else |r|
  }

  /** Up to pos, the lines done have been written as w. */
  ghost predicate WrittenSoFar(c: Codec, f: string -> string, r: string, pos: nat, w: string, st: Stats) {
    pos <= |r| && exists done, outs ::
      && Lines(r) == done + Lines(r[pos..])
      && LinesRewritten(c, f, done, outs) && w == Join(outs) && st == FileStats(c, f, done)
  }

  /** RewriteJSONL: line by line, with the counts it reports. */
  method RewriteJSONL(c: Codec, f: string -> string, r: string) returns (w: string, st: Stats)
    ensures FileRewritten(c, f, r, w) && st == FileStats(c, f, Lines(r))
  {
    w, st := "", Stats(0, 0, 0);
    var pos := 0;
    StartWriting(c, f, r);
    while pos < |r|
      invariant WrittenSoFar(c, f, r, pos, w, st)
      decreases |r| - pos
    {
      var k := NextNewline(r[pos..]);
      var out, one := RewriteLine(c, f, r[pos..][..k]);
      WriteOne(c, f, r, pos, k, w, st, out);
      w := w + out;
      st := Plus(st, one);
      pos := After(r, pos, k);
    }
    EndWriting(c, f, r, w, st);
  }

  lemma StartWriting(c: Codec, f: string -> string, r: string)
    ensures WrittenSoFar(c, f, r, 0, "", Stats(0, 0, 0))
  {
    assert r[0..] == r;
    assert Lines(r) == [] + Lines(r[0..]);
    assert LinesRewritten(c, f, [], []);
  }

  lemma EndWriting(c: Codec, f: string -> string, r: string, w: string, st: Stats)
    requires WrittenSoFar(c, f, r, |r|, w, st)
    ensures FileRewritten(c, f, r, w) && st == FileStats(c, f, Lines(r))
  {
    var done, outs :| Lines(r) == done + Lines(r[|r|..]) && LinesRewritten(c, f, done, outs)
      && w == Join(outs) && st == FileStats(c, f, done);
    assert done + [] == done;
  }

  lemma WriteOne(c: Codec, f: string -> string, r: string, pos: nat, k: nat, w: string, st: Stats, out: string)
    requires pos < |r| && WrittenSoFar(c, f, r, pos, w, st) && k == NextNewline(r[pos..])
    requires LineRewritten(c, f, r[pos..][..k], out)
    ensures WrittenSoFar(c, f, r, After(r, pos, k), w + out, Plus(st, LineStats(c, f, r[pos..][..k])))
  {
    hide LineRewritten, LineStats, NextNewline, Lines, FileStats, Join, LinesRewritten;
    var done, outs :| Lines(r) == done + Lines(r[pos..]) && LinesRewritten(c, f, done, outs)
      && w == Join(outs) && st == FileStats(c, f, done);
    var line := r[pos..][..k];
    NextLine(r, pos, k);
    Append(c, f, done, outs, line, out);
    Regroup(done, line, Lines(r[After(r, pos, k)..]));
  }

  lemma Regroup(done: seq<string>, line: string, rest: seq<string>)
    ensures done + ([line] + rest) == (done + [line]) + rest
  {
  }

  lemma NextLine(r: string, pos: nat, k: nat)
    requires pos < |r| && k == NextNewline(r[pos..])
    ensures Lines(r[pos..]) == [r[pos..][..k]] + Lines(r[After(r, pos, k)..])
  {
    hide Lines;
    var rest := r[pos..];
    if pos + k < |r| {
      FirstLine(rest, k);
      assert rest[k + 1..] == r[pos + k + 1..];
    } else {
      LastLine(rest);
      assert rest[..k] == rest && r[|r|..] == "";
      NoLines();
      assert [rest] + [] == [rest];
    }
  }

  lemma LastLine(data: string)
    requires data != "" && NextNewline(data) == |data|
    ensures Lines(data) == [data]
  {
  }

  lemma Append(c: Codec, f: string -> string, done: seq<string>, outs: seq<string>, line: string, out: string)
    requires LinesRewritten(c, f, done, outs) && LineRewritten(c, f, line, out)
    ensures LinesRewritten(c, f, done + [line], outs + [out]) && Join(outs + [out]) == Join(outs) + out
    ensures FileStats(c, f, done + [line]) == Plus(FileStats(c, f, done), LineStats(c, f, line))
  {
    hide LineRewritten, LineStats;
    JoinConcat(outs, [out]);
    assert [out][1..] == [] && Join([out]) == out + Join([]);
    assert (done + [line])[..|done|] == done;
  }

  // ---- IsRecordPrefix ---------------------------------------------------------------------

  /** The non-blank lines, trimmed. */
  function Records(c: Codec, lines: seq<string>): seq<string> {
    if lines == [] then []
    else if Trim(c, lines[0]) == "" then Records(c, lines[1..])
    else [Trim(c, lines[0])] + Records(c, lines[1..])
  }

  /** recordsEqual */
  predicate RecordsEqual(c: Codec, a: string, b: string) {
    if c.decode(a).None? || c.decode(b).None? then a == b else c.decode(a) == c.decode(b)
  }

  /** Two records agree when they are the same text or say the same value. */
  lemma RecordsAgree(c: Codec, a: string, b: string)
    ensures RecordsEqual(c, a, b) <==> a == b || (c.decode(a).Some? && c.decode(a) == c.decode(b))
  {
  }

  predicate RecordPrefix(c: Codec, a: seq<string>, b: seq<string>) {
    |a| <= |b| && forall i :: 0 <= i < |a| ==> RecordsEqual(c, a[i], b[i])
  }

  predicate IsRecordPrefixOf(c: Codec, existing: string, incoming: string) {
    RecordPrefix(c, Records(c, Lines(existing)), Records(c, Lines(incoming)))
  }

  lemma RecordsUnfold(c: Codec, lines: seq<string>, i: nat)
    requires i < |lines|
    ensures Records(c, lines[i..]) ==
      (if Trim(c, lines[i]) == "" then [] else [Trim(c, lines[i])]) + Records(c, lines[i + 1..])
  {
    assert lines[i..][0] == lines[i] && lines[i..][1..] == lines[i + 1..];
  }

  /** nextNonBlankLine: the next record at or after line i, and where to go on. */
  method NextRecord(c: Codec, lines: seq<string>, i: nat) returns (line: Option<string>, next: nat)
    requires i <= |lines|
    ensures i <= next <= |lines|
    ensures match line
            case None => Records(c, lines[i..]) == [] && next == |lines|
            case Some(l) => i < next && Records(c, lines[i..]) == [l] + Records(c, lines[next..])
  {
    next := i;
    while next < |lines|
      invariant i <= next <= |lines| && Records(c, lines[i..]) == Records(c, lines[next..])
    {
      RecordsUnfold(c, lines, next);
      var l := Trim(c, lines[next]);
      next := next + 1;
      if l != "" {
        return Some(l), next;
      }
    }
    line := None;
  }

  lemma PrefixStep(c: Codec, x: string, a: seq<string>, y: string, b: seq<string>)
    ensures RecordPrefix(c, [x] + a, [y] + b) <==> RecordsEqual(c, x, y) && RecordPrefix(c, a, b)
  {
    if RecordPrefix(c, [x] + a, [y] + b) {
      assert RecordsEqual(c, ([x] + a)[0], ([y] + b)[0]);
      forall i | 0 <= i < |a| ensures RecordsEqual(c, a[i], b[i]) {
        assert RecordsEqual(c, ([x] + a)[i + 1], ([y] + b)[i + 1]);
      }
    }
  }

  /** IsRecordPrefix: both files scanned once, side by side. */
  method IsRecordPrefix(c: Codec, existing: seq<string>, incoming: seq<string>) returns (prefix: bool)
    ensures prefix <==> RecordPrefix(c, Records(c, existing), Records(c, incoming))
  {
    var i, k := 0, 0;
    assert existing[0..] == existing && incoming[0..] == incoming;
    ghost var goal := RecordPrefix(c, Records(c, existing), Records(c, incoming));
    while true
      invariant i <= |existing| && k <= |incoming|
      invariant goal == RecordPrefix(c, Records(c, existing[i..]), Records(c, incoming[k..]))
      decreases |existing| - i
    {
      var e, x;
      e, i := NextRecord(c, existing, i);
      if e.None? {
        return true;
      }
      x, k := NextRecord(c, incoming, k);
      if x.None? {
        return false;
      }
      PrefixStep(c, e.value, Records(c, existing[i..]), x.value, Records(c, incoming[k..]));
      if !RecordsEqual(c, e.value, x.value) {
        return false;
      }
    }
    assert false;
  }

  /** IsRecordPrefix is a preorder on files... */
  lemma RecordPrefixIsPreorder(c: Codec, x: string, y: string, z: string)
    ensures IsRecordPrefixOf(c, x, x)
    ensures IsRecordPrefixOf(c, x, y) && IsRecordPrefixOf(c, y, z) ==> IsRecordPrefixOf(c, x, z)
  {
    var a, b, d := Records(c, Lines(x)), Records(c, Lines(y)), Records(c, Lines(z));
    if RecordPrefix(c, a, b) && RecordPrefix(c, b, d) {
      forall i | 0 <= i < |a| ensures RecordsEqual(c, a[i], d[i]) {
        assert RecordsEqual(c, a[i], b[i]) && RecordsEqual(c, b[i], d[i]);
      }
    }
  }

  lemma {:induction false} RecordsConcat(c: Codec, a: seq<string>, b: seq<string>)
    ensures Records(c, a + b) == Records(c, a) + Records(c, b)
  {
    if a == [] {
      assert a + b == b;
    } else {
      assert (a + b)[1..] == a[1..] + b;
      RecordsConcat(c, a[1..], b);
    }
  }

  /** ... that extends appending whole lines. */
  lemma AppendingIsFastForward(c: Codec, a: string, b: string)
    requires a == "" || a[|a| - 1] == '\n'
    ensures IsRecordPrefixOf(c, a, a + b)
  {
    LinesConcat(a, b);
    RecordsConcat(c, Lines(a), Lines(b));
    var ra, rb := Records(c, Lines(a)), Records(c, Lines(b));
    forall i | 0 <= i < |ra| ensures RecordsEqual(c, ra[i], (ra + rb)[i]) {
      assert ra[i] == (ra + rb)[i];
    }
  }

  // ---- lines and records ------------------------------------------------------------------

  predicate NewlineFree(line: string) {
    forall i :: 0 <= i < |line| ==> line[i] != '\n'
  }

  lemma {:induction false} LinesAreNewlineFree(s: string)
    ensures forall i :: 0 <= i < |Lines(s)| ==> NewlineFree(Lines(s)[i])
    decreases |s|
  {
    if s != "" && NextNewline(s) < |s| {
      LinesAreNewlineFree(s[NextNewline(s) + 1..]);
    }
  }

  lemma {:induction false} TrimRightFree(p: char -> bool, s: string)
    requires NewlineFree(s)
    ensures NewlineFree(TrimRight(p, s))
  {
    if s != "" && p(s[|s| - 1]) {
      TrimRightFree(p, s[..|s| - 1]);
    }
  }

  /** A trimmed line without a newline is its own body and its own trim. */
  predicate Tight(c: Codec, s: string) {
    s != "" && !c.isSpace(s[0]) && !c.isSpace(s[|s| - 1]) && NewlineFree(s)
  }

  lemma {:induction false} TrimLeftFree(p: char -> bool, s: string)
    requires NewlineFree(s)
    ensures NewlineFree(TrimLeft(p, s)) && (TrimLeft(p, s) != "" ==> !p(TrimLeft(p, s)[0]))
  {
    if s != "" && p(s[0]) {
      TrimLeftFree(p, s[1..]);
    }
  }

  lemma {:induction false} TrimRightEnds(p: char -> bool, s: string)
    ensures TrimRight(p, s) != "" ==> !p(TrimRight(p, s)[|TrimRight(p, s)| - 1]) && s[0] == TrimRight(p, s)[0]
  {
    if s != "" && p(s[|s| - 1]) {
      TrimRightEnds(p, s[..|s| - 1]);
    }
  }

  lemma TrimIsTight(c: Codec, line: string)
    requires NewlineFree(line) && Trim(c, line) != ""
    ensures Tight(c, Trim(c, line))
  {
    var left := TrimLeft(c.isSpace, line);
    TrimLeftFree(c.isSpace, line);
    TrimRightFree(c.isSpace, left);
    TrimRightEnds(c.isSpace, left);
  }
}
