/** When a fast-forward survives the rewriting of both files by one path map:
    the exact condition, record by record, and the two ways to miss it. */
module FastForward {
  import opened Common
  import PathMap
  import opened Rewrite

  // ---- when the rewriting of a value is determined --------------------------------

  ghost function KeyOf(f: string -> string, o: map<string, Json>, n: string): (k: string)
    requires exists k :: k in o && f(k) == n
    ensures k in o && f(k) == n
  {
    var k :| k in o && f(k) == n;
    k
  }

  /** One rewriting; where keys collide, of some entry. */
  ghost function Rew(f: string -> string, v: Json): Json
    decreases v
  {
    match v
    case Str(s) => Str(f(s))
    case Arr(xs) => Arr(seq(|xs|, i requires 0 <= i < |xs| => Rew(f, xs[i])))
    case Obj(o) =>
      var names := set k | k in o :: f(k);
      Obj(map n | n in names :: Rew(f, o[KeyOf(f, o, n)]))
    case _ => v
  }

  /** Keys that rewrite to one carry entries that rewrite to one. */
  ghost predicate Confluent(f: string -> string, v: Json)
    decreases v
  {
    match v
    case Arr(xs) => forall i :: 0 <= i < |xs| ==> Confluent(f, xs[i])
    case Obj(o) =>
      && (forall k :: k in o ==> Confluent(f, o[k]))
      && (forall k, n :: k in o && n in o && f(k) == f(n) ==> Rew(f, o[k]) == Rew(f, o[n]))
    case _ => true
  }

  lemma {:induction false} RewIsRewritten(f: string -> string, v: Json)
    ensures Rewritten(f, v, Rew(f, v))
    decreases v
  {
    match v {
      case Arr(xs) =>
        forall i | 0 <= i < |xs| ensures Rewritten(f, xs[i], Rew(f, v).items[i]) {
          RewIsRewritten(f, xs[i]);
        }
      case Obj(o) =>
        var out := Rew(f, v).fields;
        forall n | n in out ensures exists k :: k in o && f(k) == n && Rewritten(f, o[k], out[n]) {
          var k := KeyOf(f, o, n);
          RewIsRewritten(f, o[k]);
        }
      case _ =>
    }
  }

  lemma NamesAre(f: string -> string, o: map<string, Json>, w: Json)
    requires Rewritten(f, Obj(o), w)
    ensures w.Obj? && w.fields.Keys == Fields(f, o).Keys
    ensures forall n :: n in w.fields ==> exists k :: k in o && f(k) == n && Rewritten(f, o[k], w.fields[n])
  {
    assert forall k :: k in o ==> f(k) in w.fields && f(k) in Fields(f, o);
  }

  lemma OneItem(f: string -> string, xs: seq<Json>, w: Json, i: nat)
    requires i < |xs| && Confluent(f, Arr(xs)) && Rewritten(f, Arr(xs), w)
    ensures w.Arr? && |w.items| == |xs| && Confluent(f, xs[i]) && Rewritten(f, xs[i], w.items[i])
  {
  }

  lemma OneEntry(f: string -> string, o: map<string, Json>, w: Json, n: string) returns (k: string)
    requires Confluent(f, Obj(o)) && Rewritten(f, Obj(o), w) && w.Obj? && n in w.fields
    ensures k in o && f(k) == n && Confluent(f, o[k]) && Rewritten(f, o[k], w.fields[n])
  {
    NamesAre(f, o, w);
    k :| k in o && f(k) == n && Rewritten(f, o[k], w.fields[n]);
  }

  lemma {:induction false} ConfluentOnce(f: string -> string, v: Json, w: Json)
    requires Confluent(f, v) && Rewritten(f, v, w)
    ensures w == Rew(f, v)
    decreases v, 1
  {
    match v {
      case Arr(xs) => ItemsOnce(f, v, w);
      case Obj(o) => FieldsOnce(f, v, w);
      case _ =>
    }
  }

  lemma {:induction false} ItemsOnce(f: string -> string, v: Json, w: Json)
    requires v.Arr? && Confluent(f, v) && Rewritten(f, v, w)
    ensures w == Rew(f, v)
    decreases v, 0
  {
    hide Rewritten, Confluent, Rew;
    var xs := v.items;
    forall i: nat | i < |xs| ensures w.Arr? && |w.items| == |xs| && w.items[i] == Rew(f, xs[i]) {
      OneItem(f, xs, w, i);
      ConfluentOnce(f, xs[i], w.items[i]);
    }
    ItemsAre(f, xs);
    if xs == [] {
      NoItems(f, w);
    } else {
      OneItem(f, xs, w, 0);
    }
    assert w.items == Rew(f, v).items;
  }

  lemma ItemsAre(f: string -> string, xs: seq<Json>)
    ensures var out := Rew(f, Arr(xs));
            out.Arr? && |out.items| == |xs| && forall i :: 0 <= i < |xs| ==> out.items[i] == Rew(f, xs[i])
  {
  }

  lemma {:induction false} FieldsOnce(f: string -> string, v: Json, w: Json)
    requires v.Obj? && Confluent(f, v) && Rewritten(f, v, w)
    ensures w == Rew(f, v)
    decreases v, 0
  {
    hide Rewritten, Confluent, Rew;
    var o := v.fields;
    NamesAre(f, o, w);
    forall n | n in w.fields ensures w.fields[n] == Fields(f, o)[n] {
      var k := OneEntry(f, o, w, n);
      ConfluentOnce(f, o[k], w.fields[n]);
      FieldIs(f, o, k);
    }
    assert w.fields == Fields(f, o);
  }

  lemma NoItems(f: string -> string, w: Json)
    requires Rewritten(f, Arr([]), w)
    ensures w == Arr([])
  {
  }

  lemma FieldIs(f: string -> string, o: map<string, Json>, k: string)
    requires Confluent(f, Obj(o)) && k in o
    ensures f(k) in Fields(f, o) && Fields(f, o)[f(k)] == Rew(f, o[k])
  {
    var i := KeyOf(f, o, f(k));
  }

  /** One entry of a rewritten object may come from any key that leads there. */
  lemma OtherEntry(f: string -> string, o: map<string, Json>, out: map<string, Json>, k: string, w: Json)
    requires k in o && Rewritten(f, o[k], w) && Rewritten(f, Obj(o), Obj(out))
    ensures Rewritten(f, Obj(o), Obj(out[f(k) := w]))
  {
    var other := out[f(k) := w];
    forall n | n in other ensures exists i :: i in o && f(i) == n && Rewritten(f, o[i], other[n]) {
      if n == f(k) {
        assert Rewritten(f, o[k], other[n]);
      } else {
        var i :| i in o && f(i) == n && Rewritten(f, o[i], out[n]);
      }
    }
  }

  /** Of two different entries for one name, one differs from what is there. */
  lemma TwoEntries(f: string -> string, o: map<string, Json>, k: string, n: string, x: Json, y: Json) returns (w: Json)
    requires k in o && n in o && f(k) == f(n) && x != y
    requires Rewritten(f, o[k], x) && Rewritten(f, o[n], y)
    ensures Rewritten(f, Obj(o), w) && w != Rew(f, Obj(o))
  {
    hide Rewritten, Rew;
    RewIsRewritten(f, Obj(o));
    var out := Fields(f, o);
    OtherEntry(f, o, out, k, x);
    OtherEntry(f, o, out, n, y);
    assert out[f(k) := x][f(k)] == x && out[f(n) := y][f(k)] == y;
    w := if f(k) in out && out[f(k)] == x then Obj(out[f(n) := y]) else Obj(out[f(k) := x]);
  }

  ghost function Fields(f: string -> string, o: map<string, Json>): (out: map<string, Json>)
    ensures Rew(f, Obj(o)) == Obj(out)
  {
    Rew(f, Obj(o)).fields
  }

  lemma {:induction false} NotConfluentTwice(f: string -> string, v: Json) returns (w: Json)
    requires !Confluent(f, v)
    ensures Rewritten(f, v, w) && w != Rew(f, v)
    decreases v
  {
    match v {
      case Arr(xs) =>
        var i :| 0 <= i < |xs| && !Confluent(f, xs[i]);
        var x := NotConfluentTwice(f, xs[i]);
        RewIsRewritten(f, v);
        var items := Rew(f, v).items;
        w := Arr(items[i := x]);
        assert w.items[i] == x && items[i] == Rew(f, xs[i]);
      case Obj(o) =>
        if k :| k in o && !Confluent(f, o[k]) {
          var x := NotConfluentTwice(f, o[k]);
          RewIsRewritten(f, o[k]);
          w := TwoEntries(f, o, k, k, x, Rew(f, o[k]));
        } else {
          var k, n :| k in o && n in o && f(k) == f(n) && Rew(f, o[k]) != Rew(f, o[n]);
          RewIsRewritten(f, o[k]);
          RewIsRewritten(f, o[n]);
          w := TwoEntries(f, o, k, n, Rew(f, o[k]), Rew(f, o[n]));
        }
      case _ =>
    }
  }

  /** Whatever order a Go map is walked in, the result is the same. */
  ghost predicate Determined(f: string -> string, v: Json) {
    forall w :: Rewritten(f, v, w) ==> w == Rew(f, v)
  }

  /** The rewriting of a value is determined if and only if it is confluent. */
  lemma DeterminedExactly(f: string -> string, v: Json)
    ensures Determined(f, v) <==> Confluent(f, v)
  {
    if Confluent(f, v) {
      forall w | Rewritten(f, v, w) ensures w == Rew(f, v) {
        ConfluentOnce(f, v, w);
      }
    } else {
      var w := NotConfluentTwice(f, v);
    }
  }

  lemma NoCollisionIsConfluent(f: string -> string, v: Json)
    requires NoCollision(f, v)
    ensures Confluent(f, v)
  {
    RewIsRewritten(f, v);
    forall w | Rewritten(f, v, w) ensures w == Rew(f, v) {
      RewrittenOnce(f, v, w, Rew(f, v));
    }
    DeterminedExactly(f, v);
  }

  // ---- what a line may become ---------------------------------------------------------

  predicate Blank(c: Codec, line: string) {
    Trim(c, line) == ""
  }

  /** rec may be the record of what is written for this non-blank line: the
      line is parsed untrimmed, and copied when that fails. */
  ghost predicate Outcome(c: Codec, f: string -> string, line: string, rec: string) {
    match c.decode(Body(line))
    case None => rec == Trim(c, line)
    case Some(v) => exists w :: Rewritten(f, v, w) && rec == c.encode(w)
  }

  lemma EncodedIsTight(c: Codec, f: string -> string, line: string, w: Json)
    requires Lawful(c) && c.decode(Body(line)).Some? && Rewritten(f, c.decode(Body(line)).value, w)
    ensures EncodesWell(c, w) && Trim(c, c.encode(w)) == c.encode(w)
  {
    RewrittenIsSane(c, f, c.decode(Body(line)).value, w, c.depth);
    EncodingIsTrimmed(c, w);
  }

  /** What is written for a line is one line; its record is an outcome. */
  lemma LineOut(c: Codec, f: string -> string, line: string, out: string) returns (text: string)
    requires Lawful(c) && NewlineFree(line) && LineRewritten(c, f, line, out)
    ensures out == text + "\n" && NewlineFree(text) && (Blank(c, line) <==> Blank(c, text))
    ensures !Blank(c, line) ==> Outcome(c, f, line, Trim(c, text))
  {
    var body := Body(line);
    TrimOfBody(c, line);
    TrimRightFree(ch => ch == '\r', line);
    if Trim(c, body) == "" {
      text := "";
    } else {
      match c.decode(body) {
        case None => text := body;
        case Some(v) =>
          var w :| Rewritten(f, v, w) && out == c.encode(w) + "\n";
          EncodedIsTight(c, f, line, w);
          text := c.encode(w);
      }
    }
  }

  /** And every outcome can be written. */
  lemma OutcomeIsWritten(c: Codec, f: string -> string, line: string, rec: string) returns (text: string)
    requires Lawful(c) && NewlineFree(line) && !Blank(c, line) && Outcome(c, f, line, rec)
    ensures NewlineFree(text) && LineRewritten(c, f, line, text + "\n") && Trim(c, text) == rec && rec != ""
  {
    TrimOfBody(c, line);
    TrimRightFree(ch => ch == '\r', line);
    match c.decode(Body(line)) {
      case None => text := Body(line);
      case Some(v) =>
        var w :| Rewritten(f, v, w) && rec == c.encode(w);
        EncodedIsTight(c, f, line, w);
        text := rec;
    }
  }

  lemma SomeOutcome(c: Codec, f: string -> string, line: string) returns (rec: string)
    ensures Outcome(c, f, line, rec)
  {
    match c.decode(Body(line)) {
      case None => rec := Trim(c, line);
      case Some(v) =>
        RewIsRewritten(f, v);
        rec := c.encode(Rew(f, v));
    }
  }

  // ---- what a file may become -----------------------------------------------------------

  function NonBlank(c: Codec, lines: seq<string>): (r: seq<string>)
    ensures forall i :: 0 <= i < |r| ==> !Blank(c, r[i]) && r[i] in lines
  {
    if lines == [] then []
    else (if Blank(c, lines[0]) then [] else [lines[0]]) + NonBlank(c, lines[1..])
  }

  lemma {:induction false} RecordsAreTrimmed(c: Codec, lines: seq<string>)
    ensures |Records(c, lines)| == |NonBlank(c, lines)|
    ensures forall i :: 0 <= i < |NonBlank(c, lines)| ==> Records(c, lines)[i] == Trim(c, NonBlank(c, lines)[i])
  {
    if lines != [] {
      RecordsAreTrimmed(c, lines[1..]);
    }
  }

  /** recs is one choice of outcomes for the non-blank lines. */
  ghost predicate Outcomes(c: Codec, f: string -> string, lines: seq<string>, recs: seq<string>) {
    |recs| == |lines| && forall i :: 0 <= i < |recs| ==> Outcome(c, f, lines[i], recs[i])
  }

  ghost predicate AllNewlineFree(lines: seq<string>) {
    forall i :: 0 <= i < |lines| ==> NewlineFree(lines[i])
  }

  lemma OneMoreText(text: string, outs: seq<string>)
    requires NewlineFree(text)
    ensures Lines(Join([text + "\n"] + outs)) == [text] + Lines(Join(outs))
  {
    assert ([text + "\n"] + outs)[1..] == outs;
    OneLine(text);
    LinesConcat(text + "\n", Join(outs));
  }

  lemma RecordsHead(c: Codec, text: string, rest: seq<string>)
    ensures Records(c, [text] + rest) == (if Blank(c, text) then [] else [Trim(c, text)]) + Records(c, rest)
  {
    assert ([text] + rest)[1..] == rest;
  }

  lemma NonBlankHead(c: Codec, lines: seq<string>)
    requires lines != []
    ensures NonBlank(c, lines) == (if Blank(c, lines[0]) then [] else [lines[0]]) + NonBlank(c, lines[1..])
  {
  }

  lemma OutcomesHead(c: Codec, f: string -> string, line: string, lines: seq<string>, rec: string, recs: seq<string>)
    ensures Outcomes(c, f, [line] + lines, [rec] + recs) <==> Outcome(c, f, line, rec) && Outcomes(c, f, lines, recs)
  {
    if Outcomes(c, f, [line] + lines, [rec] + recs) {
      assert Outcome(c, f, ([line] + lines)[0], ([rec] + recs)[0]);
      forall i | 0 <= i < |recs| ensures Outcome(c, f, lines[i], recs[i]) {
        assert Outcome(c, f, ([line] + lines)[i + 1], ([rec] + recs)[i + 1]);
      }
    }
  }

  /** The records of a rewritten file are outcomes, line by line... */
  lemma {:induction false} WrittenAreOutcomes(c: Codec, f: string -> string, lines: seq<string>, outs: seq<string>)
    requires Lawful(c) && AllNewlineFree(lines) && LinesRewritten(c, f, lines, outs)
    ensures Outcomes(c, f, NonBlank(c, lines), Records(c, Lines(Join(outs))))
    decreases |lines|
  {
    hide LineRewritten, Outcome, Lines, Lawful, NewlineFree, Outcomes, Records, NonBlank, Join, Blank;
    if lines == [] {
      NothingWritten(c, f);
    } else {
      var text := LineOut(c, f, lines[0], outs[0]);
      WrittenAreOutcomes(c, f, lines[1..], outs[1..]);
      assert outs == [text + "\n"] + outs[1..];
      OneMoreText(text, outs[1..]);
      var rest := Records(c, Lines(Join(outs[1..])));
      RecordsHead(c, text, Lines(Join(outs[1..])));
      NonBlankHead(c, lines);
      if Blank(c, text) {
        assert [] + rest == rest && [] + NonBlank(c, lines[1..]) == NonBlank(c, lines[1..]);
      } else {
        OutcomesHead(c, f, lines[0], NonBlank(c, lines[1..]), Trim(c, text), rest);
      }
    }
  }

  lemma NothingWritten(c: Codec, f: string -> string)
    ensures Outcomes(c, f, NonBlank(c, []), Records(c, Lines(Join([])))) && Records(c, Lines(Join([]))) == []
  {
    NoLines();
  }

  lemma WriteBefore(c: Codec, f: string -> string, lines: seq<string>, text: string, outs: seq<string>)
    requires lines != [] && LineRewritten(c, f, lines[0], text + "\n") && LinesRewritten(c, f, lines[1..], outs)
    ensures LinesRewritten(c, f, lines, [text + "\n"] + outs)
  {
    hide LineRewritten;
    var all := [text + "\n"] + outs;
    forall i | 0 <= i < |lines| ensures LineRewritten(c, f, lines[i], all[i]) {
      if i > 0 {
        assert lines[i] == lines[1..][i - 1] && all[i] == outs[i - 1];
      }
    }
  }

  lemma BlankIsWritten(c: Codec, f: string -> string, line: string)
    requires Lawful(c) && Blank(c, line)
    ensures LineRewritten(c, f, line, "" + "\n") && Blank(c, "")
  {
    TrimOfBody(c, line);
  }

  /** ... and every choice of outcomes is the records of some rewritten file. */
  lemma {:induction false} OutcomesAreWritten(c: Codec, f: string -> string, lines: seq<string>, recs: seq<string>)
    returns (outs: seq<string>)
    requires Lawful(c) && AllNewlineFree(lines) && Outcomes(c, f, NonBlank(c, lines), recs)
    ensures LinesRewritten(c, f, lines, outs) && Records(c, Lines(Join(outs))) == recs
    decreases |lines|
  {
    hide LineRewritten, Outcome, Lines, Lawful, NewlineFree, Outcomes, Records, NonBlank, Join, Blank;
    if lines == [] {
      outs := [];
      NothingWritten(c, f);
      NoOutcomes(c, f, recs);
    } else {
      NonBlankHead(c, lines);
      var rest := NonBlank(c, lines[1..]);
      var text: string;
      if Blank(c, lines[0]) {
        assert [] + rest == rest;
        outs := OutcomesAreWritten(c, f, lines[1..], recs);
        text := "";
        BlankIsWritten(c, f, lines[0]);
        assert [] + recs == recs;
        NoNewline();
      } else {
        SplitOutcomes(c, f, lines[0], rest, recs);
        text := OutcomeIsWritten(c, f, lines[0], recs[0]);
        outs := OutcomesAreWritten(c, f, lines[1..], recs[1..]);
        assert recs == [recs[0]] + recs[1..];
        NotBlank(c, text);
      }
      WriteBefore(c, f, lines, text, outs);
      OneMoreText(text, outs);
      RecordsHead(c, text, Lines(Join(outs)));
      outs := [text + "\n"] + outs;
    }
  }

  lemma NoOutcomes(c: Codec, f: string -> string, recs: seq<string>)
    requires Outcomes(c, f, NonBlank(c, []), recs)
    ensures recs == []
  {
  }

  lemma NoNewline()
    ensures NewlineFree("")
  {
  }

  lemma NotBlank(c: Codec, text: string)
    requires Trim(c, text) != ""
    ensures !Blank(c, text)
  {
  }

  lemma SplitOutcomes(c: Codec, f: string -> string, line: string, lines: seq<string>, recs: seq<string>)
    requires Outcomes(c, f, [line] + lines, recs)
    ensures recs != [] && Outcome(c, f, line, recs[0]) && Outcomes(c, f, lines, recs[1..])
  {
    assert recs == [recs[0]] + recs[1..];
    OutcomesHead(c, f, line, lines, recs[0], recs[1..]);
  }

  // ---- exactly when one pair of records stays equal ----------------------------------------

  /** Two lines with equal records: both are copied; or one is, and the other
      is rewritten to the very record; or both are rewritten alike. */
  ghost predicate PairKeeps(c: Codec, f: string -> string, la: string, lb: string) {
    var a, b := c.decode(Body(la)), c.decode(Body(lb));
    && (a.Some? ==> Confluent(f, a.value)) && (b.Some? ==> Confluent(f, b.value))
    && (a.Some? && b.Some? ==> Rew(f, a.value) == Rew(f, b.value))
    && (a.Some? && b.None? ==> c.decode(Trim(c, lb)) == Some(Rew(f, a.value)))
    && (a.None? && b.Some? ==> c.decode(Trim(c, la)) == Some(Rew(f, b.value)))
  }

  ghost predicate AlwaysEqual(c: Codec, f: string -> string, la: string, lb: string) {
    forall x, y :: Outcome(c, f, la, x) && Outcome(c, f, lb, y) ==> RecordsEqual(c, x, y)
  }

  lemma RewOutcome(c: Codec, f: string -> string, line: string, w: Json)
    requires c.decode(Body(line)).Some? && Rewritten(f, c.decode(Body(line)).value, w)
    ensures Outcome(c, f, line, c.encode(w))
  {
  }

  lemma KeptIsEqual(c: Codec, f: string -> string, la: string, lb: string, x: string, y: string)
    requires Lawful(c) && RecordsEqual(c, Trim(c, la), Trim(c, lb)) && PairKeeps(c, f, la, lb)
    requires Outcome(c, f, la, x) && Outcome(c, f, lb, y)
    ensures RecordsEqual(c, x, y)
  {
    var a, b := c.decode(Body(la)), c.decode(Body(lb));
    if a.Some? {
      var w :| Rewritten(f, a.value, w) && x == c.encode(w);
      ConfluentOnce(f, a.value, w);
      EncodedIsTight(c, f, la, w);
    }
    if b.Some? {
      var w :| Rewritten(f, b.value, w) && y == c.encode(w);
      ConfluentOnce(f, b.value, w);
      EncodedIsTight(c, f, lb, w);
    }
  }

  /** If one of the lines is rewritten, all its rewritings must be one value,
      the value of whatever the other line becomes. */
  lemma EqualIsDetermined(c: Codec, f: string -> string, la: string, lb: string)
    requires Lawful(c) && AlwaysEqual(c, f, la, lb) && c.decode(Body(la)).Some?
    ensures Confluent(f, c.decode(Body(la)).value)
    ensures forall y :: Outcome(c, f, lb, y) ==> c.decode(y) == Some(Rew(f, c.decode(Body(la)).value))
  {
    hide Lawful, Outcome, Rewritten, Rew, Confluent, AlwaysEqual;
    var v := c.decode(Body(la)).value;
    RewIsRewritten(f, v);
    forall w, y | Rewritten(f, v, w) && Outcome(c, f, lb, y) ensures c.decode(y) == Some(w) {
      OneIsEqual(c, f, la, lb, w, y);
    }
    var y := SomeOutcome(c, f, lb);
    assert Determined(f, v);
    DeterminedExactly(f, v);
  }

  lemma OneIsEqual(c: Codec, f: string -> string, la: string, lb: string, w: Json, y: string)
    requires Lawful(c) && AlwaysEqual(c, f, la, lb) && c.decode(Body(la)).Some?
    requires Rewritten(f, c.decode(Body(la)).value, w) && Outcome(c, f, lb, y)
    ensures c.decode(y) == Some(w)
  {
    EncodedIsTight(c, f, la, w);
    RewOutcome(c, f, la, w);
    assert RecordsEqual(c, c.encode(w), y);
  }

  lemma EqualFlips(c: Codec, f: string -> string, la: string, lb: string)
    requires AlwaysEqual(c, f, la, lb)
    ensures AlwaysEqual(c, f, lb, la)
  {
    forall x, y | Outcome(c, f, lb, x) && Outcome(c, f, la, y) ensures RecordsEqual(c, x, y) {
      assert RecordsEqual(c, y, x);
    }
  }

  lemma EqualIsKept(c: Codec, f: string -> string, la: string, lb: string)
    requires Lawful(c) && AlwaysEqual(c, f, la, lb)
    ensures PairKeeps(c, f, la, lb)
  {
    var a, b := c.decode(Body(la)), c.decode(Body(lb));
    EqualFlips(c, f, la, lb);
    if a.Some? {
      EqualIsDetermined(c, f, la, lb);
      if b.None? {
        assert Outcome(c, f, lb, Trim(c, lb));
      } else {
        RewIsRewritten(f, b.value);
        EncodedIsTight(c, f, lb, Rew(f, b.value));
        RewOutcome(c, f, lb, Rew(f, b.value));
      }
    }
    if b.Some? {
      EqualIsDetermined(c, f, lb, la);
      if a.None? {
        assert Outcome(c, f, la, Trim(c, la));
      }
    }
  }

  lemma PairExactly(c: Codec, f: string -> string, la: string, lb: string)
    requires Lawful(c) && RecordsEqual(c, Trim(c, la), Trim(c, lb))
    ensures AlwaysEqual(c, f, la, lb) <==> PairKeeps(c, f, la, lb)
  {
    if PairKeeps(c, f, la, lb) {
      forall x, y | Outcome(c, f, la, x) && Outcome(c, f, lb, y) ensures RecordsEqual(c, x, y) {
        KeptIsEqual(c, f, la, lb, x, y);
      }
    }
    if AlwaysEqual(c, f, la, lb) {
      EqualIsKept(c, f, la, lb);
    }
  }

  // ---- exactly when a fast-forward survives ---------------------------------------------------

  /** Whatever is written for the two files, the one stays a prefix of the
      other. */
  ghost predicate Survives(c: Codec, f: string -> string, a: string, b: string) {
    forall oa, ob :: FileRewritten(c, f, a, oa) && FileRewritten(c, f, b, ob) ==> IsRecordPrefixOf(c, oa, ob)
  }

  ghost predicate PairsKeep(c: Codec, f: string -> string, a: seq<string>, b: seq<string>) {
    |a| <= |b| && forall i :: 0 <= i < |a| ==> PairKeeps(c, f, a[i], b[i])
  }

  lemma PairsOfPrefix(c: Codec, a: string, b: string, i: nat)
    requires IsRecordPrefixOf(c, a, b) && i < |NonBlank(c, Lines(a))|
    ensures |NonBlank(c, Lines(a))| <= |NonBlank(c, Lines(b))|
    ensures RecordsEqual(c, Trim(c, NonBlank(c, Lines(a))[i]), Trim(c, NonBlank(c, Lines(b))[i]))
  {
    RecordsAreTrimmed(c, Lines(a));
    RecordsAreTrimmed(c, Lines(b));
    assert RecordsEqual(c, Records(c, Lines(a))[i], Records(c, Lines(b))[i]);
  }

  lemma PrefixIsNoLonger(c: Codec, a: string, b: string)
    requires IsRecordPrefixOf(c, a, b)
    ensures |NonBlank(c, Lines(a))| <= |NonBlank(c, Lines(b))|
  {
    RecordsAreTrimmed(c, Lines(a));
    RecordsAreTrimmed(c, Lines(b));
  }

  lemma FileOutcomes(c: Codec, f: string -> string, a: string, oa: string)
    requires Lawful(c) && FileRewritten(c, f, a, oa)
    ensures Outcomes(c, f, NonBlank(c, Lines(a)), Records(c, Lines(oa)))
  {
    hide Outcomes, Lawful, Lines;
    var outs :| LinesRewritten(c, f, Lines(a), outs) && oa == Join(outs);
    LinesAreNewlineFree(a);
    WrittenAreOutcomes(c, f, Lines(a), outs);
  }

  lemma KeptSurvives(c: Codec, f: string -> string, a: string, b: string, oa: string, ob: string)
    requires Lawful(c) && IsRecordPrefixOf(c, a, b) && FileRewritten(c, f, a, oa) && FileRewritten(c, f, b, ob)
    requires PairsKeep(c, f, NonBlank(c, Lines(a)), NonBlank(c, Lines(b)))
    ensures IsRecordPrefixOf(c, oa, ob)
  {
    hide FileRewritten, Lines, Records, Lawful, PairKeeps, Outcome, RecordsEqual, NonBlank;
    var la, lb := NonBlank(c, Lines(a)), NonBlank(c, Lines(b));
    FileOutcomes(c, f, a, oa);
    FileOutcomes(c, f, b, ob);
    var ra, rb := Records(c, Lines(oa)), Records(c, Lines(ob));
    forall i | 0 <= i < |ra| ensures RecordsEqual(c, ra[i], rb[i]) {
      PairsOfPrefix(c, a, b, i);
      KeptIsEqual(c, f, la[i], lb[i], ra[i], rb[i]);
    }
  }

  lemma {:induction false} DefaultOutcomes(c: Codec, f: string -> string, lines: seq<string>) returns (recs: seq<string>)
    ensures Outcomes(c, f, lines, recs)
  {
    if lines == [] {
      recs := [];
    } else {
      var rec := SomeOutcome(c, f, lines[0]);
      recs := DefaultOutcomes(c, f, lines[1..]);
      OutcomesHead(c, f, lines[0], lines[1..], rec, recs);
      assert lines == [lines[0]] + lines[1..];
      recs := [rec] + recs;
    }
  }

  /** A file can be written with this record at this place. */
  lemma WriteWith(c: Codec, f: string -> string, a: string, i: nat, rec: string) returns (oa: string)
    requires Lawful(c) && i < |NonBlank(c, Lines(a))| && Outcome(c, f, NonBlank(c, Lines(a))[i], rec)
    ensures FileRewritten(c, f, a, oa)
    ensures |Records(c, Lines(oa))| == |NonBlank(c, Lines(a))| && Records(c, Lines(oa))[i] == rec
  {
    hide Lawful, Lines, Records, NonBlank, Outcome, LinesRewritten, Join;
    var lines := NonBlank(c, Lines(a));
    var recs := DefaultOutcomes(c, f, lines);
    assert Outcomes(c, f, lines, recs[i := rec]);
    LinesAreNewlineFree(a);
    var outs := OutcomesAreWritten(c, f, Lines(a), recs[i := rec]);
    oa := Join(outs);
  }

  lemma SurvivorIsKept(c: Codec, f: string -> string, a: string, b: string, i: nat)
    requires Lawful(c) && IsRecordPrefixOf(c, a, b) && Survives(c, f, a, b) && i < |NonBlank(c, Lines(a))|
    ensures i < |NonBlank(c, Lines(b))| && PairKeeps(c, f, NonBlank(c, Lines(a))[i], NonBlank(c, Lines(b))[i])
  {
    hide FileRewritten, Lines, Records, Lawful, PairKeeps, Outcome, RecordsEqual, NonBlank;
    PairsOfPrefix(c, a, b, i);
    var la, lb := NonBlank(c, Lines(a))[i], NonBlank(c, Lines(b))[i];
    forall x, y | Outcome(c, f, la, x) && Outcome(c, f, lb, y) ensures RecordsEqual(c, x, y) {
      var oa := WriteWith(c, f, a, i, x);
      var ob := WriteWith(c, f, b, i, y);
      assert IsRecordPrefixOf(c, oa, ob);
      assert RecordsEqual(c, Records(c, Lines(oa))[i], Records(c, Lines(ob))[i]);
    }
    PairExactly(c, f, la, lb);
  }

  /** The exact condition, for any rewriting of strings: the fast-forward
      survives if and only if every pair of its records keeps. */
  lemma SurvivesIff(c: Codec, f: string -> string, a: string, b: string)
    requires Lawful(c) && IsRecordPrefixOf(c, a, b)
    ensures Survives(c, f, a, b) <==> PairsKeep(c, f, NonBlank(c, Lines(a)), NonBlank(c, Lines(b)))
  {
    hide Lawful, PairKeeps, NonBlank, Lines, FileRewritten, IsRecordPrefixOf;
    PrefixIsNoLonger(c, a, b);
    if Survives(c, f, a, b) {
      forall i | 0 <= i < |NonBlank(c, Lines(a))|
        ensures PairKeeps(c, f, NonBlank(c, Lines(a))[i], NonBlank(c, Lines(b))[i])
      {
        SurvivorIsKept(c, f, a, b, i);
      }
    }
    if PairsKeep(c, f, NonBlank(c, Lines(a)), NonBlank(c, Lines(b))) {
      forall oa, ob | FileRewritten(c, f, a, oa) && FileRewritten(c, f, b, ob) ensures IsRecordPrefixOf(c, oa, ob) {
        KeptSurvives(c, f, a, b, oa, ob);
      }
    }
  }

  // ---- path maps --------------------------------------------------------------------------------

  /** What the program rewrites strings with. */
  function By(m: seq<PathMap.Mapping>): string -> string
    requires PathMap.WellMade(m)
  {
    (s: string) => PathMap.Applied(m, s)
  }

  /** A fast-forward survives the rewriting of both files by a path map if and
      only if every pair of its records keeps under that map. */
  lemma SurvivesExactly(c: Codec, m: seq<PathMap.Mapping>, a: string, b: string)
    requires Lawful(c) && PathMap.WellMade(m) && IsRecordPrefixOf(c, a, b)
    ensures Survives(c, By(m), a, b) <==> PairsKeep(c, By(m), NonBlank(c, Lines(a)), NonBlank(c, Lines(b)))
  {
    SurvivesIff(c, By(m), a, b);
  }

  /** Trimming the line changes nothing for the parser.  JSON allows four
      blanks around a value; TrimSpace removes more. */
  predicate Plain(c: Codec, line: string) {
    c.decode(Body(line)) == c.decode(Trim(c, line))
  }

  ghost predicate LineRewritable(c: Codec, f: string -> string, line: string) {
    Plain(c, line) && (c.decode(Body(line)).Some? ==> NoCollision(f, c.decode(Body(line)).value))
  }

  /** Every record of the file parses the same trimmed or not, and no object
      of it has keys that rewrite to one. */
  ghost predicate Rewritable(c: Codec, f: string -> string, lines: seq<string>) {
    forall i :: 0 <= i < |lines| ==> LineRewritable(c, f, lines[i])
  }

  /** Such files keep their fast-forward. */
  lemma FastForwardSurvives(c: Codec, m: seq<PathMap.Mapping>, a: string, b: string)
    requires Lawful(c) && PathMap.WellMade(m) && IsRecordPrefixOf(c, a, b)
    requires Rewritable(c, By(m), NonBlank(c, Lines(a))) && Rewritable(c, By(m), NonBlank(c, Lines(b)))
    ensures Survives(c, By(m), a, b)
  {
    hide Lawful, Lines, NonBlank, LineRewritable, PairKeeps, Survives, RecordsEqual;
    var f, la, lb := By(m), NonBlank(c, Lines(a)), NonBlank(c, Lines(b));
    PrefixIsNoLonger(c, a, b);
    forall i | 0 <= i < |la| ensures PairKeeps(c, f, la[i], lb[i]) {
      PairsOfPrefix(c, a, b, i);
      RewritableKeeps(c, f, la[i], lb[i]);
    }
    SurvivesExactly(c, m, a, b);
  }

  lemma RewritableKeeps(c: Codec, f: string -> string, la: string, lb: string)
    requires LineRewritable(c, f, la) && LineRewritable(c, f, lb) && RecordsEqual(c, Trim(c, la), Trim(c, lb))
    ensures PairKeeps(c, f, la, lb)
  {
    var a, b := c.decode(Body(la)), c.decode(Body(lb));
    if a.Some? {
      NoCollisionIsConfluent(f, a.value);
    }
    if b.Some? {
      NoCollisionIsConfluent(f, b.value);
    }
  }

  // ---- two fast-forwards that do not survive ------------------------------------------------------

  /** Two project directories moved into one. */
  const MERGING := [PathMap.Mapping("/a", "/c"), PathMap.Mapping("/b", "/c")]

  const TWO_KEYS := Obj(map["/a" := Str("1"), "/b" := Str("2")])

  lemma MergingApplied()
    ensures PathMap.WellMade(MERGING)
    ensures var f := By(MERGING); f("/a") == f("/b") == "/c" && f("1") == "1" && f("2") == "2"
  {
    assert MERGING[0..] == MERGING;
    PathMap.FirstAtUnfolds(MERGING, "/a", 0, 0);
    PathMap.FirstAtUnfolds(MERGING, "/b", 0, 0);
    PathMap.FirstAtUnfolds(MERGING, "/b", 0, 1);
    assert "/a"[0..] == "/a" && "/b"[0..] == "/b" && "/a"[1] != "/b"[1];
    assert PathMap.MatchesAt("/a", "/a", 0) && PathMap.MatchesAt("/b", "/b", 0) && !PathMap.MatchesAt("/a", "/b", 0);
    PathMap.ScanReplaces(MERGING, "/a", 0, MERGING[0]);
    PathMap.ScanReplaces(MERGING, "/b", 0, MERGING[1]);
    PathMap.ScanEnds(MERGING, "/a");
    PathMap.ScanEnds(MERGING, "/b");
    PathMap.NothingToScan(MERGING, "1", 0);
    PathMap.NothingToScan(MERGING, "2", 0);
  }

  /** A record is a single line. */
  lemma OneRecord(c: Codec, text: string)
    requires NewlineFree(text) && !Blank(c, text)
    ensures Lines(text + "\n") == [text] && NonBlank(c, Lines(text + "\n")) == [text]
    ensures Records(c, Lines(text + "\n")) == [Trim(c, text)]
  {
    OneLine(text);
    assert [text][1..] == [];
  }

  /** Keys that collide: the file is a fast-forward of itself, and no longer
      one of its own rewriting. */
  lemma CollisionLosesFastForward(c: Codec)
    requires Lawful(c) && c.depth > 0
    ensures var a := c.encode(TWO_KEYS) + "\n";
            PathMap.WellMade(MERGING) && IsRecordPrefixOf(c, a, a) && !Survives(c, By(MERGING), a, a)
  {
    hide Survives, PairKeeps, Lawful, PathMap.WellMade, PathMap.Applied, IsRecordPrefixOf, Rew, Records;
    MergingApplied();
    var f, text := By(MERGING), c.encode(TWO_KEYS);
    EncodedReads(c, TWO_KEYS);
    OneRecord(c, text);
    RecordPrefixIsPreorder(c, text + "\n", text + "\n", text + "\n");
    TwoKeysCollide(f);
    NotKept(c, f, text, text, TWO_KEYS);
    assert [text][0] == text;
    SurvivesExactly(c, MERGING, text + "\n", text + "\n");
  }

  lemma TwoKeysCollide(f: string -> string)
    requires f("/a") == f("/b") && f("1") == "1" && f("2") == "2"
    ensures !Confluent(f, TWO_KEYS)
  {
    var o := TWO_KEYS.fields;
    assert "/a" in o && "/b" in o && Rew(f, o["/a"]) == Str("1") && Rew(f, o["/b"]) == Str("2");
  }

  lemma NotKept(c: Codec, f: string -> string, la: string, lb: string, v: Json)
    requires c.decode(Body(la)) == Some(v) && !Confluent(f, v)
    ensures !PairKeeps(c, f, la, lb)
  {
  }

  /** An encoded value is a record that reads back. */
  lemma EncodedReads(c: Codec, v: Json)
    requires Lawful(c) && Sane(c, v, c.depth)
    ensures var text := c.encode(v);
            && NewlineFree(text) && !Blank(c, text) && Tight(c, text)
            && Body(text) == text == Trim(c, text) && c.decode(text) == Some(v)
  {
    assert EncodesWell(c, v);
    EncodingIsTrimmed(c, v);
  }

  const MOVING := [PathMap.Mapping("/a", "/b")]

  const ONE_PATH := Arr([Str("/a")])

  /** A margin that TrimSpace removes and the JSON parser rejects: the line is
      copied, its plain twin is rewritten. */
  lemma MarginLosesFastForward(c: Codec, margin: char)
    requires Lawful(c) && c.depth > 0 && c.isSpace(margin) && margin != '\n' && margin != '\r'
    requires c.decode(c.encode(ONE_PATH) + [margin]).None?
    ensures var text := c.encode(ONE_PATH);
            && PathMap.WellMade(MOVING) && IsRecordPrefixOf(c, text + [margin] + "\n", text + "\n")
            && !Survives(c, By(MOVING), text + [margin] + "\n", text + "\n")
  {
    hide Survives, PairKeeps, Lawful, PathMap.WellMade, PathMap.Applied, Rew, Records, TrimLeft, TrimRight;
    var text := c.encode(ONE_PATH);
    var line := text + [margin];
    OnePathIsSane(c);
    EncodedReads(c, ONE_PATH);
    MarginIsTrimmed(c, text, margin);
    OneRecord(c, text);
    OneRecord(c, line);
    MovedAway(c, line, text);
    assert [line][0] == line && [text][0] == text;
    SurvivesExactly(c, MOVING, line + "\n", text + "\n");
  }

  lemma OnePathIsSane(c: Codec)
    requires c.depth > 0
    ensures Sane(c, ONE_PATH, c.depth) && PathMap.WellMade(MOVING)
  {
  }

  lemma MarginIsTrimmed(c: Codec, text: string, margin: char)
    requires Tight(c, text) && Trim(c, text) == text && c.isSpace(margin) && margin != '\n' && margin != '\r'
    ensures var line := text + [margin]; Body(line) == line && Trim(c, line) == text && NewlineFree(line)
  {
    var line := text + [margin];
    TrimDropsLast(c, line);
    assert line[..|line| - 1] == text;
  }

  lemma MovedAway(c: Codec, line: string, text: string)
    requires PathMap.WellMade(MOVING) && c.decode(Body(line)).None? && c.decode(Trim(c, line)) == Some(ONE_PATH)
    requires c.decode(Body(text)) == Some(ONE_PATH)
    ensures !PairKeeps(c, By(MOVING), line, text)
  {
    PathMap.WholeFromScans(MOVING[0]);
    assert By(MOVING)("/a") == "/b";
    assert Rew(By(MOVING), ONE_PATH).items[0] == Str("/b");
  }
}
