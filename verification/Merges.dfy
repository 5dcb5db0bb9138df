/** The add-only merges: history lines by timestamp and session, memory-index
    lines by their trimmed text.  Nothing that was there changes. */
module Merges {
  import opened Common
  import Rewrite

  /** How lines are compared and written: key is None for a line that does not
      count; form is what is appended for it. */
  datatype Rule = Rule(key: string -> Option<string>, form: string -> string)

  /** What the rule may be applied to: the appended form stays on one line and
      keeps its key. */
  ghost predicate Mergeable(r: Rule, lines: seq<string>) {
    forall i :: 0 <= i < |lines| && r.key(lines[i]).Some? ==>
      Rewrite.NewlineFree(r.form(lines[i])) && r.key(r.form(lines[i])) == r.key(lines[i])
  }

  function KeysOf(r: Rule, lines: seq<string>): set<string> {
    set i | 0 <= i < |lines| && r.key(lines[i]).Some? :: r.key(lines[i]).value
  }

  /** The lines to append: of each key not known, the first. */
  function Missing(r: Rule, known: set<string>, lines: seq<string>): seq<string>
    decreases |lines|
  {
    if lines == [] then []
    else
      var k := r.key(lines[0]);
      if k.None? || k.value in known then Missing(r, known, lines[1..])
      else [r.form(lines[0])] + Missing(r, known + {k.value}, lines[1..])
  }

  /** A missing final newline is repaired before anything is appended. */
  function Terminated(data: string): string {
    if data == "" || data[|data| - 1] == '\n' then data else data + "\n"
  }

  function Unlines(lines: seq<string>): string {
    if lines == [] then "" else lines[0] + "\n" + Unlines(lines[1..])
  }

  function Keys(r: Rule, data: string): set<string> {
    KeysOf(r, Rewrite.Lines(data))
  }

  function Appended(r: Rule, data: string, lines: seq<string>): string {
    Terminated(data) + Unlines(Missing(r, Keys(r, data), lines))
  }

  // ---- keys ---------------------------------------------------------------------

  lemma KeysConcat(r: Rule, a: seq<string>, b: seq<string>)
    ensures KeysOf(r, a + b) == KeysOf(r, a) + KeysOf(r, b)
  {
    forall k | k in KeysOf(r, a + b) ensures k in KeysOf(r, a) + KeysOf(r, b) {
      var i :| 0 <= i < |a + b| && r.key((a + b)[i]).Some? && r.key((a + b)[i]).value == k;
      if i < |a| {
        assert r.key(a[i]).value == k;
      } else {
        assert r.key(b[i - |a|]).value == k;
      }
    }
    forall k | k in KeysOf(r, a) ensures k in KeysOf(r, a + b) {
      var i :| 0 <= i < |a| && r.key(a[i]).Some? && r.key(a[i]).value == k;
      assert (a + b)[i] == a[i];
    }
    forall k | k in KeysOf(r, b) ensures k in KeysOf(r, a + b) {
      var i :| 0 <= i < |b| && r.key(b[i]).Some? && r.key(b[i]).value == k;
      assert (a + b)[|a| + i] == b[i];
    }
  }

  lemma KeysOfOne(r: Rule, line: string)
    ensures KeysOf(r, [line]) == if r.key(line).Some? then {r.key(line).value} else {}
  {
    assert [line][0] == line;
  }

  lemma KeysOfHead(r: Rule, lines: seq<string>)
    requires lines != []
    ensures KeysOf(r, lines) == (if r.key(lines[0]).Some? then {r.key(lines[0]).value} else {}) + KeysOf(r, lines[1..])
  {
    assert lines == [lines[0]] + lines[1..];
    KeysConcat(r, [lines[0]], lines[1..]);
    KeysOfOne(r, lines[0]);
  }

  lemma MergeableTail(r: Rule, lines: seq<string>)
    requires Mergeable(r, lines) && lines != []
    ensures Mergeable(r, lines[1..])
  {
    forall i | 0 <= i < |lines[1..]| && r.key(lines[1..][i]).Some?
      ensures Rewrite.NewlineFree(r.form(lines[1..][i])) && r.key(r.form(lines[1..][i])) == r.key(lines[1..][i])
    {
      assert lines[1..][i] == lines[i + 1];
    }
  }

  lemma OneMoreKey(keys: set<string>, known: set<string>, k: string)
    requires k !in known
    ensures ({k} + keys) - known == {k} + (keys - (known + {k}))
    ensures |({k} + keys) - known| == 1 + |keys - (known + {k})|
  {
    assert ({k} + keys) - known == {k} + (keys - (known + {k}));
  }

  /** What is appended has exactly the missing keys, each once. */
  lemma {:induction false} MissingKeys(r: Rule, known: set<string>, lines: seq<string>)
    requires Mergeable(r, lines)
    ensures KeysOf(r, Missing(r, known, lines)) == KeysOf(r, lines) - known
    ensures |Missing(r, known, lines)| == |KeysOf(r, lines) - known|
    decreases |lines|
  {
    hide KeysOf;
    if lines == [] {
      NoKeys(r);
      assert {} - known == {};
    } else {
      MergeableTail(r, lines);
      KeysOfHead(r, lines);
      var k := r.key(lines[0]);
      if k.None? || k.value in known {
        MissingKeys(r, known, lines[1..]);
        assert k.Some? ==> ({k.value} + KeysOf(r, lines[1..])) - known == KeysOf(r, lines[1..]) - known;
        assert {} + KeysOf(r, lines[1..]) == KeysOf(r, lines[1..]);
      } else {
        var rest := Missing(r, known + {k.value}, lines[1..]);
        MissingKeys(r, known + {k.value}, lines[1..]);
        KeysConcat(r, [r.form(lines[0])], rest);
        KeysOfOne(r, r.form(lines[0]));
        OneMoreKey(KeysOf(r, lines[1..]), known, k.value);
      }
    }
  }

  lemma NoKeys(r: Rule)
    ensures KeysOf(r, []) == {}
  {
  }

  lemma {:induction false} MissingOnOneLine(r: Rule, known: set<string>, lines: seq<string>)
    requires Mergeable(r, lines)
    ensures forall i :: 0 <= i < |Missing(r, known, lines)| ==> Rewrite.NewlineFree(Missing(r, known, lines)[i])
    decreases |lines|
  {
    if lines != [] {
      MergeableTail(r, lines);
      MissingOnOneLine(r, known, lines[1..]);
      var k := r.key(lines[0]);
      if k.Some? {
        MissingOnOneLine(r, known + {k.value}, lines[1..]);
      }
    }
  }

  lemma {:induction false} NothingMissing(r: Rule, known: set<string>, lines: seq<string>)
    requires KeysOf(r, lines) <= known
    ensures Missing(r, known, lines) == []
  {
    if lines != [] {
      KeysOfHead(r, lines);
      NothingMissing(r, known, lines[1..]);
    }
  }

  // ---- lines ------------------------------------------------------------------------

  lemma {:induction false} LinesOfTerminated(data: string)
    ensures Rewrite.Lines(Terminated(data)) == Rewrite.Lines(data)
    decreases |data|
  {
    hide Rewrite.Lines, Rewrite.NextNewline;
    if data != "" && data[|data| - 1] != '\n' {
      var k := Rewrite.NextNewline(data);
      if k == |data| {
        Rewrite.OneLine(data);
        Rewrite.LastLine(data);
      } else {
        Rewrite.FirstLine(data, k);
        Rewrite.FirstLine(data + "\n", k);
        assert (data + "\n")[..k] == data[..k];
        assert (data + "\n")[k + 1..] == data[k + 1..] + "\n";
        LinesOfTerminated(data[k + 1..]);
        assert data[k + 1..][|data[k + 1..]| - 1] == data[|data| - 1];
      }
    }
  }

  lemma {:induction false} LinesOfUnlines(lines: seq<string>)
    requires forall i :: 0 <= i < |lines| ==> Rewrite.NewlineFree(lines[i])
    ensures Rewrite.Lines(Unlines(lines)) == lines
  {
    hide Rewrite.Lines;
    if lines == [] {
      Rewrite.NoLines();
    } else {
      LinesOfUnlines(lines[1..]);
      assert Unlines(lines) == (lines[0] + "\n") + Unlines(lines[1..]);
      Rewrite.LinesConcat(lines[0] + "\n", Unlines(lines[1..]));
      Rewrite.OneLine(lines[0]);
      assert lines == [lines[0]] + lines[1..];
    }
  }

  /** The lines of the merged file: those that were there, then the missing
      ones. */
  lemma LinesOfAppended(r: Rule, data: string, lines: seq<string>)
    requires Mergeable(r, lines)
    ensures Rewrite.Lines(Appended(r, data, lines)) == Rewrite.Lines(data) + Missing(r, Keys(r, data), lines)
  {
    var missing := Missing(r, Keys(r, data), lines);
    MissingOnOneLine(r, Keys(r, data), lines);
    Rewrite.LinesConcat(Terminated(data), Unlines(missing));
    LinesOfTerminated(data);
    LinesOfUnlines(missing);
  }

  /** Add-only: what was there is a prefix of the result and its lines come
      first, the keys are the union, each missing one was added once, and doing
      it again adds nothing. */
  lemma MergeAddsOnly(r: Rule, data: string, lines: seq<string>)
    requires Mergeable(r, lines)
    ensures var out := Appended(r, data, lines);
            var missing := Missing(r, Keys(r, data), lines);
            && data <= out && Rewrite.Lines(out) == Rewrite.Lines(data) + missing
            && Keys(r, out) == Keys(r, data) + KeysOf(r, lines)
            && |missing| == |KeysOf(r, lines) - Keys(r, data)|
            && Missing(r, Keys(r, out), lines) == [] && Appended(r, out, lines) == out
  {
    hide KeysOf, Missing, Unlines, Rewrite.Lines;
    var out := Appended(r, data, lines);
    var known, new_ := Keys(r, data), KeysOf(r, lines);
    var missing := Missing(r, known, lines);
    LinesOfAppended(r, data, lines);
    MissingKeys(r, known, lines);
    KeysConcat(r, Rewrite.Lines(data), missing);
    assert known + (new_ - known) == known + new_;
    NothingMissing(r, Keys(r, out), lines);
    AppendedIsTerminated(data, missing);
    NoLinesNoText();
    assert out + "" == out;
  }

  lemma NoLinesNoText()
    ensures Unlines([]) == ""
  {
  }

  lemma {:induction false} UnlinesEnds(lines: seq<string>)
    ensures Unlines(lines) == "" || Unlines(lines)[|Unlines(lines)| - 1] == '\n'
  {
    if lines != [] {
      UnlinesEnds(lines[1..]);
    }
  }

  lemma AppendedIsTerminated(data: string, lines: seq<string>)
    ensures Terminated(Terminated(data) + Unlines(lines)) == Terminated(data) + Unlines(lines)
  {
    UnlinesEnds(lines);
    assert Unlines(lines) == "" ==> Terminated(data) + Unlines(lines) == Terminated(data);
  }

  // ---- the two merges ---------------------------------------------------------------------

  /** The keys of the lines a file already has. */
  method ReadKeys(r: Rule, data: string) returns (have: set<string>)
    ensures have == Keys(r, data)
  {
    var lines := Rewrite.Lines(data);
    have := {};
    var i := 0;
    while i < |lines|
      invariant i <= |lines| && have == KeysOf(r, lines[..i])
    {
      assert lines[..i + 1] == lines[..i] + [lines[i]];
      KeysConcat(r, lines[..i], [lines[i]]);
      KeysOfOne(r, lines[i]);
      if r.key(lines[i]).Some? {
        have := have + {r.key(lines[i]).value};
      }
      i := i + 1;
    }
    assert lines[..i] == lines;
  }

  lemma MissingUnfolds(r: Rule, known: set<string>, lines: seq<string>, i: nat)
    requires i < |lines|
    ensures Missing(r, known, lines[i..]) ==
      var k := r.key(lines[i]);
      if k.None? || k.value in known then Missing(r, known, lines[i + 1..])
      else [r.form(lines[i])] + Missing(r, known + {k.value}, lines[i + 1..])
  {
    assert lines[i..][0] == lines[i] && lines[i..][1..] == lines[i + 1..];
  }

  lemma {:induction false} UnlinesSnoc(a: seq<string>, line: string)
    ensures Unlines(a + [line]) == Unlines(a) + (line + "\n")
  {
    if a == [] {
      assert [] + [line] == [line] && [line][1..] == [];
    } else {
      assert (a + [line])[1..] == a[1..] + [line];
      UnlinesSnoc(a[1..], line);
    }
  }

  lemma Regroup(a: seq<string>, x: string, b: seq<string>)
    ensures a + ([x] + b) == (a + [x]) + b
  {
  }

  lemma OneMoreLine(text: string, head: string, done: seq<string>, line: string)
    requires text == head + Unlines(done)
    ensures text + (line + "\n") == head + Unlines(done + [line])
  {
    UnlinesSnoc(done, line);
    assert head + (Unlines(done) + (line + "\n")) == head + Unlines(done) + (line + "\n");
  }

  /** What the repair puts in front of the first appended line. */
  lemma Repaired(data: string)
    ensures data + (if data != "" && data[|data| - 1] != '\n' then "\n" else "") == Terminated(data) + Unlines([])
  {
    assert Terminated(data) + "" == Terminated(data);
  }

  lemma Associates(a: string, b: string, c: string)
    ensures a + (b + c) == a + b + c
  {
  }

  lemma NoneYet(r: Rule, known: set<string>, lines: seq<string>)
    ensures [] + Missing(r, known, lines[0..]) == Missing(r, known, lines)
  {
    assert lines[0..] == lines && [] + Missing(r, known, lines) == Missing(r, known, lines);
  }

  lemma AllDone(r: Rule, known: set<string>, lines: seq<string>, done: seq<string>)
    ensures done + Missing(r, known, lines[|lines|..]) == done
  {
    assert lines[|lines|..] == [];
  }

  /** AppendHistory: the lines are written through a buffer.  A line that is
      not JSON is an error; some of the buffer may have reached the file by
      then, and the file keeps what it had. */
  method AppendHistory(r: Rule, data: string, lines: seq<string>) returns (out: string, added: nat, ok: bool)
    requires Mergeable(r, lines)
    ensures data <= out
    ensures ok <==> forall i :: 0 <= i < |lines| ==> r.key(lines[i]).Some?
    ensures ok ==> out == Appended(r, data, lines) && added == |Missing(r, Keys(r, data), lines)|
  {
    hide KeysOf, Missing, Unlines, Terminated, Rewrite.Lines;
    var existing := ReadKeys(r, data);
    ghost var known := existing;
    var w := if data != "" && data[|data| - 1] != '\n' then "\n" else "";
    Repaired(data);
    NoneYet(r, known, lines);
    added := 0;
    ghost var done: seq<string> := [];
    var i := 0;
    while i < |lines|
      invariant i <= |lines| && data + w == Terminated(data) + Unlines(done) && added == |done|
      invariant done + Missing(r, existing, lines[i..]) == Missing(r, known, lines)
      invariant forall k :: 0 <= k < i ==> r.key(lines[k]).Some?
    {
      var k := r.key(lines[i]);
      if k.None? {
        var flushed: int := *;
        return data + w[..if 0 <= flushed <= |w| then flushed else |w|], added, false;
      }
      MissingUnfolds(r, existing, lines, i);
      if k.value !in existing {
        var line := r.form(lines[i]);
        Regroup(done, line, Missing(r, existing + {k.value}, lines[i + 1..]));
        OneMoreLine(data + w, Terminated(data), done, line);
        Associates(data, w, line + "\n");
        existing := existing + {k.value};
        w := w + (line + "\n");
        added := added + 1;
        done := done + [line];
      }
      i := i + 1;
    }
    AllDone(r, existing, lines, done);
    return data + w, added, true;
  }

  /** MergeMemoryIndex: lines that do not count are passed over, and with nothing
      to add the file is not touched at all. */
  method MergeMemoryIndex(r: Rule, existing: string, src: string) returns (out: string, added: nat)
    requires Mergeable(r, Rewrite.Lines(src))
    ensures added == |Missing(r, Keys(r, existing), Rewrite.Lines(src))|
    ensures out == if added == 0 then existing else Appended(r, existing, Rewrite.Lines(src))
  {
    hide KeysOf, Missing, Unlines, Rewrite.Lines;
    var have := ReadKeys(r, existing);
    ghost var known := have;
    var lines := Rewrite.Lines(src);
    var add: seq<string> := [];
    var i := 0;
    NoneYet(r, known, lines);
    while i < |lines|
      invariant i <= |lines| && add + Missing(r, have, lines[i..]) == Missing(r, known, lines)
    {
      var k := r.key(lines[i]);
      MissingUnfolds(r, have, lines, i);
      if k.Some? && k.value !in have {
        Regroup(add, r.form(lines[i]), Missing(r, have + {k.value}, lines[i + 1..]));
        have := have + {k.value};
        add := add + [r.form(lines[i])];
      }
      i := i + 1;
    }
    AllDone(r, have, lines, add);
    added := |add|;
    if |add| == 0 {
      return existing, 0;
    }
    out := existing;
    if |existing| > 0 && existing[|existing| - 1] != '\n' {
      out := out + "\n";
    }
    NoLinesNoText();
    i := 0;
    while i < |add|
      invariant i <= |add| && out == Terminated(existing) + Unlines(add[..i])
    {
      assert add[..i + 1] == add[..i] + [add[i]];
      OneMoreLine(out, Terminated(existing), add[..i], add[i]);
      out := out + (add[i] + "\n");
      i := i + 1;
    }
    assert add[..i] == add;
  }

  /** The memory index's own rule: the trimmed text is the key, a blank line does
      not count, and a line is written without its line end. */
  function MemoryRule(c: Rewrite.Codec): Rule {
    Rule(line => if Rewrite.Trim(c, line) == "" then None else Some(Rewrite.Trim(c, line)),
         line => Rewrite.Body(line))
  }

  lemma MemoryKeyIs(c: Rewrite.Codec, line: string)
    ensures Rewrite.Trim(c, line) == "" ==> MemoryRule(c).key(line) == None
    ensures Rewrite.Trim(c, line) != "" ==> MemoryRule(c).key(line) == Some(Rewrite.Trim(c, line))
  {
  }

  /** It may be applied to any file. */
  lemma MemoryRuleApplies(c: Rewrite.Codec, src: string)
    requires c.isSpace('\r')
    ensures Mergeable(MemoryRule(c), Rewrite.Lines(src))
  {
    var r, lines := MemoryRule(c), Rewrite.Lines(src);
    Rewrite.LinesAreNewlineFree(src);
    forall i | 0 <= i < |lines| ensures Rewrite.NewlineFree(r.form(lines[i])) && r.key(r.form(lines[i])) == r.key(lines[i]) {
      Rewrite.TrimOfBody(c, lines[i]);
      Rewrite.TrimRightFree(ch => ch == '\r', lines[i]);
    }
  }

  /** The history rule: read finds the raw timestamp and the session id of a JSON
      line, and the trimmed line is what is written. */
  function HistoryRule(c: Rewrite.Codec, read: string -> Option<(string, string)>): Rule {
    Rule(line => var k := read(line); if k.None? then None else Some(Rewrite.Trim(c, k.value.0) + "|" + k.value.1),
         line => Rewrite.Trim(c, line))
  }

  lemma HistoryKeyIs(c: Rewrite.Codec, read: string -> Option<(string, string)>, line: string)
    ensures read(line).None? ==> HistoryRule(c, read).key(line) == None
    ensures forall stamp, session :: read(line) == Some((stamp, session)) ==>
      HistoryRule(c, read).key(line) == Some(Rewrite.Trim(c, stamp) + "|" + session)
  {
  }

  /** It may be applied to JSON lines without a newline, as trimming such a line
      leaves its JSON alone. */
  lemma HistoryRuleApplies(c: Rewrite.Codec, read: string -> Option<(string, string)>, lines: seq<string>)
    requires forall line :: read(line).Some? ==> read(Rewrite.Trim(c, line)) == read(line)
    requires forall i :: 0 <= i < |lines| ==> Rewrite.NewlineFree(lines[i])
    ensures Mergeable(HistoryRule(c, read), lines)
  {
    forall i | 0 <= i < |lines| ensures Rewrite.NewlineFree(Rewrite.Trim(c, lines[i])) {
      Rewrite.TrimLeftFree(c.isSpace, lines[i]);
      Rewrite.TrimRightFree(c.isSpace, TrimLeft(c.isSpace, lines[i]));
    }
  }
}
