/** The tmux control connection: reading reply blocks out of the line stream,
    and pairing each command with its own reply. */
module Tmux {
  import opened Common

  datatype Reply = Reply(lines: seq<string>, err: bool)

  predicate Separates(c: char) {
    c == ' ' || c == '\t' || c == '\r' || c == '\U{0B}' || c == '\U{0C}'
  }

  // ---- strings.Fields --------------------------------------------------------------

  function FieldsFrom(s: string, i: nat, cur: string): seq<string>
    requires i <= |s|
    decreases |s| - i
  {
    if i == |s| then (if cur == "" then [] else [cur])
    else if Separates(s[i]) then (if cur == "" then [] else [cur]) + FieldsFrom(s, i + 1, "")
    else FieldsFrom(s, i + 1, cur + [s[i]])
  }

  function Fields(s: string): seq<string> {
    FieldsFrom(s, 0, "")
  }

  predicate Word(w: string) {
    w != "" && forall i :: 0 <= i < |w| ==> !Separates(w[i])
  }

  lemma {:induction false} TakesWord(s: string, i: nat, cur: string, w: string)
    requires i + |w| <= |s| && s[i..i + |w|] == w && forall k :: 0 <= k < |w| ==> !Separates(w[k])
    ensures FieldsFrom(s, i, cur) == FieldsFrom(s, i + |w|, cur + w)
    decreases |w|
  {
    if w == "" {
      assert cur + w == cur;
    } else {
      assert s[i] == w[0];
      assert s[i + 1..i + 1 + |w[1..]|] == w[1..];
      TakesWord(s, i + 1, cur + [w[0]], w[1..]);
      assert (cur + [w[0]]) + w[1..] == cur + w;
    }
  }

  lemma FirstWord(pre: string, words: seq<string>)
    requires words != []
    ensures var s := pre + JoinBlank(words);
            |pre| + |words[0]| <= |s| && s[|pre|..|pre| + |words[0]|] == words[0]
  {
    var s := pre + JoinBlank(words);
    assert JoinBlank(words)[..|words[0]|] == words[0];
    assert s[|pre|..|pre| + |words[0]|] == JoinBlank(words)[..|words[0]|];
  }

  lemma {:induction false} FieldsOfJoin(pre: string, words: seq<string>)
    requires forall k :: 0 <= k < |words| ==> Word(words[k])
    ensures FieldsFrom(pre + JoinBlank(words), |pre|, "") == words
    decreases |words|
  {
    var s := pre + JoinBlank(words);
    if words != [] {
      var i := |pre| + |words[0]|;
      FirstWord(pre, words);
      TakesWord(s, |pre|, "", words[0]);
      assert "" + words[0] == words[0];
      if |words| == 1 {
        assert words == [words[0]];
      } else {
        assert s[i] == ' ';
        var longer := pre + words[0] + " ";
        assert s == longer + JoinBlank(words[1..]);
        FieldsOfJoin(longer, words[1..]);
        assert words == [words[0]] + words[1..];
      }
    }
  }

  /** What separates words, and that nothing else does. */
  lemma {:induction false} FieldsAre(s: string, i: nat, cur: string)
    requires i <= |s| && forall k :: 0 <= k < |cur| ==> cur[k] !in " \t\r\U{0B}\U{0C}"
    ensures forall w :: w in FieldsFrom(s, i, cur) ==> w != "" && forall k :: 0 <= k < |w| ==> w[k] !in " \t\r\U{0B}\U{0C}"
    decreases |s| - i
  {
    if i < |s| {
      if s[i] in " \t\r\U{0B}\U{0C}" {
        FieldsAre(s, i + 1, "");
      } else {
        FieldsAre(s, i + 1, cur + [s[i]]);
      }
    }
  }

  lemma {:induction false} FieldsSplit(w: string, c: char, rest: string)
    requires w != "" && c in " \t\r\U{0B}\U{0C}" && forall k :: 0 <= k < |w| ==> w[k] !in " \t\r\U{0B}\U{0C}"
    ensures Fields(w + [c] + rest) == [w] + Fields(rest)
  {
    var s := w + [c] + rest;
    assert s[0..0 + |w|] == w;
    TakesWord(s, 0, "", w);
    assert "" + w == w && s[|w|] == c;
    assert s == (w + [c]) + rest;
    FieldsShift(w + [c], rest, 0, "");
  }

  lemma {:induction false} FieldsShift(pre: string, s: string, i: nat, cur: string)
    requires i <= |s|
    ensures FieldsFrom(pre + s, |pre| + i, cur) == FieldsFrom(s, i, cur)
    decreases |s| - i
  {
    if i < |s| {
      assert (pre + s)[|pre| + i] == s[i];
      FieldsShift(pre, s, i + 1, if Separates(s[i]) then "" else cur + [s[i]]);
    }
  }

  // ---- the parser ---------------------------------------------------------------------

  predicate HasPrefix(s: string, p: string) {
    p <= s
  }

  /** Up to the first blank: the notification token of a line. */
  function Token(line: string): string {
    if line == "" || line[0] == ' ' then "" else [line[0]] + Token(line[1..])
  }

  const NOTIFICATIONS: set<string> := {
    "%client-detached", "%client-session-changed", "%config-error", "%continue", "%extended-output",
    "%layout-change", "%message", "%output", "%pane-mode-changed", "%paste-buffer-changed",
    "%paste-buffer-deleted", "%pause", "%session-changed", "%session-renamed", "%session-window-changed",
    "%sessions-changed", "%subscription-changed", "%unlinked-window-add", "%unlinked-window-close",
    "%unlinked-window-renamed", "%window-add", "%window-close", "%window-pane-changed", "%window-renamed"}

  predicate IsNotification(line: string) {
    Token(line) in NOTIFICATIONS
  }

  /** The line closes the block numbered num. */
  predicate Closes(line: string, num: string) {
    && (HasPrefix(line, "%end ") || HasPrefix(line, "%error "))
    && |Fields(line)| >= 3 && Fields(line)[2] == num
  }

  predicate Dropped(line: string) {
    HasPrefix(line, "%") && IsNotification(line)
  }

  /** The block a line opens, by its number. */
  function Opens(line: string): (num: seq<string>)
    ensures |num| <= 1
  {
    if HasPrefix(line, "%begin ") && |Fields(line)| >= 3 then [Fields(line)[2]] else []
  }

  datatype Parsed = Parsed(replies: seq<Reply>, cut: bool)

  function Before(r: Reply, p: Parsed): Parsed {
    Parsed([r] + p.replies, p.cut)
  }

  /** The replies still to come from line i, outside a block. */
  function Outside(lines: seq<string>, i: nat): Parsed
    requires i <= |lines|
    decreases |lines| - i
  {
    if i == |lines| then Parsed([], false)
    else if Opens(lines[i]) != [] then Inside(lines, i + 1, Opens(lines[i])[0], [])
    else if lines[i] == "%exit" && !HasPrefix(lines[i], "%begin ") then Parsed([], false)
    else Outside(lines, i + 1)
  }

  /** And inside the block numbered num, with body read so far. */
  function Inside(lines: seq<string>, i: nat, num: string, body: seq<string>): Parsed
    requires i <= |lines|
    decreases |lines| - i
  {
    if i == |lines| then Parsed([], true)
    else if Closes(lines[i], num) then
      Before(Reply(body, Fields(lines[i])[0] == "%error"), Outside(lines, i + 1))
    else if Dropped(lines[i]) then Inside(lines, i + 1, num, body)
    else Inside(lines, i + 1, num, body + [lines[i]])
  }

  function Then(out: seq<Reply>, p: Parsed): Parsed {
    Parsed(out + p.replies, p.cut)
  }

  /** ParseReplies: one pass, with the block state in three variables. */
  method ParseReplies(lines: seq<string>) returns (out: seq<Reply>, cut: bool)
    ensures Parsed(out, cut) == Outside(lines, 0)
  {
    out := [];
    var inBlock, num: string, cur := false, "", Reply([], false);
    var i := 0;
    assert [] + Outside(lines, 0).replies == Outside(lines, 0).replies;
    while i < |lines|
      invariant i <= |lines| && !cur.err
      invariant Then(out, if inBlock then Inside(lines, i, num, cur.lines) else Outside(lines, i)) == Outside(lines, 0)
    {
      var line := lines[i];
      i := i + 1;
      if !inBlock {
        if HasPrefix(line, "%begin ") {
          var f := Fields(line);
          if |f| >= 3 {
            inBlock, num, cur := true, f[2], Reply([], false);
          }
          continue;
        }
        if line == "%exit" {
          assert out + [] == out;
          return out, false;
        }
        continue;
      }
      if HasPrefix(line, "%end ") || HasPrefix(line, "%error ") {
        var f := Fields(line);
        if |f| >= 3 && f[2] == num {
          ghost var rest := Outside(lines, i).replies;
          var r := cur.(err := f[0] == "%error");
          assert out + ([r] + rest) == (out + [r]) + rest;
          out, inBlock := out + [r], false;
          cur := Reply([], false);
          continue;
        }
      }
      if HasPrefix(line, "%") && IsNotification(line) {
        continue;
      }
      cur := cur.(lines := cur.lines + [line]);
    }
    assert out + [] == out;
    cut := inBlock;
  }

  // ---- printing ---------------------------------------------------------------------------

  datatype BodyLine = Text(line: string) | Note(line: string)

  /** What the server writes: lines outside blocks, and numbered blocks. */
  datatype Item =
    | Noise(line: string)
    | Block(time: string, num: string, flags: string, body: seq<BodyLine>, err: bool)

  function Mark(kind: string, b: Item): string
    requires b.Block?
  {
    JoinBlank([kind, b.time, b.num, b.flags])
  }

  function BodyOf(body: seq<BodyLine>): seq<string> {
    if body == [] then [] else [body[0].line] + BodyOf(body[1..])
  }

  function TextOf(body: seq<BodyLine>): seq<string> {
    if body == [] then [] else (if body[0].Text? then [body[0].line] else []) + TextOf(body[1..])
  }

  function Written(item: Item): seq<string> {
    match item
    case Noise(line) => [line]
    case Block(_, _, _, body, err) =>
      [Mark("%begin", item)] + BodyOf(body) + [Mark(if err then "%error" else "%end", item)]
  }

  function Print(items: seq<Item>): seq<string> {
    if items == [] then [] else Written(items[0]) + Print(items[1..])
  }

  function Expected(items: seq<Item>): seq<Reply> {
    if items == [] then []
    else (if items[0].Block? then [Reply(TextOf(items[0].body), items[0].err)] else []) + Expected(items[1..])
  }

  /** Lines outside blocks open none and are not the exit; header words are
      words; body lines are neither notifications nor the block's own
      terminator, interleaved notifications are.  A body line may well look
      like a terminator, with any number but the block's. */
  ghost predicate Printable(item: Item) {
    match item
    case Noise(line) => ("%begin " <= line ==> |Fields(line)| < 3) && line != "%exit"
    case Block(t, n, f, body, _) =>
      && Word(t) && Word(n) && Word(f)
      && forall i :: 0 <= i < |body| ==> !OwnEnd(body[i].line, n) && (body[i].Note? <==> Announces(body[i].line))
  }

  /** "%end" or "%error" and, third, the number. */
  predicate OwnEnd(line: string, num: string) {
    ("%end " <= line || "%error " <= line) && |Fields(line)| >= 3 && Fields(line)[2] == num
  }

  /** It begins with "%", and what stands before its first blank, or all of it,
      is the name of a notification. */
  ghost predicate Announces(line: string) {
    line != "" && line[0] == '%' && exists k :: 0 <= k <= |line| && NameEnds(line, k) && line[..k] in NOTIFICATIONS
  }

  predicate NameEnds(line: string, k: nat)
    requires k <= |line|
  {
    (forall i :: 0 <= i < k ==> line[i] != ' ') && (k == |line| || line[k] == ' ')
  }

  lemma {:induction false} TokenIs(line: string)
    ensures Token(line) <= line && NameEnds(line, |Token(line)|)
  {
    if line != "" && line[0] != ' ' {
      TokenIs(line[1..]);
    }
  }

  /** What the parser drops inside a block is what announces something. */
  lemma DroppedExactly(line: string)
    ensures Dropped(line) <==> Announces(line)
  {
    hide NOTIFICATIONS;
    TokenIs(line);
    var t := Token(line);
    assert t == line[..|t|];
    forall k | 0 <= k <= |line| && NameEnds(line, k) ensures k == |t| {
    }
  }

  lemma BodyAgrees(b: Item, n: nat)
    requires b.Block? && Printable(b) && n <= |b.body|
    ensures forall k :: 0 <= k < n ==>
      !Closes(b.body[..n][k].line, b.num) && (Dropped(b.body[..n][k].line) <==> b.body[..n][k].Note?)
  {
    hide Announces, Dropped, Fields;
    forall k | 0 <= k < n ensures !Closes(b.body[k].line, b.num) && (Dropped(b.body[k].line) <==> b.body[k].Note?) {
      DroppedExactly(b.body[k].line);
    }
  }

  lemma NoiseOpensNone(item: Item)
    requires item.Noise? && Printable(item)
    ensures Opens(item.line) == [] && item.line != "%exit"
  {
  }

  /** A block is closed by its own number and no other. */
  lemma OtherNumberStays(kind: string, t: string, n: string, f: string, num: string)
    requires Word(kind) && Word(t) && Word(n) && Word(f)
    ensures Closes(JoinBlank([kind, t, n, f]), num) <==> (kind == "%end" || kind == "%error") && n == num
  {
    var line := JoinBlank([kind, t, n, f]);
    MarkFields(kind, t, n, f);
    KindIs(kind, t, n, f, "%end");
    KindIs(kind, t, n, f, "%error");
    assert "%end" + " " == "%end " && "%error" + " " == "%error ";
  }

  lemma MarkFields(kind: string, t: string, n: string, f: string)
    requires Word(kind) && Word(t) && Word(n) && Word(f)
    ensures Fields(JoinBlank([kind, t, n, f])) == [kind, t, n, f]
  {
    FieldsOfJoin("", [kind, t, n, f]);
    assert "" + JoinBlank([kind, t, n, f]) == JoinBlank([kind, t, n, f]);
  }

  lemma KindIs(kind: string, t: string, n: string, f: string, w: string)
    requires Word(kind) && Word(w)
    ensures HasPrefix(JoinBlank([kind, t, n, f]), w + " ") <==> kind == w
  {
    var line := JoinBlank([kind, t, n, f]);
    assert line == kind + " " + JoinBlank([t, n, f]) by {
      assert [kind, t, n, f][1..] == [t, n, f];
    }
    assert line[|kind|] == ' ' && forall i :: 0 <= i < |kind| ==> line[i] == kind[i] && line[i] != ' ';
    if HasPrefix(line, w + " ") {
      assert forall i :: 0 <= i < |w| ==> line[i] == w[i] != ' ';
      assert line[|w|] == ' ';
      assert |kind| == |w|;
      assert kind == line[..|w|] == w;
    }
  }

  lemma MarkReads(kind: string, b: Item)
    requires b.Block? && Printable(b) && Word(kind)
    ensures Fields(Mark(kind, b)) == [kind, b.time, b.num, b.flags] && HasPrefix(Mark(kind, b), kind + " ")
  {
    var words := [kind, b.time, b.num, b.flags];
    FieldsOfJoin("", words);
    assert "" + JoinBlank(words) == JoinBlank(words);
    assert JoinBlank(words) == (kind + " ") + JoinBlank(words[1..]);
  }

  lemma SubSlice(lines: seq<string>, i: nat, part: seq<string>, a: nat)
    requires i + |part| <= |lines| && lines[i..i + |part|] == part && a <= |part|
    ensures lines[i + a..i + |part|] == part[a..]
  {
    forall k | 0 <= k < |part| - a ensures lines[i + a..i + |part|][k] == part[a..][k] {
      assert lines[i..i + |part|][a + k] == part[a + k];
    }
  }

  lemma SkipNoise(lines: seq<string>, i: nat)
    requires i < |lines| && Opens(lines[i]) == [] && lines[i] != "%exit"
    ensures Outside(lines, i) == Outside(lines, i + 1)
  {
  }

  lemma OpenBlock(lines: seq<string>, i: nat, num: string)
    requires i < |lines| && Opens(lines[i]) == [num]
    ensures Outside(lines, i) == Inside(lines, i + 1, num, [])
  {
  }

  lemma CloseBlock(lines: seq<string>, i: nat, num: string, body: seq<string>)
    requires i < |lines| && Closes(lines[i], num)
    ensures Inside(lines, i, num, body) == Before(Reply(body, Fields(lines[i])[0] == "%error"), Outside(lines, i + 1))
  {
  }

  lemma ReadBody(lines: seq<string>, i: nat, num: string, body: seq<string>)
    requires i < |lines| && !Closes(lines[i], num)
    ensures Inside(lines, i, num, body) == Inside(lines, i + 1, num, if Dropped(lines[i]) then body else body + [lines[i]])
  {
  }

  /** Inside a block, its body is read off line by line. */
  lemma {:induction false} BodyIsRead(lines: seq<string>, i: nat, num: string, done: seq<string>, body: seq<BodyLine>)
    requires i + |BodyOf(body)| <= |lines| && lines[i..i + |BodyOf(body)|] == BodyOf(body)
    requires forall k :: 0 <= k < |body| ==> !Closes(body[k].line, num) && (Dropped(body[k].line) <==> body[k].Note?)
    ensures Inside(lines, i, num, done) == Inside(lines, i + |BodyOf(body)|, num, done + TextOf(body))
    decreases |body|
  {
    hide Inside, Outside, Closes, Dropped;
    if body == [] {
      assert done + [] == done;
    } else {
      assert lines[i] == lines[i..i + |BodyOf(body)|][0] == body[0].line;
      SubSlice(lines, i, BodyOf(body), 1);
      ReadBody(lines, i, num, done);
      var more := if body[0].Text? then done + [body[0].line] else done;
      BodyIsRead(lines, i + 1, num, more, body[1..]);
      assert more + TextOf(body[1..]) == done + TextOf(body);
    }
  }

  /** The marks of a block open and close it. */
  lemma MarksFrame(b: Item)
    requires b.Block? && Printable(b)
    ensures Opens(Mark("%begin", b)) == [b.num]
    ensures var last := Mark(if b.err then "%error" else "%end", b);
            Closes(last, b.num) && (Fields(last)[0] == "%error" <==> b.err)
  {
    hide FieldsFrom, Fields, Mark, JoinBlank;
    MarkReads("%begin", b);
    MarkReads(if b.err then "%error" else "%end", b);
    assert "%begin" + " " == "%begin " && "%end" + " " == "%end " && "%error" + " " == "%error ";
  }

  lemma WrittenParts(b: Item)
    requires b.Block?
    ensures var w := Written(b);
            && |w| == |BodyOf(b.body)| + 2 && w[0] == Mark("%begin", b)
            && w[|w| - 1] == Mark(if b.err then "%error" else "%end", b) && w[1..|w| - 1] == BodyOf(b.body)
  {
  }

  lemma BlockIsRead(lines: seq<string>, i: nat, b: Item)
    requires b.Block? && Printable(b)
    requires i + |Written(b)| <= |lines| && lines[i..i + |Written(b)|] == Written(b)
    ensures Outside(lines, i) == Before(Reply(TextOf(b.body), b.err), Outside(lines, i + |Written(b)|))
  {
    hide Outside, Inside, Closes, Dropped, Opens, Mark, Written, Fields;
    var w := Written(b);
    var body, end := BodyOf(b.body), i + |w| - 1;
    WrittenParts(b);
    MarksFrame(b);
    forall k | 0 <= k < |w| ensures lines[i + k] == w[k] {
      assert lines[i..i + |w|][k] == w[k];
    }
    assert lines[end] == w[|w| - 1];
    forall k | 0 <= k < |body| ensures lines[i + 1..i + 1 + |body|][k] == body[k] {
      assert lines[i + (k + 1)] == w[k + 1] == w[1..|w| - 1][k];
    }
    OpenBlock(lines, i, b.num);
    BodyAgrees(b, |b.body|);
    assert b.body[..|b.body|] == b.body;
    BodyIsRead(lines, i + 1, b.num, [], b.body);
    assert [] + TextOf(b.body) == TextOf(b.body);
    CloseBlock(lines, end, b.num, TextOf(b.body));
  }

  /** One item, read from where it begins. */
  lemma ItemIsRead(lines: seq<string>, i: nat, item: Item)
    requires Printable(item) && i + |Written(item)| <= |lines| && lines[i..i + |Written(item)|] == Written(item)
    ensures Outside(lines, i) == Then(Expected([item]), Outside(lines, i + |Written(item)|))
  {
    hide Outside, Inside, Closes, Dropped, Opens, Mark;
    assert [item][1..] == [] && Expected([]) == [];
    if item.Noise? {
      assert lines[i] == lines[i..i + 1][0] == item.line;
      NoiseOpensNone(item);
      SkipNoise(lines, i);
      assert [] + Outside(lines, i + 1).replies == Outside(lines, i + 1).replies;
    } else {
      BlockIsRead(lines, i, item);
      assert Expected([item]) == [Reply(TextOf(item.body), item.err)];
    }
  }

  lemma ThenThen(a: seq<Reply>, b: seq<Reply>, p: Parsed)
    ensures Then(a, Then(b, p)) == Then(a + b, p)
  {
    assert a + (b + p.replies) == (a + b) + p.replies;
  }

  lemma ThenNothing(p: Parsed)
    ensures Then([], p) == p
  {
    assert [] + p.replies == p.replies;
  }

  lemma ExpectedHead(items: seq<Item>)
    requires items != []
    ensures Expected(items) == Expected([items[0]]) + Expected(items[1..])
  {
    assert [items[0]][1..] == [] && Expected([]) == [];
  }

  lemma {:induction false} ItemsAreRead(lines: seq<string>, i: nat, items: seq<Item>)
    requires forall k :: 0 <= k < |items| ==> Printable(items[k])
    requires i + |Print(items)| <= |lines| && lines[i..i + |Print(items)|] == Print(items)
    ensures Outside(lines, i) == Then(Expected(items), Outside(lines, i + |Print(items)|))
    decreases |items|
  {
    hide Outside, Inside, Written, Expected, Printable;
    if items == [] {
      ExpectedNothing();
      ThenNothing(Outside(lines, i));
    } else {
      var w, all := Written(items[0]), Print(items);
      assert all == w + Print(items[1..]);
      SubSlice(lines, i, all, |w|);
      assert all[|w|..] == Print(items[1..]);
      assert lines[i..i + |w|] == lines[i..i + |all|][..|w|] == all[..|w|] == w;
      ItemIsRead(lines, i, items[0]);
      ItemsAreRead(lines, i + |w|, items[1..]);
      ThenThen(Expected([items[0]]), Expected(items[1..]), Outside(lines, i + |all|));
      ExpectedHead(items);
    }
  }

  lemma ExpectedNothing()
    ensures Expected([]) == []
  {
  }

  lemma StreamEnds(lines: seq<string>, i: nat)
    requires i <= |lines| && (i < |lines| ==> lines[i] == "%exit")
    ensures Outside(lines, i) == Parsed([], false)
  {
    if i < |lines| {
      assert "%begin "[1] == 'b' && "%exit"[1] == 'e';
    }
  }

  /** Framing: whatever replies the server writes as numbered blocks, with
      notifications between and inside them, come out in order, with the same
      lines and error marks; the stream may end there or with %exit. */
  lemma FramingRoundTrip(items: seq<Item>, tail: seq<string>)
    requires forall k :: 0 <= k < |items| ==> Printable(items[k])
    requires tail == [] || tail[0] == "%exit"
    ensures Outside(Print(items) + tail, 0) == Parsed(Expected(items), false)
  {
    hide Outside, Inside, Printable, Expected;
    var before := Print(items);
    var lines := before + tail;
    assert lines[0..0 + |before|] == before;
    ItemsAreRead(lines, 0, items);
    assert tail != [] ==> lines[|before|] == tail[0];
    StreamEnds(lines, |before|);
    assert Expected(items) + [] == Expected(items);
  }

  lemma InsideEnds(lines: seq<string>, num: string, body: seq<string>)
    ensures Inside(lines, |lines|, num, body) == Parsed([], true)
  {
  }

  lemma Layout(before: seq<string>, x: string, part: seq<string>)
    ensures var lines, at := before + [x] + part, |before|;
            && |lines| == at + 1 + |part| && lines[0..0 + at] == before && lines[at] == x
            && lines[at + 1..at + 1 + |part|] == part
  {
  }

  lemma CutBlockIsRead(lines: seq<string>, at: nat, b: Item, n: nat)
    requires b.Block? && Printable(b) && n <= |b.body| && at + 1 + |BodyOf(b.body[..n])| == |lines|
    requires lines[at] == Mark("%begin", b) && lines[at + 1..at + 1 + |BodyOf(b.body[..n])|] == BodyOf(b.body[..n])
    ensures Outside(lines, at) == Parsed([], true)
  {
    hide Outside, Inside, Mark, Opens, Closes, Dropped, BodyOf, TextOf;
    MarksFrame(b);
    OpenBlock(lines, at, b.num);
    BodyAgrees(b, n);
    BodyIsRead(lines, at + 1, b.num, [], b.body[..n]);
    InsideEnds(lines, b.num, [] + TextOf(b.body[..n]));
  }

  /** A stream cut inside a block yields the replies before it, and says so. */
  lemma CutIsNoticed(items: seq<Item>, b: Item, n: nat)
    requires forall k :: 0 <= k < |items| ==> Printable(items[k])
    requires b.Block? && Printable(b) && n <= |b.body|
    ensures Outside(Print(items) + [Mark("%begin", b)] + BodyOf(b.body[..n]), 0) == Parsed(Expected(items), true)
  {
    hide Outside, Inside, Expected, Mark, Print, Printable, BodyOf;
    var lines := Print(items) + [Mark("%begin", b)] + BodyOf(b.body[..n]);
    Layout(Print(items), Mark("%begin", b), BodyOf(b.body[..n]));
    ItemsAreRead(lines, 0, items);
    CutBlockIsRead(lines, |Print(items)|, b, n);
    assert Expected(items) + [] == Expected(items);
  }

  // ---- the client -----------------------------------------------------------------------------

  datatype Answer = Lines(lines: seq<string>) | CommandError(lines: seq<string>) | Desynced | WriteError | Cancelled | Closed

  function AnswerOf(r: Reply): Answer {
    if r.err then CommandError(r.lines) else Lines(r.lines)
  }

  /** The command was written: the server received it. */
  predicate Reached(a: Answer) {
    !a.Desynced? && !a.WriteError?
  }

  /** How many of the commands so answered the server received. */
  function Received(answers: seq<Answer>): nat {
    if answers == [] then 0
    else Received(answers[..|answers| - 1]) + (if Reached(answers[|answers| - 1]) then 1 else 0)
  }

  /** The control connection.  stream holds the replies the server will have
      given, in order: first the attach block, then one per command it
      received; delivered says how many the parser has handed over so far. */
  class Client {
    const stream: nat -> Reply
    var sent: nat        // commands the server received
    var taken: nat       // replies taken from the channel
    var desynced: bool

    /** Unless desynchronised, every command sent has had its reply taken. */
    predicate Valid()
      reads this
    {
      !desynced ==> taken == sent + 1
    }

    /** DialControl, past the attach block. */
    constructor Dial(replies: nat -> Reply)
      ensures Valid() && stream == replies && sent == 0 && !desynced
    {
      stream, sent, taken, desynced := replies, 0, 1, false;
    }

    /** next: a reply, the end of the connection, or the caller's context ends
        first. */
    method Next(cancelled: bool, closed: bool) returns (a: Answer)
      modifies this`taken, this`desynced
      ensures cancelled ==> a == Cancelled && desynced && taken == old(taken)
      ensures !cancelled && closed ==> a == Closed && desynced == old(desynced) && taken == old(taken)
      ensures !cancelled && !closed ==> Answers(a, stream(old(taken))) && taken == old(taken) + 1 && desynced == old(desynced)
    {
      if cancelled {
        desynced := true;
        return Cancelled;
      }
      if closed {
        return Closed;
      }
      a := AnswerOf(stream(taken));
      taken := taken + 1;
    }

    /** Run: nothing is sent once desynchronised, and what it returns as a reply
        is the reply to this very command. */
    method Run(writeFails: bool, cancelled: bool, closed: bool) returns (a: Answer)
      requires Valid()
      modifies this
      ensures a.Closed? || Valid()
      ensures old(desynced) ==> a == Desynced && desynced && sent == old(sent) && taken == old(taken)
      ensures !old(desynced) && writeFails ==> a == WriteError && !desynced && sent == old(sent) && taken == old(taken)
      ensures !old(desynced) && !writeFails ==> sent == old(sent) + 1 && desynced == cancelled
      ensures !old(desynced) && !writeFails ==>
        if cancelled then a == Cancelled else if closed then a == Closed else Answers(a, stream(sent))
    {
      if desynced {
        return Desynced;
      }
      if writeFails {
        return WriteError;
      }
      sent := sent + 1;
      a := Next(cancelled, closed);
    }
  }

  /** a is this reply: its lines, as an error if tmux marked it one. */
  ghost predicate Answers(a: Answer, r: Reply) {
    (a == Lines(r.lines) && !r.err) || (a == CommandError(r.lines) && r.err)
  }

  /** Every reply is the one to its command: of the n-th command the server
      received, the n-th. */
  ghost predicate Paired(replies: nat -> Reply, answers: seq<Answer>) {
    forall i :: 0 <= i < |answers| && (answers[i].Lines? || answers[i].CommandError?) ==>
      Answers(answers[i], replies(Received(answers[..i + 1])))
  }

  /** Nothing is answered any more after a cancelled command. */
  ghost predicate SilentAfterCancel(answers: seq<Answer>) {
    forall i, k :: 0 <= i < k < |answers| && answers[i].Cancelled? ==> answers[k] == Desynced
  }

  lemma OneMoreAnswer(replies: nat -> Reply, answers: seq<Answer>, a: Answer)
    requires Paired(replies, answers)
    requires a.Lines? || a.CommandError? ==> Answers(a, replies(Received(answers) + 1))
    ensures Paired(replies, answers + [a]) && Received(answers + [a]) == Received(answers) + (if Reached(a) then 1 else 0)
  {
    var all := answers + [a];
    assert all[..|answers|] == answers && all[..|all|] == all;
    forall i | 0 <= i < |all| && (all[i].Lines? || all[i].CommandError?)
      ensures Answers(all[i], replies(Received(all[..i + 1])))
    {
      if i < |answers| {
        assert all[..i + 1] == answers[..i + 1];
      }
    }
  }

  /** A whole conversation, until the connection closes: the n-th command the
      server received is answered with the n-th reply, and after a cancelled
      command nothing is ever answered again. */
  method Converse(replies: nat -> Reply, commands: nat) returns (answers: seq<Answer>)
    ensures |answers| <= commands && Paired(replies, answers) && SilentAfterCancel(answers)
    ensures |answers| < commands ==> answers != [] && answers[|answers| - 1].Closed?
  {
    var c := new Client.Dial(replies);
    answers := [];
    while |answers| < commands
      invariant c.Valid() && |answers| <= commands && c.stream == replies && c.sent == Received(answers)
      invariant Paired(replies, answers) && SilentAfterCancel(answers)
      invariant forall i :: 0 <= i < |answers| && answers[i].Cancelled? ==> c.desynced
    {
      var writeFails, cancelled, closed := *, *, *;
      var a := c.Run(writeFails, cancelled, closed);
      OneMoreAnswer(replies, answers, a);
      answers := answers + [a];
      if a.Closed? {
        return;
      }
    }
  }
}
