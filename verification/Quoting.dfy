/** Quoting for tmux's command line and for a POSIX shell, and the decoding of
    tmux's stored names: what is written reads back as it was. */
module Quoting {
  import opened Common

  // ---- tmux double quotes ------------------------------------------------------

  function QuoteChar(c: char): string {
    if c == '\\' || c == '"' || c == '$' then ['\\', c]
    else if c == '\n' then "\\n"
    else if c == '\r' then "\\r"
    else [c]
  }

  function QuoteBody(s: string): string {
    if s == "" then "" else QuoteChar(s[0]) + QuoteBody(s[1..])
  }

  lemma {:induction false} QuoteBodyConcat(a: string, b: string)
    ensures QuoteBody(a + b) == QuoteBody(a) + QuoteBody(b)
  {
    if a == "" {
      assert a + b == b;
    } else {
      assert (a + b)[1..] == a[1..] + b;
      QuoteBodyConcat(a[1..], b);
    }
  }

  lemma QuoteOneMore(s: string, i: nat)
    requires i < |s|
    ensures QuoteBody(s[..i + 1]) == QuoteBody(s[..i]) + QuoteChar(s[i])
  {
    assert s[..i + 1] == s[..i] + [s[i]];
    QuoteBodyConcat(s[..i], [s[i]]);
    assert [s[i]][1..] == "" && QuoteBody([s[i]]) == QuoteChar(s[i]) + QuoteBody("");
  }

  /** tmuxx.Quote */
  method Quote(s: string) returns (b: string)
    ensures b == "\"" + QuoteBody(s) + "\""
  {
    b := "\"";
    var i := 0;
    while i < |s|
      invariant i <= |s| && b == "\"" + QuoteBody(s[..i])
    {
      var c := s[i];
      assert forall x :: ("\"" + QuoteBody(s[..i])) + x == "\"" + (QuoteBody(s[..i]) + x);
      if c == '\\' || c == '"' || c == '$' {
        b := b + ['\\', c];
      } else if c == '\n' {
        b := b + "\\n";
      } else if c == '\r' {
        b := b + "\\r";
      } else {
        b := b + [c];
      }
      QuoteOneMore(s, i);
      i := i + 1;
    }
    assert s[..i] == s;
    b := b + "\"";
  }

  /** tmux reading a double-quoted argument from position i, past the opening
      quote: the argument and where the closing quote stands.  An unescaped $
      would be expanded, a line end would end the command: neither is read. */
  function ReadQuoted(t: string, i: nat): Option<(string, nat)>
    requires i <= |t|
    decreases |t| - i
  {
    if i == |t| || t[i] == '$' || t[i] == '\n' || t[i] == '\r' then None
    else if t[i] == '"' then Some(("", i))
    else
      var escaped := t[i] == '\\';
      if escaped && i + 1 == |t| then None
      else
        var c := if !escaped then t[i] else if t[i + 1] == 'n' then '\n' else if t[i + 1] == 'r' then '\r' else t[i + 1];
        var rest := ReadQuoted(t, if escaped then i + 2 else i + 1);
        if rest.None? then None else Some(([c] + rest.value.0, rest.value.1))
  }

  /** Neither an unescaped $ nor a raw line end is read over. */
  lemma {:induction false} BareRefused(t: string, i: nat, k: nat)
    requires i <= k < |t| && (t[k] == '$' || t[k] == '\n' || t[k] == '\r')
    requires forall n :: i <= n < k ==> t[n] != '"' && t[n] != '\\'
    ensures ReadQuoted(t, i) == None
    decreases k - i
  {
    if i < k {
      BareRefused(t, i + 1, k);
    }
  }

  lemma {:induction false} ReadsBack(pre: string, s: string, post: string)
    ensures ReadQuoted(pre + QuoteBody(s) + "\"" + post, |pre|) == Some((s, |pre| + |QuoteBody(s)|))
    decreases |s|
  {
    var t := pre + QuoteBody(s) + "\"" + post;
    if s == "" {
      assert t[|pre|] == '"';
    } else {
      var q := QuoteChar(s[0]);
      assert t == (pre + q) + QuoteBody(s[1..]) + "\"" + post;
      ReadsBack(pre + q, s[1..], post);
      assert t[|pre|] == q[0] && (|q| == 2 ==> t[|pre| + 1] == q[1]);
      assert s == [s[0]] + s[1..];
    }
  }

  lemma {:induction false} NoLineEnds(s: string)
    ensures forall i :: 0 <= i < |QuoteBody(s)| ==> QuoteBody(s)[i] != '\n' && QuoteBody(s)[i] != '\r'
  {
    if s != "" {
      NoLineEnds(s[1..]);
    }
  }

  /** Character by character: the three that would be expanded or end the
      argument get a backslash, a line end its letter, the rest stays. */
  lemma EscapesAre(a: string, c: char, b: string)
    ensures c == '\\' || c == '"' || c == '$' ==> QuoteBody(a + [c] + b) == QuoteBody(a) + ['\\', c] + QuoteBody(b)
    ensures c == '\n' ==> QuoteBody(a + [c] + b) == QuoteBody(a) + "\\n" + QuoteBody(b)
    ensures c == '\r' ==> QuoteBody(a + [c] + b) == QuoteBody(a) + "\\r" + QuoteBody(b)
    ensures c !in "\\\"$\n\r" ==> QuoteBody(a + [c] + b) == QuoteBody(a) + [c] + QuoteBody(b)
  {
    hide QuoteBody;
    QuoteBodyConcat(a + [c], b);
    QuoteBodyConcat(a, [c]);
    QuoteBodyOne(c);
  }

  lemma QuoteBodyOne(c: char)
    ensures QuoteBody([c]) == QuoteChar(c)
  {
    assert [c][1..] == "" && QuoteBody([c]) == QuoteChar(c) + QuoteBody("");
  }

  /** Quote(s), followed by anything, reads back as the one argument s, and
      cannot end the command line early. */
  lemma QuoteRoundTrip(s: string, post: string)
    ensures var q := "\"" + QuoteBody(s) + "\"";
            && ReadQuoted(q + post, 1) == Some((s, |q| - 1))
            && forall i :: 0 <= i < |q| ==> q[i] != '\n' && q[i] != '\r'
  {
    ReadsBack("\"", s, post);
    NoLineEnds(s);
    var q := "\"" + QuoteBody(s) + "\"";
    assert q + post == "\"" + QuoteBody(s) + "\"" + post;
  }

  // ---- POSIX shell words -----------------------------------------------------------

  /** The characters of safeArg. */
  predicate IsSafe(c: char) {
    || 'A' <= c <= 'Z' || 'a' <= c <= 'z' || '0' <= c <= '9'
    || c == '_' || c == '@' || c == '%' || c == '+' || c == '=' || c == ':' || c == ',' || c == '.' || c == '/' || c == '-'
  }

  const CAPITALS := "ABCDEFGHIJKLMNOPQRSTUVWXYZ"
  const LETTERS := "abcdefghijklmnopqrstuvwxyz"

  lemma Capital(c: char)
    ensures c in CAPITALS <==> 'A' <= c <= 'Z'
  {
    if 'A' <= c <= 'Z' {
      assert CAPITALS[(c - 'A') as int] == c;
    }
  }

  lemma Letter(c: char)
    ensures c in LETTERS <==> 'a' <= c <= 'z'
  {
    if 'a' <= c <= 'z' {
      assert LETTERS[(c - 'a') as int] == c;
    }
  }

  /** Letters, digits and nine more: the character class of safeArg. */
  lemma SafeAre(c: char)
    ensures IsSafe(c) <==> c in CAPITALS || c in LETTERS || c in "0123456789" || c in "_@%+=:,./-"
  {
    hide CAPITALS, LETTERS;
    Capital(c);
    Letter(c);
  }

  predicate SafeArg(a: string) {
    a != "" && forall i :: 0 <= i < |a| ==> IsSafe(a[i])
  }

  /** strings.ReplaceAll(a, "'", `'\''`) */
  function Replaced(a: string): string {
    if a == "" then "" else (if a[0] == '\'' then "'\\''" else [a[0]]) + Replaced(a[1..])
  }

  function SingleQuoted(a: string): string {
    "'" + Replaced(a) + "'"
  }

  /** The word sshx.Quote writes; tmuxx.ShellQuote quotes every word. */
  function WordFor(a: string, plainAllowed: bool): string {
    if plainAllowed && SafeArg(a) then a else SingleQuoted(a)
  }

  function WordsFor(argv: seq<string>, plainAllowed: bool): (r: seq<string>)
    ensures |r| == |argv|
  {
    seq(|argv|, i requires 0 <= i < |argv| => WordFor(argv[i], plainAllowed))
  }

  lemma AreWords(parts: seq<string>, argv: seq<string>, plainAllowed: bool)
    requires |parts| == |argv| && forall k :: 0 <= k < |argv| ==> parts[k] == WordFor(argv[k], plainAllowed)
    ensures parts == WordsFor(argv, plainAllowed)
  {
    hide WordFor;
  }

  /** Quote fills the parts in place, then joins them. */
  method RenderArgv(argv: seq<string>, plainAllowed: bool) returns (line: string)
    ensures line == JoinBlank(WordsFor(argv, plainAllowed))
  {
    hide Replaced, WordsFor, JoinBlank;
    var parts := new string[|argv|];
    var i := 0;
    while i < |argv|
      invariant i <= |argv| && forall k :: 0 <= k < i ==> parts[k] == WordFor(argv[k], plainAllowed)
    {
      var word := if plainAllowed && argv[i] != "" && SafeArg(argv[i]) then argv[i] else "'" + Replaced(argv[i]) + "'";
      assert word == WordFor(argv[i], plainAllowed);
      parts[i] := word;
      i := i + 1;
    }
    AreWords(parts[..], argv, plainAllowed);
    line := JoinBlank(parts[..]);
  }

  datatype Reading = Bare | Quoted

  /** What section 2.2 of the POSIX.1-2017 Shell Command Language says must be
      quoted, and what may have to be where words are split, matched and
      expanded. */
  const MUST_QUOTE := "|&;<>()$`\\\"' \t\n"
  const MAY_QUOTE := "*?[#~"

  /** A word as the shell sees it: its text once quotes are removed, and whether
      nothing in it was quoted. */
  datatype ShellWord = ShellWord(text: string, plain: bool)

  /** Splitting a command line into words by the escape character and single
      quotes (sections 2.2.1 and 2.2.2): cur is the word being collected, started
      whether there is one, plain whether nothing in it was quoted.  Of the
      characters that mean more to a shell than themselves only these and the
      blank are read. */
  function ReadWords(t: string, i: nat, cur: string, started: bool, plain: bool, mode: Reading): Option<seq<ShellWord>>
    requires i <= |t|
    decreases |t| - i
  {
    if i == |t| then
      if mode == Quoted then None else Some(if started then [ShellWord(cur, plain)] else [])
    else if mode == Quoted then
      if t[i] == '\'' then ReadWords(t, i + 1, cur, true, false, Bare)
      else ReadWords(t, i + 1, cur + [t[i]], true, false, Quoted)
    else if t[i] == '\'' then ReadWords(t, i + 1, cur, true, false, Quoted)
    else if t[i] == '\\' then
      if i + 1 == |t| || t[i + 1] == '\n' then None
      else ReadWords(t, i + 2, cur + [t[i + 1]], true, false, Bare)
    else if t[i] == ' ' then
      if started then
        var rest := ReadWords(t, i + 1, "", false, true, Bare);
        if rest.None? then None else Some([ShellWord(cur, plain)] + rest.value)
      else ReadWords(t, i + 1, "", false, true, Bare)
    else if t[i] in MUST_QUOTE || t[i] in MAY_QUOTE then None
    else ReadWords(t, i + 1, cur + [t[i]], true, plain, Bare)
  }

  function ReadLine(t: string): Option<seq<ShellWord>> {
    ReadWords(t, 0, "", false, true, Bare)
  }

  /** A safe character stands for itself in every shell. */
  lemma SafeIsOrdinary(c: char)
    requires IsSafe(c)
    ensures c !in MUST_QUOTE && c !in MAY_QUOTE
  {
  }

  /** A word with a special character bare in it is not read: it would mean more
      to a shell than itself.  Nor is a quote that is not closed. */
  lemma {:induction false} SpecialsRefused(t: string, i: nat, cur: string, started: bool, k: nat)
    requires i <= k < |t| && t[k] in "|&;<>()$`\"\t\n" + "*?[#~"
    requires forall n :: i <= n < k ==> t[n] !in "'\\ "
    ensures ReadWords(t, i, cur, started, true, Bare) == None
    decreases k - i
  {
    if i < k {
      SpecialsRefused(t, i + 1, cur + [t[i]], true, k);
    }
  }

  lemma {:induction false} UnclosedRefused(t: string, i: nat, cur: string)
    requires i <= |t| && forall n :: i <= n < |t| ==> t[n] != '\''
    ensures ReadWords(t, i, cur, true, false, Quoted) == None
    decreases |t| - i
  {
    if i < |t| {
      UnclosedRefused(t, i + 1, cur + [t[i]]);
    }
  }

  predicate Slice(t: string, i: nat, part: string) {
    i + |part| <= |t| && forall k :: 0 <= k < |part| ==> t[i + k] == part[k]
  }

  lemma SliceSplit(t: string, i: nat, a: string, b: string)
    requires Slice(t, i, a + b)
    ensures Slice(t, i, a) && Slice(t, i + |a|, b)
    ensures (a != "" ==> t[i] == a[0]) && (b != "" ==> t[i + |a|] == b[0])
  {
    forall k | 0 <= k < |a| ensures t[i + k] == a[k] {
      assert (a + b)[k] == a[k];
    }
    forall k | 0 <= k < |b| ensures t[i + |a| + k] == b[k] {
      assert (a + b)[|a| + k] == b[k];
      assert t[i + (|a| + k)] == (a + b)[|a| + k];
    }
    assert a != "" ==> t[i + 0] == a[0];
    assert b != "" ==> t[i + |a| + 0] == b[0];
  }

  lemma SliceAt(t: string, i: nat, part: string, k: nat)
    requires Slice(t, i, part) && k < |part|
    ensures t[i + k] == part[k]
  {
  }

  lemma {:induction false} ReadsReplaced(t: string, i: nat, cur: string, a: string)
    requires Slice(t, i, Replaced(a))
    ensures ReadWords(t, i, cur, true, false, Quoted) == ReadWords(t, i + |Replaced(a)|, cur + a, true, false, Quoted)
    decreases |a|
  {
    if a == "" {
      assert cur + a == cur;
    } else {
      var head := if a[0] == '\'' then "'\\''" else [a[0]];
      SliceSplit(t, i, head, Replaced(a[1..]));
      ReadsReplaced(t, i + |head|, cur + [a[0]], a[1..]);
      assert cur + [a[0]] + a[1..] == cur + a;
      if a[0] == '\'' {
        SliceAt(t, i, head, 1);
        SliceAt(t, i, head, 2);
        SliceAt(t, i, head, 3);
        assert ReadWords(t, i, cur, true, false, Quoted) == ReadWords(t, i + 1, cur, true, false, Bare);
        assert ReadWords(t, i + 1, cur, true, false, Bare) == ReadWords(t, i + 3, cur + [a[0]], true, false, Bare);
        assert ReadWords(t, i + 3, cur + [a[0]], true, false, Bare) == ReadWords(t, i + 4, cur + [a[0]], true, false, Quoted);
      }
    }
  }

  lemma {:induction false} ReadsSafe(t: string, i: nat, cur: string, a: string, started: bool)
    requires Slice(t, i, a) && forall k :: 0 <= k < |a| ==> IsSafe(a[k])
    ensures ReadWords(t, i, cur, started, true, Bare) == ReadWords(t, i + |a|, cur + a, started || a != "", true, Bare)
    decreases |a|
  {
    if a == "" {
      assert cur + a == cur;
    } else {
      assert [a[0]] + a[1..] == a;
      SliceSplit(t, i, [a[0]], a[1..]);
      SafeIsOrdinary(a[0]);
      ReadsSafe(t, i + 1, cur + [a[0]], a[1..], true);
      assert cur + [a[0]] + a[1..] == cur + a;
    }
  }

  /** One step of the reader, at a single quote, a blank, or the end. */
  lemma QuoteReads(t: string, i: nat, cur: string, started: bool, plain: bool, mode: Reading)
    requires i < |t| && t[i] == '\''
    ensures ReadWords(t, i, cur, started, plain, mode)
      == ReadWords(t, i + 1, cur, true, false, if mode == Quoted then Bare else Quoted)
  {
  }

  lemma BlankReads(t: string, i: nat, cur: string, plain: bool)
    requires i < |t| && t[i] == ' '
    ensures var rest := ReadWords(t, i + 1, "", false, true, Bare);
            ReadWords(t, i, cur, true, plain, Bare) == if rest.None? then None else Some([ShellWord(cur, plain)] + rest.value)
  {
  }

  /** Blanks between words are passed over; a line that goes on is not read. */
  lemma BlankSkipped(t: string, i: nat)
    requires i < |t| && t[i] == ' '
    ensures ReadWords(t, i, "", false, true, Bare) == ReadWords(t, i + 1, "", false, true, Bare)
  {
  }

  lemma ContinuationRefused(t: string, i: nat, cur: string, started: bool, plain: bool)
    requires i + 1 < |t| && t[i] == '\\' && t[i + 1] == '\n'
    ensures ReadWords(t, i, cur, started, plain, Bare) == None
  {
  }

  lemma EndReads(t: string, cur: string, started: bool, plain: bool)
    ensures ReadWords(t, |t|, cur, started, plain, Bare) == Some(if started then [ShellWord(cur, plain)] else [])
  {
  }

  lemma QuotedReads(t: string, i: nat, a: string)
    requires Slice(t, i, SingleQuoted(a))
    ensures i + |SingleQuoted(a)| <= |t|
    ensures ReadWords(t, i, "", false, true, Bare) == ReadWords(t, i + |SingleQuoted(a)|, a, true, false, Bare)
  {
    var r := Replaced(a);
    QuotedSlices(t, i, r);
    hide ReadWords, Replaced, Slice;
    QuoteReads(t, i, "", false, true, Bare);
    ReadsReplaced(t, i + 1, "", a);
    assert "" + a == a;
    QuoteReads(t, i + 1 + |r|, a, true, false, Quoted);
  }

  lemma QuotedSlices(t: string, i: nat, r: string)
    requires Slice(t, i, "'" + r + "'")
    ensures i + |r| + 2 <= |t| && t[i] == '\'' && t[i + 1 + |r|] == '\'' && Slice(t, i + 1, r)
  {
    assert "'" + r + "'" == "'" + (r + "'");
    SliceSplit(t, i, "'", r + "'");
    SliceSplit(t, i + 1, r, "'");
  }

  /** One word reads back as its argument. */
  lemma WordReads(t: string, i: nat, a: string, plainAllowed: bool)
    requires Slice(t, i, WordFor(a, plainAllowed))
    ensures i + |WordFor(a, plainAllowed)| <= |t|
    ensures ReadWords(t, i, "", false, true, Bare)
      == ReadWords(t, i + |WordFor(a, plainAllowed)|, a, true, plainAllowed && SafeArg(a), Bare)
  {
    hide ReadWords, SingleQuoted;
    if plainAllowed && SafeArg(a) {
      ReadsSafe(t, i, "", a, false);
      assert "" + a == a;
    } else {
      QuotedReads(t, i, a);
    }
  }

  /** The words a shell should see: the arguments, unquoted where they are safe. */
  function Seen(argv: seq<string>, plainAllowed: bool): (r: seq<ShellWord>)
    ensures |r| == |argv|
  {
    seq(|argv|, k requires 0 <= k < |argv| => ShellWord(argv[k], plainAllowed && SafeArg(argv[k])))
  }

  lemma WordsTail(argv: seq<string>, plainAllowed: bool)
    requires argv != []
    ensures WordsFor(argv, plainAllowed) == [WordFor(argv[0], plainAllowed)] + WordsFor(argv[1..], plainAllowed)
  {
  }

  lemma JoinWords(word: string, words: seq<string>)
    ensures JoinBlank([word] + words) == if words == [] then word else word + (" " + JoinBlank(words))
  {
    assert ([word] + words)[1..] == words;
    assert word + " " + JoinBlank(words) == word + (" " + JoinBlank(words));
  }

  lemma {:induction false} LineReads(t: string, i: nat, argv: seq<string>, plainAllowed: bool)
    requires Slice(t, i, JoinBlank(WordsFor(argv, plainAllowed))) && i + |JoinBlank(WordsFor(argv, plainAllowed))| == |t|
    ensures ReadWords(t, i, "", false, true, Bare) == Some(Seen(argv, plainAllowed))
    decreases |argv|
  {
    hide ReadWords, WordFor, WordsFor, JoinBlank, Slice, Seen, SafeArg;
    if argv == [] {
      NoWords(plainAllowed);
      EndReads(t, "", false, true);
      SeenTail([], plainAllowed);
    } else if |argv| == 1 {
      assert argv == [argv[0]];
      LastReads(t, i, argv[0], plainAllowed);
    } else {
      LineParts(t, i, argv, plainAllowed);
      LineReads(t, i + |WordFor(argv[0], plainAllowed)| + 1, argv[1..], plainAllowed);
      WordThenRest(t, i, argv, plainAllowed);
    }
  }

  lemma LastReads(t: string, i: nat, a: string, plainAllowed: bool)
    requires Slice(t, i, JoinBlank(WordsFor([a], plainAllowed))) && i + |JoinBlank(WordsFor([a], plainAllowed))| == |t|
    ensures ReadWords(t, i, "", false, true, Bare) == Some(Seen([a], plainAllowed))
  {
    assert WordsFor([a], plainAllowed) == [WordFor(a, plainAllowed)];
    assert JoinBlank([WordFor(a, plainAllowed)]) == WordFor(a, plainAllowed);
    hide ReadWords, WordFor, WordsFor, JoinBlank, Slice, SafeArg;
    WordReads(t, i, a, plainAllowed);
    EndReads(t, a, true, plainAllowed && SafeArg(a));
    assert Seen([a], plainAllowed) == [ShellWord(a, plainAllowed && SafeArg(a))];
  }

  lemma LineParts(t: string, i: nat, argv: seq<string>, plainAllowed: bool)
    requires Slice(t, i, JoinBlank(WordsFor(argv, plainAllowed))) && i + |JoinBlank(WordsFor(argv, plainAllowed))| == |t|
    requires |argv| > 1
    ensures var w, rest := WordFor(argv[0], plainAllowed), JoinBlank(WordsFor(argv[1..], plainAllowed));
            && Slice(t, i, w) && Slice(t, i + |w|, " ") && i + |w| + 1 <= |t| && Slice(t, i + |w| + 1, rest)
            && i + |w| + 1 + |rest| == |t|
  {
    hide *;
    var w, words := WordFor(argv[0], plainAllowed), WordsFor(argv[1..], plainAllowed);
    WordsTail(argv, plainAllowed);
    JoinWords(w, words);
    TwoParts(t, i, w, JoinBlank(words));
  }

  lemma TwoParts(t: string, i: nat, w: string, rest: string)
    requires Slice(t, i, w + (" " + rest)) && i + |w + (" " + rest)| == |t|
    ensures Slice(t, i, w) && Slice(t, i + |w|, " ") && i + |w| + 1 <= |t| && Slice(t, i + |w| + 1, rest)
    ensures i + |w| + 1 + |rest| == |t|
  {
    hide *;
    SliceSplit(t, i, w, " " + rest);
    SliceSplit(t, i + |w|, " ", rest);
  }

  lemma SeenTail(argv: seq<string>, plainAllowed: bool)
    ensures Seen(argv, plainAllowed) == if argv == [] then [] else
      [ShellWord(argv[0], plainAllowed && SafeArg(argv[0]))] + Seen(argv[1..], plainAllowed)
  {
  }

  lemma WordThenRest(t: string, i: nat, argv: seq<string>, plainAllowed: bool)
    requires argv != [] && Slice(t, i, WordFor(argv[0], plainAllowed)) && Slice(t, i + |WordFor(argv[0], plainAllowed)|, " ")
    requires i + |WordFor(argv[0], plainAllowed)| + 1 <= |t|
    requires ReadWords(t, i + |WordFor(argv[0], plainAllowed)| + 1, "", false, true, Bare) == Some(Seen(argv[1..], plainAllowed))
    ensures ReadWords(t, i, "", false, true, Bare) == Some(Seen(argv, plainAllowed))
  {
    hide ReadWords, WordFor, WordsFor, Seen, SafeArg;
    var at := i + |WordFor(argv[0], plainAllowed)|;
    assert t[at + 0] == " "[0];
    WordReads(t, i, argv[0], plainAllowed);
    BlankReads(t, at, argv[0], plainAllowed && SafeArg(argv[0]));
    SeenTail(argv, plainAllowed);
  }

  lemma NoWords(plainAllowed: bool)
    ensures JoinBlank(WordsFor([], plainAllowed)) == ""
  {
  }

  /** Splitting what Quote or ShellQuote rendered gives the argv back, word for
      word; what ShellQuote renders is quoted throughout. */
  lemma ShellRoundTrip(argv: seq<string>, plainAllowed: bool)
    ensures var r := ReadLine(JoinBlank(WordsFor(argv, plainAllowed)));
            && r.Some? && |r.value| == |argv| && (forall k :: 0 <= k < |argv| ==> r.value[k].text == argv[k])
            && (!plainAllowed ==> forall k :: 0 <= k < |argv| ==> !r.value[k].plain)
  {
    LineReads(JoinBlank(WordsFor(argv, plainAllowed)), 0, argv, plainAllowed);
  }

  // ---- what runs ------------------------------------------------------------------------------

  /** The reserved words of section 2.4. */
  const RESERVED: set<string> := {"!", "{", "}", "case", "do", "done", "elif", "else", "esac", "fi", "for", "if", "in",
                                  "then", "until", "while"}

  predicate NameStart(c: char) {
    'A' <= c <= 'Z' || 'a' <= c <= 'z' || c == '_'
  }

  /** A name, "=", and a value: section 2.10.2, rule 7. */
  predicate Assigns(w: string) {
    exists k :: 0 < k < |w| && w[k] == '=' && NameStart(w[0]) && forall i :: 0 < i < k ==> NameStart(w[i]) || '0' <= w[i] <= '9'
  }

  /** A letter or an underscore; digits may follow. */
  ghost predicate IsName(name: string) {
    && name != "" && (name[0] in CAPITALS || name[0] in LETTERS || name[0] == '_')
    && forall i :: 0 < i < |name| ==> name[i] in CAPITALS || name[i] in LETTERS || name[i] == '_' || name[i] in "0123456789"
  }

  lemma NameChar(c: char)
    ensures NameStart(c) <==> c in CAPITALS || c in LETTERS || c == '_'
    ensures '0' <= c <= '9' <==> c in "0123456789"
  {
    hide CAPITALS, LETTERS;
    Capital(c);
    Letter(c);
  }

  /** A word is an assignment exactly when what stands before its first "=" is a
      name. */
  lemma AssignsExactly(name: string, value: string)
    requires '=' !in name
    ensures Assigns(name + "=" + value) <==> IsName(name)
    ensures !Assigns(name)
  {
    hide CAPITALS, LETTERS, NameStart;
    var w := name + "=" + value;
    assert w[|name|] == '=' && forall i :: 0 <= i < |name| ==> w[i] == name[i];
    forall i | 0 <= i < |name|
      ensures NameStart(name[i]) <==> name[i] in CAPITALS || name[i] in LETTERS || name[i] == '_'
      ensures '0' <= name[i] <= '9' <==> name[i] in "0123456789"
    {
      NameChar(name[i]);
    }
    EqualsIsNoLetter();
  }

  lemma EqualsIsNoLetter()
    ensures !NameStart('=') && !('0' <= '=' <= '9')
  {
  }

  /** The shell takes the word for something other than a command's name. */
  predicate Recognised(w: ShellWord) {
    w.plain && (w.text in RESERVED || Assigns(w.text))
  }

  /** The line is the simple command argv. */
  predicate Runs(line: string, argv: seq<string>) {
    var r := ReadLine(line);
    && r.Some? && r.value != [] && !Recognised(r.value[0])
    && |r.value| == |argv| && forall k :: 0 <= k < |argv| ==> r.value[k].text == argv[k]
  }

  /** What is rendered runs as argv, if and only if the first word is not written
      bare where it is an assignment or a reserved word. */
  lemma RunsExactly(argv: seq<string>, plainAllowed: bool)
    requires argv != []
    ensures Runs(JoinBlank(WordsFor(argv, plainAllowed)), argv)
      <==> !(plainAllowed && SafeArg(argv[0]) && (argv[0] in RESERVED || Assigns(argv[0])))
  {
    hide ReadWords, WordsFor, JoinBlank, SafeArg, Assigns, RESERVED;
    LineReads(JoinBlank(WordsFor(argv, plainAllowed)), 0, argv, plainAllowed);
  }

  /** So ShellQuote's line always does; sshx.Quote's does not for a command
      whose name is an assignment. */
  lemma AssignmentDoesNotRun(value: string)
    requires forall k :: 0 <= k < |value| ==> IsSafe(value[k])
    ensures var argv := ["A=" + value, "x"];
            !Runs(JoinBlank(WordsFor(argv, true)), argv) && Runs(JoinBlank(WordsFor(argv, false)), argv)
  {
    hide Runs, JoinBlank, WordsFor;
    var word := "A=" + value;
    assert word[1] == '=' && NameStart(word[0]);
    forall k | 0 <= k < |word| ensures IsSafe(word[k]) {
      assert k >= 2 ==> word[k] == value[k - 2];
    }
    RunsExactly([word, "x"], true);
    RunsExactly([word, "x"], false);
  }

  // ---- vis(3) names -----------------------------------------------------------------------

  newtype byte = x: int | 0 <= x < 256

  const BACKSLASH: byte := 92
  const LETTER_N: byte := 110
  const LETTER_T: byte := 116
  const ZERO: byte := 48
  const NEWLINE: byte := 10
  const TAB: byte := 9

  predicate IsOctal(c: byte) {
    ZERO <= c < ZERO + 8
  }

  /** The value of up to three octal digits from i, and their number. */
  function Octal(s: seq<byte>, i: nat, v: nat, n: nat): (nat, nat)
    requires i <= |s| && n <= 3
    decreases 3 - n
  {
    if n < 3 && i < |s| && IsOctal(s[i]) then Octal(s, i + 1, v * 8 + (s[i] - ZERO) as nat, n + 1) else (v, n)
  }

  lemma {:induction false} OctalBounds(s: seq<byte>, i: nat, v: nat, n: nat)
    requires i <= |s| && n <= 3
    ensures var r := Octal(s, i, v, n); n <= r.1 <= 3 && i + (r.1 - n) <= |s|
    decreases 3 - n
  {
    if n < 3 && i < |s| && IsOctal(s[i]) {
      OctalBounds(s, i + 1, v * 8 + (s[i] - ZERO) as nat, n + 1);
    }
  }

  lemma OctalAdvances(s: seq<byte>, i: nat)
    requires i < |s| && IsOctal(s[i])
    ensures var r := Octal(s, i, 0, 0); 1 <= r.1 && i + r.1 <= |s|
  {
    OctalBounds(s, i + 1, (s[i] - ZERO) as nat, 1);
    assert Octal(s, i, 0, 0) == Octal(s, i + 1, 0 * 8 + (s[i] - ZERO) as nat, 1);
  }

  /** One step of the decoding at i: what is written and where to go on. */
  function UnvisAt(s: seq<byte>, i: nat): (r: (seq<byte>, nat))
    requires i < |s|
    ensures i < r.1 <= |s|
  {
    if s[i] != BACKSLASH || i == |s| - 1 then ([s[i]], i + 1)
    else
      var n := s[i + 1];
      if n == BACKSLASH then ([BACKSLASH], i + 2)
      else if n == LETTER_N then ([NEWLINE], i + 2)
      else if n == LETTER_T then ([TAB], i + 2)
      else if IsOctal(n) then
        var (v, digits) := Octal(s, i + 1, 0, 0);
        OctalAdvances(s, i + 1);
        ([(v % 256) as byte], i + 1 + digits)
      else ([BACKSLASH, n], i + 2)
  }

  /** What UnvisName writes from position i. */
  function Unvis(s: seq<byte>, i: nat): seq<byte>
    requires i <= |s|
    decreases |s| - i
  {
    if i == |s| then [] else UnvisAt(s, i).0 + Unvis(s, UnvisAt(s, i).1)
  }

  /** The inner loop over v and j. */
  method ReadOctal(s: seq<byte>, i: nat) returns (v: nat, j: nat)
    requires i < |s| && IsOctal(s[i])
    ensures (v, j) == Octal(s, i, 0, 0)
  {
    v, j := 0, 0;
    while j < 3 && i + j < |s| && IsOctal(s[i + j])
      invariant j <= 3 && i + j <= |s| && Octal(s, i + j, v, j) == Octal(s, i, 0, 0)
    {
      v := v * 8 + (s[i + j] - ZERO) as nat;
      j := j + 1;
    }
  }

  method UnvisStep(s: seq<byte>, i: nat) returns (out: seq<byte>, next: nat)
    requires i < |s|
    ensures (out, next) == UnvisAt(s, i)
  {
    if s[i] != BACKSLASH || i == |s| - 1 {
      return [s[i]], i + 1;
    }
    var n := s[i + 1];
    next := i + 2;
    if n == BACKSLASH {
      out := [BACKSLASH];
    } else if n == LETTER_N {
      out := [NEWLINE];
    } else if n == LETTER_T {
      out := [TAB];
    } else if IsOctal(n) {
      var v, j := ReadOctal(s, i + 1);
      out, next := [(v % 256) as byte], i + 1 + j;
    } else {
      out := [BACKSLASH, n];
    }
  }

  /** UnvisName */
  method UnvisName(s: seq<byte>) returns (b: seq<byte>)
    ensures b == Unvis(s, 0)
  {
    b := [];
    var i := 0;
    while i < |s|
      invariant i <= |s| && b + Unvis(s, i) == Unvis(s, 0)
      decreases |s| - i
    {
      var out, next := UnvisStep(s, i);
      assert b + (out + Unvis(s, next)) == (b + out) + Unvis(s, next);
      b, i := b + out, next;
    }
    assert b + [] == b;
  }

  /** tmux's encoding of one byte: backslash doubled, tab and newline by letter,
      the bytes chosen by octal as three digits, the rest raw. */
  function VisByte(c: byte, octal: byte -> bool): seq<byte> {
    if c == BACKSLASH then [BACKSLASH, BACKSLASH]
    else if c == TAB then [BACKSLASH, LETTER_T]
    else if c == NEWLINE then [BACKSLASH, LETTER_N]
    else if octal(c) then [BACKSLASH, ZERO + c / 64, ZERO + c / 8 % 8, ZERO + c % 8]
    else [c]
  }

  function Vis(s: seq<byte>, octal: byte -> bool): seq<byte> {
    if s == [] then [] else VisByte(s[0], octal) + Vis(s[1..], octal)
  }

  lemma ThreeDigits(t: seq<byte>, i: nat, c: byte)
    requires i + 3 <= |t| && t[i] == ZERO + c / 64 && t[i + 1] == ZERO + c / 8 % 8 && t[i + 2] == ZERO + c % 8
    ensures IsOctal(t[i]) && Octal(t, i, 0, 0) == (c as nat, 3)
  {
    var d2, d1, d0 := (c / 64) as nat, (c / 8 % 8) as nat, (c % 8) as nat;
    assert c as nat == (d2 * 8 + d1) * 8 + d0;
    assert Octal(t, i + 3, (d2 * 8 + d1) * 8 + d0, 3) == ((d2 * 8 + d1) * 8 + d0, 3);
    assert Octal(t, i + 2, d2 * 8 + d1, 2) == Octal(t, i + 3, (d2 * 8 + d1) * 8 + d0, 3);
    assert Octal(t, i + 1, d2, 1) == Octal(t, i + 2, d2 * 8 + d1, 2);
    assert Octal(t, i, 0, 0) == Octal(t, i + 1, 0 * 8 + d2, 1);
  }

  /** One encoded byte decodes to itself, wherever it stands. */
  lemma OneByte(pre: seq<byte>, c: byte, post: seq<byte>, octal: byte -> bool)
    requires c != BACKSLASH || |VisByte(c, octal)| == 2
    ensures UnvisAt(pre + VisByte(c, octal) + post, |pre|) == ([c], |pre| + |VisByte(c, octal)|)
  {
    var v := VisByte(c, octal);
    var t, i := pre + v + post, |pre|;
    assert forall k :: 0 <= k < |v| ==> t[i + k] == v[k];
    assert t[i + 0] == v[0] && (|v| > 1 ==> t[i + 1] == v[1]);
    if |v| == 4 {
      assert t[i + 2] == v[2] && t[i + 3] == v[3];
      ThreeDigits(t, i + 1, c);
    }
  }

  lemma {:induction false} UnvisFrom(pre: seq<byte>, s: seq<byte>, octal: byte -> bool)
    ensures Unvis(pre + Vis(s, octal), |pre|) == s
    decreases |s|
  {
    hide UnvisAt, VisByte;
    if s != [] {
      var v, rest := VisByte(s[0], octal), Vis(s[1..], octal);
      assert pre + Vis(s, octal) == pre + v + rest == (pre + v) + rest;
      OneByteIsTwo(s[0], octal);
      OneByte(pre, s[0], rest, octal);
      UnvisFrom(pre + v, s[1..], octal);
      assert s == [s[0]] + s[1..];
    }
  }

  lemma OneByteIsTwo(c: byte, octal: byte -> bool)
    ensures (c != BACKSLASH || |VisByte(c, octal)| == 2) && VisByte(c, octal) != []
  {
  }

  /** UnvisName inverts the encoding of every byte string, whichever bytes are
      written in octal. */
  lemma UnvisRoundTrip(s: seq<byte>, octal: byte -> bool)
    ensures Unvis(Vis(s, octal), 0) == s
  {
    UnvisFrom([], s, octal);
    assert [] + Vis(s, octal) == Vis(s, octal);
  }
}
