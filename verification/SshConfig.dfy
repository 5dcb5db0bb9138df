/** The repair of ssh_config text: Match guards with exec decided in advance,
    and the proof that what a lookup finds does not change. */
module SshConfig {
  import opened Common

  /** What happens to a Match exec command: not run at all, or its exit
      status. */
  datatype ExecOutcome = NotRun | Exits(zero: bool)

  /** exec is what every exec guard would do (fixed for the run), patMatch and
      hostMatch how a Match pattern and a Host line match a host, isSpace
      unicode.IsSpace, expand the inlining of an Include that needed repair. */
  datatype Env = Env(exec: string -> ExecOutcome, patMatch: (string, string) -> bool,
                     hostMatch: (string, string) -> bool, isSpace: char -> bool, expand: string -> Option<string>)

  ghost predicate SpacesAreSpaces(env: Env) {
    env.isSpace(' ') && env.isSpace('\t') && forall c :: ('a' <= c <= 'z' || c == 'M') ==> !env.isSpace(c)
  }

  // ---- strings -------------------------------------------------------------------

  function LowerChar(c: char): char {
    if 'A' <= c <= 'Z' then 'a' + (c - 'A') else c
  }

  function Lower(s: string): (r: string)
    ensures |r| == |s|
  {
    if s == "" then "" else [LowerChar(s[0])] + Lower(s[1..])
  }

  const UPPER := "ABCDEFGHIJKLMNOPQRSTUVWXYZ"
  const LOWER := "abcdefghijklmnopqrstuvwxyz"

  /** x is a letter, and y the small letter of it; or they are the same. */
  ghost predicate SameLetter(x: char, y: char) {
    x == y || exists k :: 0 <= k < 26 && x == UPPER[k] && y == LOWER[k]
  }

  lemma SmallLetter(k: nat)
    requires k < 26
    ensures LowerChar(UPPER[k]) == LOWER[k] == LowerChar(LOWER[k])
  {
    assert UPPER[k] == 'A' + k as char;
    assert LOWER[k] == 'a' + k as char;
  }

  /** Keywords are the same in either case, letter by letter. */
  lemma {:induction false} CaseIsIgnored(a: string, b: string)
    requires |a| == |b| && forall i :: 0 <= i < |a| ==> SameLetter(a[i], b[i])
    ensures Lower(a) == Lower(b)
  {
    hide UPPER, LOWER, LowerChar;
    if a != "" {
      assert SameLetter(a[0], b[0]);
      if a[0] != b[0] {
        LettersAre26();
        var k :| 0 <= k < 26 && a[0] == UPPER[k] && b[0] == LOWER[k];
        SmallLetter(k);
      }
      CaseIsIgnored(a[1..], b[1..]);
    }
  }

  lemma LettersAre26()
    ensures |UPPER| == |LOWER| == 26
  {
  }

  function TrimSpace(env: Env, s: string): string {
    TrimRight(env.isSpace, TrimLeft(env.isSpace, s))
  }

  predicate IsBlank(c: char) {
    c == ' ' || c == '\t'
  }

  predicate EndsKeyword(c: char) {
    IsBlank(c) || c == '='
  }

  /** strings.IndexAny(s, " \t="), or the length. */
  function KeywordEnd(s: string): (i: nat)
    ensures i <= |s| && (i < |s| ==> EndsKeyword(s[i])) && forall k :: 0 <= k < i ==> !EndsKeyword(s[k])
  {
    if s == "" || EndsKeyword(s[0]) then 0 else 1 + KeywordEnd(s[1..])
  }

  /** splitKeyword */
  function SplitKeyword(env: Env, line: string): (string, string) {
    var s := TrimSpace(env, line);
    if s == "" || s[0] == '#' then ("", "")
    else
      var i := KeywordEnd(s);
      if i == |s| then (s, "") else (s[..i], TrimLeft(EndsKeyword, TrimSpace(env, s[i..])))
  }

  /** leadingSpace */
  function LeadingSpace(line: string): string {
    if line != "" && IsBlank(line[0]) then [line[0]] + LeadingSpace(line[1..]) else ""
  }

  lemma {:induction false} LeadingSpaceIs(line: string, k: nat)
    requires k <= |line| && (forall i :: 0 <= i < k ==> line[i] == ' ' || line[i] == '\t')
    requires k < |line| ==> line[k] != ' ' && line[k] != '\t'
    ensures LeadingSpace(line) == line[..k]
  {
    if k > 0 {
      LeadingSpaceIs(line[1..], k - 1);
      assert line[..k] == [line[0]] + line[1..][..k - 1];
    }
  }

  predicate AllSpace(env: Env, s: string) {
    forall i :: 0 <= i < |s| ==> env.isSpace(s[i])
  }

  /** Nothing to trim off s at either end. */
  predicate Trimmed(env: Env, s: string) {
    s != "" ==> !env.isSpace(s[0]) && !env.isSpace(s[|s| - 1])
  }

  lemma TrimSpaceIs(env: Env, pre: string, s: string, post: string)
    requires AllSpace(env, pre) && Trimmed(env, s) && AllSpace(env, post)
    ensures TrimSpace(env, pre + s + post) == s
  {
    var t := pre + s + post;
    if s == "" {
      TrimmedLeft(env.isSpace, t, |t|);
    } else {
      TrimmedLeft(env.isSpace, t, |pre|);
      assert t[|pre|..] == s + post;
      TrimmedRight(env.isSpace, s + post, |s|);
    }
  }

  /** A line is its keyword, blanks or "=" between, and what is left with no
      space around it. */
  lemma KeywordIs(env: Env, pre: string, key: string, sep: string, value: string, post: string)
    requires AllSpace(env, pre) && Trimmed(env, key) && Trimmed(env, value) && AllSpace(env, post)
    requires key != "" && key[0] != '#' && forall i :: 0 <= i < |key| ==> key[i] != ' ' && key[i] != '\t' && key[i] != '='
    requires sep != "" && forall i :: 0 <= i < |sep| ==> sep[i] == ' ' || sep[i] == '\t' || sep[i] == '='
    requires value != "" && value[0] != ' ' && value[0] != '\t' && value[0] != '='
    ensures SplitKeyword(env, pre + key + sep + value + post) == (key, value)
  {
    hide TrimSpace, KeywordEnd, AllSpace;
    var s := key + sep + value;
    assert pre + key + sep + value + post == pre + s + post;
    assert s[0] == key[0] && s[|s| - 1] == value[|value| - 1];
    TrimSpaceIs(env, pre, s, post);
    KeywordEndIs(s, |key|);
    assert s[..|key|] == key && s[|key|..] == sep + value;
    RestIs(env, sep, value);
  }

  lemma RestIs(env: Env, sep: string, value: string)
    requires forall i :: 0 <= i < |sep| ==> sep[i] == ' ' || sep[i] == '\t' || sep[i] == '='
    requires Trimmed(env, value) && value != "" && value[0] != ' ' && value[0] != '\t' && value[0] != '='
    ensures TrimLeft(EndsKeyword, TrimSpace(env, sep + value)) == value
  {
    var n := SpacesOf(env, sep);
    assert sep + value == sep[..n] + (sep[n..] + value) + "";
    TrimSpaceIs(env, sep[..n], sep[n..] + value, "");
    TrimmedLeft(EndsKeyword, sep[n..] + value, |sep| - n);
  }

  lemma KeywordEndIs(s: string, k: nat)
    requires k < |s| && (s[k] == ' ' || s[k] == '\t' || s[k] == '=')
    requires forall i :: 0 <= i < k ==> s[i] != ' ' && s[i] != '\t' && s[i] != '='
    ensures KeywordEnd(s) == k
  {
  }

  lemma SpacesOf(env: Env, s: string) returns (n: nat)
    ensures n <= |s| && AllSpace(env, s[..n]) && (n < |s| ==> !env.isSpace(s[n]))
  {
    n := 0;
    while n < |s| && env.isSpace(s[n])
      invariant n <= |s| && AllSpace(env, s[..n])
    {
      n := n + 1;
    }
  }

  /** An empty line and a comment have no keyword; a keyword may stand alone. */
  lemma NoKeyword(env: Env, pre: string, text: string, post: string)
    requires AllSpace(env, pre) && Trimmed(env, text) && AllSpace(env, post)
    ensures text == "" || text[0] == '#' ==> SplitKeyword(env, pre + text + post) == ("", "")
    ensures text != "" && text[0] != '#' && (forall i :: 0 <= i < |text| ==> text[i] != ' ' && text[i] != '\t' && text[i] != '=')
      ==> SplitKeyword(env, pre + text + post) == (text, "")
  {
    TrimSpaceIs(env, pre, text, post);
  }

  // ---- splitArgs -----------------------------------------------------------------------

  /** The loop of splitArgs from position i: the tokens still to come, with cur
      collected so far. */
  function ArgsFrom(s: string, i: nat, cur: string, quoted: bool, started: bool): Option<seq<string>>
    requires i <= |s|
    decreases |s| - i
  {
    if i == |s| then
      if quoted then None else Some(if started then [cur] else [])
    else if s[i] == '"' then ArgsFrom(s, i + 1, cur, !quoted, true)
    else if !quoted && IsBlank(s[i]) then
      if started then
        var rest := ArgsFrom(s, i + 1, "", false, false);
        if rest.None? then None else Some([cur] + rest.value)
      else ArgsFrom(s, i + 1, cur, quoted, false)
    else ArgsFrom(s, i + 1, cur + [s[i]], quoted, true)
  }

  function Args(s: string): Option<seq<string>> {
    ArgsFrom(s, 0, "", false, false)
  }

  function Prepend(out: seq<string>, r: Option<seq<string>>): Option<seq<string>> {
    if r.None? then None else Some(out + r.value)
  }

  lemma PrependNothing(r: Option<seq<string>>)
    ensures Prepend([], r) == r
  {
    assert r.Some? ==> [] + r.value == r.value;
  }

  /** splitArgs */
  method SplitArgs(s: string) returns (r: Option<seq<string>>)
    ensures r == Args(s)
  {
    var out: seq<string> := [];
    var cur := "";
    var quoted, started := false, false;
    var i := 0;
    PrependNothing(Args(s));
    while i < |s|
      invariant i <= |s| && Prepend(out, ArgsFrom(s, i, cur, quoted, started)) == Args(s)
      invariant !started ==> cur == ""
    {
      if s[i] == '"' {
        quoted, started := !quoted, true;
      } else if !quoted && IsBlank(s[i]) {
        if started {
          ghost var rest := ArgsFrom(s, i + 1, "", false, false);
          assert rest.Some? ==> (out + [cur]) + rest.value == out + ([cur] + rest.value);
          out, cur, started := out + [cur], "", false;
        }
      } else {
        cur, started := cur + [s[i]], true;
      }
      i := i + 1;
    }
    if quoted {
      return None;
    }
    assert out + [] == out;
    r := Some(if started then out + [cur] else out);
  }

  /** text is one way to write the word w: bare, or in quotes. */
  predicate Writes(text: string, w: string) {
    || (text == w && w != "" && Bare(w))
    || (text == "\"" + w + "\"" && NoQuote(w))
  }

  predicate Bare(w: string) {
    forall i :: 0 <= i < |w| ==> !IsBlank(w[i]) && w[i] != '"'
  }

  predicate NoQuote(w: string) {
    forall i :: 0 <= i < |w| ==> w[i] != '"'
  }

  lemma {:induction false} TakesWord(s: string, i: nat, cur: string, w: string, quoted: bool, started: bool)
    requires i + |w| <= |s| && s[i..i + |w|] == w && (if quoted then NoQuote(w) else Bare(w))
    ensures ArgsFrom(s, i, cur, quoted, started)
      == ArgsFrom(s, i + |w|, cur + w, quoted, started || w != "")
    decreases |w|
  {
    if w == "" {
      assert cur + w == cur;
    } else {
      assert s[i] == w[0];
      assert s[i + 1..i + 1 + |w[1..]|] == w[1..];
      TakesWord(s, i + 1, cur + [w[0]], w[1..], quoted, true);
      assert (cur + [w[0]]) + w[1..] == cur + w;
    }
  }

  lemma SubSlice(s: string, i: nat, text: string, a: nat, b: nat)
    requires i + |text| <= |s| && s[i..i + |text|] == text && a <= b <= |text|
    ensures s[i + a..i + b] == text[a..b]
  {
    forall k | 0 <= k < b - a ensures s[i + a..i + b][k] == text[a..b][k] {
      assert s[i..i + |text|][a + k] == text[a + k];
    }
  }

  lemma TakesText(s: string, i: nat, text: string, w: string)
    requires Writes(text, w) && i + |text| <= |s| && s[i..i + |text|] == text
    ensures ArgsFrom(s, i, "", false, false) == ArgsFrom(s, i + |text|, w, false, true)
  {
    if text == w && w != "" && Bare(w) {
      TakesWord(s, i, "", w, false, false);
      assert "" + w == w;
    } else {
      assert text[0] == '"' && text[|text| - 1] == '"' && text[1..1 + |w|] == w;
      SubSlice(s, i, text, 1, 1 + |w|);
      assert s[i..i + |text|][0] == s[i] && s[i..i + |text|][1 + |w|] == s[i + 1 + |w|];
      TakesWord(s, i + 1, "", w, true, true);
      assert "" + w == w;
    }
  }

  lemma FirstText(pre: string, texts: seq<string>)
    requires texts != []
    ensures var s := pre + JoinBlank(texts);
            |pre| + |texts[0]| <= |s| && s[|pre|..|pre| + |texts[0]|] == texts[0]
  {
    var s := pre + JoinBlank(texts);
    assert JoinBlank(texts)[..|texts[0]|] == texts[0];
    assert s[|pre|..|pre| + |texts[0]|] == JoinBlank(texts)[..|texts[0]|];
  }

  lemma {:induction false} JoinedFrom(pre: string, texts: seq<string>, words: seq<string>)
    requires |texts| == |words| && forall k :: 0 <= k < |words| ==> Writes(texts[k], words[k])
    ensures ArgsFrom(pre + JoinBlank(texts), |pre|, "", false, false) == Some(words)
    decreases |texts|
  {
    var s := pre + JoinBlank(texts);
    if texts != [] {
      var i := |pre| + |texts[0]|;
      FirstText(pre, texts);
      TakesText(s, |pre|, texts[0], words[0]);
      if |texts| == 1 {
        assert words == [words[0]];
      } else {
        assert s[i] == ' ';
        var longer := pre + texts[0] + " ";
        assert s == longer + JoinBlank(texts[1..]);
        JoinedFrom(longer, texts[1..], words[1..]);
        assert words == [words[0]] + words[1..];
      }
    }
  }

  /** splitArgs reads back any words, each written bare or in quotes, joined by
      blanks. */
  lemma ArgsRoundTrip(texts: seq<string>, words: seq<string>)
    requires |texts| == |words|
    requires forall k :: 0 <= k < |words| ==>
      (texts[k] == words[k] != "" && Bare(words[k])) || (texts[k] == "\"" + words[k] + "\"" && NoQuote(words[k]))
    ensures Args(JoinBlank(texts)) == Some(words)
  {
    JoinedFrom("", texts, words);
    assert "" + JoinBlank(texts) == JoinBlank(texts);
  }

  // ---- guards ----------------------------------------------------------------------------

  const CRITERIA: set<string> := {"all", "canonical", "command", "exec", "final", "host", "localnetwork",
                                  "localuser", "originalhost", "tagged", "user", "version"}

  function StripNot(crit: string): (bool, string) {
    if crit != "" && crit[0] == '!' then (true, crit[1..]) else (false, crit)
  }

  /** A guard as the conjunction of its criteria, for one host: exec decided by
      outcome xor negation, anything that cannot be decided false. */
  predicate Criteria(env: Env, tokens: seq<string>, alone: bool, host: string)
    decreases |tokens|
  {
    tokens == [] ||
    var (not, crit) := StripNot(Lower(tokens[0]));
    if crit == "all" then !not && alone
    else if crit == "host" then
      !not && |tokens| > 1 && env.patMatch(tokens[1], host) && Criteria(env, tokens[2..], alone, host)
    else if crit == "exec" then
      && |tokens| > 1 && env.exec(tokens[1]).Exits? && env.exec(tokens[1]).zero != not
      && Criteria(env, tokens[2..], alone, host)
    else false
  }

  predicate GuardHolds(env: Env, rest: string, host: string) {
    var tokens := Args(rest);
    tokens.Some? && tokens.value != [] && Criteria(env, tokens.value, |tokens.value| == 1, host)
  }

  datatype Exec = Exec(cmd: string, negated: bool)

  /** What evalMatch collects before it runs anything. */
  datatype Guard = Undecidable | Guard(hosts: seq<string>, execs: seq<Exec>)

  function ParseGuard(tokens: seq<string>, alone: bool): Guard
    decreases |tokens|
  {
    if tokens == [] then Guard([], [])
    else
      var (not, crit) := StripNot(Lower(tokens[0]));
      if crit == "all" then
        if not || !alone then Undecidable else ParseGuard(tokens[1..], alone)
      else if crit == "host" then
        if not || |tokens| < 2 then Undecidable
        else
          var g := ParseGuard(tokens[2..], alone);
          if g.Undecidable? then g else Guard([tokens[1]] + g.hosts, g.execs)
      else if crit == "exec" then
        if |tokens| < 2 then Undecidable
        else
          var g := ParseGuard(tokens[2..], alone);
          if g.Undecidable? then g else Guard(g.hosts, [Exec(tokens[1], not)] + g.execs)
      else Undecidable
  }

  predicate Passes(env: Env, e: Exec) {
    env.exec(e.cmd).Exits? && env.exec(e.cmd).zero != e.negated
  }

  predicate AllPass(env: Env, execs: seq<Exec>) {
    forall e :: e in execs ==> Passes(env, e)
  }

  predicate AllMatch(env: Env, hosts: seq<string>, host: string) {
    forall p :: p in hosts ==> env.patMatch(p, host)
  }

  lemma PassCons(env: Env, e: Exec, execs: seq<Exec>)
    ensures AllPass(env, [e] + execs) <==> Passes(env, e) && AllPass(env, execs)
  {
    assert ([e] + execs)[0] == e;
    assert forall x :: x in [e] + execs <==> x == e || x in execs;
  }

  lemma MatchCons(env: Env, p: string, hosts: seq<string>, host: string)
    ensures AllMatch(env, [p] + hosts, host) <==> env.patMatch(p, host) && AllMatch(env, hosts, host)
  {
    assert ([p] + hosts)[0] == p;
    assert forall x :: x in [p] + hosts <==> x == p || x in hosts;
  }

  /** The collected guard means the conjunction. */
  lemma {:induction false} GuardIsCriteria(env: Env, tokens: seq<string>, alone: bool, host: string)
    requires alone ==> |tokens| <= 1
    ensures var g := ParseGuard(tokens, alone);
            Criteria(env, tokens, alone, host) <==> g.Guard? && AllPass(env, g.execs) && AllMatch(env, g.hosts, host)
    decreases |tokens|
  {
    if tokens != [] {
      var (not, crit) := StripNot(Lower(tokens[0]));
      if crit == "all" {
        if alone {
          assert tokens[1..] == [];
        }
      } else if crit == "host" && |tokens| > 1 {
        GuardIsCriteria(env, tokens[2..], alone, host);
        var g := ParseGuard(tokens[2..], alone);
        if g.Guard? {
          MatchCons(env, tokens[1], g.hosts, host);
        }
      } else if crit == "exec" && |tokens| > 1 {
        GuardIsCriteria(env, tokens[2..], alone, host);
        var g := ParseGuard(tokens[2..], alone);
        if g.Guard? {
          PassCons(env, Exec(tokens[1], not), g.execs);
        }
      }
    }
  }

  /** A guard that is one exec holds when the command succeeds, a negated one
      when it fails, and neither when it is not run. */
  lemma ExecGuards(env: Env, cmd: string, host: string)
    requires NoQuote(cmd)
    ensures GuardHolds(env, "exec \"" + cmd + "\"", host) <==> env.exec(cmd) == Exits(true)
    ensures GuardHolds(env, "!exec \"" + cmd + "\"", host) <==> env.exec(cmd) == Exits(false)
  {
    var quoted := "\"" + cmd + "\"";
    TwoWords(env, "exec", quoted, cmd);
    TwoWords(env, "!exec", quoted, cmd);
    LowerExec();
    assert "exec" + " " + quoted == "exec \"" + cmd + "\"" && "!exec" + " " + quoted == "!exec \"" + cmd + "\"";
    assert "exec"[0] != "host"[0] && "exec"[0] != "all"[0];
    assert "!exec"[0] == '!' && "!exec"[1..] == "exec" && "exec"[0] != '!';
    assert ["exec", cmd][2..] == [] && ["!exec", cmd][2..] == [];
    assert Criteria(env, ["exec", cmd], false, host) <==> Passes(env, Exec(cmd, false));
    assert Criteria(env, ["!exec", cmd], false, host) <==> Passes(env, Exec(cmd, true));
  }

  lemma TwoWords(env: Env, word: string, quoted: string, cmd: string)
    requires NoQuote(cmd) && quoted == "\"" + cmd + "\"" && word != "" && Bare(word)
    ensures Args(word + " " + quoted) == Some([word, cmd])
  {
    ArgsRoundTrip([word, quoted], [word, cmd]);
    assert [word, quoted][1..] == [quoted];
    assert JoinBlank([word, quoted]) == word + " " + quoted;
  }

  lemma LowerExec()
    ensures Lower("exec") == "exec" && Lower("!exec") == "!exec"
  {
    assert "exec"[1..] == "xec" && "xec"[1..] == "ec" && "ec"[1..] == "c" && "c"[1..] == "" && "!exec"[1..] == "exec";
  }

  datatype Verdict = Keep | Rewritten(guard: string) | Drop

  function GuardOf(rest: string): Guard {
    var tokens := Args(rest);
    if tokens.None? || tokens.value == [] then Undecidable else ParseGuard(tokens.value, |tokens.value| == 1)
  }

  /** evalMatch's decision on the collected guard. */
  function Decide(env: Env, g: Guard): Verdict {
    if g.Undecidable? then Drop
    else if g.execs == [] then Keep
    else if !AllPass(env, g.execs) then Drop
    else Rewritten(if g.hosts == [] then "all" else "host " + JoinBlank(g.hosts))
  }

  function VerdictOn(env: Env, rest: string): Verdict {
    Decide(env, GuardOf(rest))
  }

  lemma GuardMeans(env: Env, rest: string, host: string)
    ensures GuardHolds(env, rest, host)
      <==> GuardOf(rest).Guard? && AllPass(env, GuardOf(rest).execs) && AllMatch(env, GuardOf(rest).hosts, host)
  {
    var tokens := Args(rest);
    if tokens.Some? && tokens.value != [] {
      GuardIsCriteria(env, tokens.value, |tokens.value| == 1, host);
    }
  }

  // ---- evalMatch ---------------------------------------------------------------------------

  function Plus(hosts: seq<string>, execs: seq<Exec>, g: Guard): Guard {
    if g.Undecidable? then g else Guard(hosts + g.hosts, execs + g.execs)
  }

  method Collect(tokens: seq<string>) returns (g: Guard)
    ensures g == ParseGuard(tokens, |tokens| == 1)
  {
    var hosts: seq<string> := [];
    var execs: seq<Exec> := [];
    var alone := |tokens| == 1;
    var i := 0;
    ghost var whole := ParseGuard(tokens, alone);
    assert tokens[0..] == tokens;
    PlusNothing(whole);
    while i < |tokens|
      invariant i <= |tokens| && Plus(hosts, execs, ParseGuard(tokens[i..], alone)) == whole
    {
      var (not, crit) := StripNot(Lower(tokens[i]));
      Unfold(tokens, i, alone, hosts, execs);
      if crit == "all" {
        if not || |tokens| != 1 {
          return Undecidable;
        }
      } else if crit == "host" {
        if not || i + 1 >= |tokens| {
          return Undecidable;
        }
        i := i + 1;
        hosts := hosts + [tokens[i]];
      } else if crit == "exec" {
        if i + 1 >= |tokens| {
          return Undecidable;
        }
        i := i + 1;
        execs := execs + [Exec(tokens[i], not)];
      } else {
        return Undecidable;
      }
      i := i + 1;
    }
    assert tokens[i..] == [] && hosts + [] == hosts && execs + [] == execs;
    g := Guard(hosts, execs);
  }

  lemma PlusNothing(g: Guard)
    ensures Plus([], [], g) == g
  {
    if g.Guard? {
      assert [] + g.hosts == g.hosts && [] + g.execs == g.execs;
    }
  }

  lemma Unfold(tokens: seq<string>, i: nat, alone: bool, hosts: seq<string>, execs: seq<Exec>)
    requires i < |tokens|
    ensures var (not, crit) := StripNot(Lower(tokens[i]));
            Plus(hosts, execs, ParseGuard(tokens[i..], alone)) ==
              if crit == "all" then
                if not || !alone then Undecidable else Plus(hosts, execs, ParseGuard(tokens[i + 1..], alone))
              else if crit == "host" then
                if not || i + 1 >= |tokens| then Undecidable
                else Plus(hosts + [tokens[i + 1]], execs, ParseGuard(tokens[i + 2..], alone))
              else if crit == "exec" then
                if i + 1 >= |tokens| then Undecidable
                else Plus(hosts, execs + [Exec(tokens[i + 1], not)], ParseGuard(tokens[i + 2..], alone))
              else Undecidable
  {
    var ts := tokens[i..];
    var (not, crit) := StripNot(Lower(tokens[i]));
    assert ts[0] == tokens[i] && ts[1..] == tokens[i + 1..];
    if i + 1 < |tokens| {
      assert ts[1] == tokens[i + 1] && ts[2..] == tokens[i + 2..];
      var g := ParseGuard(ts[2..], alone);
      if g.Guard? {
        assert hosts + ([ts[1]] + g.hosts) == (hosts + [ts[1]]) + g.hosts;
        assert execs + ([Exec(ts[1], not)] + g.execs) == (execs + [Exec(ts[1], not)]) + g.execs;
      }
    }
  }

  /** evalMatch */
  method EvalMatch(env: Env, rest: string) returns (v: Verdict)
    ensures v == VerdictOn(env, rest)
  {
    var tokens := SplitArgs(rest);
    if tokens.None? || |tokens.value| == 0 {
      return Drop;
    }
    var g := Collect(tokens.value);
    if g.Undecidable? {
      return Drop;
    }
    if |g.execs| == 0 {
      return Keep;
    }
    var i := 0;
    while i < |g.execs|
      invariant i <= |g.execs| && forall k :: 0 <= k < i ==> Passes(env, g.execs[k])
    {
      assert g.execs[i] in g.execs;
      var ran := env.exec(g.execs[i].cmd);
      if ran.NotRun? || ran.zero == g.execs[i].negated {
        return Drop;
      }
      i := i + 1;
    }
    v := Rewritten(if |g.hosts| > 0 then "host " + JoinBlank(g.hosts) else "all");
  }

  // ---- the repair ------------------------------------------------------------------------------

  /** One line of the repair, dropping telling whether its block is being
      blanked out: what stands there afterwards, and the same for the next. */
  function Repaired(env: Env, line: string, dropping: bool): (string, bool) {
    var (key, rest) := SplitKeyword(env, line);
    var k := Lower(key);
    if k == "host" then (line, false)
    else if k == "match" then
      match VerdictOn(env, rest)
      case Keep => (line, false)
      case Rewritten(guard) => (LeadingSpace(line) + "Match " + guard, false)
      case Drop => ("", true)
    else if dropping then ("", true)
    else if k == "include" && env.expand(rest).Some? then (env.expand(rest).value, false)
    else (line, false)
  }

  function Sanitized(env: Env, lines: seq<string>, dropping: bool): (out: seq<string>)
    ensures |out| == |lines|
  {
    if lines == [] then []
    else
      var (line, next) := Repaired(env, lines[0], dropping);
      [line] + Sanitized(env, lines[1..], next)
  }

  /** The body of sanitizeConfig's loop. */
  method RepairLine(env: Env, line: string, was: bool) returns (out: string, dropping: bool, changed: bool)
    ensures (out, dropping) == Repaired(env, line, was) && (!changed ==> out == line)
  {
    out, dropping, changed := line, was, false;
    var (key, rest) := SplitKeyword(env, line);
    var lower := Lower(key);
    if lower == "host" {
      dropping := false;
    } else if lower == "match" {
      var v := EvalMatch(env, rest);
      dropping := v.Drop?;
      if v.Rewritten? {
        return LeadingSpace(line) + "Match " + v.guard, dropping, true;
      }
    } else if lower == "include" && !dropping && env.expand(rest).Some? {
      return env.expand(rest).value, dropping, true;
    }
    if dropping {
      out, changed := "", true;
    }
  }

  lemma SanitizedUnfolds(env: Env, lines: seq<string>, i: nat, dropping: bool)
    requires i < |lines|
    ensures Sanitized(env, lines[i..], dropping)
      == [Repaired(env, lines[i], dropping).0] + Sanitized(env, lines[i + 1..], Repaired(env, lines[i], dropping).1)
  {
    assert lines[i..][0] == lines[i] && lines[i..][1..] == lines[i + 1..];
  }

  /** sanitizeConfig, on the lines in place. */
  method SanitizeConfig(env: Env, lines: array<string>) returns (changed: bool)
    modifies lines
    ensures lines[..] == Sanitized(env, old(lines[..]), false)
    ensures !changed ==> lines[..] == old(lines[..])
  {
    var dropping := false;
    changed := false;
    var i := 0;
    ghost var was := lines[..];
    assert was[0..] == was;
    while i < lines.Length
      invariant i <= lines.Length && |was| == lines.Length
      invariant lines[..i] + Sanitized(env, was[i..], dropping) == Sanitized(env, was, false)
      invariant forall k :: i <= k < lines.Length ==> lines[k] == was[k]
      invariant !changed ==> lines[..] == was
    {
      ghost var done := lines[..i];
      SanitizedUnfolds(env, was, i, dropping);
      var out, next, touched := RepairLine(env, lines[i], dropping);
      if touched {
        lines[i] := out;
        changed := true;
      }
      dropping := next;
      assert lines[..i + 1] == done + [out];
      Regroup(done, out, Sanitized(env, was[i + 1..], dropping));
      i := i + 1;
    }
    assert lines[..i] == lines[..] && lines[..i] + [] == lines[..i];
  }

  lemma Regroup(a: seq<string>, x: string, b: seq<string>)
    ensures a + ([x] + b) == (a + [x]) + b
  {
  }
}
