/** What a lookup finds in a decoded ssh_config: the parser's reading of a Match
    line, exactly which guards it reads in full, and when every lookup is what it
    should be. */
module SshLookup {
  import opened Common
  import opened SshConfig

  // ---- the parser's reading --------------------------------------------------------------------------

  /** The words of a text: what stands between blanks, quotes being ordinary
      characters; cur is the word being collected. */
  function WordsFrom(s: string, i: nat, cur: string): seq<string>
    requires i <= |s|
    decreases |s| - i
  {
    if i == |s| then (if cur != "" then [cur] else [])
    else if IsBlank(s[i]) then (if cur != "" then [cur] else []) + WordsFrom(s, i + 1, "")
    else WordsFrom(s, i + 1, cur + [s[i]])
  }

  function Words(s: string): seq<string> {
    WordsFrom(s, 0, "")
  }

  /** The two criteria the parser implements; anything else refuses the file.
      After "host" every word is a pattern. */
  datatype Reading = Refused | All | Hosts(patterns: seq<string>)

  function ParserReads(guard: string): Reading {
    var words := Words(guard);
    if words == [] then Refused
    else if Lower(words[0]) == "all" then if |words| == 1 then All else Refused
    else if Lower(words[0]) == "host" then if |words| > 1 then Hosts(words[1..]) else Refused
    else Refused
  }

  /** "all" stands alone, "host" does not, and there is nothing else. */
  lemma ParserAccepts(guard: string, words: seq<string>)
    requires words == Words(guard)
    ensures ParserReads(guard) == All <==> |words| == 1 && Lower(words[0]) == "all"
    ensures forall ps :: ParserReads(guard) == Hosts(ps) <==> |words| > 1 && Lower(words[0]) == "host" && ps == words[1..]
  {
    assert "all"[0] != "host"[0];
  }

  /** Any of the patterns may match. */
  predicate ReadingHolds(env: Env, r: Reading, host: string) {
    match r
    case Refused => false
    case All => true
    case Hosts(ps) => exists p :: p in ps && env.patMatch(p, host)
  }

  predicate ParserHolds(env: Env, guard: string, host: string) {
    ReadingHolds(env, ParserReads(guard), host)
  }

  // ---- lookup -------------------------------------------------------------------------------------

  /** The first-obtained value of key for host: the rest of the first line with
      that keyword in a block that applies.  holds says which guards do. */
  function Obtained(env: Env, holds: (string, string) -> bool, lines: seq<string>, active: bool, host: string, key: string)
    : Option<string>
  {
    if lines == [] then None
    else
      var (word, rest) := SplitKeyword(env, lines[0]);
      var k := Lower(word);
      if k == "host" then Obtained(env, holds, lines[1..], env.hostMatch(rest, host), host, key)
      else if k == "match" then Obtained(env, holds, lines[1..], holds(rest, host), host, key)
      else if active && k != "" && k == key then Some(rest)
      else Obtained(env, holds, lines[1..], active, host, key)
  }

  /** In a block that applies, the first line with that keyword decides; in one
      that does not, nothing is found. */
  lemma {:induction false} FirstObtained(env: Env, holds: (string, string) -> bool, block: seq<string>,
                                         host: string, key: string, k: nat)
    requires k <= |block| && key !in {"", "host", "match"}
    requires forall i :: 0 <= i < |block| ==> Lower(SplitKeyword(env, block[i]).0) !in {"host", "match"}
    requires forall i :: 0 <= i < k ==> Lower(SplitKeyword(env, block[i]).0) != key
    requires k < |block| ==> Lower(SplitKeyword(env, block[k]).0) == key
    ensures Obtained(env, holds, block, true, host, key)
      == if k == |block| then None else Some(SplitKeyword(env, block[k]).1)
    ensures Obtained(env, holds, block, false, host, key) == None
  {
    hide SplitKeyword, Lower;
    if block != [] {
      assert Lower(SplitKeyword(env, block[0]).0) !in {"host", "match"};
      if k > 0 {
        FirstObtained(env, holds, block[1..], host, key, k - 1);
      } else {
        NothingObtained(env, holds, block[1..], host, key);
      }
    }
  }

  lemma {:induction false} NothingObtained(env: Env, holds: (string, string) -> bool, block: seq<string>, host: string,
                                           key: string)
    requires forall i :: 0 <= i < |block| ==> Lower(SplitKeyword(env, block[i]).0) !in {"host", "match"}
    ensures Obtained(env, holds, block, false, host, key) == None
  {
    hide SplitKeyword, Lower;
    if block != [] {
      NothingObtained(env, holds, block[1..], host, key);
    }
  }

  /** Every guard read in full, as the conjunction it is. */
  function InFull(env: Env): (string, string) -> bool {
    (rest: string, host: string) => GuardHolds(env, rest, host)
  }

  function ByParser(env: Env): (string, string) -> bool {
    (rest: string, host: string) => ParserHolds(env, rest, host)
  }

  predicate IncludeFree(env: Env, lines: seq<string>) {
    forall i :: 0 <= i < |lines| ==> Lower(SplitKeyword(env, lines[i]).0) != "include"
  }

  // ---- how a rewritten line reads ---------------------------------------------------------------------

  lemma {:induction false} LeadingIsBlank(line: string)
    ensures forall i :: 0 <= i < |LeadingSpace(line)| ==> IsBlank(LeadingSpace(line)[i])
  {
    if line != "" && IsBlank(line[0]) {
      LeadingIsBlank(line[1..]);
    }
  }

  lemma {:induction false} TrimLeading(env: Env, pre: string, s: string)
    requires env.isSpace(' ') && env.isSpace('\t')
    requires (forall i :: 0 <= i < |pre| ==> IsBlank(pre[i])) && s != "" && !env.isSpace(s[0])
    ensures TrimLeft(env.isSpace, pre + s) == s
  {
    if pre == "" {
      assert pre + s == s;
    } else {
      assert (pre + s)[1..] == pre[1..] + s;
      TrimLeading(env, pre[1..], s);
    }
  }

  /** What the reader takes for the guard of a rewritten line. */
  function Reread(env: Env, guard: string): string {
    TrimRight(env.isSpace, guard)
  }

  /** Every guard evalMatch writes begins with one of its two keywords. */
  predicate WrittenGuard(guard: string) {
    guard == "all" || "host " <= guard
  }

  /** A rewritten guard line reads back as the keyword Match and that guard,
      less what TrimSpace takes off its end. */
  lemma RewrittenLineReads(env: Env, pre: string, guard: string)
    requires SpacesAreSpaces(env) && WrittenGuard(guard) && forall i :: 0 <= i < |pre| ==> IsBlank(pre[i])
    ensures SplitKeyword(env, pre + "Match " + guard) == ("Match", Reread(env, guard))
  {
    hide SpacesAreSpaces;
    GuardStarts(env, guard);
    var s := "Match " + guard;
    assert pre + "Match " + guard == pre + s;
    TrimLeading(env, pre, s);
    TrimRightTail(env.isSpace, "Match ", guard);
    StartIsKept(env.isSpace, guard);
    var r := Reread(env, guard);
    KeywordOfMatch(r);
    assert ("Match " + r)[..5] == "Match" && ("Match " + r)[5..] == " " + r;
    TrimLeading(env, " ", r);
    TrimRightTwice(env.isSpace, guard);
  }

  lemma GuardStarts(env: Env, guard: string)
    requires SpacesAreSpaces(env) && WrittenGuard(guard)
    ensures guard != "" && !env.isSpace(guard[0]) && !EndsKeyword(guard[0]) && !env.isSpace('M')
    ensures env.isSpace(' ') && env.isSpace('\t')
  {
    assert guard[0] == 'a' || guard[0] == 'h';
  }

  lemma {:induction false} StartIsKept(p: char -> bool, s: string)
    requires s != "" && !p(s[0])
    ensures TrimRight(p, s) != "" && TrimRight(p, s)[0] == s[0]
  {
    if p(s[|s| - 1]) {
      StartIsKept(p, s[..|s| - 1]);
    }
  }

  lemma {:induction false} TrimRightTwice(p: char -> bool, s: string)
    ensures TrimRight(p, TrimRight(p, s)) == TrimRight(p, s)
  {
    if s != "" && p(s[|s| - 1]) {
      TrimRightTwice(p, s[..|s| - 1]);
    }
  }

  lemma KeywordOfMatch(guard: string)
    ensures KeywordEnd("Match " + guard) == 5
  {
    var s := "Match " + guard;
    assert s[0] == 'M' && s[1] == 'a' && s[2] == 't' && s[3] == 'c' && s[4] == 'h' && s[5] == ' ';
  }

  lemma LowerMatch()
    ensures Lower("Match") == "match"
  {
    assert "Match"[1..] == "atch" && "atch"[1..] == "tch" && "tch"[1..] == "ch" && "ch"[1..] == "h" && "h"[1..] == "";
  }

  lemma {:induction false} LowerWord(w: string)
    requires forall i :: 0 <= i < |w| ==> !('A' <= w[i] <= 'Z')
    ensures Lower(w) == w
  {
    if w != "" {
      LowerWord(w[1..]);
    }
  }

  // ---- exactly which guards the parser reads in full ------------------------------------------------------

  /** The same file and commands, with other hosts in the world. */
  function With(env: Env, patMatch: (string, string) -> bool): Env {
    env.(patMatch := patMatch)
  }

  /** The parser takes text, which stands in place of the guard rest, for what
      rest means: for every way patterns may match and every host. */
  ghost predicate Preserved(env: Env, rest: string, text: string) {
    forall pm: (string, string) -> bool, host: string :: SameUnder(env, rest, text, pm, host)
  }

  ghost predicate SameUnder(env: Env, rest: string, text: string, pm: (string, string) -> bool, host: string) {
    ParserHolds(With(env, pm), Reread(env, text), host) <==> GuardHolds(With(env, pm), rest, host)
  }

  /** p and nothing else. */
  predicate Only(p: string, ps: seq<string>) {
    ps != [] && forall x :: x in ps ==> x == p
  }

  /** What can be read off the two texts: no pattern on either side, or one and
      the same on both. */
  predicate Keeps(env: Env, rest: string, text: string) {
    GuardOf(rest).Guard? &&
    var hosts := GuardOf(rest).hosts;
    match ParserReads(Reread(env, text))
    case Refused => false
    case All => hosts == []
    case Hosts(ps) => hosts != [] && Only(hosts[0], hosts) && Only(hosts[0], ps)
  }

  lemma PassWith(env: Env, pm: (string, string) -> bool, execs: seq<Exec>)
    ensures AllPass(With(env, pm), execs) <==> AllPass(env, execs)
  {
    forall e | e in execs ensures Passes(With(env, pm), e) <==> Passes(env, e) {
    }
  }

  lemma MeansWith(env: Env, pm: (string, string) -> bool, rest: string, host: string)
    ensures GuardHolds(With(env, pm), rest, host)
      <==> GuardOf(rest).Guard? && AllPass(env, GuardOf(rest).execs) && forall p :: p in GuardOf(rest).hosts ==> pm(p, host)
  {
    GuardMeans(With(env, pm), rest, host);
    if GuardOf(rest).Guard? {
      PassWith(env, pm, GuardOf(rest).execs);
    }
  }

  /** The guard is decidable and its commands pass: it holds for some hosts. */
  predicate Decided(env: Env, rest: string) {
    GuardOf(rest).Guard? && AllPass(env, GuardOf(rest).execs)
  }

  /** The exact condition, for any guard and any text: a guard that can hold is
      read in full if and only if neither text names a pattern or both name one
      and the same; one that cannot, if and only if the parser refuses it. */
  lemma PreservedExactly(env: Env, rest: string, text: string)
    ensures Preserved(env, rest, text)
      <==> if Decided(env, rest) then Keeps(env, rest, text) else ParserReads(Reread(env, text)).Refused?
  {
    hide GuardHolds, GuardOf, ParserReads, SameUnder;
    if !Decided(env, rest) {
      UndecidedIsFalse(env, rest, text);
    } else {
      if Keeps(env, rest, text) {
        KeptIsSame(env, rest, text);
      }
      if Preserved(env, rest, text) {
        SameIsKept(env, rest, text);
      }
    }
  }

  lemma UndecidedIsFalse(env: Env, rest: string, text: string)
    requires !Decided(env, rest)
    ensures Preserved(env, rest, text) <==> ParserReads(Reread(env, text)).Refused?
  {
    hide GuardHolds, GuardOf;
    forall pm: (string, string) -> bool, host: string ensures !GuardHolds(With(env, pm), rest, host) {
      MeansWith(env, pm, rest, host);
    }
    var always := (p: string, h: string) => true;
    var r := ParserReads(Reread(env, text));
    assert r.Hosts? ==> r.patterns[0] in r.patterns && With(env, always).patMatch(r.patterns[0], "");
    assert !r.Refused? ==> !SameUnder(env, rest, text, always, "");
  }

  lemma KeptIsSame(env: Env, rest: string, text: string)
    requires Decided(env, rest) && Keeps(env, rest, text)
    ensures Preserved(env, rest, text)
  {
    hide GuardHolds, GuardOf, ParserReads;
    var hosts, r := GuardOf(rest).hosts, ParserReads(Reread(env, text));
    forall pm: (string, string) -> bool, host: string ensures SameUnder(env, rest, text, pm, host) {
      MeansWith(env, pm, rest, host);
      if r.Hosts? {
        assert r.patterns[0] in r.patterns && hosts[0] in hosts;
      }
    }
  }

  lemma SameIsKept(env: Env, rest: string, text: string)
    requires Decided(env, rest) && Preserved(env, rest, text)
    ensures Keeps(env, rest, text)
  {
    hide GuardHolds, GuardOf, ParserReads, Preserved;
    var hosts, r := GuardOf(rest).hosts, ParserReads(Reread(env, text));
    PreservedParses(env, rest, text);
    if r.Hosts? {
      forall p, x | p in r.patterns && x in hosts ensures x == p {
        PreservedNames(env, rest, text, p, x);
      }
      assert r.patterns[0] in r.patterns && hosts[0] in hosts;
    }
  }

  /** Hosts that match nothing, and hosts that match everything. */
  lemma PreservedParses(env: Env, rest: string, text: string)
    requires Decided(env, rest) && Preserved(env, rest, text)
    ensures var r := ParserReads(Reread(env, text));
            !r.Refused? && (r.All? <==> GuardOf(rest).hosts == []) && (r.Hosts? ==> r.patterns != [])
  {
    hide GuardHolds, GuardOf, ParserReads;
    var hosts := GuardOf(rest).hosts;
    var always, never := (p: string, h: string) => true, (p: string, h: string) => false;
    MeansWith(env, always, rest, "");
    MeansWith(env, never, rest, "");
    assert SameUnder(env, rest, text, always, "") && SameUnder(env, rest, text, never, "");
    if hosts != [] {
      assert hosts[0] in hosts;
    }
  }

  /** Hosts that match one pattern the parser reads, and no other. */
  lemma PreservedNames(env: Env, rest: string, text: string, p: string, x: string)
    requires Decided(env, rest) && Preserved(env, rest, text)
    requires var r := ParserReads(Reread(env, text)); r.Hosts? && p in r.patterns
    requires x in GuardOf(rest).hosts
    ensures x == p
  {
    hide GuardHolds, GuardOf, ParserReads;
    var one := (y: string, h: string) => y == p;
    MeansWith(env, one, rest, "");
    assert SameUnder(env, rest, text, one, "");
    assert one(p, "") && With(env, one).patMatch(p, "");
  }

  // ---- rewritten guards -----------------------------------------------------------------------------------

  /** A host pattern that stands for itself on a Match line. */
  predicate PlainWord(env: Env, p: string) {
    p != "" && Bare(p) && !env.isSpace(p[|p| - 1])
  }

  lemma {:induction false} TokensUnquoted(s: string, i: nat, cur: string, quoted: bool, started: bool)
    requires i <= |s| && NoQuote(cur) && ArgsFrom(s, i, cur, quoted, started).Some?
    ensures forall t :: t in ArgsFrom(s, i, cur, quoted, started).value ==> NoQuote(t)
    decreases |s| - i
  {
    if i < |s| {
      if s[i] == '"' {
        TokensUnquoted(s, i + 1, cur, !quoted, true);
      } else if !quoted && IsBlank(s[i]) {
        TokensUnquoted(s, i + 1, if started then "" else cur, quoted, false);
      } else {
        TokensUnquoted(s, i + 1, cur + [s[i]], quoted, true);
      }
    }
  }

  lemma {:induction false} PatternsAreTokens(tokens: seq<string>, alone: bool)
    requires ParseGuard(tokens, alone).Guard?
    ensures forall p :: p in ParseGuard(tokens, alone).hosts ==> p in tokens
    decreases |tokens|
  {
    if tokens != [] {
      var (not, crit) := StripNot(Lower(tokens[0]));
      if crit == "all" {
        PatternsAreTokens(tokens[1..], alone);
      } else {
        PatternsAreTokens(tokens[2..], alone);
      }
    }
  }

  /** No pattern of a guard holds a quote. */
  lemma PatternsUnquoted(rest: string)
    requires GuardOf(rest).Guard?
    ensures forall p :: p in GuardOf(rest).hosts ==> NoQuote(p)
  {
    TokensUnquoted(rest, 0, "", false, false);
    PatternsAreTokens(Args(rest).value, |Args(rest).value| == 1);
  }

  /** Without quotes, words and tokens are the same. */
  lemma {:induction false} WordsAreTokens(s: string, i: nat, cur: string, started: bool)
    requires i <= |s| && NoQuote(s) && (started <==> cur != "")
    ensures ArgsFrom(s, i, cur, false, started) == Some(WordsFrom(s, i, cur))
    decreases |s| - i
  {
    if i < |s| {
      assert s[i] != '"';
      if IsBlank(s[i]) {
        WordsAreTokens(s, i + 1, "", false);
        assert [] + WordsFrom(s, i + 1, "") == WordsFrom(s, i + 1, "");
      } else {
        WordsAreTokens(s, i + 1, cur + [s[i]], true);
      }
    }
  }

  lemma {:induction false} TrimRightPrefix(p: char -> bool, s: string)
    ensures TrimRight(p, s) <= s && (TrimRight(p, s) != "" ==> !p(TrimRight(p, s)[|TrimRight(p, s)| - 1]))
  {
    if s != "" && p(s[|s| - 1]) {
      TrimRightPrefix(p, s[..|s| - 1]);
      assert TrimRight(p, s) == s[..|TrimRight(p, s)|];
    }
  }

  lemma {:induction false} TrimRightTail(p: char -> bool, pre: string, s: string)
    ensures TrimRight(p, pre + s) == if TrimRight(p, s) == "" then TrimRight(p, pre) else pre + TrimRight(p, s)
    decreases |s|
  {
    if s == "" {
      assert pre + s == pre;
    } else {
      assert (pre + s)[|pre + s| - 1] == s[|s| - 1];
      if p(s[|s| - 1]) {
        assert (pre + s)[..|pre + s| - 1] == pre + s[..|s| - 1];
        TrimRightTail(p, pre, s[..|s| - 1]);
      }
    }
  }

  lemma JoinHost(hosts: seq<string>)
    requires hosts != []
    ensures JoinBlank(["host"] + hosts) == "host " + JoinBlank(hosts)
  {
    assert (["host"] + hosts)[1..] == hosts && "host" + " " == "host ";
  }

  lemma {:induction false} JoinEnds(words: seq<string>)
    requires words != [] && words[|words| - 1] != ""
    ensures var s, last := JoinBlank(words), words[|words| - 1];
            s != "" && s[|s| - 1] == last[|last| - 1]
  {
    if |words| > 1 {
      JoinEnds(words[1..]);
    }
  }

  lemma {:induction false} JoinUnquoted(words: seq<string>)
    requires forall k :: 0 <= k < |words| ==> NoQuote(words[k])
    ensures NoQuote(JoinBlank(words))
  {
    if |words| > 1 {
      JoinUnquoted(words[1..]);
    }
  }

  /** Bare words joined by blanks are the words read. */
  lemma BareWordsRead(words: seq<string>)
    requires forall k :: 0 <= k < |words| ==> words[k] != "" && Bare(words[k])
    ensures Words(JoinBlank(words)) == words
  {
    hide ArgsFrom, WordsFrom, JoinBlank;
    ArgsRoundTrip(words, words);
    JoinUnquoted(words);
    WordsAreTokens(JoinBlank(words), 0, "", false);
  }

  /** Words are not empty and hold no blank; the last one ends where the text
      does. */
  lemma {:induction false} WordsEnd(s: string, i: nat, cur: string)
    requires i <= |s| && (forall k :: 0 <= k < |cur| ==> !IsBlank(cur[k]))
    ensures forall w :: w in WordsFrom(s, i, cur) ==> w != "" && forall k :: 0 <= k < |w| ==> !IsBlank(w[k])
    ensures i < |s| && !IsBlank(s[|s| - 1]) ==>
      var words := WordsFrom(s, i, cur); words != [] && LastOf(words) != "" && EndOf(LastOf(words)) == s[|s| - 1]
    decreases |s| - i
  {
    if i < |s| {
      if IsBlank(s[i]) {
        WordsEnd(s, i + 1, "");
      } else if i + 1 < |s| {
        WordsEnd(s, i + 1, cur + [s[i]]);
      } else {
        var word := cur + [s[i]];
        assert WordsFrom(s, i + 1, word) == [word];
      }
    }
  }

  function LastOf(words: seq<string>): string
    requires words != []
  {
    words[|words| - 1]
  }

  function EndOf(word: string): char
    requires word != ""
  {
    word[|word| - 1]
  }

  lemma HostWords(hosts: seq<string>)
    requires hosts != [] && forall k :: 0 <= k < |hosts| ==> hosts[k] != "" && Bare(hosts[k])
    ensures ParserReads("host " + JoinBlank(hosts)) == Hosts(hosts)
  {
    hide Words, JoinBlank, Bare;
    var all := ["host"] + hosts;
    assert Bare("host") by {
      HostIsBare();
    }
    assert forall k :: 0 < k < |all| ==> all[k] == hosts[k - 1];
    BareWordsRead(all);
    JoinHost(hosts);
    LowerWord("host");
    assert all[1..] == hosts;
  }

  lemma HostIsBare()
    ensures Bare("host")
  {
  }

  lemma AllReads(env: Env)
    requires SpacesAreSpaces(env)
    ensures ParserReads(Reread(env, "all")) == All
  {
    BareWordsRead(["all"]);
    assert JoinBlank(["all"]) == "all" && !env.isSpace("all"[2]);
    LowerWord("all");
  }

  /** Several times one plain word is read as that word. */
  lemma PlainIsKept(env: Env, rest: string, guard: string)
    requires VerdictOn(env, rest) == Rewritten(guard) && GuardOf(rest).hosts != []
    requires var hosts := GuardOf(rest).hosts; PlainWord(env, hosts[0]) && Only(hosts[0], hosts)
    ensures Keeps(env, rest, guard)
  {
    hide GuardOf, JoinBlank, ParserReads;
    var hosts := GuardOf(rest).hosts;
    assert forall k :: 0 <= k < |hosts| ==> hosts[k] in hosts;
    JoinEnds(hosts);
    HostWords(hosts);
    assert EndOf(guard) == EndOf(JoinBlank(hosts));
    assert Reread(env, guard) == guard;
  }

  /** The last word of a trimmed text ends in no space. */
  lemma KeptIsPlain(env: Env, rest: string, guard: string)
    requires SpacesAreSpaces(env) && VerdictOn(env, rest) == Rewritten(guard) && GuardOf(rest).hosts != []
    requires Keeps(env, rest, guard)
    ensures var hosts := GuardOf(rest).hosts; PlainWord(env, hosts[0]) && Only(hosts[0], hosts)
  {
    hide GuardOf, JoinBlank, WordsFrom;
    var p, text := GuardOf(rest).hosts[0], Reread(env, guard);
    var words := Words(text);
    TrimRightPrefix(env.isSpace, guard);
    NoWords();
    assert text != "";
    WordsEnd(text, 0, "");
    assert env.isSpace(' ') && env.isSpace('\t');
    assert LastOf(words) == LastOf(words[1..]) && LastOf(words[1..]) in words[1..];
    assert p == LastOf(words) && LastOf(words) in words;
    PatternsUnquoted(rest);
    assert p in GuardOf(rest).hosts;
  }

  lemma NoWords()
    ensures WordsFrom("", 0, "") == []
  {
  }

  /** A rewritten guard is read in full if and only if it names no host pattern,
      or only one, a plain word. */
  lemma RewrittenExactly(env: Env, rest: string, guard: string)
    requires SpacesAreSpaces(env) && VerdictOn(env, rest) == Rewritten(guard)
    ensures var hosts := GuardOf(rest).hosts;
            Preserved(env, rest, guard) <==> hosts == [] || (PlainWord(env, hosts[0]) && Only(hosts[0], hosts))
  {
    hide SpacesAreSpaces, GuardOf, Preserved;
    PreservedExactly(env, rest, guard);
    if GuardOf(rest).hosts == [] {
      AllReads(env);
    } else if Keeps(env, rest, guard) {
      KeptIsPlain(env, rest, guard);
    } else if PlainWord(env, GuardOf(rest).hosts[0]) && Only(GuardOf(rest).hosts[0], GuardOf(rest).hosts) {
      PlainIsKept(env, rest, guard);
    }
  }

  /** With no pattern at all "Match all" is left. */
  lemma NoPatternKept(env: Env, rest: string, guard: string)
    requires SpacesAreSpaces(env) && VerdictOn(env, rest) == Rewritten(guard) && GuardOf(rest).hosts == []
    ensures Preserved(env, rest, guard)
  {
    RewrittenExactly(env, rest, guard);
  }

  /** One pattern is kept if and only if it is a plain word. */
  lemma OnePatternExactly(env: Env, rest: string, guard: string, p: string)
    requires SpacesAreSpaces(env) && VerdictOn(env, rest) == Rewritten(guard) && GuardOf(rest).hosts == [p]
    ensures Preserved(env, rest, guard) <==> PlainWord(env, p)
  {
    hide Preserved;
    RewrittenExactly(env, rest, guard);
  }

  /** Two are kept if and only if they are the same plain word. */
  lemma TwoPatternsExactly(env: Env, rest: string, guard: string, p: string, q: string)
    requires SpacesAreSpaces(env) && VerdictOn(env, rest) == Rewritten(guard) && GuardOf(rest).hosts == [p, q]
    ensures Preserved(env, rest, guard) <==> p == q && PlainWord(env, p)
  {
    hide Preserved;
    RewrittenExactly(env, rest, guard);
    assert q in [p, q];
  }

  // ---- guards left as they are ------------------------------------------------------------------------------

  /** A guard left verbatim, without quotes, is read in full if and only if it
      is "all" or repeats one word after its first "host". */
  lemma KeepExactly(env: Env, rest: string)
    requires VerdictOn(env, rest) == Keep && NoQuote(rest) && Reread(env, rest) == rest
    ensures var tokens := Args(rest).value;
            Preserved(env, rest, rest) <==> |tokens| == 1 || Only(tokens[1], tokens[1..])
  {
    hide Preserved, AllPass;
    var tokens := Args(rest).value;
    WordsAreTokens(rest, 0, "", false);
    PreservedExactly(env, rest, rest);
    NothingToPass(env);
    KeepTokens(rest);
    if |tokens| > 1 {
      var hosts := GuardOf(rest).hosts;
      assert hosts[0] in tokens[1..];
    }
  }

  lemma NothingToPass(env: Env)
    ensures AllPass(env, [])
  {
  }

  /** Its shape: "all" alone, or "host" and a pattern, again and again. */
  lemma KeepTokens(rest: string)
    requires GuardOf(rest).Guard? && GuardOf(rest).execs == []
    ensures var tokens, hosts := Args(rest).value, GuardOf(rest).hosts;
            && (|tokens| == 1 ==> Lower(tokens[0]) == "all" && hosts == [])
            && (|tokens| != 1 ==>
              && |tokens| > 1 && Lower(tokens[0]) == "host" && hosts != [] && hosts[0] == tokens[1]
              && forall p :: p in hosts ==> p in tokens[1..])
  {
    var tokens := Args(rest).value;
    var (not, crit) := StripNot(Lower(tokens[0]));
    if |tokens| > 1 {
      PatternsAreTokens(tokens[2..], false);
      assert tokens[1] in tokens[1..] && forall p :: p in tokens[2..] ==> p in tokens[1..];
    } else {
      assert tokens[1..] == [] && ParseGuard([], true) == Guard([], []);
    }
  }

  // ---- three misreadings ----------------------------------------------------------------------------------

  lemma PlainTokens(words: seq<string>)
    requires words != [] && forall k :: 0 <= k < |words| ==> words[k] != "" && Bare(words[k])
    ensures Args(JoinBlank(words)) == Some(words) && GuardOf(JoinBlank(words)) == ParseGuard(words, |words| == 1)
  {
    ArgsRoundTrip(words, words);
  }

  lemma HostThen(p: string, tokens: seq<string>)
    ensures var g := ParseGuard(tokens, false);
            ParseGuard(["host", p] + tokens, false) == if g.Undecidable? then g else Guard([p] + g.hosts, g.execs)
  {
    LowerWord("host");
    assert (["host", p] + tokens)[2..] == tokens;
  }

  lemma ExecThen(cmd: string, tokens: seq<string>)
    ensures var g := ParseGuard(tokens, false);
            ParseGuard(["exec", cmd] + tokens, false) == if g.Undecidable? then g else Guard(g.hosts, [Exec(cmd, false)] + g.execs)
  {
    LowerWord("exec");
    assert (["exec", cmd] + tokens)[2..] == tokens;
  }

  lemma NoTokens()
    ensures ParseGuard([], false) == Guard([], [])
  {
  }

  /** A host that the pattern b matches and a does not. */
  predicate OnlyB(env: Env, host: string) {
    env.patMatch("b", host) && !env.patMatch("a", host)
  }

  lemma BothNeeded(env: Env, rest: string, host: string)
    requires OnlyB(env, host) && GuardOf(rest).Guard? && GuardOf(rest).hosts == ["a", "b"]
    ensures !GuardHolds(env, rest, host)
  {
    hide GuardHolds, GuardOf;
    GuardMeans(env, rest, host);
    assert "a" in ["a", "b"];
  }

  /** host a host b exec true */
  const TWO_HOSTS: seq<string> := ["host", "a", "host", "b", "exec", "true"]

  /** "host a b" comes out, which the parser takes for either: the block now
      applies to a host that matches only b. */
  lemma TwoHostsAreMisread(env: Env, host: string)
    requires env.exec("true") == Exits(true) && OnlyB(env, host)
    ensures var rest := JoinBlank(TWO_HOSTS);
            VerdictOn(env, rest) == Rewritten("host a b") && ParserHolds(env, "host a b", host) && !GuardHolds(env, rest, host)
  {
    hide GuardOf, ParseGuard, ParserReads, GuardHolds;
    var rest := JoinBlank(TWO_HOSTS);
    PlainTokens(TWO_HOSTS);
    ExecThen("true", []);
    HostThen("b", ["exec", "true"]);
    HostThen("a", ["host", "b", "exec", "true"]);
    NoTokens();
    assert ["exec", "true"] + [] == ["exec", "true"] && ["host", "b"] + ["exec", "true"] == ["host", "b", "exec", "true"];
    assert TWO_HOSTS == ["host", "a"] + ["host", "b", "exec", "true"];
    assert GuardOf(rest) == Guard(["a", "b"], [Exec("true", false)]);
    assert AllPass(env, [Exec("true", false)]);
    JoinTwo("a", "b");
    assert "host " + "a b" == "host a b" && "a" + " " + "b" == "a b";
    HostWords(["a", "b"]);
    assert "b" in ["a", "b"];
    BothNeeded(env, rest, host);
  }

  lemma JoinTwo(p: string, q: string)
    ensures JoinBlank([p, q]) == p + " " + q
  {
    assert [p, q][1..] == [q];
  }

  /** host a host b, left as it is */
  const KEPT_HOSTS: seq<string> := ["a", "host", "b"]

  /** The parser takes it for three patterns, one of them "host". */
  lemma KeptHostsAreMisread(env: Env, host: string)
    requires OnlyB(env, host)
    ensures var rest := "host " + JoinBlank(KEPT_HOSTS);
            && VerdictOn(env, rest) == Keep && ParserReads(rest) == Hosts(KEPT_HOSTS)
            && ParserHolds(env, rest, host) && !GuardHolds(env, rest, host)
  {
    hide GuardOf, ParseGuard, ParserReads, GuardHolds;
    var rest, all := "host " + JoinBlank(KEPT_HOSTS), ["host", "a", "host", "b"];
    JoinHost(KEPT_HOSTS);
    assert ["host"] + KEPT_HOSTS == all;
    PlainTokens(all);
    HostThen("b", []);
    HostThen("a", ["host", "b"]);
    NoTokens();
    assert ["host", "b"] + [] == ["host", "b"] && ["host", "a"] + ["host", "b"] == all;
    assert GuardOf(rest) == Guard(["a", "b"], []);
    HostWords(KEPT_HOSTS);
    assert "b" in KEPT_HOSTS;
    NothingToPass(env);
    BothNeeded(env, rest, host);
  }

  /** host a user b, in a file with nothing to repair: the parser accepts it,
      and the block applies to any host called user. */
  const COMPOUND: seq<string> := ["a", "user", "b"]

  lemma CompoundIsMisread(env: Env, host: string)
    requires env.patMatch("user", host)
    ensures var rest := "host " + JoinBlank(COMPOUND);
            VerdictOn(env, rest) == Drop && ParserHolds(env, rest, host) && !GuardHolds(env, rest, host)
  {
    hide GuardOf, ParseGuard, ParserReads, GuardHolds;
    var rest, all := "host " + JoinBlank(COMPOUND), ["host", "a", "user", "b"];
    JoinHost(COMPOUND);
    assert ["host"] + COMPOUND == all;
    PlainTokens(all);
    HostThen("a", ["user", "b"]);
    UserIsUndecidable();
    assert ["host", "a"] + ["user", "b"] == all;
    HostWords(COMPOUND);
    assert "user" in COMPOUND;
    GuardMeans(env, rest, host);
  }

  lemma UserIsUndecidable()
    ensures ParseGuard(["user", "b"], false) == Undecidable
  {
    LowerWord("user");
  }

  // ---- whole configs ---------------------------------------------------------------------------------------------

  /** The parser refuses no Match line. */
  predicate Readable(env: Env, lines: seq<string>) {
    forall i :: 0 <= i < |lines| && Lower(SplitKeyword(env, lines[i]).0) == "match" ==>
      !ParserReads(SplitKeyword(env, lines[i]).1).Refused?
  }

  /** DecodeConfig: the lines as they are when the parser takes them, else the
      repaired ones. */
  function Decoded(env: Env, lines: seq<string>): Option<seq<string>> {
    if Readable(env, lines) then Some(lines)
    else
      var repaired := Sanitized(env, lines, false);
      if Readable(env, repaired) then Some(repaired) else None
  }

  /** Read in full as it stands... */
  predicate AsItStands(env: Env, rest: string) {
    Decided(env, rest) && Keeps(env, rest, rest)
  }

  /** ... or as the repair leaves it. */
  predicate AsRepaired(env: Env, rest: string) {
    match VerdictOn(env, rest)
    case Drop => true
    case Keep => Keeps(env, rest, rest)
    case Rewritten(guard) => Keeps(env, rest, guard)
  }

  predicate ReadInFull(env: Env, readable: bool, rest: string) {
    if readable then AsItStands(env, rest) else AsRepaired(env, rest)
  }

  predicate GuardsInFull(env: Env, readable: bool, lines: seq<string>) {
    forall i :: 0 <= i < |lines| && Lower(SplitKeyword(env, lines[i]).0) == "match" ==>
      ReadInFull(env, readable, SplitKeyword(env, lines[i]).1)
  }

  /** Blank lines have no keyword. */
  lemma BlankLine(env: Env)
    ensures SplitKeyword(env, "") == ("", "")
  {
  }

  lemma GuardIsWritten(env: Env, rest: string)
    requires VerdictOn(env, rest).Rewritten?
    ensures WrittenGuard(VerdictOn(env, rest).guard)
  {
  }

  lemma {:induction false} LeftTrimmed(p: char -> bool, s: string)
    ensures var r := TrimLeft(p, s); r != "" ==> s != "" && EndOf(r) == EndOf(s)
  {
    if s != "" && p(s[0]) {
      LeftTrimmed(p, s[1..]);
    }
  }

  /** What follows a keyword ends in no space. */
  lemma RestIsTrimmed(env: Env, line: string)
    ensures Reread(env, SplitKeyword(env, line).1) == SplitKeyword(env, line).1
  {
    var s := TrimSpace(env, line);
    var i := KeywordEnd(s);
    if i < |s| {
      var t := TrimSpace(env, s[i..]);
      TrimRightPrefix(env.isSpace, TrimLeft(env.isSpace, s[i..]));
      LeftTrimmed(EndsKeyword, t);
    }
  }

  /** A guard that holds for some hosts keeps its meaning when it is kept. */
  lemma SameForHost(env: Env, rest: string, text: string, host: string)
    requires Decided(env, rest) && Keeps(env, rest, text)
    ensures ParserHolds(env, Reread(env, text), host) <==> GuardHolds(env, rest, host)
    ensures !ParserReads(Reread(env, text)).Refused?
  {
    hide GuardHolds, GuardOf, ParserReads;
    KeptIsSame(env, rest, text);
    assert SameUnder(env, rest, text, env.patMatch, host);
    assert With(env, env.patMatch) == env;
  }

  /** A repaired Match line: dropped only when its guard is false, else read as
      the guard it stands for. */
  lemma MatchLineKept(env: Env, line: string, host: string)
    requires SpacesAreSpaces(env) && Lower(SplitKeyword(env, line).0) == "match" && AsRepaired(env, SplitKeyword(env, line).1)
    ensures var rest := SplitKeyword(env, line).1;
            if VerdictOn(env, rest).Drop? then !GuardHolds(env, rest, host)
            else
              var (word, read) := SplitKeyword(env, Repaired(env, line, false).0);
              Lower(word) == "match" && !ParserReads(read).Refused? && (ParserHolds(env, read, host) <==> GuardHolds(env, rest, host))
  {
    hide GuardOf, SpacesAreSpaces, LeadingSpace, ParserReads, GuardHolds, Reread;
    var rest := SplitKeyword(env, line).1;
    GuardMeans(env, rest, host);
    match VerdictOn(env, rest) {
      case Drop =>
      case Keep =>
        NothingToPass(env);
        SameForHost(env, rest, rest, host);
        RestIsTrimmed(env, line);
      case Rewritten(guard) =>
        SameForHost(env, rest, guard, host);
        GuardIsWritten(env, rest);
        LeadingIsBlank(line);
        RewrittenLineReads(env, LeadingSpace(line), guard);
        LowerMatch();
    }
  }

  lemma TailIsKept(env: Env, readable: bool, lines: seq<string>)
    requires IncludeFree(env, lines) && GuardsInFull(env, readable, lines) && lines != []
    ensures IncludeFree(env, lines[1..]) && GuardsInFull(env, readable, lines[1..])
    ensures Lower(SplitKeyword(env, lines[0]).0) == "match" ==> ReadInFull(env, readable, SplitKeyword(env, lines[0]).1)
  {
    assert forall i :: 0 <= i < |lines[1..]| ==> lines[1..][i] == lines[i + 1];
  }

  /** The repair keeps every lookup, whatever the lines before left active. */
  lemma {:induction false} LookupKept(env: Env, lines: seq<string>, dropping: bool, active: bool, after: bool, host: string, key: string)
    requires SpacesAreSpaces(env) && IncludeFree(env, lines) && GuardsInFull(env, false, lines)
    requires if dropping then !active else after == active
    ensures Obtained(env, ByParser(env), Sanitized(env, lines, dropping), after, host, key)
      == Obtained(env, InFull(env), lines, active, host, key)
    decreases |lines|
  {
    hide SpacesAreSpaces, GuardsInFull, AsRepaired, GuardHolds, SplitKeyword, LeadingSpace, ParserHolds;
    if lines != [] {
      TailIsKept(env, false, lines);
      var (word, rest) := SplitKeyword(env, lines[0]);
      var (line, next) := Repaired(env, lines[0], dropping);
      var out := Sanitized(env, lines, dropping);
      assert out[0] == line && out[1..] == Sanitized(env, lines[1..], next);
      BlankLine(env);
      if Lower(word) == "host" {
        LookupKept(env, lines[1..], next, env.hostMatch(rest, host), env.hostMatch(rest, host), host, key);
      } else if Lower(word) == "match" {
        MatchLineKept(env, lines[0], host);
        var holds := GuardHolds(env, rest, host);
        LookupKept(env, lines[1..], next, holds, if VerdictOn(env, rest).Drop? then after else holds, host, key);
      } else {
        LookupKept(env, lines[1..], next, active, after, host, key);
      }
    }
  }

  /** After such a repair the parser refuses no line. */
  lemma {:induction false} RepairIsReadable(env: Env, lines: seq<string>, dropping: bool)
    requires SpacesAreSpaces(env) && IncludeFree(env, lines) && GuardsInFull(env, false, lines)
    ensures Readable(env, Sanitized(env, lines, dropping))
    decreases |lines|
  {
    hide SpacesAreSpaces, GuardsInFull, AsRepaired, SplitKeyword, LeadingSpace, ParserReads;
    if lines != [] {
      TailIsKept(env, false, lines);
      var (line, next) := Repaired(env, lines[0], dropping);
      var rest := Sanitized(env, lines[1..], next);
      RepairIsReadable(env, lines[1..], next);
      BlankLine(env);
      NoMatchInBlank();
      if Lower(SplitKeyword(env, lines[0]).0) == "match" {
        MatchLineKept(env, lines[0], "");
      }
      forall i | 0 <= i < |[line] + rest| && Lower(SplitKeyword(env, ([line] + rest)[i]).0) == "match"
        ensures !ParserReads(SplitKeyword(env, ([line] + rest)[i]).1).Refused?
      {
        if i > 0 {
          assert ([line] + rest)[i] == rest[i - 1];
        }
      }
    }
  }

  lemma NoMatchInBlank()
    ensures Lower("") != "match"
  {
  }

  lemma {:induction false} LookupAsItStands(env: Env, lines: seq<string>, active: bool, host: string, key: string)
    requires IncludeFree(env, lines) && GuardsInFull(env, true, lines)
    ensures Obtained(env, ByParser(env), lines, active, host, key) == Obtained(env, InFull(env), lines, active, host, key)
    decreases |lines|
  {
    hide GuardsInFull, AsItStands, GuardHolds, SplitKeyword, ParserHolds;
    if lines != [] {
      TailIsKept(env, true, lines);
      var (word, rest) := SplitKeyword(env, lines[0]);
      if Lower(word) == "match" {
        MatchLineStands(env, lines[0], host);
      }
      forall a: bool
        ensures Obtained(env, ByParser(env), lines[1..], a, host, key) == Obtained(env, InFull(env), lines[1..], a, host, key)
      {
        LookupAsItStands(env, lines[1..], a, host, key);
      }
    }
  }

  lemma MatchLineStands(env: Env, line: string, host: string)
    requires AsItStands(env, SplitKeyword(env, line).1)
    ensures var rest := SplitKeyword(env, line).1; ParserHolds(env, rest, host) <==> GuardHolds(env, rest, host)
  {
    hide GuardHolds, ParserHolds, SplitKeyword, Keeps, Decided;
    RestIsTrimmed(env, line);
    SameForHost(env, SplitKeyword(env, line).1, SplitKeyword(env, line).1, host);
  }

  /** Decoding preserves meaning: a config without Includes in which every guard
      is read in full, as it stands or as the repair leaves it, is decoded, and
      every lookup obtains what the full reading of each guard obtains. */
  lemma DecodePreservesLookup(env: Env, lines: seq<string>, host: string, key: string)
    requires SpacesAreSpaces(env) && IncludeFree(env, lines) && GuardsInFull(env, Readable(env, lines), lines)
    ensures Decoded(env, lines).Some?
    ensures Obtained(env, ByParser(env), Decoded(env, lines).value, true, host, key)
      == Obtained(env, InFull(env), lines, true, host, key)
  {
    hide SpacesAreSpaces, GuardsInFull, Readable, IncludeFree;
    if Readable(env, lines) {
      LookupAsItStands(env, lines, true, host, key);
    } else {
      RepairIsReadable(env, lines, false);
      LookupKept(env, lines, false, true, true, host, key);
    }
  }

  // ---- one block -------------------------------------------------------------------------------------------------

  /** A setting: a line with a keyword of its own. */
  predicate Setting(env: Env, line: string, key: string) {
    Lower(SplitKeyword(env, line).0) == key && key != "" && key != "host" && key != "match" && key != "include"
  }

  ghost predicate BlockKept(env: Env, guarded: string, setting: string, key: string, pm: (string, string) -> bool, host: string) {
    var w, lines := With(env, pm), [guarded, setting];
    var decoded := Decoded(w, lines);
    decoded.Some? && Obtained(w, ByParser(w), decoded.value, true, host, key) == Obtained(w, InFull(w), lines, true, host, key)
  }

  /** Two lines: the setting is found exactly when the guard holds. */
  lemma BlockReads(env: Env, holds: (string, string) -> bool, guarded: string, setting: string, host: string, key: string)
    requires Lower(SplitKeyword(env, guarded).0) == "match" && Setting(env, setting, key)
    ensures Obtained(env, holds, [guarded, setting], true, host, key)
      == if holds(SplitKeyword(env, guarded).1, host) then Some(SplitKeyword(env, setting).1) else None
  {
    hide SplitKeyword;
    assert [guarded, setting][1..] == [setting] && [setting][1..] == [];
    SettingReads(env, holds, setting, holds(SplitKeyword(env, guarded).1, host), host, key);
  }

  lemma SettingReads(env: Env, holds: (string, string) -> bool, setting: string, active: bool, host: string, key: string)
    requires Setting(env, setting, key)
    ensures Obtained(env, holds, [setting], active, host, key) == if active then Some(SplitKeyword(env, setting).1) else None
  {
    hide SplitKeyword;
    assert [setting][1..] == [];
    assert Obtained(env, holds, [], active, host, key) == None;
  }

  lemma BlockRepaired(env: Env, guarded: string, setting: string, key: string)
    requires Lower(SplitKeyword(env, guarded).0) == "match" && Setting(env, setting, key)
    ensures match VerdictOn(env, SplitKeyword(env, guarded).1)
            case Drop => Sanitized(env, [guarded, setting], false) == ["", ""]
            case Keep => Sanitized(env, [guarded, setting], false) == [guarded, setting]
            case Rewritten(guard) => Sanitized(env, [guarded, setting], false) == [LeadingSpace(guarded) + "Match " + guard, setting]
  {
    hide SplitKeyword, VerdictOn, LeadingSpace;
    assert [guarded, setting][1..] == [setting] && [setting][1..] == [];
    assert Sanitized(env, [], false) == [] && Sanitized(env, [], true) == [];
  }

  /** None of the conditions depends on how patterns match. */
  lemma ConditionsWith(env: Env, pm: (string, string) -> bool, rest: string)
    ensures Decided(With(env, pm), rest) <==> Decided(env, rest)
    ensures VerdictOn(With(env, pm), rest) == VerdictOn(env, rest)
    ensures forall readable :: ReadInFull(With(env, pm), readable, rest) <==> ReadInFull(env, readable, rest)
  {
    hide GuardOf, ParserReads;
    if GuardOf(rest).Guard? {
      PassWith(env, pm, GuardOf(rest).execs);
    }
    assert forall text :: Keeps(With(env, pm), rest, text) <==> Keeps(env, rest, text);
  }

  lemma KeywordsWith(env: Env, pm: (string, string) -> bool, line: string)
    ensures SplitKeyword(With(env, pm), line) == SplitKeyword(env, line)
  {
  }

  lemma ReadableWith(env: Env, pm: (string, string) -> bool, lines: seq<string>)
    ensures Readable(With(env, pm), lines) <==> Readable(env, lines)
  {
    hide SplitKeyword, ParserReads;
    forall i | 0 <= i < |lines| ensures SplitKeyword(With(env, pm), lines[i]) == SplitKeyword(env, lines[i]) {
      KeywordsWith(env, pm, lines[i]);
    }
  }

  lemma SpacesWith(env: Env, pm: (string, string) -> bool)
    requires SpacesAreSpaces(env)
    ensures SpacesAreSpaces(With(env, pm))
  {
  }

  /** A block whose guard is read in full is looked up as it should be... */
  lemma GoodBlock(env: Env, guarded: string, setting: string, key: string, pm: (string, string) -> bool, host: string)
    requires SpacesAreSpaces(env) && Lower(SplitKeyword(env, guarded).0) == "match" && Setting(env, setting, key)
    requires ReadInFull(env, Readable(env, [guarded, setting]), SplitKeyword(env, guarded).1)
    ensures BlockKept(env, guarded, setting, key, pm, host)
  {
    hide SplitKeyword, SpacesAreSpaces, ReadInFull, Readable, Decoded;
    var w, lines := With(env, pm), [guarded, setting];
    KeywordsWith(env, pm, guarded);
    KeywordsWith(env, pm, setting);
    ReadableWith(env, pm, lines);
    SpacesWith(env, pm);
    ConditionsWith(env, pm, SplitKeyword(env, guarded).1);
    DecodePreservesLookup(w, lines, host, key);
  }

  lemma FirstIsRead(env: Env, lines: seq<string>)
    requires Readable(env, lines) && lines != [] && Lower(SplitKeyword(env, lines[0]).0) == "match"
    ensures !ParserReads(SplitKeyword(env, lines[0]).1).Refused?
  {
  }

  /** ... and only such a block: as it stands... */
  lemma BlockStands(env: Env, guarded: string, setting: string, key: string)
    requires Lower(SplitKeyword(env, guarded).0) == "match" && Setting(env, setting, key)
    requires Readable(env, [guarded, setting])
    requires forall pm: (string, string) -> bool, host: string :: BlockKept(env, guarded, setting, key, pm, host)
    ensures AsItStands(env, SplitKeyword(env, guarded).1)
  {
    hide SplitKeyword, GuardHolds, ParserReads, ParserHolds, Readable, Keeps, Decided;
    var rest := SplitKeyword(env, guarded).1;
    RestIsTrimmed(env, guarded);
    forall pm: (string, string) -> bool, host: string ensures SameUnder(env, rest, rest, pm, host) {
      var w := With(env, pm);
      KeywordsWith(env, pm, guarded);
      KeywordsWith(env, pm, setting);
      ReadableWith(env, pm, [guarded, setting]);
      BlockReads(w, ByParser(w), guarded, setting, host, key);
      BlockReads(w, InFull(w), guarded, setting, host, key);
      assert BlockKept(env, guarded, setting, key, pm, host);
    }
    PreservedExactly(env, rest, rest);
    FirstIsRead(env, [guarded, setting]);
  }

  /** ... or as the repair leaves it. */
  lemma BlockIsRepaired(env: Env, guarded: string, setting: string, key: string)
    requires SpacesAreSpaces(env) && Lower(SplitKeyword(env, guarded).0) == "match" && Setting(env, setting, key)
    requires !Readable(env, [guarded, setting])
    requires forall pm: (string, string) -> bool, host: string :: BlockKept(env, guarded, setting, key, pm, host)
    ensures AsRepaired(env, SplitKeyword(env, guarded).1)
  {
    hide SplitKeyword, GuardHolds, ParserReads, ParserHolds, Readable, Keeps, GuardOf, LeadingSpace, SpacesAreSpaces, BlockKept;
    var rest := SplitKeyword(env, guarded).1;
    match VerdictOn(env, rest) {
      case Drop =>
      case Keep =>
        KeepIsNotDecoded(env, guarded, setting, key);
      case Rewritten(guard) =>
        forall pm: (string, string) -> bool, host: string ensures SameUnder(env, rest, guard, pm, host) {
          RewrittenUnder(env, guarded, setting, key, guard, pm, host);
        }
        PreservedExactly(env, rest, guard);
    }
  }

  lemma KeepIsNotDecoded(env: Env, guarded: string, setting: string, key: string)
    requires Lower(SplitKeyword(env, guarded).0) == "match" && Setting(env, setting, key)
    requires !Readable(env, [guarded, setting]) && VerdictOn(env, SplitKeyword(env, guarded).1) == Keep
    ensures !BlockKept(env, guarded, setting, key, env.patMatch, "")
  {
    hide SplitKeyword, Readable, VerdictOn;
    BlockRepaired(env, guarded, setting, key);
    assert With(env, env.patMatch) == env;
    assert Decoded(env, [guarded, setting]) == None;
  }

  lemma RewrittenUnder(env: Env, guarded: string, setting: string, key: string, guard: string, pm: (string, string) -> bool, host: string)
    requires SpacesAreSpaces(env) && Lower(SplitKeyword(env, guarded).0) == "match" && Setting(env, setting, key)
    requires !Readable(env, [guarded, setting]) && VerdictOn(env, SplitKeyword(env, guarded).1) == Rewritten(guard)
    requires BlockKept(env, guarded, setting, key, pm, host)
    ensures SameUnder(env, SplitKeyword(env, guarded).1, guard, pm, host)
  {
    hide GuardHolds, VerdictOn, LeadingSpace, SpacesAreSpaces, ParserHolds, Readable, SplitKeyword, ReadInFull;
    var w, rest := With(env, pm), SplitKeyword(env, guarded).1;
    ConditionsWith(env, pm, rest);
    KeywordsWith(env, pm, guarded);
    KeywordsWith(env, pm, setting);
    ReadableWith(env, pm, [guarded, setting]);
    GuardIsWritten(env, rest);
    LeadingIsBlank(guarded);
    SpacesWith(env, pm);
    var written := LeadingSpace(guarded) + "Match " + guard;
    RewrittenLineReads(w, LeadingSpace(guarded), guard);
    LowerMatch();
    BlockRepaired(w, guarded, setting, key);
    BlockReads(w, InFull(w), guarded, setting, host, key);
    BlockReads(w, ByParser(w), written, setting, host, key);
    assert Reread(w, guard) == Reread(env, guard);
  }

  /** The block of one guard and one setting is decoded and looked up as it
      should be, for all patterns and hosts, if and only if its guard is read
      in full. */
  lemma OneBlockExactly(env: Env, guarded: string, setting: string, key: string)
    requires SpacesAreSpaces(env) && Lower(SplitKeyword(env, guarded).0) == "match" && Setting(env, setting, key)
    ensures (forall pm: (string, string) -> bool, host: string :: BlockKept(env, guarded, setting, key, pm, host))
      <==> ReadInFull(env, Readable(env, [guarded, setting]), SplitKeyword(env, guarded).1)
  {
    hide SpacesAreSpaces, BlockKept, SplitKeyword, Readable, AsItStands, AsRepaired;
    if forall pm: (string, string) -> bool, host: string :: BlockKept(env, guarded, setting, key, pm, host) {
      if Readable(env, [guarded, setting]) {
        BlockStands(env, guarded, setting, key);
      } else {
        BlockIsRepaired(env, guarded, setting, key);
      }
    }
    if ReadInFull(env, Readable(env, [guarded, setting]), SplitKeyword(env, guarded).1) {
      forall pm: (string, string) -> bool, host: string ensures BlockKept(env, guarded, setting, key, pm, host) {
        GoodBlock(env, guarded, setting, key, pm, host);
      }
    }
  }
}
