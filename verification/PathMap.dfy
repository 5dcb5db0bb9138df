/** Path rewriting inside free text: the index-driven scanner of
    PathMap.Apply, and the token-wise rewriting it amounts to. */
module PathMap {
  import opened Common

  datatype Mapping = Mapping(From: string, To: string)

  predicate IsPathByte(c: char) {
    && c != ' ' && c != '\t' && c != '\n' && c != '\r' && c != '"' && c != '\'' && c != '='
    && c != ':' && c != ',' && c != ';' && c != '(' && c != ')' && c != '[' && c != ']'
    && c != '{' && c != '}' && c != '<' && c != '>' && c != '|' && c != '&'
  }

  /** The bytes that end a path in text are white space, quotes, separators and
      brackets; every other byte may stand in one. */
  lemma PathBytesAre(c: char)
    ensures IsPathByte(c) <==> c !in " \t\n\r\"'" + "=:,;|&" + "()[]{}<>"
  {
  }

  predicate AllPathBytes(s: string) {
    forall i :: 0 <= i < |s| ==> IsPathByte(s[i])
  }

  predicate Absolute(p: string) {
    p != "" && p[0] == '/'
  }

  predicate AbsoluteFroms(m: seq<Mapping>) {
    forall mp :: mp in m ==> Absolute(mp.From)
  }

  /** A path map: every From absolute, longest first, no From twice. */
  predicate WellMade(m: seq<Mapping>) {
    && AbsoluteFroms(m) && (forall mp :: mp in m ==> Absolute(mp.To))
    && (forall i, k :: 0 <= i < k < |m| ==> |m[i].From| >= |m[k].From| && m[i].From != m[k].From)
  }

  ghost predicate PathFroms(m: seq<Mapping>) {
    forall mp :: mp in m ==> AllPathBytes(mp.From)
  }

  // ---- the scanner ------------------------------------------------------------

  predicate Boundary(s: string, i: nat)
    requires i <= |s|
  {
    i == 0 || !IsPathByte(s[i - 1])
  }

  /** A From that ends here ends a path: at the end of s, before "/", before a
      non-path byte, or before one final ".". */
  predicate EndsPath(s: string, end: nat)
    requires end <= |s|
  {
    || end == |s| || s[end] == '/' || !IsPathByte(s[end])
    || (s[end] == '.' && (end + 1 == |s| || !IsPathByte(s[end + 1])))
  }

  predicate MatchesAt(from: string, s: string, i: nat)
    requires i <= |s|
  {
    from <= s[i..] && EndsPath(s, i + |from|)
  }

  function FirstAt(m: seq<Mapping>, s: string, i: nat): (r: Option<Mapping>)
    requires i <= |s|
    ensures r.Some? ==> r.value in m && r.value.From <= s[i..]
  {
    if m == [] then None
    else if MatchesAt(m[0].From, s, i) then Some(m[0])
    else FirstAt(m[1..], s, i)
  }

  lemma {:induction false} FirstAtNone(m: seq<Mapping>, s: string, i: nat)
    requires i <= |s| && forall mp :: mp in m ==> !MatchesAt(mp.From, s, i)
    ensures FirstAt(m, s, i).None?
  {
    if m != [] {
      assert m[0] in m;
      FirstAtNone(m[1..], s, i);
    }
  }

  /** What the loop of Apply still writes from position i. */
  function Scan(m: seq<Mapping>, s: string, i: nat): string
    requires i <= |s| && AbsoluteFroms(m)
    decreases |s| - i
  {
    if i == |s| then ""
    else
      var found := if Boundary(s, i) then FirstAt(m, s, i) else None;
      if found.Some? then found.value.To + Scan(m, s, i + |found.value.From|)
      else [s[i]] + Scan(m, s, i + 1)
  }

  lemma ScanEnds(m: seq<Mapping>, s: string)
    requires AbsoluteFroms(m)
    ensures Scan(m, s, |s|) == ""
  {
  }

  lemma ScanCopies(m: seq<Mapping>, s: string, i: nat)
    requires AbsoluteFroms(m) && i < |s| && (!Boundary(s, i) || FirstAt(m, s, i).None?)
    ensures Scan(m, s, i) == [s[i]] + Scan(m, s, i + 1)
  {
  }

  lemma ScanReplaces(m: seq<Mapping>, s: string, i: nat, f: Mapping)
    requires AbsoluteFroms(m) && i < |s| && Boundary(s, i) && FirstAt(m, s, i) == Some(f)
    ensures i + |f.From| <= |s| && Scan(m, s, i) == f.To + Scan(m, s, i + |f.From|)
  {
  }

  function Applied(m: seq<Mapping>, s: string): string
    requires WellMade(m)
  {
    Scan(m, s, 0)
  }

  lemma {:induction false} NothingToScan(m: seq<Mapping>, s: string, i: nat)
    requires AbsoluteFroms(m) && i <= |s| && (m == [] || '/' !in s)
    ensures Scan(m, s, i) == s[i..]
    decreases |s| - i
  {
    if i < |s| {
      NothingToScan(m, s, i + 1);
      if m != [] {
        forall mp | mp in m ensures !MatchesAt(mp.From, s, i) {
          StartsAlike(mp.From, s, i);
        }
        FirstAtNone(m, s, i);
      }
    }
  }

  lemma StartsAlike(from: string, s: string, i: nat)
    requires i < |s| && from != ""
    ensures from <= s[i..] ==> from[0] == s[i]
  {
    assert s[i..][0] == s[i];
  }

  lemma FirstAtUnfolds(m: seq<Mapping>, s: string, i: nat, k: nat)
    requires i <= |s| && k < |m|
    ensures FirstAt(m[k..], s, i) == if MatchesAt(m[k].From, s, i) then Some(m[k]) else FirstAt(m[k + 1..], s, i)
  {
    assert m[k..][0] == m[k] && m[k..][1..] == m[k + 1..];
  }

  /** The inner loop of Apply: the first mapping that matches here. */
  method FindMapping(m: seq<Mapping>, s: string, i: nat) returns (found: Option<Mapping>)
    requires i <= |s|
    ensures found == FirstAt(m, s, i)
  {
    var k := 0;
    assert m[0..] == m;
    while k < |m|
      invariant k <= |m| && FirstAt(m, s, i) == FirstAt(m[k..], s, i)
    {
      FirstAtUnfolds(m, s, i, k);
      if m[k].From <= s[i..] && EndsPath(s, i + |m[k].From|) {
        return Some(m[k]);
      }
      k := k + 1;
    }
    found := None;
  }

  lemma NothingToApply(m: seq<Mapping>, s: string)
    requires WellMade(m) && (m == [] || '/' !in s)
    ensures Applied(m, s) == s
  {
    NothingToScan(m, s, 0);
  }

  /** One turn of the loop that found a mapping, and one that did not. */
  lemma Replace(m: seq<Mapping>, s: string, i: nat, b: string, f: Mapping)
    requires WellMade(m) && i < |s| && Boundary(s, i) && FirstAt(m, s, i) == Some(f)
    ensures |f.From| > 0 && i + |f.From| <= |s|
    ensures (b + f.To) + Scan(m, s, i + |f.From|) == b + Scan(m, s, i)
  {
    hide Scan;
    ScanReplaces(m, s, i, f);
    Associative(b, f.To, Scan(m, s, i + |f.From|));
  }

  lemma Copy(m: seq<Mapping>, s: string, i: nat, b: string)
    requires WellMade(m) && i < |s| && (!Boundary(s, i) || FirstAt(m, s, i).None?)
    ensures (b + [s[i]]) + Scan(m, s, i + 1) == b + Scan(m, s, i)
  {
    hide Scan;
    ScanCopies(m, s, i);
    Associative(b, [s[i]], Scan(m, s, i + 1));
  }

  /** PathMap.Apply */
  method Apply(m: seq<Mapping>, s: string) returns (b: string)
    requires WellMade(m)
    ensures b == Applied(m, s)
  {
    hide Scan, FirstAt, IsPathByte, EndsPath, Applied, AbsoluteFroms;
    if |m| == 0 || '/' !in s {
      NothingToApply(m, s);
      return s;
    }
    b := "";
    var i := 0;
    Whole(m, s);
    while i < |s|
      invariant i <= |s| && b + Scan(m, s, i) == Applied(m, s)
      decreases |s| - i
    {
      var found: Option<Mapping> := None;
      if i == 0 || !IsPathByte(s[i - 1]) {
        found := FindMapping(m, s, i);
      }
      if found.Some? {
        Replace(m, s, i, b, found.value);
        b := b + found.value.To;
        i := i + |found.value.From|;
      } else {
        Copy(m, s, i, b);
        b := b + [s[i]];
        i := i + 1;
      }
    }
    ScanEnds(m, s);
    assert b + "" == b;
  }

  lemma Whole(m: seq<Mapping>, s: string)
    requires WellMade(m)
    ensures "" + Scan(m, s, 0) == Applied(m, s)
  {
  }

  // ---- the token-wise reference ----------------------------------------------------

  /** The run r is the path From, something below it, or From at the end of a
      sentence. */
  predicate Matches(from: string, r: string) {
    r == from || from + "/" <= r || r == from + "."
  }

  function First(m: seq<Mapping>, r: string): (f: Option<Mapping>)
    ensures f.Some? ==> f.value in m && Matches(f.value.From, r)
  {
    if m == [] then None else if Matches(m[0].From, r) then Some(m[0]) else First(m[1..], r)
  }

  function RewriteRun(m: seq<Mapping>, r: string): string {
    var f := First(m, r);
    if f.Some? then MatchesStarts(f.value.From, r); f.value.To + r[|f.value.From|..] else r
  }

  /** The end of the run of path bytes from i. */
  function RunEnd(s: string, i: nat): (j: nat)
    requires i <= |s|
    ensures IsRun(s, i, j)
    decreases |s| - i
  {
    if i == |s| || !IsPathByte(s[i]) then i else RunEnd(s, i + 1)
  }

  /** Every maximal run of path bytes rewritten on its own, everything between
      the runs kept. */
  function Tokenwise(m: seq<Mapping>, s: string): string
    decreases |s|
  {
    if s == "" then ""
    else if !IsPathByte(s[0]) then [s[0]] + Tokenwise(m, s[1..])
    else RewriteRun(m, s[..RunEnd(s, 0)]) + Tokenwise(m, s[RunEnd(s, 0)..])
  }

  // ---- the scanner is token-wise ---------------------------------------------------------

  lemma {:induction false} RestOfRun(m: seq<Mapping>, s: string, i: nat, j: nat)
    requires AbsoluteFroms(m) && 0 < i <= j <= |s|
    requires forall k :: i - 1 <= k < j ==> IsPathByte(s[k])
    ensures Scan(m, s, i) == s[i..j] + Scan(m, s, j)
    decreases j - i
  {
    if i < j {
      ScanCopies(m, s, i);
      RestOfRun(m, s, i + 1, j);
      JoinRun(s, i, j, Scan(m, s, j));
    }
  }

  lemma JoinRun(s: string, i: nat, j: nat, rest: string)
    requires i < j <= |s|
    ensures [s[i]] + (s[i + 1..j] + rest) == s[i..j] + rest
  {
    assert s[i..j] == [s[i]] + s[i + 1..j];
  }

  /** j ends the run of path bytes that starts at i. */
  predicate IsRun(s: string, i: nat, j: nat) {
    i <= j <= |s| && (forall k :: i <= k < j ==> IsPathByte(s[k])) && (j < |s| ==> !IsPathByte(s[j]))
  }

  lemma RunBound(s: string, i: nat, j: nat, n: nat)
    requires IsRun(s, i, j) && i + n <= |s| && forall k :: i <= k < i + n ==> IsPathByte(s[k])
    ensures i + n <= j
  {
  }

  /** A From of path bytes found at i lies inside the run. */
  lemma InsideRun(from: string, s: string, i: nat, j: nat)
    requires IsRun(s, i, j) && AllPathBytes(from)
    ensures from <= s[i..] <==> from <= s[i..j]
  {
    if from <= s[i..] {
      forall k | i <= k < i + |from| ensures IsPathByte(s[k]) {
        assert s[i..][k - i] == from[k - i];
      }
      RunBound(s, i, j, |from|);
      assert from == s[i..j][..|from|];
    }
    if from <= s[i..j] {
      assert s[i..j][..|from|] == s[i..][..|from|];
    }
  }

  /** What follows From inside the run decides how From ends there. */
  lemma EndInsideRun(from: string, s: string, i: nat, j: nat)
    requires IsRun(s, i, j) && from <= s[i..j]
    ensures EndsPath(s, i + |from|) <==> Matches(from, s[i..j])
  {
    var r, end := s[i..j], i + |from|;
    assert r == from + s[end..j];
    if end < j {
      assert s[end..j] == [s[end]] + s[end + 1..j];
      assert r == from + [s[end]] + s[end + 1..j];
      assert from + "/" <= r <==> s[end] == '/';
      assert r == from + "." <==> s[end] == '.' && end + 1 == j;
    }
  }

  lemma MatchesStarts(from: string, r: string)
    ensures Matches(from, r) ==> from <= r
  {
    if from + "/" <= r {
      assert from == r[..|from|];
    }
  }

  /** At the start of a run, matching the text is matching the run. */
  lemma MatchIsOfRun(from: string, s: string, i: nat, j: nat)
    requires IsRun(s, i, j) && AllPathBytes(from)
    ensures MatchesAt(from, s, i) <==> Matches(from, s[i..j])
  {
    InsideRun(from, s, i, j);
    MatchesStarts(from, s[i..j]);
    if from <= s[i..j] {
      EndInsideRun(from, s, i, j);
    }
  }

  lemma {:induction false} FirstIsOfRun(m: seq<Mapping>, s: string, i: nat, j: nat)
    requires IsRun(s, i, j) && PathFroms(m)
    ensures FirstAt(m, s, i) == First(m, s[i..j])
  {
    if m != [] {
      assert m[0] in m;
      MatchIsOfRun(m[0].From, s, i, j);
      FirstIsOfRun(m[1..], s, i, j);
    }
  }

  lemma RunsEndOnce(s: string, i: nat, j: nat, k: nat)
    requires IsRun(s, i, j) && IsRun(s, i, k)
    ensures j == k
  {
  }

  lemma RunEndShift(s: string, i: nat)
    requires i <= |s|
    ensures RunEnd(s[i..], 0) == RunEnd(s, i) - i
  {
    var k := RunEnd(s[i..], 0);
    forall n | i <= n < i + k ensures IsPathByte(s[n]) {
      assert s[n] == s[i..][n - i];
    }
    assert i + k < |s| ==> s[i + k] == s[i..][k];
    RunsEndOnce(s, i, RunEnd(s, i), i + k);
  }

  /** One run, scanned. */
  lemma ScanRun(m: seq<Mapping>, s: string, i: nat)
    requires AbsoluteFroms(m) && PathFroms(m) && i < |s| && Boundary(s, i) && IsPathByte(s[i])
    ensures var j := RunEnd(s, i); Scan(m, s, i) == RewriteRun(m, s[i..j]) + Scan(m, s, j)
  {
    var j := RunEnd(s, i);
    FirstIsOfRun(m, s, i, j);
    var f := First(m, s[i..j]);
    if f.Some? {
      ScanMatch(m, s, i, j, f.value);
    } else {
      ScanCopies(m, s, i);
      RestOfRun(m, s, i + 1, j);
      JoinRun(s, i, j, Scan(m, s, j));
    }
  }

  lemma SliceTail(s: string, i: nat, j: nat, k: nat)
    requires i <= k <= j <= |s|
    ensures s[i..j][k - i..] == s[k..j]
  {
  }

  lemma SliceParts(s: string, i: nat, j: nat)
    requires i <= j <= |s|
    ensures s[i..][..j - i] == s[i..j] && s[i..][j - i..] == s[j..]
  {
  }

  lemma Associative(a: string, b: string, c: string)
    ensures a + (b + c) == (a + b) + c
  {
  }

  lemma ScanMatch(m: seq<Mapping>, s: string, i: nat, j: nat, f: Mapping)
    requires AbsoluteFroms(m) && IsRun(s, i, j) && i < j && Boundary(s, i)
    requires FirstAt(m, s, i) == First(m, s[i..j]) == Some(f)
    ensures Scan(m, s, i) == RewriteRun(m, s[i..j]) + Scan(m, s, j)
  {
    hide Scan, FirstAt, First, RewriteRun, IsPathByte, Matches, MatchesAt, Boundary, EndsPath;
    var end := i + |f.From|;
    RunReplaced(m, s[i..j], f);
    SliceLength(s, i, j);
    SliceTail(s, i, j, end);
    ScanReplaces(m, s, i, f);
    RestOfMatch(m, s, i, end, j);
    Associative(f.To, s[end..j], Scan(m, s, j));
  }

  lemma SliceLength(s: string, i: nat, j: nat)
    requires i <= j <= |s|
    ensures |s[i..j]| == j - i
  {
  }

  lemma RestOfMatch(m: seq<Mapping>, s: string, i: nat, end: nat, j: nat)
    requires AbsoluteFroms(m) && IsRun(s, i, j) && i < end <= j
    ensures Scan(m, s, end) == s[end..j] + Scan(m, s, j)
  {
    hide Scan, IsPathByte;
    RestOfRun(m, s, end, j);
  }

  lemma RunReplaced(m: seq<Mapping>, r: string, f: Mapping)
    requires First(m, r) == Some(f)
    ensures |f.From| <= |r| && RewriteRun(m, r) == f.To + r[|f.From|..]
  {
    MatchesStarts(f.From, r);
  }

  lemma ScanDelimiter(m: seq<Mapping>, s: string, i: nat)
    requires AbsoluteFroms(m) && PathFroms(m) && i < |s| && !IsPathByte(s[i])
    ensures Scan(m, s, i) == [s[i]] + Scan(m, s, i + 1)
  {
    forall mp | mp in m ensures !MatchesAt(mp.From, s, i) {
      StartsAlike(mp.From, s, i);
    }
    FirstAtNone(m, s, i);
    ScanCopies(m, s, i);
  }

  lemma TokenwiseUnfolds(m: seq<Mapping>, s: string, i: nat)
    requires i < |s|
    ensures Tokenwise(m, s[i..]) ==
      if IsPathByte(s[i]) then RewriteRun(m, s[i..RunEnd(s, i)]) + Tokenwise(m, s[RunEnd(s, i)..])
      else [s[i]] + Tokenwise(m, s[i + 1..])
  {
    hide RunEnd, IsPathByte, RewriteRun;
    if IsPathByte(s[i]) {
      var j := RunEnd(s, i);
      RunEndShift(s, i);
      SliceParts(s, i, j);
    } else {
      SliceParts(s, i, i + 1);
    }
  }

  lemma {:induction false} ScanIsTokenwise(m: seq<Mapping>, s: string, i: nat)
    requires AbsoluteFroms(m) && PathFroms(m) && i <= |s|
    requires Boundary(s, i) || i == |s| || !IsPathByte(s[i])
    ensures Scan(m, s, i) == Tokenwise(m, s[i..])
    decreases |s| - i
  {
    if i < |s| {
      TokenwiseUnfolds(m, s, i);
      if IsPathByte(s[i]) {
        ScanRun(m, s, i);
        ScanIsTokenwise(m, s, RunEnd(s, i));
      } else {
        ScanDelimiter(m, s, i);
        ScanIsTokenwise(m, s, i + 1);
      }
    }
  }

  /** Apply refines the token-wise rewriting. */
  lemma ApplyIsTokenwise(m: seq<Mapping>, s: string)
    requires WellMade(m) && PathFroms(m)
    ensures Applied(m, s) == Tokenwise(m, s)
  {
    ScanIsTokenwise(m, s, 0);
    assert s[0..] == s;
  }

  // ---- longest match, and the order of the mappings -------------------------------------

  /** What rewriting the run r by a set of mappings means: by the longest From
      that matches it, if any. */
  ghost predicate RunRewrittenTo(maps: set<Mapping>, r: string, out: string) {
    if exists mp :: mp in maps && Matches(mp.From, r) then
      exists mp :: LongestIn(maps, r, mp) && |mp.From| <= |r| && out == mp.To + r[|mp.From|..]
    else out == r
  }

  ghost predicate LongestIn(maps: set<Mapping>, r: string, mp: Mapping) {
    && mp in maps && Matches(mp.From, r)
    && forall other :: other in maps && Matches(other.From, r) ==> |other.From| <= |mp.From|
  }

  ghost function MapSet(m: seq<Mapping>): set<Mapping> {
    set mp | mp in m
  }

  lemma {:induction false} FirstNone(m: seq<Mapping>, r: string, mp: Mapping)
    requires First(m, r).None? && mp in m
    ensures !Matches(mp.From, r)
  {
    if mp != m[0] {
      FirstNone(m[1..], r, mp);
    }
  }

  /** The first match of a map sorted by length is a longest one. */
  lemma {:induction false} FirstIsLongest(m: seq<Mapping>, r: string, mp: Mapping)
    requires forall i, k :: 0 <= i < k < |m| ==> |m[i].From| >= |m[k].From|
    requires First(m, r).Some? && mp in m && Matches(mp.From, r)
    ensures |mp.From| <= |First(m, r).value.From|
  {
    if Matches(m[0].From, r) {
      var k :| 0 <= k < |m| && m[k] == mp;
    } else {
      FirstIsLongest(m[1..], r, mp);
    }
  }

  lemma RewriteRunIsLongest(m: seq<Mapping>, r: string)
    requires WellMade(m)
    ensures RunRewrittenTo(MapSet(m), r, RewriteRun(m, r))
  {
    var f := First(m, r);
    if f.Some? {
      RunReplaced(m, r, f.value);
      forall other | other in MapSet(m) && Matches(other.From, r) ensures |other.From| <= |f.value.From| {
        FirstIsLongest(m, r, other);
      }
      assert LongestIn(MapSet(m), r, f.value);
    } else {
      forall mp | mp in m ensures !Matches(mp.From, r) {
        FirstNone(m, r, mp);
      }
    }
  }

  /** Two Froms of one length that match one run are the same. */
  lemma SameLengthSameFrom(a: string, b: string, r: string)
    requires Matches(a, r) && Matches(b, r) && |a| == |b|
    ensures a == b
  {
    MatchesStarts(a, r);
    MatchesStarts(b, r);
    assert a == r[..|a|] && b == r[..|b|];
  }

  /** The rewriting of a run is decided by the set of mappings alone. */
  lemma RewrittenOnce(maps: set<Mapping>, r: string, a: string, b: string)
    requires forall x, y :: x in maps && y in maps && x.From == y.From ==> x == y
    requires RunRewrittenTo(maps, r, a) && RunRewrittenTo(maps, r, b)
    ensures a == b
  {
    if exists mp :: mp in maps && Matches(mp.From, r) {
      var x :| LongestIn(maps, r, x) && |x.From| <= |r| && a == x.To + r[|x.From|..];
      var y :| LongestIn(maps, r, y) && |y.From| <= |r| && b == y.To + r[|y.From|..];
      SameLengthSameFrom(x.From, y.From, r);
    }
  }

  lemma DistinctFroms(m: seq<Mapping>)
    requires WellMade(m)
    ensures forall x, y :: x in MapSet(m) && y in MapSet(m) && x.From == y.From ==> x == y
  {
    forall x, y | x in m && y in m && x.From == y.From ensures x == y {
      var i :| 0 <= i < |m| && m[i] == x;
      var k :| 0 <= k < |m| && m[k] == y;
      if i < k {
      } else if k < i {
      }
    }
  }

  lemma {:induction false} FirstAtMatches(m: seq<Mapping>, s: string, i: nat, mp: Mapping)
    requires i <= |s| && mp in m && MatchesAt(mp.From, s, i)
    ensures FirstAt(m, s, i).Some? && MatchesAt(FirstAt(m, s, i).value.From, s, i)
  {
    hide MatchesAt;
    if mp != m[0] {
      assert mp in m[1..];
      FirstAtMatches(m[1..], s, i, mp);
    }
  }

  lemma {:induction false} FirstAtIsLongest(m: seq<Mapping>, s: string, i: nat, mp: Mapping)
    requires forall k, n :: 0 <= k < n < |m| ==> |m[k].From| >= |m[n].From|
    requires i <= |s| && mp in m && MatchesAt(mp.From, s, i)
    ensures FirstAt(m, s, i).Some? && |mp.From| <= |FirstAt(m, s, i).value.From|
  {
    hide MatchesAt;
    var k :| 0 <= k < |m| && m[k] == mp;
    if !MatchesAt(m[0].From, s, i) {
      assert m[1..][k - 1] == mp;
      FirstAtIsLongest(m[1..], s, i, mp);
    }
  }

  lemma SamePlaceSameFrom(a: string, b: string, s: string, i: nat)
    requires i <= |s| && a <= s[i..] && b <= s[i..] && |a| == |b|
    ensures a == b
  {
    assert a == s[i..][..|a|] && b == s[i..][..|b|];
  }

  lemma FirstAtSame(a: seq<Mapping>, b: seq<Mapping>, s: string, i: nat)
    requires WellMade(a) && WellMade(b) && MapSet(a) == MapSet(b) && i <= |s|
    ensures FirstAt(a, s, i) == FirstAt(b, s, i)
  {
    hide FirstAt, MatchesAt;
    SameMembers(a, b);
    var x, y := FirstAt(a, s, i), FirstAt(b, s, i);
    if exists mp :: mp in a && MatchesAt(mp.From, s, i) {
      var mp :| mp in a && MatchesAt(mp.From, s, i);
      FirstAtMatches(a, s, i, mp);
      FirstAtMatches(b, s, i, mp);
      FirstAtIsLongest(a, s, i, y.value);
      FirstAtIsLongest(b, s, i, x.value);
      SamePlaceSameFrom(x.value.From, y.value.From, s, i);
      DistinctFroms(a);
    } else {
      FirstAtNone(a, s, i);
      FirstAtNone(b, s, i);
    }
  }

  lemma SameMembers(a: seq<Mapping>, b: seq<Mapping>)
    requires MapSet(a) == MapSet(b)
    ensures forall mp :: mp in a <==> mp in b
  {
    forall mp ensures mp in a <==> mp in b {
      assert mp in a <==> mp in MapSet(a);
    }
  }

  lemma {:induction false} ScanSame(a: seq<Mapping>, b: seq<Mapping>, s: string, i: nat)
    requires WellMade(a) && WellMade(b) && MapSet(a) == MapSet(b) && i <= |s|
    ensures Scan(a, s, i) == Scan(b, s, i)
    decreases |s| - i
  {
    hide Scan, FirstAt;
    if i == |s| {
      ScanEnds(a, s);
      ScanEnds(b, s);
    } else {
      FirstAtSame(a, b, s, i);
      var f := FirstAt(a, s, i);
      if Boundary(s, i) && f.Some? {
        ScanReplaces(a, s, i, f.value);
        ScanReplaces(b, s, i, f.value);
        ScanSame(a, b, s, i + |f.value.From|);
      } else {
        ScanCopies(a, s, i);
        ScanCopies(b, s, i);
        ScanSame(a, b, s, i + 1);
      }
    }
  }

  /** In whatever order the mappings were given, the rewriting is the same. */
  lemma OrderDoesNotMatter(a: seq<Mapping>, b: seq<Mapping>, s: string)
    requires WellMade(a) && WellMade(b) && MapSet(a) == MapSet(b)
    ensures Applied(a, s) == Applied(b, s)
  {
    ScanSame(a, b, s, 0);
  }

  // ---- undoing --------------------------------------------------------------------------

  /** No maximal run of s matches p. */
  predicate NoRunMatches(p: string, s: string)
    decreases |s|
  {
    if s == "" then true
    else if !IsPathByte(s[0]) then NoRunMatches(p, s[1..])
    else !Matches(p, s[..RunEnd(s, 0)]) && NoRunMatches(p, s[RunEnd(s, 0)..])
  }

  lemma RunThenRest(r: string, rest: string)
    requires AllPathBytes(r) && (rest != "" ==> !IsPathByte(rest[0]))
    ensures RunEnd(r + rest, 0) == |r|
  {
    assert IsRun(r + rest, 0, |r|);
    RunsEndOnce(r + rest, 0, RunEnd(r + rest, 0), |r|);
  }

  lemma OneMapping(mp: Mapping, r: string)
    ensures First([mp], r) == if Matches(mp.From, r) then Some(mp) else None
  {
    assert [mp][1..] == [];
  }

  /** The tail that follows From follows To in the same way. */
  lemma SwapKeepsTail(from: string, to: string, r: string)
    requires Matches(from, r)
    ensures |from| <= |r| && Matches(to, to + r[|from|..]) && r == from + r[|from|..]
  {
    MatchesStarts(from, r);
    var tail := r[|from|..];
    assert r == from + tail;
    if from + "/" <= r {
      assert tail[0] == (from + "/")[|from|];
      assert to + "/" == (to + tail)[..|to| + 1];
    }
  }

  lemma RunUndone(from: string, to: string, r: string)
    requires !Matches(to, r)
    ensures RewriteRun([Mapping(to, from)], RewriteRun([Mapping(from, to)], r)) == r
  {
    OneMapping(Mapping(from, to), r);
    if Matches(from, r) {
      SwapKeepsTail(from, to, r);
      var moved := to + r[|from|..];
      assert RewriteRun([Mapping(from, to)], r) == moved;
      OneMapping(Mapping(to, from), moved);
      assert moved[|to|..] == r[|from|..];
    } else {
      OneMapping(Mapping(to, from), r);
    }
  }

  lemma RewrittenRunIsRun(from: string, to: string, r: string)
    requires AllPathBytes(to) && to != "" && AllPathBytes(r) && r != ""
    ensures AllPathBytes(RewriteRun([Mapping(from, to)], r)) && RewriteRun([Mapping(from, to)], r) != ""
  {
    OneMapping(Mapping(from, to), r);
  }

  lemma TokenwiseOfRun(m: seq<Mapping>, r: string, rest: string)
    requires AllPathBytes(r) && r != "" && (rest != "" ==> !IsPathByte(rest[0]))
    ensures Tokenwise(m, r + rest) == RewriteRun(m, r) + Tokenwise(m, rest)
  {
    RunThenRest(r, rest);
    assert (r + rest)[0] == r[0];
    assert (r + rest)[..|r|] == r && (r + rest)[|r|..] == rest;
  }

  lemma {:induction false} TokenwiseUndone(from: string, to: string, s: string)
    requires AllPathBytes(to) && to != "" && NoRunMatches(to, s)
    ensures Tokenwise([Mapping(to, from)], Tokenwise([Mapping(from, to)], s)) == s
    ensures s != "" && !IsPathByte(s[0]) ==>
      Tokenwise([Mapping(from, to)], s) != "" && Tokenwise([Mapping(from, to)], s)[0] == s[0]
    decreases |s|
  {
    hide IsPathByte, RewriteRun, Matches, First;
    var there, back := [Mapping(from, to)], [Mapping(to, from)];
    if s != "" {
      if IsPathByte(s[0]) {
        var j := RunEnd(s, 0);
        var r, rest := s[..j], s[j..];
        assert s == r + rest;
        TokenwiseUndone(from, to, rest);
        RewrittenRunIsRun(from, to, r);
        RunUndone(from, to, r);
        TokenwiseOfRun(back, RewriteRun(there, r), Tokenwise(there, rest));
      } else {
        TokenwiseUndone(from, to, s[1..]);
        var out := Tokenwise(there, s[1..]);
        assert Tokenwise(there, s) == [s[0]] + out;
        assert ([s[0]] + out)[1..] == out;
      }
    }
  }

  /** One mapping of path bytes is undone by the reversed one, on text in which
      nothing looked like its To. */
  lemma ReversedUndoes(from: string, to: string, s: string)
    requires Absolute(from) && Absolute(to) && AllPathBytes(from) && AllPathBytes(to) && NoRunMatches(to, s)
    ensures Applied([Mapping(to, from)], Applied([Mapping(from, to)], s)) == s
  {
    ApplyIsTokenwise([Mapping(from, to)], s);
    ApplyIsTokenwise([Mapping(to, from)], Tokenwise([Mapping(from, to)], s));
    TokenwiseUndone(from, to, s);
  }

  // ---- whole paths ------------------------------------------------------------------------

  predicate Under(from: string, p: string) {
    p == from || from + "/" <= p
  }

  ghost predicate LongestUnder(m: seq<Mapping>, p: string, mp: Mapping) {
    mp in m && Under(mp.From, p) && forall x :: x in m && Under(x.From, p) ==> |x.From| <= |mp.From|
  }

  /** PathMap.ApplyPath: the longest From that p is or lies under. */
  method ApplyPath(m: seq<Mapping>, p: string) returns (q: string)
    requires WellMade(m)
    ensures (forall mp :: mp in m ==> !Under(mp.From, p)) ==> q == p
    ensures forall mp :: LongestUnder(m, p, mp) ==> |mp.From| <= |p| && q == mp.To + p[|mp.From|..]
  {
    var i := 0;
    while i < |m|
      invariant i <= |m| && forall k :: 0 <= k < i ==> !Under(m[k].From, p)
    {
      var mp := m[i];
      if p == mp.From || mp.From + "/" <= p {
        UnderStarts(mp.From, p);
        assert mp in m;
        forall x | x in m && Under(x.From, p) && |x.From| >= |mp.From| ensures x == mp {
          UnderStarts(x.From, p);
          assert x.From == p[..|x.From|] && mp.From == p[..|mp.From|];
          var k :| 0 <= k < |m| && m[k] == x;
          if i < k {
          }
        }
        return mp.To + p[|mp.From|..];
      }
      i := i + 1;
    }
    q := p;
  }

  lemma UnderStarts(from: string, p: string)
    requires Under(from, p)
    ensures from <= p
  {
    MatchesStarts(from, p);
  }

  // ---- building a map ------------------------------------------------------------------------

  function InsertByLength(m: seq<Mapping>, mp: Mapping): seq<Mapping> {
    if m == [] || |m[0].From| < |mp.From| then [mp] + m
    else [m[0]] + InsertByLength(m[1..], mp)
  }

  lemma {:induction false} InsertHas(m: seq<Mapping>, mp: Mapping)
    ensures forall x :: x in InsertByLength(m, mp) <==> x == mp || x in m
  {
    if m != [] && |m[0].From| >= |mp.From| {
      InsertHas(m[1..], mp);
      assert m == [m[0]] + m[1..];
    }
  }

  lemma {:induction false} InsertKeepsWellMade(m: seq<Mapping>, mp: Mapping)
    requires WellMade(m) && Absolute(mp.From) && Absolute(mp.To) && forall x :: x in m ==> x.From != mp.From
    ensures WellMade(InsertByLength(m, mp))
  {
    if m != [] && |m[0].From| >= |mp.From| {
      InsertKeepsWellMade(m[1..], mp);
      InsertHas(m[1..], mp);
      var rest := InsertByLength(m[1..], mp);
      forall k | 0 <= k < |rest| ensures |m[0].From| >= |rest[k].From| && m[0].From != rest[k].From {
        assert rest[k] in rest;
        if rest[k] != mp {
          var n :| 0 <= n < |m[1..]| && m[1..][n] == rest[k];
          assert m[n + 1] == rest[k];
        }
      }
    }
  }

  datatype Built = Built(m: seq<Mapping>) | NotAbsolute(bad: Mapping) | Duplicate(from: string)

  function Cleaned(specs: seq<Mapping>, cleanAbs: string -> string): (c: seq<Mapping>)
    ensures |c| == |specs| && forall i :: 0 <= i < |c| ==> c[i] == Mapping(cleanAbs(specs[i].From), cleanAbs(specs[i].To))
  {
    seq(|specs|, i requires 0 <= i < |specs| => Mapping(cleanAbs(specs[i].From), cleanAbs(specs[i].To)))
  }

  /** Both sides absolute everywhere, no From twice. */
  predicate Acceptable(c: seq<Mapping>) {
    && (forall i :: 0 <= i < |c| ==> c[i].From != "" && c[i].To != "")
    && (forall i, k :: 0 <= i < k < |c| ==> c[i].From != c[k].From)
  }

  ghost predicate SameElements(m: seq<Mapping>, c: seq<Mapping>) {
    forall x :: x in m <==> x in c
  }

  ghost predicate SeenIn(seen: set<string>, c: seq<Mapping>) {
    && (forall i :: 0 <= i < |c| ==> c[i].From in seen)
    && (forall f :: f in seen ==> exists i :: 0 <= i < |c| && c[i].From == f)
  }

  lemma AddOne(m: seq<Mapping>, c: seq<Mapping>, mp: Mapping, seen: set<string>)
    requires WellMade(m) && SameElements(m, c) && SeenIn(seen, c) && Acceptable(c)
    requires Absolute(mp.From) && Absolute(mp.To) && mp.From !in seen
    ensures WellMade(InsertByLength(m, mp)) && SameElements(InsertByLength(m, mp), c + [mp])
    ensures SeenIn(seen + {mp.From}, c + [mp]) && Acceptable(c + [mp])
  {
    forall x | x in m ensures x.From != mp.From {
      assert x in c;
    }
    InsertKeepsWellMade(m, mp);
    InsertHas(m, mp);
    SeeOne(c, mp, seen);
  }

  lemma SeeOne(c: seq<Mapping>, mp: Mapping, seen: set<string>)
    requires SeenIn(seen, c)
    ensures SeenIn(seen + {mp.From}, c + [mp])
  {
    var longer := c + [mp];
    assert longer[|c|] == mp;
    forall f | f in seen ensures exists i :: 0 <= i < |longer| && longer[i].From == f {
      var i :| 0 <= i < |c| && c[i].From == f;
      assert longer[i] == c[i];
    }
  }

  lemma SeenTwice(c: seq<Mapping>, i: nat, seen: set<string>)
    requires i < |c| && SeenIn(seen, c[..i]) && c[i].From in seen
    ensures !Acceptable(c) && exists k :: 0 <= k < i && c[k].From == c[i].From
  {
    var k :| 0 <= k < |c[..i]| && c[..i][k].From == c[i].From;
    assert c[k].From == c[i].From;
  }

  lemma NothingYet()
    ensures WellMade([]) && SameElements([], []) && SeenIn({}, []) && Acceptable([])
  {
  }

  lemma NotAcceptable(c: seq<Mapping>, i: nat)
    requires i < |c| && (c[i].From == "" || c[i].To == "")
    ensures !Acceptable(c)
  {
  }

  lemma LongestFirst(m: seq<Mapping>)
    requires WellMade(m)
    ensures forall i, k :: 0 <= i < k < |m| ==> |m[i].From| >= |m[k].From|
    ensures forall mp :: mp in m ==> mp.From != "" && mp.From[0] == '/' && mp.To != "" && mp.To[0] == '/'
  {
  }

  /** NewPathMap: cleanAbs (here any function giving "" for what is not
      absolute) on both sides, no From twice, longest From first. */
  method New(specs: seq<Mapping>, cleanAbs: string -> string) returns (r: Built)
    requires forall p :: cleanAbs(p) == "" || Absolute(cleanAbs(p))
    ensures r.Built? <==> Acceptable(Cleaned(specs, cleanAbs))
    ensures r.Built? ==> WellMade(r.m) && SameElements(r.m, Cleaned(specs, cleanAbs))
    ensures r.Built? ==> forall i, k :: 0 <= i < k < |r.m| ==> |r.m[i].From| >= |r.m[k].From|
    ensures r.Built? ==> forall mp :: mp in r.m ==> mp.From != "" && mp.From[0] == '/' && mp.To != "" && mp.To[0] == '/'
    ensures r.NotAbsolute? ==> r.bad in specs && (cleanAbs(r.bad.From) == "" || cleanAbs(r.bad.To) == "")
    ensures r.Duplicate? ==>
      exists i, k :: 0 <= i < k < |specs| && cleanAbs(specs[i].From) == cleanAbs(specs[k].From) == r.from != ""
  {
    hide WellMade, SameElements, SeenIn, Acceptable, InsertByLength;
    NothingYet();
    ghost var c := Cleaned(specs, cleanAbs);
    var m: seq<Mapping> := [];
    var seen: set<string> := {};
    var i := 0;
    while i < |specs|
      invariant i <= |specs| && WellMade(m)
      invariant SameElements(m, c[..i]) && SeenIn(seen, c[..i]) && Acceptable(c[..i])
    {
      var mp := Mapping(cleanAbs(specs[i].From), cleanAbs(specs[i].To));
      assert c[i] == mp && c[..i + 1] == c[..i] + [mp];
      if mp.From == "" || mp.To == "" {
        NotAcceptable(c, i);
        return NotAbsolute(specs[i]);
      }
      if mp.From in seen {
        SeenTwice(c, i, seen);
        return Duplicate(mp.From);
      }
      AddOne(m, c[..i], mp, seen);
      seen := seen + {mp.From};
      m := InsertByLength(m, mp);
      i := i + 1;
    }
    assert c[..|specs|] == c;
    LongestFirst(m);
    r := Built(m);
  }

  // ---- where token-wise fails ---------------------------------------------------------------

  /** A single mapping is token-wise on every text exactly when its From
      consists of path bytes, or it maps to itself. */
  lemma TokenwiseExactly(mp: Mapping)
    requires Absolute(mp.From) && Absolute(mp.To)
    ensures (forall s :: Applied([mp], s) == Tokenwise([mp], s)) <==> AllPathBytes(mp.From) || mp.From == mp.To
  {
    if AllPathBytes(mp.From) {
      forall s ensures Applied([mp], s) == Tokenwise([mp], s) {
        ApplyIsTokenwise([mp], s);
      }
    } else if mp.From == mp.To {
      forall s ensures Applied([mp], s) == Tokenwise([mp], s) {
        IdentityScans(mp, s, 0);
        IdentityTokens(mp, s);
        assert s[0..] == s;
      }
    } else {
      WholeFromScans(mp);
      NoRunOfItself(mp, mp.From);
      assert Applied([mp], mp.From) != Tokenwise([mp], mp.From);
    }
  }

  lemma {:induction false} IdentityScans(mp: Mapping, s: string, i: nat)
    requires Absolute(mp.From) && mp.From == mp.To && i <= |s|
    ensures Scan([mp], s, i) == s[i..]
    decreases |s| - i
  {
    hide Scan, FirstAt, IsPathByte;
    if i == |s| {
      ScanEnds([mp], s);
    } else {
      OneAt(mp, s, i);
      if Boundary(s, i) && MatchesAt(mp.From, s, i) {
        ScanReplaces([mp], s, i, mp);
        IdentityScans(mp, s, i + |mp.From|);
        SliceAfter(mp.From, s, i);
      } else {
        ScanCopies([mp], s, i);
        IdentityScans(mp, s, i + 1);
        assert s[i..] == [s[i]] + s[i + 1..];
      }
    }
  }

  lemma OneAt(mp: Mapping, s: string, i: nat)
    requires i <= |s|
    ensures FirstAt([mp], s, i) == if MatchesAt(mp.From, s, i) then Some(mp) else None
  {
    assert [mp][1..] == [];
  }

  lemma SliceAfter(from: string, s: string, i: nat)
    requires i <= |s| && from <= s[i..]
    ensures s[i..] == from + s[i + |from|..]
  {
    assert s[i..][..|from|] == from;
  }

  lemma IdentityRun(mp: Mapping, r: string)
    requires mp.From == mp.To
    ensures RewriteRun([mp], r) == r
  {
    OneMapping(mp, r);
    if Matches(mp.From, r) {
      SwapKeepsTail(mp.From, mp.To, r);
    }
  }

  lemma {:induction false} IdentityTokens(mp: Mapping, s: string)
    requires mp.From == mp.To
    ensures Tokenwise([mp], s) == s
    decreases |s|
  {
    hide IsPathByte, RewriteRun;
    if s != "" {
      if IsPathByte(s[0]) {
        var j := RunEnd(s, 0);
        IdentityRun(mp, s[..j]);
        IdentityTokens(mp, s[j..]);
        assert s == s[..j] + s[j..];
      } else {
        IdentityTokens(mp, s[1..]);
        assert s == [s[0]] + s[1..];
      }
    }
  }

  lemma WholeFromScans(mp: Mapping)
    requires Absolute(mp.From) && Absolute(mp.To)
    ensures Applied([mp], mp.From) == mp.To
  {
    var s := mp.From;
    assert s[0..] == s;
    OneAt(mp, s, 0);
    ScanReplaces([mp], s, 0, mp);
    assert Scan([mp], s, |s|) == "";
  }

  /** A run consists of path bytes, so it never matches a From that has
      another. */
  lemma NotItsRun(mp: Mapping, r: string)
    requires AllPathBytes(r) && !AllPathBytes(mp.From)
    ensures RewriteRun([mp], r) == r
  {
    OneMapping(mp, r);
    MatchesStarts(mp.From, r);
    var k :| 0 <= k < |mp.From| && !IsPathByte(mp.From[k]);
    assert mp.From <= r ==> mp.From[k] == r[k];
  }

  lemma {:induction false} NoRunOfItself(mp: Mapping, s: string)
    requires !AllPathBytes(mp.From)
    ensures Tokenwise([mp], s) == s
    decreases |s|
  {
    hide IsPathByte, RewriteRun;
    if s != "" {
      if IsPathByte(s[0]) {
        var j := RunEnd(s, 0);
        NotItsRun(mp, s[..j]);
        NoRunOfItself(mp, s[j..]);
        assert s == s[..j] + s[j..];
      } else {
        NoRunOfItself(mp, s[1..]);
        assert s == [s[0]] + s[1..];
      }
    }
  }
}
