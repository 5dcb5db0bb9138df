/** What several modules share: options, trimming, words joined by blanks and
    paths split at slashes. */
module Common {
  datatype Option<T> = None | Some(value: T)

  function TrimLeft(p: char -> bool, s: string): string {
    if s != "" && p(s[0]) then TrimLeft(p, s[1..]) else s
  }

  function TrimRight(p: char -> bool, s: string): string {
    if s != "" && p(s[|s| - 1]) then TrimRight(p, s[..|s| - 1]) else s
  }

  /** s without its longest beginning of p characters, and without its longest
      end of them. */
  lemma {:induction false} TrimmedLeft(p: char -> bool, s: string, k: nat)
    requires k <= |s| && (forall i :: 0 <= i < k ==> p(s[i])) && (k < |s| ==> !p(s[k]))
    ensures TrimLeft(p, s) == s[k..]
  {
    if k > 0 {
      TrimmedLeft(p, s[1..], k - 1);
    }
  }

  lemma {:induction false} TrimmedRight(p: char -> bool, s: string, k: nat)
    requires k <= |s| && (forall i :: k <= i < |s| ==> p(s[i])) && (k > 0 ==> !p(s[k - 1]))
    ensures TrimRight(p, s) == s[..k]
  {
    if k < |s| {
      TrimmedRight(p, s[..|s| - 1], k);
      assert s[..|s| - 1][..k] == s[..k];
    }
  }

  function JoinBlank(words: seq<string>): string {
    if words == [] then "" else if |words| == 1 then words[0] else words[0] + " " + JoinBlank(words[1..])
  }

  function NextSlash(s: string): (k: nat)
    ensures k <= |s| && (k < |s| ==> s[k] == '/') && forall i :: 0 <= i < k ==> s[i] != '/'
  {
    if s == "" || s[0] == '/' then 0 else 1 + NextSlash(s[1..])
  }

  function Components(path: string): seq<string>
    decreases |path|
  {
    var k := NextSlash(path);
    if k == |path| then [path] else [path[..k]] + Components(path[k + 1..])
  }
}
