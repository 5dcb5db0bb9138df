/** The byte-prefix test of the fast-forward rule: two files compared chunk by
    chunk through two buffers. */
module Prefix {
  const CHUNK := 64 * 1024

  datatype ReadEnd = Full | UnexpectedEof | Eof

  /** An open file: its bytes and the read position. */
  class File {
    const data: seq<bv8>
    var pos: nat

    predicate Valid()
      reads this
    {
      pos <= |data|
    }

    constructor Open(bytes: seq<bv8>)
      ensures data == bytes && pos == 0 && Valid()
    {
      data, pos := bytes, 0;
    }

    /** io.ReadFull into buf[:want] */
    method ReadFull(buf: array<bv8>, want: nat) returns (n: nat, end: ReadEnd)
      requires Valid() && want <= buf.Length
      modifies `pos, buf
      ensures Valid() && pos == old(pos) + n && n <= want
      ensures n == want || pos == |data|
      ensures buf[..n] == data[old(pos)..pos]
      ensures end == if n == want then Full else if n == 0 then Eof else UnexpectedEof
    {
      n := 0;
      while n < want && pos < |data|
        invariant n <= want && pos == old(pos) + n && pos <= |data|
        invariant buf[..n] == data[old(pos)..pos]
      {
        buf[n] := data[pos];
        n, pos := n + 1, pos + 1;
      }
      end := if n == want then Full else if n == 0 then Eof else UnexpectedEof;
    }
  }

  lemma Chunkwise(a: seq<bv8>, b: seq<bv8>, pos: nat, n: nat)
    requires pos + n <= |a| <= |b| && a[..pos] == b[..pos]
    ensures a[pos..pos + n] == b[pos..pos + n] ==> a[..pos + n] == b[..pos + n]
    ensures a[pos..pos + n] != b[pos..pos + n] ==> !(a <= b)
  {
    assert a[..pos + n] == a[..pos] + a[pos..pos + n];
    assert b[..pos + n] == b[..pos] + b[pos..pos + n];
    if a <= b {
      assert a == b[..|a|];
      assert a[pos..pos + n] == b[..|a|][pos..pos + n] == b[pos..pos + n];
    }
  }

  /** IsPrefix decides byte prefix. */
  method IsPrefix(existing: seq<bv8>, incoming: seq<bv8>) returns (r: bool)
    ensures r <==> existing <= incoming
  {
    if |existing| > |incoming| {
      return false;
    }
    var ef := new File.Open(existing);
    var inf := new File.Open(incoming);
    var eb := new bv8[CHUNK];
    var ib := new bv8[CHUNK];
    while true
      invariant ef.Valid() && inf.Valid() && ef.pos == inf.pos
      invariant existing[..ef.pos] == incoming[..ef.pos]
      decreases |existing| - ef.pos
    {
      ghost var at := ef.pos;
      var n, end := ef.ReadFull(eb, CHUNK);
      if n == 0 {
        return true;
      }
      var m, whole := inf.ReadFull(ib, n);
      Chunkwise(existing, incoming, at, n);
      if eb[..n] != ib[..n] {
        return false;
      }
      if !end.Full? {
        return true;
      }
    }
    assert false;
  }
}
