/**
 The bytes of a default file: reading, writing and truncating, seen as operations on an
 infinite sequence that is zero past the end.
 */
module FileData {

  /** A byte is a char, in files as in requests; '\0' is the zero byte. */
  type byte = char

  /** The byte at i, zero past the end. */
  function ByteAt(d: seq<byte>, i: nat): byte {
    if i < |d| then d[i] else '\0'
  }

  function Max(a: nat, b: nat): nat {
    if a < b then b else a
  }

  function Zeros(n: nat): (z: seq<byte>)
    ensures |z| == n && forall i :: 0 <= i < n ==> z[i] == '\0'
  {
    seq(n, i => '\0')
  }

  /** vector::resize. */
  function Resize(d: seq<byte>, n: nat): (r: seq<byte>)
    ensures |r| == n
    ensures forall i :: 0 <= i < n ==> r[i] == ByteAt(d, i)
  {
    if n <= |d| then d[..n] else d + Zeros(n - |d|)
  }

  /** Grow if the write ends past the end, then copy. */
  function WriteAt(d: seq<byte>, buf: seq<byte>, offset: nat): seq<byte> {
    var g := if |d| < |buf| + offset then Resize(d, |buf| + offset) else d;
    g[..offset] + buf + g[offset + |buf|..]
  }

  function ReadAt(d: seq<byte>, size: nat, offset: nat): seq<byte> {
    if offset > |d| then []
    else if |d| < size + offset then d[offset..]
    else d[offset..offset + size]
  }

  /** A write changes its own range, zero-fills a gap before it, and touches nothing else. */
  lemma WriteMeaning(d: seq<byte>, buf: seq<byte>, offset: nat)
    ensures |WriteAt(d, buf, offset)| == Max(|d|, offset + |buf|)
    ensures forall i: nat :: ByteAt(WriteAt(d, buf, offset), i)
                          == if offset <= i < offset + |buf| then buf[i - offset] else ByteAt(d, i)
  {
  }

  /** Length and bytes determine the contents. */
  lemma SameBytes(a: seq<byte>, b: seq<byte>)
    requires |a| == |b| && forall i: nat :: ByteAt(a, i) == ByteAt(b, i)
    ensures a == b
  {
    forall i | 0 <= i < |a| ensures a[i] == b[i] {
      assert ByteAt(a, i) == ByteAt(b, i);
    }
  }

  lemma ReadMeaning(d: seq<byte>, size: nat, offset: nat)
    ensures var r := ReadAt(d, size, offset);
            && |r| == (if offset >= |d| then 0 else if size < |d| - offset then size else |d| - offset)
            && forall i :: 0 <= i < |r| ==> r[i] == ByteAt(d, offset + i)
  {
  }

  /** Reading back what was written, and anything that lies beside it. */
  lemma ReadBack(d: seq<byte>, buf: seq<byte>, offset: nat)
    ensures ReadAt(WriteAt(d, buf, offset), |buf|, offset) == buf
  {
    WriteMeaning(d, buf, offset);
    ReadMeaning(WriteAt(d, buf, offset), |buf|, offset);
  }

  /** Writes to disjoint ranges commute, with or without a gap between them and the end. */
  lemma DisjointWritesCommute(d: seq<byte>, a: seq<byte>, i: nat, b: seq<byte>, j: nat)
    requires i + |a| <= j || j + |b| <= i
    ensures WriteAt(WriteAt(d, a, i), b, j) == WriteAt(WriteAt(d, b, j), a, i)
  {
    hide WriteAt;
    WriteMeaning(d, a, i);
    WriteMeaning(d, b, j);
    WriteMeaning(WriteAt(d, a, i), b, j);
    WriteMeaning(WriteAt(d, b, j), a, i);
    SameBytes(WriteAt(WriteAt(d, a, i), b, j), WriteAt(WriteAt(d, b, j), a, i));
  }

  function Concat(chunks: seq<seq<byte>>): seq<byte> {
    if chunks == [] then [] else chunks[0] + Concat(chunks[1..])
  }

  /** A write issued in pieces, each at the offset where the one before ended. */
  function WriteChunks(d: seq<byte>, chunks: seq<seq<byte>>, offset: nat): seq<byte>
    decreases chunks
  {
    if chunks == [] then d else WriteChunks(WriteAt(d, chunks[0], offset), chunks[1..], offset + |chunks[0]|)
  }

  lemma WriteConcat(d: seq<byte>, a: seq<byte>, b: seq<byte>, offset: nat)
    ensures WriteAt(WriteAt(d, a, offset), b, offset + |a|) == WriteAt(d, a + b, offset)
  {
    hide WriteAt;
    WriteMeaning(d, a, offset);
    WriteMeaning(WriteAt(d, a, offset), b, offset + |a|);
    WriteMeaning(d, a + b, offset);
    SameBytes(WriteAt(WriteAt(d, a, offset), b, offset + |a|), WriteAt(d, a + b, offset));
  }

  /** Any chunking of a write gives the bytes of the single write. */
  lemma {:induction false} ChunkedWrite(d: seq<byte>, chunks: seq<seq<byte>>, offset: nat)
    requires chunks != []
    ensures WriteChunks(d, chunks, offset) == WriteAt(d, Concat(chunks), offset)
    decreases chunks
  {
    hide WriteAt;
    var rest := chunks[1..];
    if rest == [] {
      assert chunks[0] + [] == chunks[0];
    } else {
      ChunkedWrite(WriteAt(d, chunks[0], offset), rest, offset + |chunks[0]|);
      WriteConcat(d, chunks[0], Concat(rest), offset);
    }
  }

  function Sum(sizes: seq<nat>): nat {
    if sizes == [] then 0 else sizes[0] + Sum(sizes[1..])
  }

  /** A sequential read loop: each read starts where the one before ended, by the bytes it returned. */
  function ReadChunks(d: seq<byte>, sizes: seq<nat>, offset: nat): seq<byte>
    decreases sizes
  {
    if sizes == [] then []
    else
      var r := ReadAt(d, sizes[0], offset);
      r + ReadChunks(d, sizes[1..], offset + |r|)
  }

  lemma ReadConcat(d: seq<byte>, m: nat, n: nat, offset: nat)
    ensures var r := ReadAt(d, m, offset);
            r + ReadAt(d, n, offset + |r|) == ReadAt(d, m + n, offset)
  {
    var r := ReadAt(d, m, offset);
    if offset <= |d| {
      if |d| < m + offset {
        assert d[offset..] + [] == d[offset..];
        assert d[|d|..] == [] && d[|d|..|d| + 0] == [];
      } else {
        assert d[offset..offset + m] + d[offset + m..] == d[offset..];
        if offset + m + n <= |d| {
          assert d[offset..offset + m] + d[offset + m..offset + m + n] == d[offset..offset + m + n];
        }
      }
    }
  }

  /** Any chunking of a read gives the bytes of the single read. */
  lemma {:induction false} ChunkedRead(d: seq<byte>, sizes: seq<nat>, offset: nat)
    ensures ReadChunks(d, sizes, offset) == ReadAt(d, Sum(sizes), offset)
    decreases sizes
  {
    hide ReadAt;
    if sizes == [] {
      ReadMeaning(d, 0, offset);
    } else {
      ChunkedRead(d, sizes[1..], offset + |ReadAt(d, sizes[0], offset)|);
      ReadConcat(d, sizes[0], Sum(sizes[1..]), offset);
    }
  }

  /** Cutting a file short and growing it again leaves zeros, not the old bytes. */
  lemma TruncateMeaning(d: seq<byte>, m: nat, n: nat)
    ensures |Resize(Resize(d, m), n)| == n
    ensures forall i: nat :: ByteAt(Resize(Resize(d, m), n), i) == if i < m && i < n then ByteAt(d, i) else '\0'
  {
  }
}
