/** The copy loop of `read`: chunks from the torrent's file iterator into FUSE's buffer. */
module ReadLoop {
  type byte = bv8

  function Min(a: nat, b: nat): nat {
    if a < b then a else b
  }

  function Concat(chunks: seq<seq<byte>>): seq<byte> {
    if chunks == [] then [] else chunks[0] + Concat(chunks[1..])
  }

  /** The bytes an iterator opened with `{ start, end }` yields, in whatever chunks: `end` is
      inclusive and clamped to the file, so `end = pos + len` asks for one byte too many. */
  function Requested(file: seq<byte>, pos: nat, len: nat): seq<byte>
    requires pos < |file|
  {
    file[pos..Min(pos + len + 1, |file|)]
  }

  /** Node's `data.copy(buf, at)`: copies what fits and returns how much that was. */
  method Copy(data: seq<byte>, buf: array<byte>, at: nat) returns (copied: nat)
    modifies buf
    ensures copied == Min(|data|, if at < buf.Length then buf.Length - at else 0)
    ensures forall k :: 0 <= k < buf.Length ==> buf[k] == if at <= k < at + copied then data[k - at] else old(buf[k])
  {
    copied := Min(|data|, if at < buf.Length then buf.Length - at else 0);
    forall k | 0 <= k < copied {
      buf[at + k] := data[k];
    }
  }

  lemma {:induction false} ConcatAppend(chunks: seq<seq<byte>>, chunk: seq<byte>)
    ensures Concat(chunks + [chunk]) == Concat(chunks) + chunk
  {
    if chunks == [] {
      assert chunks + [chunk] == [chunk];
      assert [chunk][1..] == [];
    } else {
      assert (chunks + [chunk])[1..] == chunks[1..] + [chunk];
      ConcatAppend(chunks[1..], chunk);
    }
  }

  /** `for await (data of iterator) total += data.copy(buf, total)`. */
  method CopyChunks(chunks: seq<seq<byte>>, buf: array<byte>) returns (totalLengthCopied: nat)
    modifies buf
    ensures totalLengthCopied == Min(|Concat(chunks)|, buf.Length)
    ensures buf[..totalLengthCopied] == Concat(chunks)[..totalLengthCopied]
    ensures buf[totalLengthCopied..] == old(buf[..])[totalLengthCopied..]
  {
    totalLengthCopied := 0;
    var k := 0;
    while k < |chunks|
      invariant 0 <= k <= |chunks|
      invariant totalLengthCopied == Min(|Concat(chunks[..k])|, buf.Length)
      invariant forall i :: 0 <= i < buf.Length ==>
                  buf[i] == if i < totalLengthCopied then Concat(chunks[..k])[i] else old(buf[i])
    {
      assert chunks[..k + 1] == chunks[..k] + [chunks[k]];
      ConcatAppend(chunks[..k], chunks[k]);
      var copied := Copy(chunks[k], buf, totalLengthCopied);
      totalLengthCopied := totalLengthCopied + copied;
      k := k + 1;
    }
    assert chunks[..k] == chunks;
  }

  /** How much a read of `len` bytes at `pos` returns into a buffer of `room` bytes. */
  function ReadCount(size: nat, pos: nat, len: nat, room: nat): nat {
    if pos >= size then 0 else Min(room, Min(len + 1, size - pos))
  }

  lemma SliceOfSlice(s: seq<byte>, from: nat, to: nat, count: nat)
    requires from <= to <= |s| && count <= to - from
    ensures s[from..to][..count] == s[from..from + count]
  {
  }

  /** `read` once the torrent is readable, for any chunking of the requested bytes and any buffer:
      a prefix of the buffer receives the file's bytes from `pos` on, the rest is untouched. */
  method Read(file: seq<byte>, pos: nat, len: nat, chunks: seq<seq<byte>>, buf: array<byte>) returns (count: nat)
    requires pos < |file| ==> Concat(chunks) == Requested(file, pos, len)
    modifies buf
    ensures count == ReadCount(|file|, pos, len, buf.Length)
    ensures pos < |file| ==> count <= buf.Length && count <= len + 1 && count <= |file| - pos
                             && (count == buf.Length || count == len + 1 || count == |file| - pos)
    ensures pos + count <= |file| || count == 0
    ensures count > 0 ==> buf[..count] == file[pos..pos + count]
    ensures buf[count..] == old(buf[..])[count..]
    ensures buf.Length == len && pos < |file| ==> count == Min(len, |file| - pos)
  {
    if pos >= |file| {
      return 0;
    }
    count := CopyChunks(chunks, buf);
    SliceOfSlice(file, pos, Min(pos + len + 1, |file|), count);
  }

  /** The extra byte of the request reaches the caller exactly when the buffer has room beyond
      `len` and the file has a byte to put there; with FUSE's `len`-byte buffer it never does. */
  lemma ExtraByteIff(size: nat, pos: nat, len: nat, room: nat)
    ensures ReadCount(size, pos, len, room) > len <==> room > len && size - pos > len
    ensures ReadCount(size, pos, len, len) == if pos < size then Min(len, size - pos) else 0
  {
  }

  // --- Reads compose ---

  function Sum(lens: seq<nat>): nat {
    if lens == [] then 0 else Sum(lens[..|lens| - 1]) + lens[|lens| - 1]
  }

  lemma {:induction false} SumMonotone(lens: seq<nat>, k: nat)
    requires k <= |lens|
    ensures Sum(lens[..k]) <= Sum(lens)
  {
    if k == |lens| {
      assert lens[..k] == lens;
    } else {
      assert lens[..|lens| - 1][..k] == lens[..k];
      SumMonotone(lens[..|lens| - 1], k);
    }
  }

  /** Reads once per length, each time from where the last one ended, into a buffer of the requested
      length, and stops at the first read that returns 0. Together the reads give the file's own bytes,
      none missing or repeated, and more reads than bytes always reach the end. */
  method ReadSequentially(file: seq<byte>, lens: seq<nat>, chunkings: (nat, nat) -> seq<seq<byte>>)
    returns (content: seq<byte>, ended: bool)
    requires forall pos: nat, len: nat :: pos < |file| ==> Concat(chunkings(pos, len)) == Requested(file, pos, len)
    requires forall k :: 0 <= k < |lens| ==> lens[k] > 0
    ensures content == file[..Min(|file|, Sum(lens))]
    ensures ended ==> content == file
    ensures |lens| > |file| ==> ended
  {
    content, ended := [], false;
    var k := 0;
    while k < |lens| && !ended
      invariant 0 <= k <= |lens|
      invariant content == file[..Min(|file|, Sum(lens[..k]))]
      invariant ended ==> content == file
      invariant !ended ==> |content| >= k
    {
      assert lens[..k + 1][..k] == lens[..k];
      var buf := new byte[lens[k]];
      var count := Read(file, |content|, lens[k], chunkings(|content|, lens[k]), buf);
      if count == 0 {
        ended := true;
      } else {
        content := content + buf[..count];
      }
      k := k + 1;
    }
    SumMonotone(lens, k);
    assert k == |lens| ==> lens[..k] == lens;
  }
}
