/**
  The C standard I/O the sample programs read their input with, reduced to
  what the pump loops depend on: `fread(buf, 1, n, fp)` on a file whose
  contents are a byte sequence, and the `feof(fp)` test made right after it.

  Every raw-input pump loop in the samples reads the same way: only while
  end of input has not been seen and the previous chunk was accepted, it
  reads the next chunk, notes end of input when the read came back short at
  end of file, and marks the new chunk as not yet accepted.

  `ReadCursor` is the invariant that ties that reader's variables to the
  number of full chunks the codec has accepted so far.
 */
module Stdio {
  import opened Outcomes

  /** One byte of a file. */
  type byte = bv8

  /** The files a program can reach: the contents of those `fopen(path,
      "rb+")` opens, and the paths `fopen(path, "wb+")` can create. */
  datatype FileSystem = FileSystem(contents: map<string, seq<byte>>, creatable: set<string>)
  {
    /** `fopen(path, "rb+")`: the file's contents, or None for a NULL stream. */
    function OpenRead(path: string): (r: Option<seq<byte>>)
      ensures r.Some? <==> path in contents
      ensures r.Some? ==> r.value == contents[path]
    {
      if path in contents then Some(contents[path]) else None
    }

    /** `fopen(path, "wb+")` returns a stream. */
    predicate CanCreate(path: string)
    {
      path in creatable
    }
  }

  /** The bytes one `fread` call delivers and the stream's end-of-file
      indicator right after it. */
  datatype ReadResult = ReadResult(bytes: seq<byte>, eof: bool)

  /** `fread(buf, 1, n, fp)` with `fp` positioned at `pos` in `file`, under the
      usual stdio behaviour: a read that asks for more bytes than remain
      delivers the rest and sets end-of-file; a read that ends exactly at the
      end of the file (or asks for nothing) does not. */
  function Fread(file: seq<byte>, pos: nat, n: nat): (r: ReadResult)
    requires pos <= |file|
    ensures |r.bytes| <= n && pos + |r.bytes| <= |file|
    ensures r.bytes == file[pos..pos + |r.bytes|]
    ensures |r.bytes| < n ==> pos + |r.bytes| == |file|
    // the loops' end-of-input test is true exactly when fewer than n bytes were left
    ensures (|r.bytes| != n && r.eof) <==> |file| - pos < n
  {
    if |file| - pos < n then ReadResult(file[pos..], true)
    else ReadResult(file[pos..pos + n], false)
  }

  /** `c` is the k-th full chunk of `p` bytes of `file`. */
  ghost predicate IsChunk(file: seq<byte>, p: nat, k: nat, c: seq<byte>)
  {
    k * p + p <= |file| && c == file[k * p..k * p + p]
  }

  /** At least one more full chunk of `p` bytes follows the first `n`. */
  predicate DataLeft(file: seq<byte>, p: nat, n: nat)
  {
    n * p + p <= |file|
  }

  /** The reader's variables after `queued` full chunks were handed to the
      codec: `pos` is the stream position and `pkt` the contents of `pktBuf`
      that matter (its first `readsize` bytes).
      - before end of input, with the last chunk queued, the stream stands
        right after the queued chunks;
      - before end of input, with a chunk pending, `pkt` is chunk `queued`;
      - after end of input, the stream is at the end, the file held fewer
        than `p` bytes after the queued chunks, and `pkt` holds those bytes. */
  ghost predicate ReadCursor(file: seq<byte>, p: nat, queued: nat, pos: nat, pkt: seq<byte>,
                             sawInputEOS: bool, lastPktQueued: bool)
  {
    && pos <= |file|
    && (!sawInputEOS && lastPktQueued ==> pos == queued * p)
    && (!sawInputEOS && !lastPktQueued ==> pos == queued * p + p && IsChunk(file, p, queued, pkt))
    && (sawInputEOS ==> pos == |file| && queued * p <= |file| < queued * p + p && pkt == file[queued * p..])
  }

  /** The variables of a chunked reading loop: stream position, the
      bytes of the last read, and the two flags that gate reading. */
  datatype RawReader = RawReader(pos: nat, pkt: seq<byte>, sawInputEOS: bool, lastPktQueued: bool)

  /** One read of the reader above keeps `ReadCursor`. */
  lemma ReadStep(file: seq<byte>, p: nat, queued: nat, pos: nat, pkt: seq<byte>)
    requires ReadCursor(file, p, queued, pos, pkt, false, true)
    ensures var r := Fread(file, pos, p);
            ReadCursor(file, p, queued, pos + |r.bytes|, r.bytes, |r.bytes| != p && r.eof, false)
  {
  }

  /** Handing the pending chunk to the codec keeps `ReadCursor` with one more
      chunk queued. */
  lemma QueueStep(file: seq<byte>, p: nat, queued: nat, pos: nat, pkt: seq<byte>)
    requires ReadCursor(file, p, queued, pos, pkt, false, false)
    ensures ReadCursor(file, p, queued + 1, pos, pkt, false, true)
  {
    assert (queued + 1) * p == queued * p + p;
  }

  /** The concatenation of a sequence of byte strings. */
  function Flatten(cs: seq<seq<byte>>): (r: seq<byte>)
  {
    if cs == [] then [] else Flatten(cs[..|cs| - 1]) + cs[|cs| - 1]
  }

  lemma FlattenAppend(cs: seq<seq<byte>>, c: seq<byte>)
    ensures Flatten(cs + [c]) == Flatten(cs) + c
  {
    assert (cs + [c])[..|cs|] == cs;
  }

  lemma MulSucc(n: nat, p: nat)
    ensures (n + 1) * p == n * p + p
  {
  }

  /** A smaller factor gives a product at least one step of `p` smaller. */
  lemma {:induction false} MulStep(a: nat, b: nat, p: nat)
    requires a < b
    ensures a * p + p <= b * p
    decreases b - a
  {
    MulSucc(a, p);
    if a + 1 < b {
      MulStep(a + 1, b, p);
    }
  }

  /** Appending the next `p` bytes of the file to a prefix of it. */
  lemma PrefixExtend(file: seq<byte>, cs: seq<seq<byte>>, c: seq<byte>, m: nat, p: nat)
    requires m + p <= |file|
    requires Flatten(cs) == file[..m]
    requires c == file[m..m + p]
    ensures Flatten(cs + [c]) == file[..m + p]
  {
    FlattenAppend(cs, c);
    assert file[..m] + file[m..m + p] == file[..m + p];
  }

  /** Consecutive full chunks, concatenated, are the file's prefix of that
      many chunks. */
  lemma {:induction false} ChunksArePrefix(file: seq<byte>, p: nat, cs: seq<seq<byte>>)
    requires forall k | 0 <= k < |cs| :: IsChunk(file, p, k, cs[k])
    ensures |cs| * p <= |file|
    ensures Flatten(cs) == file[..|cs| * p]
  {
    if cs != [] {
      var n := |cs| - 1;
      var front := cs[..n];
      assert forall k | 0 <= k < n :: front[k] == cs[k];
      ChunksArePrefix(file, p, front);
      assert IsChunk(file, p, n, cs[n]);
      assert cs == front + [cs[n]];
      PrefixExtend(file, front, cs[n], n * p, p);
      MulSucc(n, p);
    }
  }

  /** When the reader has seen end of input after `queued` full chunks, those
      chunks are all of the file's full chunks and what is left is the
      remainder of the division by the chunk size. */
  lemma TailIsRemainder(size: nat, p: nat, queued: nat)
    requires p > 0
    requires queued * p <= size < queued * p + p
    ensures queued == size / p
    ensures size - queued * p == size % p
  {
    var q, r := size / p, size % p;
    assert size == q * p + r && 0 <= r < p;
    if q < queued {
      MulStep(q, queued, p);
    } else if queued < q {
      MulStep(queued, q, p);
    }
  }
}
