/**
  Android's `MediaCodec`, as the native sample programs drive it, reduced to
  a scripted oracle.  Each round of a feed/drain loop asks the codec for at
  most one input buffer (`dequeueInputBuffer`) and exactly one output event
  (`dequeueOutputBuffer`); a `Tick` holds the codec's answers to both for one
  round.  What the program does with the answers is recorded as the input
  submissions it queued, the output releases it made and the bytes it wrote.

  The functions at the end summarise the drain side of a run: every output
  buffer handed out is counted and released once, in order, and the cached
  output-buffer vector is whatever the last `INFO_OUTPUT_BUFFERS_CHANGED`
  delivered.
 */
module MediaCodecApi {
  import opened Outcomes
  import opened Stdio

  /** Android `status_t` values the samples return. */
  datatype Status = OK | BAD_VALUE

  /** The identity of one `sp<ABuffer>` of a codec port. */
  type BufferHandle = nat

  /** The codec's answer to `dequeueInputBuffer`. */
  datatype InputReply =
    | InputSlot(index: nat)   // OK, with the buffer index
    | InputTryAgain           // -EAGAIN
    | InputError              // any other status

  /** The codec's answer to `dequeueOutputBuffer`: a filled buffer (with
      whether it carries `BUFFER_FLAG_EOS` and the bytes of the buffer at that
      index), `-EAGAIN`, `INFO_OUTPUT_BUFFERS_CHANGED` (with the vector
      `getOutputBuffers` then returns), `INFO_FORMAT_CHANGED`, or another
      status. */
  datatype OutputReply =
    | OutputUnit(index: nat, eos: bool, bytes: seq<byte>)
    | OutputTryAgain
    | OutputBuffersChanged(buffers: seq<BufferHandle>)
    | OutputFormatChanged
    | OutputError

  /** The codec's answers during one round of a pump loop. */
  datatype Tick = Tick(input: InputReply, output: OutputReply)

  /** One `queueInputBuffer` call: buffer index, payload, timestamp and
      whether `BUFFER_FLAG_EOS` was set. */
  datatype Submission = Submission(index: nat, bytes: seq<byte>, timeUs: int, eos: bool)

  /** One `renderOutputBufferAndRelease` (rendered) or `releaseOutputBuffer`
      call. */
  datatype Release = Release(index: nat, rendered: bool)

  /** How the output half of one round ends: the releases and the bytes
      written when it completes. */
  datatype DrainEnd =
    | Drained(released: seq<Release>, written: seq<byte>)
    | DrainCheckFailed   // CHECK_EQ(err, -EAGAIN) on an unexpected status
    | DrainUndefined     // itemAt on an index past the cached output vector

  /** The output events of the first `|ts|` rounds. */
  function Outputs(ts: seq<Tick>): seq<OutputReply>
  {
    seq(|ts|, i requires 0 <= i < |ts| => ts[i].output)
  }

  lemma OutputsStep(script: seq<Tick>, n: nat)
    requires n < |script|
    ensures Outputs(script[..n + 1]) == Outputs(script[..n]) + [script[n].output]
  {
    assert Outputs(script[..n + 1]) == Outputs(script[..n]) + [script[n].output];
  }

  /** The filled buffers among the output events, in order. */
  function Units(outs: seq<OutputReply>): (r: seq<OutputReply>)
    ensures |r| <= |outs|
    ensures forall k | 0 <= k < |r| :: r[k].OutputUnit?
  {
    if outs == [] then []
    else if outs[|outs| - 1].OutputUnit? then Units(outs[..|outs| - 1]) + [outs[|outs| - 1]]
    else Units(outs[..|outs| - 1])
  }

  lemma UnitsAppend(outs: seq<OutputReply>, o: OutputReply)
    ensures Units(outs + [o]) == Units(outs) + (if o.OutputUnit? then [o] else [])
  {
    assert (outs + [o])[..|outs|] == outs;
  }

  /** `Units` keeps exactly the filled buffers: each one as often as it
      occurs among the events, and nothing else. */
  lemma {:induction false} UnitsAreTheFilledBuffers(outs: seq<OutputReply>, o: OutputReply)
    ensures multiset(Units(outs))[o] == if o.OutputUnit? then multiset(outs)[o] else 0
    ensures o in Units(outs) <==> o in outs && o.OutputUnit?
  {
    if outs != [] {
      var front, last := outs[..|outs| - 1], outs[|outs| - 1];
      UnitsAreTheFilledBuffers(front, o);
      assert outs == front + [last];
      assert multiset(outs) == multiset(front) + multiset{last};
      if last.OutputUnit? {
        assert multiset(Units(outs)) == multiset(Units(front)) + multiset{last};
      }
    }
  }

  /** The release calls for the given filled buffers, one each, in order. */
  function ReleasesOf(units: seq<OutputReply>, rendered: bool): seq<Release>
    requires forall k | 0 <= k < |units| :: units[k].OutputUnit?
  {
    seq(|units|, k requires 0 <= k < |units| => Release(units[k].index, rendered))
  }

  /** The bytes of the given filled buffers, concatenated as `fwrite` appends
      them. */
  function UnitBytes(units: seq<OutputReply>): seq<byte>
    requires forall k | 0 <= k < |units| :: units[k].OutputUnit?
  {
    if units == [] then [] else UnitBytes(units[..|units| - 1]) + units[|units| - 1].bytes
  }

  lemma UnitBytesAppend(units: seq<OutputReply>, o: OutputReply)
    requires forall k | 0 <= k < |units| :: units[k].OutputUnit?
    requires o.OutputUnit?
    ensures UnitBytes(units + [o]) == UnitBytes(units) + o.bytes
  {
    assert (units + [o])[..|units|] == units;
  }

  lemma ReleasesAppend(units: seq<OutputReply>, o: OutputReply, rendered: bool)
    requires forall k | 0 <= k < |units| :: units[k].OutputUnit?
    requires o.OutputUnit?
    ensures ReleasesOf(units + [o], rendered) == ReleasesOf(units, rendered) + [Release(o.index, rendered)]
  {
    assert ReleasesOf(units + [o], rendered) == ReleasesOf(units, rendered) + [Release(o.index, rendered)];
  }

  /** Some filled buffer carried `BUFFER_FLAG_EOS`. */
  predicate SawOutputEOS(outs: seq<OutputReply>)
  {
    exists i | 0 <= i < |outs| :: outs[i].OutputUnit? && outs[i].eos
  }

  lemma SawOutputEOSAppend(outs: seq<OutputReply>, o: OutputReply)
    ensures SawOutputEOS(outs + [o]) <==> SawOutputEOS(outs) || (o.OutputUnit? && o.eos)
  {
    if SawOutputEOS(outs) {
      var i :| 0 <= i < |outs| && outs[i].OutputUnit? && outs[i].eos;
      assert (outs + [o])[i] == outs[i];
    }
    if o.OutputUnit? && o.eos {
      assert (outs + [o])[|outs|] == o;
    }
  }

  /** The cached output-buffer vector after the events: each
      `INFO_OUTPUT_BUFFERS_CHANGED` replaces it wholesale. */
  function CurrentBuffers(initial: seq<BufferHandle>, outs: seq<OutputReply>): seq<BufferHandle>
  {
    if outs == [] then initial
    else if outs[|outs| - 1].OutputBuffersChanged? then outs[|outs| - 1].buffers
    else CurrentBuffers(initial, outs[..|outs| - 1])
  }

  /** The vector is the one delivered by the last change event, and the
      initial one when there was none. */
  lemma {:induction false} LastChangeWins(initial: seq<BufferHandle>, outs: seq<OutputReply>, i: int)
    requires -1 <= i < |outs|
    requires i >= 0 ==> outs[i].OutputBuffersChanged?
    requires forall j | i < j < |outs| :: !outs[j].OutputBuffersChanged?
    ensures CurrentBuffers(initial, outs) == if i < 0 then initial else outs[i].buffers
  {
    if outs != [] && i < |outs| - 1 {
      LastChangeWins(initial, outs[..|outs| - 1], i);
    }
  }

  lemma CurrentBuffersAppend(initial: seq<BufferHandle>, outs: seq<OutputReply>, o: OutputReply)
    ensures CurrentBuffers(initial, outs + [o]) ==
            if o.OutputBuffersChanged? then o.buffers else CurrentBuffers(initial, outs)
  {
    assert (outs + [o])[..|outs|] == outs;
  }

  /** The submissions of a raw-input loop that reads `file` in chunks of `p`
      bytes: the full chunks, in file order, as data buffers without a
      timestamp; then, when `eosSent`, one empty `BUFFER_FLAG_EOS` buffer,
      queued only after fewer than `p` bytes were left to read. */
  ghost predicate RawFeed(file: seq<byte>, p: nat, subs: seq<Submission>, eosSent: bool)
  {
    var n := if eosSent then |subs| - 1 else |subs|;
    && n >= 0
    && (forall k | 0 <= k < n :: !subs[k].eos && subs[k].timeUs == 0 && IsChunk(file, p, k, subs[k].bytes))
    && (eosSent ==> subs[n].eos && subs[n].bytes == [] && subs[n].timeUs == 0 && |file| < n * p + p)
  }

  /** Queuing the next full chunk as data extends a raw feed. */
  lemma RawFeedData(file: seq<byte>, p: nat, subs: seq<Submission>, index: nat, chunk: seq<byte>)
    requires RawFeed(file, p, subs, false)
    requires IsChunk(file, p, |subs|, chunk)
    ensures RawFeed(file, p, subs + [Submission(index, chunk, 0, false)], false)
  {
    var subs' := subs + [Submission(index, chunk, 0, false)];
    assert forall k | 0 <= k < |subs| :: subs'[k] == subs[k];
  }

  /** Queuing the empty EOS buffer, once fewer than `p` bytes are left after
      the queued chunks, completes a raw feed. */
  lemma RawFeedEos(file: seq<byte>, p: nat, subs: seq<Submission>, index: nat)
    requires RawFeed(file, p, subs, false)
    requires |file| < |subs| * p + p
    ensures RawFeed(file, p, subs + [Submission(index, [], 0, true)], true)
  {
    var subs' := subs + [Submission(index, [], 0, true)];
    assert forall k | 0 <= k < |subs| :: subs'[k] == subs[k];
  }

  /** The reader and the submissions so far agree: the reader stands after
      the chunks queued as data, and those chunks form a raw feed. */
  ghost predicate RawInputInv(file: seq<byte>, p: nat, rd: RawReader,
                             signalledInputEOS: bool, subs: seq<Submission>)
  {
    var queued := |subs| - (if signalledInputEOS then 1 else 0);
    && queued >= 0
    && ReadCursor(file, p, queued, rd.pos, rd.pkt, rd.sawInputEOS, rd.lastPktQueued)
    && RawFeed(file, p, subs, signalledInputEOS)
    && (signalledInputEOS ==> rd.sawInputEOS)
  }

  /** How the input half of one round ends. */
  datatype FeedEnd =
    | Fed
    | FeedCheckFailed   // CHECK_EQ(err, -EAGAIN) on an unexpected status
    | FeedUndefined     // itemAt on an index past the input-buffer vector

  /** The input replies of the first `|ts|` rounds. */
  function Inputs(ts: seq<Tick>): seq<InputReply>
  {
    seq(|ts|, i requires 0 <= i < |ts| => ts[i].input)
  }

  lemma InputsStep(script: seq<Tick>, n: nat)
    requires n < |script|
    ensures Inputs(script[..n + 1]) == Inputs(script[..n]) + [script[n].input]
  {
    assert Inputs(script[..n + 1]) == Inputs(script[..n]) + [script[n].input];
  }

  /** The empty EOS buffer has been queued; it is always the last submission. */
  predicate Signalled(subs: seq<Submission>)
  {
    |subs| > 0 && subs[|subs| - 1].eos
  }

  /** A raw feed is signalled exactly when its EOS buffer was sent. */
  lemma RawFeedSignalled(file: seq<byte>, p: nat, subs: seq<Submission>, eosSent: bool)
    requires RawFeed(file, p, subs, eosSent)
    ensures Signalled(subs) <==> eosSent
  {
    if !eosSent && |subs| > 0 {
      assert !subs[|subs| - 1].eos;
    }
  }

  /** What a raw-input loop has queued after a round whose
      `dequeueInputBuffer` answered `reply`, given what it queued before:
      nothing more once the EOS buffer is queued or when no buffer is
      offered; otherwise the offered buffer gets the next full chunk while
      one is left, and the empty EOS buffer after that. */
  function RawFeedStep(file: seq<byte>, p: nat, subs: seq<Submission>, reply: InputReply): seq<Submission>
  {
    if Signalled(subs) || !reply.InputSlot? then subs
    else if DataLeft(file, p, |subs|) then
      subs + [Submission(reply.index, file[|subs| * p..|subs| * p + p], 0, false)]
    else subs + [Submission(reply.index, [], 0, true)]
  }

  /** Everything a raw-input loop has queued, given the `dequeueInputBuffer`
      answers of its completed rounds in order. */
  function RawSubmissions(file: seq<byte>, p: nat, ins: seq<InputReply>): seq<Submission>
  {
    if ins == [] then [] else RawFeedStep(file, p, RawSubmissions(file, p, ins[..|ins| - 1]), ins[|ins| - 1])
  }

  lemma RawSubmissionsStep(file: seq<byte>, p: nat, script: seq<Tick>, n: nat)
    requires n < |script|
    ensures RawSubmissions(file, p, Inputs(script[..n + 1])) ==
            RawFeedStep(file, p, RawSubmissions(file, p, Inputs(script[..n])), script[n].input)
  {
    InputsStep(script, n);
    assert (Inputs(script[..n]) + [script[n].input])[..n] == Inputs(script[..n]);
  }

  /** Whatever the codec answers, what the loop queues is a raw feed of the
      file: whole chunks in order, then at most one EOS buffer, last. */
  lemma {:induction false} RawSubmissionsAreFeed(file: seq<byte>, p: nat, ins: seq<InputReply>)
    ensures RawFeed(file, p, RawSubmissions(file, p, ins), Signalled(RawSubmissions(file, p, ins)))
  {
    if ins != [] {
      var front := ins[..|ins| - 1];
      var subs := RawSubmissions(file, p, front);
      var reply := ins[|ins| - 1];
      RawSubmissionsAreFeed(file, p, front);
      if !Signalled(subs) && reply.InputSlot? {
        if DataLeft(file, p, |subs|) {
          RawFeedData(file, p, subs, reply.index, file[|subs| * p..|subs| * p + p]);
        } else {
          RawFeedEos(file, p, subs, reply.index);
        }
      }
    }
  }

  /** The number of rounds among `ins` in which the codec offered a buffer. */
  function SlotCount(ins: seq<InputReply>): nat
  {
    if ins == [] then 0 else SlotCount(ins[..|ins| - 1]) + if ins[|ins| - 1].InputSlot? then 1 else 0
  }

  /** No offered buffer goes unused until the EOS buffer is queued: the loop
      queues one buffer per offer, up to the file's full chunks and the EOS
      buffer. */
  lemma {:induction false} RawSubmissionsUseEveryOffer(file: seq<byte>, p: nat, ins: seq<InputReply>)
    requires p > 0
    ensures var n := |RawSubmissions(file, p, ins)|;
            n == if SlotCount(ins) <= |file| / p then SlotCount(ins) else |file| / p + 1
  {
    if ins != [] {
      var front := ins[..|ins| - 1];
      var subs := RawSubmissions(file, p, front);
      RawSubmissionsUseEveryOffer(file, p, front);
      RawSubmissionsAreFeed(file, p, front);
      RawFeedCount(file, p, subs, Signalled(subs));
      if !Signalled(subs) {
        DataLeftIff(|file|, p, |subs|);
      }
    }
  }

  /** A raw feed holds at most the file's full chunks, and all of them once
      its EOS buffer is sent. */
  lemma RawFeedCount(file: seq<byte>, p: nat, subs: seq<Submission>, eosSent: bool)
    requires p > 0
    requires RawFeed(file, p, subs, eosSent)
    ensures eosSent ==> |subs| == |file| / p + 1
    ensures !eosSent ==> |subs| <= |file| / p
  {
    var n := if eosSent then |subs| - 1 else |subs|;
    if n > 0 {
      assert IsChunk(file, p, n - 1, subs[n - 1].bytes);
      DataLeftIff(|file|, p, n - 1);
    }
    if eosSent {
      DataLeftIff(|file|, p, n);
    }
  }

  /** One more full chunk follows the first `n` exactly when the file holds
      more than `n` full chunks. */
  lemma DataLeftIff(size: nat, p: nat, n: nat)
    requires p > 0
    ensures n * p + p <= size <==> n < size / p
  {
    var q := size / p;
    assert size == q * p + size % p;
    if n < q {
      MulStep(n, q, p);
    } else {
      if n > q {
        MulStep(q, n, p);
      }
      MulSucc(q, p);
    }
  }

  /** A raw round's `dequeueInputBuffer` fails its CHECK: the round asks for
      a buffer (the EOS buffer is not yet queued) and gets an error other
      than `-EAGAIN`; `checkEosDequeue` says whether the EOS branch checks. */
  predicate RawInputFails(file: seq<byte>, p: nat, subs: seq<Submission>, reply: InputReply, checkEosDequeue: bool)
  {
    !Signalled(subs) && reply.InputError? && (checkEosDequeue || DataLeft(file, p, |subs|))
  }

  /** A raw round is offered a buffer for a chunk at an index past the
      input-buffer vector, and `itemAt` reads out of range. */
  predicate RawInputUndefined(file: seq<byte>, p: nat, inBuffers: nat, subs: seq<Submission>, reply: InputReply)
  {
    !Signalled(subs) && DataLeft(file, p, |subs|) && reply.InputSlot? && reply.index >= inBuffers
  }

  /** The input half of one round of a raw-input `MediaCodec` loop: read a
      chunk when the last one was queued, then queue it as data, or, after
      end of input, queue the empty EOS buffer once.  `inBuffers` is the size
      of the input-buffer vector; `checkEosDequeue` whether the EOS branch
      CHECKs the status of its `dequeueInputBuffer` (the encoder silently
      retries instead). */
  method RawInputHalf(file: seq<byte>, p: nat, inBuffers: nat, rd: RawReader, signalledInputEOS: bool,
                      reply: InputReply, checkEosDequeue: bool, ghost subs: seq<Submission>)
    returns (rd': RawReader, signalled': bool, sub: Option<Submission>, e: FeedEnd)
    requires RawInputInv(file, p, rd, signalledInputEOS, subs)
    ensures e.Fed? ==> RawInputInv(file, p, rd', signalled', subs + sub.ToSeq())
    ensures e.Fed? ==> subs + sub.ToSeq() == RawFeedStep(file, p, subs, reply)
    ensures e.FeedCheckFailed? <==> RawInputFails(file, p, subs, reply, checkEosDequeue)
    ensures e.FeedUndefined? <==> RawInputUndefined(file, p, inBuffers, subs, reply)
    // a read happens exactly when the last chunk was queued and end of input is not yet seen
    ensures rd'.pos == if !rd.sawInputEOS && rd.lastPktQueued then rd.pos + |Fread(file, rd.pos, p).bytes| else rd.pos
    ensures sub.Some? ==> e.Fed? && reply.InputSlot? && sub.value.index == reply.index
    ensures sub.Some? && !sub.value.eos ==> sub.value.index < inBuffers
    ensures signalledInputEOS ==> signalled' && sub.None?
    ensures signalled' == (signalledInputEOS || (sub.Some? && sub.value.eos))
  {
    rd', signalled', sub, e := rd, signalledInputEOS, None, Fed;
    var queued := |subs| - (if signalledInputEOS then 1 else 0);
    RawFeedSignalled(file, p, subs, signalledInputEOS);
    if !rd.sawInputEOS && rd.lastPktQueued {
      ReadStep(file, p, queued, rd.pos, rd.pkt);
      var r := Fread(file, rd.pos, p);
      rd' := RawReader(rd.pos + |r.bytes|, r.bytes, |r.bytes| != p && r.eof, false);
    }
    if !rd'.sawInputEOS {
      match reply
      case InputSlot(index) =>
        if index >= inBuffers {
          return rd', signalled', None, FeedUndefined;
        }
        QueueStep(file, p, queued, rd'.pos, rd'.pkt);
        RawFeedData(file, p, subs, index, rd'.pkt);
        sub := Some(Submission(index, rd'.pkt, 0, false));
        rd' := rd'.(lastPktQueued := true);
      case InputTryAgain =>
      case InputError =>
        e := FeedCheckFailed;
    } else if !signalledInputEOS {
      match reply
      case InputSlot(index) =>
        RawFeedEos(file, p, subs, index);
        sub := Some(Submission(index, [], 0, true));
        rd' := rd'.(lastPktQueued := true);
        signalled' := true;
      case InputTryAgain =>
      case InputError =>
        if checkEosDequeue {
          e := FeedCheckFailed;
        }
    }
  }

  /** The payloads of the submissions, in order. */
  function Payloads(subs: seq<Submission>): seq<seq<byte>>
  {
    seq(|subs|, k requires 0 <= k < |subs| => subs[k].bytes)
  }

  /** What a raw-input loop hands to the codec, concatenated, is the file's
      prefix of `n` full chunks; once the EOS buffer is sent, `n` is the
      number of full chunks in the file and the trailing `|file| % p` bytes
      were read but never queued. */
  lemma RawFeedDropsTail(file: seq<byte>, p: nat, subs: seq<Submission>, eosSent: bool)
    requires RawFeed(file, p, subs, eosSent)
    ensures var n := if eosSent then |subs| - 1 else |subs|;
            && n * p <= |file|
            && Flatten(Payloads(subs)) == file[..n * p]
            && (eosSent && p > 0 ==> n == |file| / p && |file| - n * p == |file| % p)
  {
    var n := if eosSent then |subs| - 1 else |subs|;
    var data := Payloads(subs)[..n];
    assert forall k | 0 <= k < |data| :: IsChunk(file, p, k, data[k]);
    ChunksArePrefix(file, p, data);
    if eosSent {
      assert Payloads(subs) == data + [[]];
      FlattenAppend(data, []);
      if p > 0 {
        TailIsRemainder(|file|, p, n);
      }
    } else {
      assert Payloads(subs) == data;
    }
  }
}
