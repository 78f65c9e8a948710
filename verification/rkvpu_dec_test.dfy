/**
  `rkvpu_dec_test`: an H.264 or H.265 elementary stream is fed in 1000-byte
  chunks to the Rockchip hardware decoder through `RKHWDecApi`, and the
  decoded pictures are written to an output file when one is given.

  `RKHWDecApi` (rkvpu_dec_api.h) is not part of this model: its calls are an
  oracle that answers each `sendStream` and `getOutFrame` with a status of
  the same `VPU_RET` enumeration the encoder wrapper declares.  After end of
  input, the last read goes to the decoder flagged as end of stream in every
  round, accepted or not.
 */
module RkvpuDecTest {
  import opened Outcomes
  import opened Stdio
  import opened Cli
  import opened RkvpuEncApi

  /** The program's context (`DecTestCtx`).  `numBuffersDecoded` counts up
      without bound here; the program's `int32_t` would overflow only after
      2^31 pictures. */
  datatype DecTestCtx = DecTestCtx(
    fileInput: string,
    fileOutput: string,
    hasOutput: bool,
    videoCoding: Coding,
    width: int32,
    height: int32,
    numBuffersDecoded: nat)

  /** The long options `testParseArgs` knows. */
  const DEC_OPTIONS: set<Key> := {KUsage, KInput, KOutput, KWidth, KHeight, KType}

  /** The coding the options select: HEVC when the last `--t` is 2, AVC for
      any other value and without `--t`. */
  function CodingOf(opts: seq<CliOption>): (c: Coding)
    ensures c == CodingHEVC || c == CodingAVC
    ensures c == CodingHEVC <==> Last(opts, KType).Some? && IntValue(Last(opts, KType).value, 1) == 2
  {
    if LastValue(opts, KType, 1) == 2 then CodingHEVC else CodingAVC
  }

  /** `testParseArgs` on the caller's context `ctx`: size 0x0, AVC, no output
      and no decoded picture until an option says otherwise; every option
      overwrites its field; an input file is required.  The output path
      keeps the caller's value when `--o` is absent. */
  method ParseArgs(ctx: DecTestCtx, opts: seq<CliOption>) returns (ret: VpuRet, ctx': DecTestCtx)
    ensures ret == VPU_OK || ret == VPU_ERR_UNKNOW
    ensures ret == VPU_OK <==> AllAccepted(DEC_OPTIONS, opts) && Last(opts, KInput).Some?
    ensures ret == VPU_OK ==>
              ctx' == ctx.(fileInput := LastPath(opts, KInput, ctx.fileInput),
                           fileOutput := LastPath(opts, KOutput, ctx.fileOutput),
                           hasOutput := Last(opts, KOutput).Some?,
                           videoCoding := CodingOf(opts),
                           width := LastValue(opts, KWidth, 0),
                           height := LastValue(opts, KHeight, 0),
                           numBuffersDecoded := 0)
  {
    ctx' := ctx.(width := 0, height := 0, hasOutput := false, videoCoding := CodingAVC, numBuffersDecoded := 0);
    var hasInput := false;
    for i := 0 to |opts|
      invariant AllAccepted(DEC_OPTIONS, opts[..i])
      invariant hasInput == Last(opts[..i], KInput).Some?
      invariant ctx' == ctx.(fileInput := LastPath(opts[..i], KInput, ctx.fileInput),
                             fileOutput := LastPath(opts[..i], KOutput, ctx.fileOutput),
                             hasOutput := Last(opts[..i], KOutput).Some?,
                             videoCoding := CodingOf(opts[..i]),
                             width := LastValue(opts[..i], KWidth, 0),
                             height := LastValue(opts[..i], KHeight, 0),
                             numBuffersDecoded := 0)
    {
      if !Accepts(DEC_OPTIONS, opts[i]) {
        // --u, and every option missing from the table
        return VPU_ERR_UNKNOW, ctx';
      }
      AllAcceptedStep(DEC_OPTIONS, opts, i);
      LastStep(opts, i, KInput);
      LastStep(opts, i, KOutput);
      LastStep(opts, i, KWidth);
      LastStep(opts, i, KHeight);
      LastStep(opts, i, KType);
      match opts[i]
      case Input(path) =>
        ctx' := ctx'.(fileInput := path);
        hasInput := true;
      case Output(path) =>
        ctx' := ctx'.(fileOutput := path, hasOutput := true);
      case Width(v) =>
        ctx' := ctx'.(width := v);
      case Height(v) =>
        ctx' := ctx'.(height := v);
      case Type(v) =>
        ctx' := ctx'.(videoCoding := if v == 2 then CodingHEVC else CodingAVC);
    }
    assert opts[..|opts|] == opts;
    if !hasInput {
      return VPU_ERR_UNKNOW, ctx';
    }
    ret := VPU_OK;
  }

  /** The chunk size of the reading loop (`pktsize`). */
  const DEC_CHUNK: nat := 1000

  /** One call of `sendStream`: the bytes read (the first `readsize` bytes of
      `pktBuf`), the flags, and whether the decoder answered `VPU_OK`. */
  datatype StreamSend = StreamSend(buf: seq<byte>, flags: int32, accepted: bool)

  /** The chunks the decoder accepted as data, in order. */
  function AcceptedData(calls: seq<StreamSend>): seq<seq<byte>>
  {
    if calls == [] then []
    else
      var c := calls[|calls| - 1];
      AcceptedData(calls[..|calls| - 1]) + (if c.accepted && c.flags == 0 then [c.buf] else [])
  }

  lemma AcceptedDataAppend(calls: seq<StreamSend>, c: StreamSend)
    ensures AcceptedData(calls + [c]) == AcceptedData(calls) + (if c.accepted && c.flags == 0 then [c.buf] else [])
  {
    assert (calls + [c])[..|calls|] == calls;
  }

  /** The call `c` of the reading loop, made after the calls `before`, with
      `q` data chunks accepted so far: it is flagged exactly when fewer than
      1000 bytes follow those chunks; unflagged, it carries the next full
      chunk; flagged, it carries the end-of-stream flag and the rest of the
      file.  This holds whether the decoder accepts the call or not. */
  ghost predicate DecSendAfter(file: seq<byte>, before: seq<StreamSend>, c: StreamSend)
  {
    var q := |AcceptedData(before)|;
    && (c.flags != 0 <==> !DataLeft(file, DEC_CHUNK, q))
    && (c.flags == 0 ==> IsChunk(file, DEC_CHUNK, q, c.buf))
    && (c.flags != 0 ==> c.flags == OMX_BUFFERFLAG_EOS && q * DEC_CHUNK <= |file| && c.buf == file[q * DEC_CHUNK..])
  }

  /** Every call among `calls`, accepted or refused, is the one
      `DecSendAfter` calls for after the calls before it. */
  ghost predicate DecSends(file: seq<byte>, calls: seq<StreamSend>)
  {
    forall k | 0 <= k < |calls| :: DecSendAfter(file, calls[..k], calls[k])
  }

  /** One more call that fits what was sent before keeps `DecSends`. */
  lemma DecSendsAppend(file: seq<byte>, calls: seq<StreamSend>, c: StreamSend)
    requires DecSends(file, calls) && DecSendAfter(file, calls, c)
    ensures DecSends(file, calls + [c])
  {
    var calls' := calls + [c];
    assert forall k | 0 <= k < |calls| :: calls'[k] == calls[k] && calls'[..k] == calls[..k];
    assert calls'[..|calls|] == calls;
  }

  /** The `sendStream` calls of a loop reading `file` in 1000-byte chunks:
      - the chunks accepted as data are the file's full chunks, in order;
      - a flagged call carries the end-of-stream flag and the rest of the
        file after those chunks, fewer than 1000 bytes;
      - once a call is flagged, every later call is flagged too;
      - a refused data chunk is sent again in the next call. */
  ghost predicate DecFeed(file: seq<byte>, calls: seq<StreamSend>)
  {
    var n := |AcceptedData(calls)|;
    && (forall k | 0 <= k < n :: IsChunk(file, DEC_CHUNK, k, AcceptedData(calls)[k]))
    && (forall k | 0 <= k < |calls| && calls[k].flags != 0 ::
          && calls[k].flags == OMX_BUFFERFLAG_EOS
          && n * DEC_CHUNK <= |file| < n * DEC_CHUNK + DEC_CHUNK
          && calls[k].buf == file[n * DEC_CHUNK..])
    && (forall j, k | 0 <= j < k < |calls| && calls[j].flags != 0 :: calls[k].flags != 0)
    && (forall k | 0 <= k < |calls| - 1 && calls[k].flags == 0 && !calls[k].accepted ::
          calls[k + 1].buf == calls[k].buf)
  }

  /** The reader stands after the accepted chunks; nothing is flagged before
      end of input; a refused data chunk is still pending in the reader. */
  ghost predicate DecFeedInv(file: seq<byte>, rd: RawReader, calls: seq<StreamSend>)
  {
    && ReadCursor(file, DEC_CHUNK, |AcceptedData(calls)|, rd.pos, rd.pkt, rd.sawInputEOS, rd.lastPktQueued)
    && DecFeed(file, calls)
    && (!rd.sawInputEOS ==> forall k | 0 <= k < |calls| :: calls[k].flags == 0)
    && (calls != [] && calls[|calls| - 1].flags == 0 && !calls[|calls| - 1].accepted ==>
          !rd.sawInputEOS && !rd.lastPktQueued && rd.pkt == calls[|calls| - 1].buf)
  }

  /** An accepted data chunk extends the feed. */
  lemma DecFeedData(file: seq<byte>, rd: RawReader, calls: seq<StreamSend>)
    requires DecFeedInv(file, rd, calls)
    requires !rd.sawInputEOS && !rd.lastPktQueued
    ensures var c := StreamSend(rd.pkt, 0, true);
            DecFeedInv(file, rd.(lastPktQueued := true), calls + [c])
  {
    var c := StreamSend(rd.pkt, 0, true);
    var calls' := calls + [c];
    AcceptedDataAppend(calls, c);
    var n := |AcceptedData(calls)|;
    assert forall k | 0 <= k < |calls| :: calls'[k] == calls[k];
    QueueStep(file, DEC_CHUNK, n, rd.pos, rd.pkt);
  }

  /** Once a flagged call went out, the accepted data chunks followed by the
      flagged tail give back the whole file: nothing is dropped. */
  lemma DecFeedCoversFile(file: seq<byte>, calls: seq<StreamSend>, k: nat)
    requires DecFeed(file, calls)
    requires k < |calls| && calls[k].flags != 0
    ensures Flatten(AcceptedData(calls)) + calls[k].buf == file
  {
    var data := AcceptedData(calls);
    var n := |data|;
    var m := n * DEC_CHUNK;
    assert forall j | 0 <= j < n :: IsChunk(file, DEC_CHUNK, j, data[j]);
    ChunksArePrefix(file, DEC_CHUNK, data);
    assert Flatten(data) == file[..m];
    assert m <= |file| && calls[k].buf == file[m..];
    assert file[..m] + file[m..] == file;
  }

  /** A refused data chunk leaves it pending. */
  lemma DecFeedRefused(file: seq<byte>, rd: RawReader, calls: seq<StreamSend>)
    requires DecFeedInv(file, rd, calls)
    requires !rd.sawInputEOS && !rd.lastPktQueued
    ensures DecFeedInv(file, rd, calls + [StreamSend(rd.pkt, 0, false)])
  {
    var c := StreamSend(rd.pkt, 0, false);
    var calls' := calls + [c];
    AcceptedDataAppend(calls, c);
    assert forall k | 0 <= k < |calls| :: calls'[k] == calls[k];
  }

  /** A flagged call after end of input, accepted or not, keeps the feed. */
  lemma DecFeedEos(file: seq<byte>, rd: RawReader, calls: seq<StreamSend>, accepted: bool)
    requires DecFeedInv(file, rd, calls)
    requires rd.sawInputEOS
    ensures DecFeedInv(file, rd.(lastPktQueued := rd.lastPktQueued || accepted),
                       calls + [StreamSend(rd.pkt, OMX_BUFFERFLAG_EOS, accepted)])
  {
    var c := StreamSend(rd.pkt, OMX_BUFFERFLAG_EOS, accepted);
    var calls' := calls + [c];
    AcceptedDataAppend(calls, c);
    assert forall k | 0 <= k < |calls| :: calls'[k] == calls[k];
  }

  /** Reading the next chunk once the last one was accepted keeps the feed. */
  lemma DecFeedRead(file: seq<byte>, rd: RawReader, calls: seq<StreamSend>)
    requires DecFeedInv(file, rd, calls)
    requires !rd.sawInputEOS && rd.lastPktQueued
    ensures var r := Fread(file, rd.pos, DEC_CHUNK);
            DecFeedInv(file, RawReader(rd.pos + |r.bytes|, r.bytes, |r.bytes| != DEC_CHUNK && r.eof, false), calls)
  {
    ReadStep(file, DEC_CHUNK, |AcceptedData(calls)|, rd.pos, rd.pkt);
  }

  /** With the reader holding the pending chunk or the tail, the call that
      sends it is the one `DecSendFor` calls for. */
  lemma DecSendIsFor(file: seq<byte>, rd: RawReader, calls: seq<StreamSend>, accepted: bool)
    requires ReadCursor(file, DEC_CHUNK, |AcceptedData(calls)|, rd.pos, rd.pkt, rd.sawInputEOS, rd.lastPktQueued)
    requires rd.sawInputEOS || !rd.lastPktQueued
    ensures StreamSend(rd.pkt, if rd.sawInputEOS then OMX_BUFFERFLAG_EOS else 0, accepted) ==
            DecSendFor(file, |AcceptedData(calls)|, accepted)
  {
  }

  /** The input half of one round of `runDecoder`: read a chunk when the last
      one was accepted; before end of input send it unflagged, after end of
      input send the last read flagged, in every round. */
  method DecInputHalf(file: seq<byte>, rd: RawReader, sendRet: VpuRet, ghost calls: seq<StreamSend>)
    returns (rd': RawReader, ghost calls': seq<StreamSend>)
    requires DecFeedInv(file, rd, calls)
    ensures DecFeedInv(file, rd', calls')
    ensures |calls'| == |calls| + 1 && calls'[..|calls|] == calls
    ensures calls'[|calls|].accepted <==> sendRet == VPU_OK
    ensures calls'[|calls|].flags != 0 <==> rd'.sawInputEOS
    ensures calls' == calls + [DecSendFor(file, |AcceptedData(calls)|, sendRet == VPU_OK)]
  {
    rd' := rd;
    if !rd.sawInputEOS && rd.lastPktQueued {
      DecFeedRead(file, rd, calls);
      var r := Fread(file, rd.pos, DEC_CHUNK);
      rd' := RawReader(rd.pos + |r.bytes|, r.bytes, |r.bytes| != DEC_CHUNK && r.eof, false);
    }
    var accepted := sendRet.Code() == 0;
    var send := StreamSend(rd'.pkt, if rd'.sawInputEOS then OMX_BUFFERFLAG_EOS else 0, accepted);
    DecSendIsFor(file, rd', calls, accepted);
    calls' := calls + [send];
    if !rd'.sawInputEOS {
      if accepted {
        DecFeedData(file, rd', calls);
        rd' := rd'.(lastPktQueued := true);
      } else {
        DecFeedRefused(file, rd', calls);
      }
    } else {
      DecFeedEos(file, rd', calls, accepted);
      if accepted {
        rd' := rd'.(lastPktQueued := true);
      }
    }
    assert calls'[..|calls|] == calls;
  }

  /** What the decoder answers in one loop round: the status of
      `sendStream`, and the status and picture bytes of `getOutFrame`. */
  datatype DecTick = DecTick(sendRet: VpuRet, frameRet: VpuRet, frame: seq<byte>)

  /** The pictures among the answers, in order. */
  function Decoded(ticks: seq<DecTick>): seq<seq<byte>>
  {
    if ticks == [] then []
    else
      var t := ticks[|ticks| - 1];
      Decoded(ticks[..|ticks| - 1]) + (if t.frameRet == VPU_OK then [t.frame] else [])
  }

  lemma DecodedStep(script: seq<DecTick>, used: nat)
    requires used < |script|
    ensures Decoded(script[..used + 1]) ==
            Decoded(script[..used]) + (if script[used].frameRet == VPU_OK then [script[used].frame] else [])
  {
    assert script[..used + 1][..used] == script[..used];
  }

  /** The call the reading loop makes once `q` data chunks were accepted:
      the next full chunk, unflagged, while one is left; else the rest of the
      file, flagged with end of stream.  `accepted` is the decoder's verdict. */
  function DecSendFor(file: seq<byte>, q: nat, accepted: bool): StreamSend
  {
    if DataLeft(file, DEC_CHUNK, q) then StreamSend(file[q * DEC_CHUNK..q * DEC_CHUNK + DEC_CHUNK], 0, accepted)
    else
      var m := if q * DEC_CHUNK <= |file| then q * DEC_CHUNK else |file|;
      StreamSend(file[m..], OMX_BUFFERFLAG_EOS, accepted)
  }

  /** The `sendStream` calls of the rounds `ticks`, by the decoder's replies:
      one call per round, accepted exactly on `VPU_OK`. */
  function DecCalls(file: seq<byte>, ticks: seq<DecTick>): seq<StreamSend>
  {
    if ticks == [] then []
    else
      var before := DecCalls(file, ticks[..|ticks| - 1]);
      before + [DecSendFor(file, |AcceptedData(before)|, ticks[|ticks| - 1].sendRet == VPU_OK)]
  }

  lemma DecCallsStep(file: seq<byte>, script: seq<DecTick>, used: nat)
    requires used < |script|
    ensures var before := DecCalls(file, script[..used]);
            DecCalls(file, script[..used + 1]) ==
            before + [DecSendFor(file, |AcceptedData(before)|, script[used].sendRet == VPU_OK)]
  {
    assert script[..used + 1][..used] == script[..used];
  }

  /** One call per round, accepted exactly when the decoder said `VPU_OK`. */
  lemma {:induction false} DecCallsAccepted(file: seq<byte>, ticks: seq<DecTick>)
    ensures |DecCalls(file, ticks)| == |ticks|
    ensures forall k | 0 <= k < |ticks| :: DecCalls(file, ticks)[k].accepted <==> ticks[k].sendRet == VPU_OK
  {
    if ticks != [] {
      var front := ticks[..|ticks| - 1];
      var before := DecCalls(file, front);
      var calls := before + [DecSendFor(file, |AcceptedData(before)|, ticks[|ticks| - 1].sendRet == VPU_OK)];
      DecCallsAccepted(file, front);
      assert DecCalls(file, ticks) == calls;
      forall k | 0 <= k < |ticks|
        ensures calls[k].accepted <==> ticks[k].sendRet == VPU_OK
      {
        if k < |front| {
          assert calls[k] == before[k] && ticks[k] == front[k];
        }
      }
    }
  }

  /** Whatever the decoder answers, every call of the loop, accepted or
      refused, carries what `DecSendAfter` calls for after the calls before
      it: refused calls are not free. */
  lemma {:induction false} DecCallsSends(file: seq<byte>, ticks: seq<DecTick>)
    ensures DecSends(file, DecCalls(file, ticks))
    ensures |AcceptedData(DecCalls(file, ticks))| * DEC_CHUNK <= |file|
  {
    if ticks != [] {
      var before := DecCalls(file, ticks[..|ticks| - 1]);
      DecCallsSends(file, ticks[..|ticks| - 1]);
      var c := DecSendFor(file, |AcceptedData(before)|, ticks[|ticks| - 1].sendRet == VPU_OK);
      DecSendsAppend(file, before, c);
      AcceptedDataAppend(before, c);
    }
  }

  /** The output half of one round: a picture is counted, written when there
      is an output file, and handed back with `deinitOutFrame`; end of stream
      stops the loop; any other status goes on. */
  method DecOutputHalf(hasOutput: bool, tick: DecTick, count: nat, written: seq<byte>,
                       ghost released: seq<seq<byte>>)
    returns (stop: bool, count': nat, written': seq<byte>, ghost released': seq<seq<byte>>)
    ensures stop <==> tick.frameRet == VPU_EOS_STREAM_REACHED
    ensures released' == released + (if tick.frameRet == VPU_OK then [tick.frame] else [])
    ensures count' == count + |released'| - |released|
    ensures written' == written + (if hasOutput && tick.frameRet == VPU_OK then tick.frame else [])
  {
    stop, count', written', released' := false, count, written, released;
    if tick.frameRet == VPU_OK {
      count' := count + 1;
      if hasOutput {
        written' := written + tick.frame;
      }
      released' := released + [tick.frame];
    } else if tick.frameRet == VPU_EAGAIN {
    } else if tick.frameRet == VPU_EOS_STREAM_REACHED {
      stop := true;
    }
  }

  /** What holds after `used` rounds of `runDecoder` that did not stop. */
  ghost predicate DecLoopInv(hasOutput: bool, file: seq<byte>, script: seq<DecTick>, used: nat, rd: RawReader,
                             count: nat, written: seq<byte>, calls: seq<StreamSend>, released: seq<seq<byte>>)
  {
    && used <= |script|
    && DecFeedInv(file, rd, calls)
    && calls == DecCalls(file, script[..used])
    && released == Decoded(script[..used]) && count == |released|
    && written == (if hasOutput then Flatten(released) else [])
  }

  /** One round of the loop of `runDecoder`. */
  method DecRound(hasOutput: bool, file: seq<byte>, script: seq<DecTick>, used: nat, rd: RawReader,
                  count: nat, written: seq<byte>, ghost calls: seq<StreamSend>, ghost released: seq<seq<byte>>)
    returns (stop: bool, rd': RawReader, count': nat, written': seq<byte>,
             ghost calls': seq<StreamSend>, ghost released': seq<seq<byte>>)
    requires used < |script|
    requires DecLoopInv(hasOutput, file, script, used, rd, count, written, calls, released)
    ensures DecLoopInv(hasOutput, file, script, used + 1, rd', count', written', calls', released')
    ensures stop <==> script[used].frameRet == VPU_EOS_STREAM_REACHED
  {
    rd', calls' := DecInputHalf(file, rd, script[used].sendRet, calls);
    stop, count', written', released' := DecOutputHalf(hasOutput, script[used], count, written, released);
    if script[used].frameRet == VPU_OK {
      FlattenAppend(released, script[used].frame);
    } else {
      assert released' == released && written' == written;
    }
    DecodedStep(script, used);
    DecCallsStep(file, script, used);
  }

  /** What a run of the loop of `runDecoder` over `script` delivers when it
      ends with `end` after `used` rounds: it stops exactly at the first
      `VPU_EOS_STREAM_REACHED` from `getOutFrame`, or when the script runs
      out; every round makes exactly one `sendStream` call, accepted exactly
      when the decoder said `VPU_OK`, and carrying what the replies call for,
      a feed of the file; every picture before the end is handed back once,
      and written, in order, when there is an output file. */
  ghost predicate DecodeOutcome(hasOutput: bool, file: seq<byte>, script: seq<DecTick>, end: RunEnd<VpuRet>,
                                used: nat, calls: seq<StreamSend>, released: seq<seq<byte>>, written: seq<byte>)
  {
    && (end == Returned(VPU_OK) || end == ScriptExhausted)
    && used <= |script|
    && (end == ScriptExhausted ==> used == |script|)
    && (end == Returned(VPU_OK) ==> 0 < used && script[used - 1].frameRet == VPU_EOS_STREAM_REACHED)
    && (forall k | 0 <= k < used && (end == ScriptExhausted || k < used - 1) ::
          script[k].frameRet != VPU_EOS_STREAM_REACHED)
    && |calls| == used
    && (forall k | 0 <= k < used :: calls[k].accepted <==> script[k].sendRet == VPU_OK)
    && calls == DecCalls(file, script[..used])
    && DecFeed(file, calls)
    && released == Decoded(script[..used])
    && written == (if hasOutput then Flatten(released) else [])
  }

  /** The `while (true)` loop of `runDecoder`, one script entry per round,
      with the outcome `DecodeOutcome` describes; `count` is the number of
      pictures taken. */
  method DecodeLoop(hasOutput: bool, file: seq<byte>, script: seq<DecTick>)
    returns (end: RunEnd<VpuRet>, used: nat, count: nat, written: seq<byte>,
             ghost calls: seq<StreamSend>, ghost released: seq<seq<byte>>)
    ensures DecodeOutcome(hasOutput, file, script, end, used, calls, released, written)
    ensures count == |released|
  {
    var rd;
    end, used, rd, count, written, calls, released := DecodeRounds(hasOutput, file, script);
    DecCallsAccepted(file, script[..used]);
  }

  /** The rounds of `DecodeLoop`, ending with the loop invariant. */
  method DecodeRounds(hasOutput: bool, file: seq<byte>, script: seq<DecTick>)
    returns (end: RunEnd<VpuRet>, used: nat, rd: RawReader, count: nat, written: seq<byte>,
             ghost calls: seq<StreamSend>, ghost released: seq<seq<byte>>)
    ensures end == Returned(VPU_OK) || end == ScriptExhausted
    ensures DecLoopInv(hasOutput, file, script, used, rd, count, written, calls, released)
    ensures end == ScriptExhausted ==> used == |script|
    ensures end == Returned(VPU_OK) ==> 0 < used && script[used - 1].frameRet == VPU_EOS_STREAM_REACHED
    ensures forall k | 0 <= k < used && (end == ScriptExhausted || k < used - 1) ::
              script[k].frameRet != VPU_EOS_STREAM_REACHED
  {
    rd := RawReader(0, [], false, true);
    used, count, written, calls, released := 0, 0, [], [], [];
    end := ScriptExhausted;
    while used < |script|
      invariant DecLoopInv(hasOutput, file, script, used, rd, count, written, calls, released)
      invariant forall k | 0 <= k < used :: script[k].frameRet != VPU_EOS_STREAM_REACHED
    {
      var stop;
      stop, rd, count, written, calls, released := DecRound(hasOutput, file, script, used, rd, count, written, calls, released);
      used := used + 1;
      if stop {
        end := Returned(VPU_OK);
        break;
      }
    }
  }

  /** `runDecoder`: open the files (either failing gives `VPU_ERR_INIT`),
      then run the loop, which returns `VPU_OK` when it ends: at the first
      `VPU_EOS_STREAM_REACHED` from `getOutFrame`.  `numBuffersDecoded` grows
      by the pictures taken. */
  method RunDecoder(ctx: DecTestCtx, fs: FileSystem, script: seq<DecTick>)
    returns (end: RunEnd<VpuRet>, used: nat, ctx': DecTestCtx, written: seq<byte>,
             ghost calls: seq<StreamSend>, ghost released: seq<seq<byte>>)
    ensures end == Returned(VPU_OK) || end == Returned(VPU_ERR_INIT) || end == ScriptExhausted
    ensures end == Returned(VPU_ERR_INIT) <==>
              ctx.fileInput !in fs.contents || (ctx.hasOutput && !fs.CanCreate(ctx.fileOutput))
    ensures used <= |script|
    ensures ctx' == ctx.(numBuffersDecoded := ctx.numBuffersDecoded + |released|)
    // otherwise the loop ran: it stops exactly at the first end of stream, one `sendStream` per
    // round, accepted exactly on `VPU_OK` and carrying what the replies call for
    ensures end != Returned(VPU_ERR_INIT) ==>
              && ctx.fileInput in fs.contents
              && DecodeOutcome(ctx.hasOutput, fs.contents[ctx.fileInput], script, end, used, calls, released, written)
    ensures end == Returned(VPU_ERR_INIT) ==> used == 0 && calls == [] && released == [] && written == []
  {
    used, ctx', written, calls, released := 0, ctx, [], [], [];
    var input := fs.OpenRead(ctx.fileInput);
    if input.None? {
      return Returned(VPU_ERR_INIT), used, ctx', written, calls, released;
    }
    if ctx.hasOutput && !fs.CanCreate(ctx.fileOutput) {
      return Returned(VPU_ERR_INIT), used, ctx', written, calls, released;
    }
    var count;
    end, used, count, written, calls, released := DecodeLoop(ctx.hasOutput, fs.contents[ctx.fileInput], script);
    ctx' := ctx.(numBuffersDecoded := ctx.numBuffersDecoded + count);
  }
}
