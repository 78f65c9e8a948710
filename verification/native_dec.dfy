/**
  `native_dec_test`: an H.264 decoder driven through Android's `MediaCodec`,
  fed either with raw 1000-byte chunks of an elementary-stream file or with
  the samples of the first video track of a container file.  Decoded frames
  are rendered to a surface, or written to an output file when one is given.
 */
module NativeDecTest {
  import opened Outcomes
  import opened Stdio
  import opened Cli
  import opened MediaCodecApi

  /** The parsed command line (`DecTestArgs`).  A path the user did not give
      is left empty here; the program leaves that buffer uninitialised. */
  datatype DecTestArgs = DecTestArgs(
    fileInput: string,
    fileOutput: string,
    inputWidth: int32,
    inputHeight: int32,
    rawInputFmt: bool,      // raw 264/265 chunks rather than a container
    renderSurface: bool)    // render to the screen rather than to a file

  /** The long options `testParseArgs` knows. */
  const DEC_OPTIONS: set<Key> := {KUsage, KInput, KOutput, KWidth, KHeight, KType}

  /** `--t 2` selects container input; every other value selects raw input. */
  predicate IsContainerType(opts: seq<CliOption>)
  {
    LastValue(opts, KType, 1) == 2
  }

  /** The fields after the switch has handled the accepted options `opts`,
      starting from the values `testParseArgs` sets before its loop. */
  function Walk(opts: seq<CliOption>): DecTestArgs
  {
    if opts == [] then DecTestArgs("", "", 0, 0, true, true)
    else
      var cmd := Walk(opts[..|opts| - 1]);
      match opts[|opts| - 1]
      case Input(path) => cmd.(fileInput := path)
      case Output(path) => cmd.(fileOutput := path)
      case Width(v) => cmd.(inputWidth := v)
      case Height(v) => cmd.(inputHeight := v)
      case Type(v) => cmd.(rawInputFmt := v != 2)
      case _ => cmd
  }

  lemma {:induction false} WalkPaths(opts: seq<CliOption>)
    ensures Walk(opts).fileInput == LastPath(opts, KInput, "")
    ensures Walk(opts).fileOutput == LastPath(opts, KOutput, "")
  {
    if opts != [] {
      WalkPaths(opts[..|opts| - 1]);
    }
  }

  lemma {:induction false} WalkSizes(opts: seq<CliOption>)
    ensures Walk(opts).inputWidth == LastValue(opts, KWidth, 0)
    ensures Walk(opts).inputHeight == LastValue(opts, KHeight, 0)
  {
    if opts != [] {
      WalkSizes(opts[..|opts| - 1]);
    }
  }

  lemma {:induction false} WalkFormat(opts: seq<CliOption>)
    ensures Walk(opts).rawInputFmt == !IsContainerType(opts)
    ensures Walk(opts).renderSurface
  {
    if opts != [] {
      WalkFormat(opts[..|opts| - 1]);
    }
  }

  /** Each field of the walk keeps the last value given for it. */
  lemma WalkKeepsLast(opts: seq<CliOption>)
    ensures var cmd := Walk(opts);
            && cmd.fileInput == LastPath(opts, KInput, "")
            && cmd.fileOutput == LastPath(opts, KOutput, "")
            && cmd.inputWidth == LastValue(opts, KWidth, 0)
            && cmd.inputHeight == LastValue(opts, KHeight, 0)
            && cmd.rawInputFmt == !IsContainerType(opts)
            && cmd.renderSurface
  {
    WalkPaths(opts);
    WalkSizes(opts);
    WalkFormat(opts);
  }

  /** `testParseArgs`: walks the options, then insists on an input file; an
      output file turns rendering off. */
  method ParseArgs(opts: seq<CliOption>) returns (status: Status, cmd: DecTestArgs)
    ensures status == OK <==> AllAccepted(DEC_OPTIONS, opts) && Last(opts, KInput).Some?
    ensures status == OK ==>
              && cmd.fileInput == LastPath(opts, KInput, "")
              && cmd.fileOutput == LastPath(opts, KOutput, "")
              && cmd.inputWidth == LastValue(opts, KWidth, 0)
              && cmd.inputHeight == LastValue(opts, KHeight, 0)
              && cmd.rawInputFmt == !IsContainerType(opts)
              && cmd.renderSurface == Last(opts, KOutput).None?
  {
    cmd := DecTestArgs("", "", 0, 0, true, true);
    var hasInput, hasOutput := false, false;
    for i := 0 to |opts|
      invariant AllAccepted(DEC_OPTIONS, opts[..i])
      invariant hasInput == Last(opts[..i], KInput).Some?
      invariant hasOutput == Last(opts[..i], KOutput).Some?
      invariant cmd == Walk(opts[..i])
    {
      if !Accepts(DEC_OPTIONS, opts[i]) {
        // --u, and every option missing from the table
        return BAD_VALUE, cmd;
      }
      AllAcceptedStep(DEC_OPTIONS, opts, i);
      LastStep(opts, i, KInput);
      LastStep(opts, i, KOutput);
      assert opts[..i + 1][..i] == opts[..i];
      match opts[i]
      case Input(path) =>
        cmd := cmd.(fileInput := path);
        hasInput := true;
      case Output(path) =>
        cmd := cmd.(fileOutput := path);
        hasOutput := true;
      case Width(v) =>
        cmd := cmd.(inputWidth := v);
      case Height(v) =>
        cmd := cmd.(inputHeight := v);
      case Type(v) =>
        cmd := cmd.(rawInputFmt := v != 2);
    }
    assert opts[..|opts|] == opts;
    WalkKeepsLast(opts);
    if !hasInput {
      return BAD_VALUE, cmd;
    }
    if hasOutput {
      cmd := cmd.(renderSurface := false);
    }
    status := OK;
  }

  /** ASCII `tolower`, as `strncasecmp` applies it in the C locale. */
  function ToLower(c: char): char
  {
    if 'A' <= c <= 'Z' then (c as int + 32) as char else c
  }

  /** `strncasecmp(mime, "video/", 6) == 0`: the first six characters are
      "video/" up to letter case (a shorter string meets the terminating NUL
      first and differs). */
  predicate IsVideoMime(mime: string)
  {
    |mime| >= 6 && forall i | 0 <= i < 6 :: ToLower(mime[i]) == "video/"[i]
  }

  /** The track loop of `testSetupCodec`: the first track whose mime type is a
      video type is selected; with none, no track is. */
  method SelectVideoTrack(mimes: seq<string>) returns (track: Option<nat>)
    ensures track.Some? ==> track.value < |mimes| && IsVideoMime(mimes[track.value])
    ensures track.Some? ==> forall j | 0 <= j < track.value :: !IsVideoMime(mimes[j])
    ensures track.None? <==> forall j | 0 <= j < |mimes| :: !IsVideoMime(mimes[j])
  {
    for i := 0 to |mimes|
      invariant forall j | 0 <= j < i :: !IsVideoMime(mimes[j])
    {
      if IsVideoMime(mimes[i]) {
        return Some(i);
      }
    }
    return None;
  }

  /** One sample the extractor delivers for the selected track. */
  datatype Sample = Sample(bytes: seq<byte>, timeUs: int)

  /** `CodecState` after `testSetupCodec`.  The extractor is represented by the
      samples it has still to deliver (its read position), the surface only by
      whether there is one. */
  datatype CodecState = CodecState(
    mSurface: bool,
    mExtractor: seq<Sample>,
    mInBuffers: seq<BufferHandle>,
    mOutBuffers: seq<BufferHandle>,
    mSignalledInputEOS: bool,
    mSawOutputEOS: bool,
    mNumBuffersDecoded: int)

  /** One drained output event: a filled buffer is counted, released once
      (rendered when there is a surface) and written out only without a
      surface, and an EOS flag on it is latched; a buffers-changed event
      replaces the cached vector; nothing else changes. */
  ghost predicate DrainStep(s: CodecState, reply: OutputReply, s': CodecState, d: DrainEnd)
  {
    && d.Drained?
    && s' == s.(mNumBuffersDecoded := s.mNumBuffersDecoded + if reply.OutputUnit? then 1 else 0,
                mSawOutputEOS := s.mSawOutputEOS || (reply.OutputUnit? && reply.eos),
                mOutBuffers := if reply.OutputBuffersChanged? then reply.buffers else s.mOutBuffers)
    && d.released == (if reply.OutputUnit? then [Release(reply.index, s.mSurface)] else [])
    && d.written == (if reply.OutputUnit? && !s.mSurface then reply.bytes else [])
  }

  /** The `dequeueOutputBuffer` half of one round of either decode loop. */
  method DrainOnce(s: CodecState, reply: OutputReply) returns (s': CodecState, d: DrainEnd)
    ensures d.DrainCheckFailed? <==> reply.OutputError?
    ensures d.DrainUndefined? <==> reply.OutputUnit? && !s.mSurface && reply.index >= |s.mOutBuffers|
    ensures !d.Drained? ==> s' == s
    ensures d.Drained? ==> DrainStep(s, reply, s', d)
  {
    s' := s;
    match reply
    case OutputUnit(index, eos, bytes) =>
      if s.mSurface {
        s' := s'.(mNumBuffersDecoded := s'.mNumBuffersDecoded + 1);
        d := Drained([Release(index, true)], []);
      } else if index < |s.mOutBuffers| {
        s' := s'.(mNumBuffersDecoded := s'.mNumBuffersDecoded + 1);
        d := Drained([Release(index, false)], bytes);
      } else {
        return s, DrainUndefined;
      }
      if eos {
        s' := s'.(mSawOutputEOS := true);
      }
    case OutputBuffersChanged(buffers) =>
      s' := s'.(mOutBuffers := buffers);
      d := Drained([], []);
    case OutputFormatChanged =>
      d := Drained([], []);
    case OutputTryAgain =>
      d := Drained([], []);
    case OutputError =>
      d := DrainCheckFailed;
  }

  /** The drain side of a decode loop after the first `used` rounds of
      `script`, starting from `s0`. */
  ghost predicate DrainedSoFar(s0: CodecState, s: CodecState, script: seq<Tick>, used: nat,
                               released: seq<Release>, written: seq<byte>)
    requires used <= |script|
  {
    var outs := Outputs(script[..used]);
    && s.mSurface == s0.mSurface
    && s.mInBuffers == s0.mInBuffers
    && s.mNumBuffersDecoded == s0.mNumBuffersDecoded + |Units(outs)|
    && released == ReleasesOf(Units(outs), s0.mSurface)
    && written == (if s0.mSurface then [] else UnitBytes(Units(outs)))
    && s.mOutBuffers == CurrentBuffers(s0.mOutBuffers, outs)
    && s.mSawOutputEOS == SawOutputEOS(outs)
  }

  /** Before the first round nothing has been drained. */
  lemma DrainedNothing(s0: CodecState, script: seq<Tick>)
    requires !s0.mSawOutputEOS
    ensures DrainedSoFar(s0, s0, script, 0, [], [])
  {
    assert script[..0] == [];
    assert Outputs([]) == [];
    assert Units([]) == [];
  }

  lemma DrainedStep(s0: CodecState, s: CodecState, script: seq<Tick>, used: nat,
                    released: seq<Release>, written: seq<byte>,
                    s': CodecState, d: DrainEnd)
    requires used < |script|
    requires DrainedSoFar(s0, s, script, used, released, written)
    requires DrainStep(s, script[used].output, s', d)
    ensures DrainedSoFar(s0, s', script, used + 1, released + d.released, written + d.written)
    ensures s'.mSignalledInputEOS == s.mSignalledInputEOS && s'.mExtractor == s.mExtractor
  {
    var outs := Outputs(script[..used]);
    var o := script[used].output;
    OutputsStep(script, used);
    UnitsAppend(outs, o);
    SawOutputEOSAppend(outs, o);
    CurrentBuffersAppend(s0.mOutBuffers, outs, o);
    if o.OutputUnit? {
      ReleasesAppend(Units(outs), o, s0.mSurface);
      UnitBytesAppend(Units(outs), o);
    }
  }

  /** The drain side does not look at the input-side fields of the state. */
  lemma DrainedSoFarFrame(s0: CodecState, s: CodecState, script: seq<Tick>, used: nat,
                          released: seq<Release>, written: seq<byte>,
                          signalled: bool, extractor: seq<Sample>)
    requires used <= |script|
    requires DrainedSoFar(s0, s, script, used, released, written)
    ensures DrainedSoFar(s0, s.(mSignalledInputEOS := signalled, mExtractor := extractor),
                         script, used, released, written)
  {
  }

  /** Round `k` of a decode loop indexes the cached output-buffer vector out
      of range: a filled buffer is written to the file (no surface) from an
      index past the vector the earlier rounds left. */
  ghost predicate DrainUndefinedAt(s0: CodecState, script: seq<Tick>, k: nat)
    requires k < |script|
  {
    var o := script[k].output;
    o.OutputUnit? && !s0.mSurface && o.index >= |CurrentBuffers(s0.mOutBuffers, Outputs(script[..k]))|
  }

  /** The output half of round `used`: `DrainOnce` on that round's reply,
      accounted into the drain side of the loop. */
  method DrainRound(s0: CodecState, script: seq<Tick>, used: nat, s: CodecState,
                    released: seq<Release>, written: seq<byte>)
    returns (d: DrainEnd, s': CodecState, released': seq<Release>, written': seq<byte>)
    requires used < |script|
    requires DrainedSoFar(s0, s, script, used, released, written)
    ensures d.Drained? ==> DrainedSoFar(s0, s', script, used + 1, released', written')
    ensures s'.mSignalledInputEOS == s.mSignalledInputEOS && s'.mExtractor == s.mExtractor
    ensures !d.Drained? ==> s' == s && released' == released && written' == written
    ensures d.DrainCheckFailed? <==> script[used].output.OutputError?
    ensures d.DrainUndefined? <==> DrainUndefinedAt(s0, script, used)
  {
    s', d := DrainOnce(s, script[used].output);
    if d.Drained? {
      DrainedStep(s0, s, script, used, released, written, s', d);
      released', written' := released + d.released, written + d.written;
    } else {
      s', released', written' := s, released, written;
    }
  }

  /** Size of the raw-input chunks (`pktsize`). */
  const RAW_CHUNK: nat := 1000

  /** Round `k` of the raw-input loop, run after the rounds before it, ends
      in a failed CHECK: on its `dequeueInputBuffer`, or, when the input half
      went through, on an error from `dequeueOutputBuffer`. */
  ghost predicate RawRoundChecks(s0: CodecState, file: seq<byte>, script: seq<Tick>, k: nat)
    requires k < |script|
  {
    var subs := RawSubmissions(file, RAW_CHUNK, Inputs(script[..k]));
    || RawInputFails(file, RAW_CHUNK, subs, script[k].input, true)
    || (!RawInputUndefined(file, RAW_CHUNK, |s0.mInBuffers|, subs, script[k].input) && script[k].output.OutputError?)
  }

  /** Round `k` of the raw-input loop ends in an out-of-range `itemAt`, on
      the input side or, when that went through, on the output side. */
  ghost predicate RawRoundUndefined(s0: CodecState, file: seq<byte>, script: seq<Tick>, k: nat)
    requires k < |script|
  {
    var subs := RawSubmissions(file, RAW_CHUNK, Inputs(script[..k]));
    || RawInputUndefined(file, RAW_CHUNK, |s0.mInBuffers|, subs, script[k].input)
    || (!RawInputFails(file, RAW_CHUNK, subs, script[k].input, true) && DrainUndefinedAt(s0, script, k))
  }

  /** Each of the first `used` rounds of the raw-input loop went through. */
  ghost predicate RawRoundsWentThrough(s0: CodecState, file: seq<byte>, script: seq<Tick>, used: nat)
    requires used <= |script|
  {
    forall k | 0 <= k < used :: !RawRoundChecks(s0, file, script, k) && !RawRoundUndefined(s0, file, script, k)
  }

  lemma RawWentThroughStep(s0: CodecState, file: seq<byte>, script: seq<Tick>, used: nat)
    requires used < |script|
    requires RawRoundsWentThrough(s0, file, script, used)
    requires !RawRoundChecks(s0, file, script, used) && !RawRoundUndefined(s0, file, script, used)
    ensures RawRoundsWentThrough(s0, file, script, used + 1)
  {
  }

  /** The variables of the raw-input loop after `used` completed rounds,
      starting from `s0`: the submissions are the ones the codec's answers
      call for, the reader agrees with them, and the drain side accounts for
      every output event of those rounds. */
  ghost predicate RawLoopInv(s0: CodecState, file: seq<byte>, script: seq<Tick>, used: nat,
                             s: CodecState, rd: RawReader, subs: seq<Submission>,
                             released: seq<Release>, written: seq<byte>)
  {
    && used <= |script|
    && subs == RawSubmissions(file, RAW_CHUNK, Inputs(script[..used]))
    && RawInputInv(file, RAW_CHUNK, rd, s.mSignalledInputEOS, subs)
    && s.mExtractor == s0.mExtractor
    && DrainedSoFar(s0, s, script, used, released, written)
  }

  /** One round of the `while (true)` loop of `testDecRunRawInput`: the input
      half, then the output half.  `stop` is None when the loop goes on.  A
      round cut short by a CHECK or an out-of-range index ends the run there
      and is not recorded. */
  method RawRound(s0: CodecState, file: seq<byte>, script: seq<Tick>, used: nat,
                  s: CodecState, rd: RawReader, subs: seq<Submission>,
                  released: seq<Release>, written: seq<byte>)
    returns (stop: Option<RunEnd<Status>>, used': nat, s': CodecState, rd': RawReader,
             subs': seq<Submission>, released': seq<Release>, written': seq<byte>)
    requires used < |script|
    requires RawLoopInv(s0, file, script, used, s, rd, subs, released, written)
    requires !s.mSawOutputEOS
    ensures RawLoopInv(s0, file, script, used', s', rd', subs', released', written')
    ensures stop == Some(CheckFailed) <==> RawRoundChecks(s0, file, script, used)
    ensures stop == Some(Undefined) <==> RawRoundUndefined(s0, file, script, used)
    ensures stop.Some? ==> stop.value in {Returned(OK), CheckFailed, Undefined}
    ensures stop == Some(CheckFailed) || stop == Some(Undefined) ==>
              used' == used && s' == s && subs' == subs && released' == released && written' == written
    ensures stop.None? || stop == Some(Returned(OK)) ==> used' == used + 1
    ensures s'.mSawOutputEOS <==> stop == Some(Returned(OK))
    ensures !SawOutputEOS(Outputs(script[..used]))
  {
    var tick := script[used];
    var signalled, sub, e;
    rd', signalled, sub, e := RawInputHalf(file, RAW_CHUNK, |s.mInBuffers|, rd,
                                           s.mSignalledInputEOS, tick.input, true, subs);
    if !e.Fed? {
      return Some(if e.FeedCheckFailed? then CheckFailed else Undefined), used, s, rd, subs, released, written;
    }
    var subs1 := subs + sub.ToSeq();
    RawSubmissionsStep(file, RAW_CHUNK, script, used);
    var s1 := s.(mSignalledInputEOS := signalled);
    DrainedSoFarFrame(s0, s, script, used, released, written, signalled, s.mExtractor);
    var d;
    d, s', released', written' := DrainRound(s0, script, used, s1, released, written);
    if !d.Drained? {
      return Some(if d.DrainCheckFailed? then CheckFailed else Undefined), used, s, rd, subs, released, written;
    }
    used', subs' := used + 1, subs1;
    stop := if s'.mSawOutputEOS then Some(Returned(OK)) else None;
  }

  /** The `while (true)` loop of `testDecRunRawInput` over the input file
      `file`, with the codec behaving as `script`.  The run is determined by
      the script: every completed round went through, and the loop ends at
      the first output buffer flagged EOS, at the first round whose replies
      fail a CHECK or index out of range, or when the script runs out. */
  method RawDecodeLoop(s: CodecState, file: seq<byte>, script: seq<Tick>)
    returns (end: RunEnd<Status>, used: nat, s': CodecState,
             subs: seq<Submission>, released: seq<Release>, written: seq<byte>)
    requires !s.mSignalledInputEOS && !s.mSawOutputEOS
    ensures used <= |script|
    ensures end.Returned? ==> end.status == OK
    ensures end.Returned? <==> s'.mSawOutputEOS
    ensures end.ScriptExhausted? ==> used == |script|
    ensures RawRoundsWentThrough(s, file, script, used)
    ensures end.CheckFailed? ==> used < |script| && RawRoundChecks(s, file, script, used)
    ensures end.Undefined? ==> used < |script| && RawRoundUndefined(s, file, script, used)
    ensures s'.mExtractor == s.mExtractor
    ensures subs == RawSubmissions(file, RAW_CHUNK, Inputs(script[..used]))
    ensures s'.mSignalledInputEOS == Signalled(subs)
    ensures RawFeed(file, RAW_CHUNK, subs, s'.mSignalledInputEOS)
    ensures DrainedSoFar(s, s', script, used, released, written)
    ensures end.Returned? ==> used > 0 && !SawOutputEOS(Outputs(script[..used - 1]))
  {
    used, s', subs, released, written := 0, s, [], [], [];
    DrainedNothing(s, script);
    assert Inputs(script[..0]) == [];
    var rd := RawReader(0, [], false, true);
    end := ScriptExhausted;
    while used < |script|
      invariant RawLoopInv(s, file, script, used, s', rd, subs, released, written)
      invariant !s'.mSawOutputEOS
      invariant RawRoundsWentThrough(s, file, script, used)
    {
      var stop, used1;
      stop, used1, s', rd, subs, released, written := RawRound(s, file, script, used, s', rd, subs, released, written);
      if stop == Some(CheckFailed) || stop == Some(Undefined) {
        end := stop.value;
        break;
      }
      RawWentThroughStep(s, file, script, used);
      used := used1;
      if stop.Some? {
        end := stop.value;
        break;
      }
    }
    RawFeedSignalled(file, RAW_CHUNK, subs, s'.mSignalledInputEOS);
  }

  /** `testDecRunRawInput`: `input` is the input file's contents (None when
      it cannot be opened), `outputOpens` whether the output file can be
      created; `script` is the codec's behaviour. */
  method DecRunRawInput(s: CodecState, input: Option<seq<byte>>, outputOpens: bool, script: seq<Tick>)
    returns (end: RunEnd<Status>, used: nat, s': CodecState,
             subs: seq<Submission>, released: seq<Release>, written: seq<byte>)
    requires !s.mSignalledInputEOS && !s.mSawOutputEOS
    ensures used <= |script|
    ensures end == Returned(BAD_VALUE) <==> input.None? || (!s.mSurface && !outputOpens)
    ensures end == Returned(BAD_VALUE) ==> used == 0 && s' == s && subs == [] && released == [] && written == []
    ensures end == Returned(OK) <==> s'.mSawOutputEOS
    ensures end.ScriptExhausted? ==> used == |script|
    // every completed round went through; an abort comes from the round where its condition first holds
    ensures input.Some? ==>
              && RawRoundsWentThrough(s, input.value, script, used)
              && (end.CheckFailed? ==> used < |script| && RawRoundChecks(s, input.value, script, used))
              && (end.Undefined? ==> used < |script| && RawRoundUndefined(s, input.value, script, used))
    // input side: what the codec's answers call for; full chunks in order, the short tail never queued,
    // EOS at most once and last
    ensures input.Some? && end != Returned(BAD_VALUE) ==>
              subs == RawSubmissions(input.value, RAW_CHUNK, Inputs(script[..used]))
    ensures input.Some? ==> RawFeed(input.value, RAW_CHUNK, subs, s'.mSignalledInputEOS)
    // output side: everything drained in the completed rounds
    ensures DrainedSoFar(s, s', script, used, released, written)
    // the loop leaves at the first output buffer flagged EOS
    ensures end == Returned(OK) ==> used > 0 && !SawOutputEOS(Outputs(script[..used - 1]))
  {
    if input.None? || (!s.mSurface && !outputOpens) {
      DrainedNothing(s, script);
      return Returned(BAD_VALUE), 0, s, [], [], [];
    }
    end, used, s', subs, released, written := RawDecodeLoop(s, input.value, script);
  }

  /** The submissions of the container loop: the extractor's samples in order,
      each with its own timestamp, then possibly one empty EOS buffer, sent
      only after every sample was queued. */
  ghost predicate SampleFeed(samples: seq<Sample>, subs: seq<Submission>, eosSent: bool)
  {
    var n := if eosSent then |subs| - 1 else |subs|;
    && 0 <= n <= |samples|
    && (forall k | 0 <= k < n ::
          !subs[k].eos && subs[k].bytes == samples[k].bytes && subs[k].timeUs == samples[k].timeUs)
    && (eosSent ==> n == |samples| && subs[n].eos && subs[n].bytes == [] && subs[n].timeUs == 0)
  }

  /** The extractor loop's input side after queuing `subs`: the extractor
      has advanced past exactly the samples queued as data, and it reported
      end of input only after its last sample. */
  ghost predicate ExtractorInputInv(samples: seq<Sample>, extractor: seq<Sample>, sawInputEOS: bool,
                                    signalledInputEOS: bool, subs: seq<Submission>)
  {
    var queued := |subs| - (if signalledInputEOS then 1 else 0);
    && 0 <= queued <= |samples|
    && extractor == samples[queued..]
    && (sawInputEOS ==> queued == |samples|)
    && SampleFeed(samples, subs, signalledInputEOS)
    && (signalledInputEOS ==> sawInputEOS)
  }

  lemma SampleFeedSignalled(samples: seq<Sample>, subs: seq<Submission>, eosSent: bool)
    requires SampleFeed(samples, subs, eosSent)
    ensures Signalled(subs) <==> eosSent
  {
    if !eosSent && |subs| > 0 {
      assert !subs[|subs| - 1].eos;
    }
  }

  /** The container loop's input side after some rounds: what it queued and
      whether the extractor has reported end of input. */
  datatype ExtractorView = ExtractorView(subs: seq<Submission>, sawInputEOS: bool)

  /** One round of the container loop's input side, with `dequeueInputBuffer`
      answering `reply` when it is asked: while samples remain, an offered
      buffer gets the next sample with its timestamp; the round after the
      last sample only notes end of input; then the first offered buffer
      gets the empty EOS buffer; after that nothing happens. */
  function SampleFeedStep(samples: seq<Sample>, v: ExtractorView, reply: InputReply): ExtractorView
  {
    if Signalled(v.subs) then v
    else if !v.sawInputEOS then
      if |v.subs| < |samples| then
        if reply.InputSlot? then
          v.(subs := v.subs + [Submission(reply.index, samples[|v.subs|].bytes, samples[|v.subs|].timeUs, false)])
        else v
      else v.(sawInputEOS := true)
    else if reply.InputSlot? then v.(subs := v.subs + [Submission(reply.index, [], 0, true)])
    else v
  }

  /** The container loop's input side after the rounds whose
      `dequeueInputBuffer` answers are `ins`. */
  function SampleSubmissions(samples: seq<Sample>, ins: seq<InputReply>): ExtractorView
  {
    if ins == [] then ExtractorView([], false)
    else SampleFeedStep(samples, SampleSubmissions(samples, ins[..|ins| - 1]), ins[|ins| - 1])
  }

  lemma SampleSubmissionsStep(samples: seq<Sample>, script: seq<Tick>, n: nat)
    requires n < |script|
    ensures SampleSubmissions(samples, Inputs(script[..n + 1])) ==
            SampleFeedStep(samples, SampleSubmissions(samples, Inputs(script[..n])), script[n].input)
  {
    InputsStep(script, n);
    assert (Inputs(script[..n]) + [script[n].input])[..n] == Inputs(script[..n]);
  }

  /** Whatever the codec answers, the container loop queues the samples in
      order with their timestamps and then at most one EOS buffer, and the
      extractor reports end of input only after its last sample. */
  lemma {:induction false} SampleSubmissionsAreFeed(samples: seq<Sample>, ins: seq<InputReply>)
    ensures var v := SampleSubmissions(samples, ins);
            && SampleFeed(samples, v.subs, Signalled(v.subs))
            && (v.sawInputEOS ==> |v.subs| - (if Signalled(v.subs) then 1 else 0) == |samples|)
            && (Signalled(v.subs) ==> v.sawInputEOS)
  {
    if ins != [] {
      var v := SampleSubmissions(samples, ins[..|ins| - 1]);
      var reply := ins[|ins| - 1];
      SampleSubmissionsAreFeed(samples, ins[..|ins| - 1]);
      SampleFeedSignalled(samples, v.subs, Signalled(v.subs));
      if !Signalled(v.subs) && reply.InputSlot? {
        var subs' := SampleFeedStep(samples, v, reply).subs;
        assert forall k | 0 <= k < |v.subs| :: subs'[k] == v.subs[k];
      }
    }
  }

  /** The container round's `dequeueInputBuffer` fails its CHECK: the round
      asks for a buffer, for a sample or for the EOS buffer, and gets an
      error other than `-EAGAIN`. */
  predicate ExtractorInputFails(samples: seq<Sample>, v: ExtractorView, reply: InputReply)
  {
    !Signalled(v.subs) && reply.InputError? && (v.sawInputEOS || |v.subs| < |samples|)
  }

  /** The container round is offered a buffer for a sample at an index past
      the input-buffer vector. */
  predicate ExtractorInputUndefined(samples: seq<Sample>, inBuffers: nat, v: ExtractorView, reply: InputReply)
  {
    !Signalled(v.subs) && !v.sawInputEOS && |v.subs| < |samples| && reply.InputSlot? && reply.index >= inBuffers
  }

  /** The input half of one round of `testDecRunExtrator`: while the
      extractor has a sample, queue it in the slot the codec offers and
      advance; once `getSampleTrackIndex` fails, note end of input (that
      round asks the codec for nothing), then queue the empty EOS buffer once. */
  method ExtractorInputHalf(inBuffers: nat, extractor: seq<Sample>, sawInputEOS: bool,
                            signalledInputEOS: bool, reply: InputReply,
                            ghost samples: seq<Sample>, ghost subs: seq<Submission>)
    returns (extractor': seq<Sample>, sawInputEOS': bool, signalled': bool,
             sub: Option<Submission>, e: FeedEnd)
    requires ExtractorInputInv(samples, extractor, sawInputEOS, signalledInputEOS, subs)
    ensures e.Fed? ==> ExtractorInputInv(samples, extractor', sawInputEOS', signalled', subs + sub.ToSeq())
    ensures e.Fed? ==> ExtractorView(subs + sub.ToSeq(), sawInputEOS') ==
                       SampleFeedStep(samples, ExtractorView(subs, sawInputEOS), reply)
    ensures e.FeedCheckFailed? <==> ExtractorInputFails(samples, ExtractorView(subs, sawInputEOS), reply)
    ensures e.FeedUndefined? <==> ExtractorInputUndefined(samples, inBuffers, ExtractorView(subs, sawInputEOS), reply)
    ensures sub.Some? ==> e.Fed? && reply.InputSlot? && sub.value.index == reply.index
    ensures signalled' == (signalledInputEOS || (sub.Some? && sub.value.eos))
  {
    SampleFeedSignalled(samples, subs, signalledInputEOS);
    extractor', sawInputEOS', signalled', sub, e := extractor, sawInputEOS, signalledInputEOS, None, Fed;
    if !sawInputEOS {
      if extractor == [] {
        sawInputEOS' := true;
      } else {
        match reply
        case InputSlot(index) =>
          if index >= inBuffers {
            e := FeedUndefined;
          } else {
            var queued := |subs|;
            var subs' := subs + [Submission(index, extractor[0].bytes, extractor[0].timeUs, false)];
            assert forall k | 0 <= k < queued :: subs'[k] == subs[k];
            assert samples[queued + 1..] == extractor[1..];
            sub := Some(Submission(index, extractor[0].bytes, extractor[0].timeUs, false));
            extractor' := extractor[1..];
          }
        case InputTryAgain =>
        case InputError =>
          e := FeedCheckFailed;
      }
    } else if !signalledInputEOS {
      match reply
      case InputSlot(index) =>
        var subs' := subs + [Submission(index, [], 0, true)];
        assert forall k | 0 <= k < |subs| :: subs'[k] == subs[k];
        sub := Some(Submission(index, [], 0, true));
        signalled' := true;
      case InputTryAgain =>
      case InputError =>
        e := FeedCheckFailed;
    }
  }

  /** Round `k` of the container loop, run after the rounds before it, ends
      in a failed CHECK. */
  ghost predicate ExtractorRoundChecks(s0: CodecState, script: seq<Tick>, k: nat)
    requires k < |script|
  {
    var v := SampleSubmissions(s0.mExtractor, Inputs(script[..k]));
    || ExtractorInputFails(s0.mExtractor, v, script[k].input)
    || (!ExtractorInputUndefined(s0.mExtractor, |s0.mInBuffers|, v, script[k].input) &&
        script[k].output.OutputError?)
  }

  /** Round `k` of the container loop ends in an out-of-range `itemAt`. */
  ghost predicate ExtractorRoundUndefined(s0: CodecState, script: seq<Tick>, k: nat)
    requires k < |script|
  {
    var v := SampleSubmissions(s0.mExtractor, Inputs(script[..k]));
    || ExtractorInputUndefined(s0.mExtractor, |s0.mInBuffers|, v, script[k].input)
    || (!ExtractorInputFails(s0.mExtractor, v, script[k].input) && DrainUndefinedAt(s0, script, k))
  }

  /** None of the first `used` rounds of the container loop met a CHECK
      failure or an out-of-range index. */
  ghost predicate ExtractorRoundsWentThrough(s0: CodecState, script: seq<Tick>, used: nat)
    requires used <= |script|
  {
    forall k | 0 <= k < used :: !ExtractorRoundChecks(s0, script, k) && !ExtractorRoundUndefined(s0, script, k)
  }

  lemma ExtractorWentThroughStep(s0: CodecState, script: seq<Tick>, used: nat)
    requires used < |script|
    requires ExtractorRoundsWentThrough(s0, script, used)
    requires !ExtractorRoundChecks(s0, script, used) && !ExtractorRoundUndefined(s0, script, used)
    ensures ExtractorRoundsWentThrough(s0, script, used + 1)
  {
  }

  /** The variables of the extractor loop after `used` completed rounds. */
  ghost predicate ExtractorLoopInv(s0: CodecState, script: seq<Tick>, used: nat, s: CodecState,
                                   sawInputEOS: bool, subs: seq<Submission>,
                                   released: seq<Release>, written: seq<byte>)
  {
    && used <= |script|
    && ExtractorView(subs, sawInputEOS) == SampleSubmissions(s0.mExtractor, Inputs(script[..used]))
    && ExtractorInputInv(s0.mExtractor, s.mExtractor, sawInputEOS, s.mSignalledInputEOS, subs)
    && DrainedSoFar(s0, s, script, used, released, written)
  }

  /** One round of the `while (true)` loop of `testDecRunExtrator`; a round
      cut short ends the run there and is not recorded. */
  method ExtractorRound(s0: CodecState, script: seq<Tick>, used: nat, s: CodecState,
                        sawInputEOS: bool, subs: seq<Submission>,
                        released: seq<Release>, written: seq<byte>)
    returns (stop: Option<RunEnd<Status>>, used': nat, s': CodecState, sawInputEOS': bool,
             subs': seq<Submission>, released': seq<Release>, written': seq<byte>)
    requires used < |script|
    requires ExtractorLoopInv(s0, script, used, s, sawInputEOS, subs, released, written)
    requires !s.mSawOutputEOS
    ensures ExtractorLoopInv(s0, script, used', s', sawInputEOS', subs', released', written')
    ensures stop == Some(CheckFailed) <==> ExtractorRoundChecks(s0, script, used)
    ensures stop == Some(Undefined) <==> ExtractorRoundUndefined(s0, script, used)
    ensures stop.Some? ==> stop.value in {Returned(OK), CheckFailed, Undefined}
    ensures stop == Some(CheckFailed) || stop == Some(Undefined) ==>
              used' == used && s' == s && subs' == subs && released' == released && written' == written
    ensures stop.None? || stop == Some(Returned(OK)) ==> used' == used + 1
    ensures s'.mSawOutputEOS <==> stop == Some(Returned(OK))
    ensures !SawOutputEOS(Outputs(script[..used]))
  {
    var extractor, saw, signalled, sub, e;
    extractor, saw, signalled, sub, e :=
      ExtractorInputHalf(|s.mInBuffers|, s.mExtractor, sawInputEOS, s.mSignalledInputEOS,
                         script[used].input, s0.mExtractor, subs);
    if !e.Fed? {
      return Some(if e.FeedCheckFailed? then CheckFailed else Undefined), used, s, sawInputEOS, subs, released, written;
    }
    SampleSubmissionsStep(s0.mExtractor, script, used);
    var s1 := s.(mSignalledInputEOS := signalled, mExtractor := extractor);
    DrainedSoFarFrame(s0, s, script, used, released, written, signalled, extractor);
    var d;
    d, s', released', written' := DrainRound(s0, script, used, s1, released, written);
    if !d.Drained? {
      return Some(if d.DrainCheckFailed? then CheckFailed else Undefined), used, s, sawInputEOS, subs, released, written;
    }
    used', sawInputEOS', subs' := used + 1, saw, subs + sub.ToSeq();
    stop := if s'.mSawOutputEOS then Some(Returned(OK)) else None;
  }

  /** The rounds of the extractor loop, with its invariant at the end. */
  method ExtractorRounds(s: CodecState, script: seq<Tick>)
    returns (end: RunEnd<Status>, used: nat, s': CodecState, sawInputEOS: bool,
             subs: seq<Submission>, released: seq<Release>, written: seq<byte>)
    requires !s.mSignalledInputEOS && !s.mSawOutputEOS
    ensures ExtractorLoopInv(s, script, used, s', sawInputEOS, subs, released, written)
    ensures end.Returned? ==> end.status == OK
    ensures end.Returned? <==> s'.mSawOutputEOS
    ensures end.ScriptExhausted? ==> used == |script|
    ensures ExtractorRoundsWentThrough(s, script, used)
    ensures end.CheckFailed? ==> used < |script| && ExtractorRoundChecks(s, script, used)
    ensures end.Undefined? ==> used < |script| && ExtractorRoundUndefined(s, script, used)
    ensures end.Returned? ==> used > 0 && !SawOutputEOS(Outputs(script[..used - 1]))
  {
    used, s', subs, released, written := 0, s, [], [], [];
    ExtractorLoopStart(s, script);
    sawInputEOS := false;
    end := ScriptExhausted;
    while used < |script|
      invariant ExtractorLoopInv(s, script, used, s', sawInputEOS, subs, released, written)
      invariant !s'.mSawOutputEOS
      invariant ExtractorRoundsWentThrough(s, script, used)
    {
      var stop, used1;
      stop, used1, s', sawInputEOS, subs, released, written :=
        ExtractorRound(s, script, used, s', sawInputEOS, subs, released, written);
      if stop == Some(CheckFailed) || stop == Some(Undefined) {
        end := stop.value;
        break;
      }
      ExtractorWentThroughStep(s, script, used);
      used := used1;
      if stop.Some? {
        end := stop.value;
        break;
      }
    }
  }

  /** The `while (true)` loop of `testDecRunExtrator`.  As for the raw loop,
      the run is determined by the script and the samples. */
  method ExtractorLoop(s: CodecState, script: seq<Tick>)
    returns (end: RunEnd<Status>, used: nat, s': CodecState,
             subs: seq<Submission>, released: seq<Release>, written: seq<byte>)
    requires !s.mSignalledInputEOS && !s.mSawOutputEOS
    ensures used <= |script|
    ensures end.Returned? ==> end.status == OK
    ensures end.Returned? <==> s'.mSawOutputEOS
    ensures end.ScriptExhausted? ==> used == |script|
    ensures ExtractorRoundsWentThrough(s, script, used)
    ensures end.CheckFailed? ==> used < |script| && ExtractorRoundChecks(s, script, used)
    ensures end.Undefined? ==> used < |script| && ExtractorRoundUndefined(s, script, used)
    ensures subs == SampleSubmissions(s.mExtractor, Inputs(script[..used])).subs
    ensures s'.mSignalledInputEOS == Signalled(subs)
    ensures SampleFeed(s.mExtractor, subs, s'.mSignalledInputEOS)
    ensures s'.mExtractor == s.mExtractor[|subs| - (if s'.mSignalledInputEOS then 1 else 0)..]
    ensures DrainedSoFar(s, s', script, used, released, written)
    ensures end.Returned? ==> used > 0 && !SawOutputEOS(Outputs(script[..used - 1]))
  {
    var sawInputEOS;
    end, used, s', sawInputEOS, subs, released, written := ExtractorRounds(s, script);
    ExtractorLoopDone(s, script, used, s', sawInputEOS, subs, released, written);
  }

  lemma ExtractorLoopStart(s0: CodecState, script: seq<Tick>)
    requires !s0.mSignalledInputEOS && !s0.mSawOutputEOS
    ensures ExtractorLoopInv(s0, script, 0, s0, false, [], [], [])
  {
    DrainedNothing(s0, script);
    assert Inputs(script[..0]) == [];
    assert s0.mExtractor[0..] == s0.mExtractor;
  }

  /** What the extractor loop's invariant says about the input side. */
  lemma ExtractorLoopDone(s0: CodecState, script: seq<Tick>, used: nat, s: CodecState,
                          sawInputEOS: bool, subs: seq<Submission>,
                          released: seq<Release>, written: seq<byte>)
    requires ExtractorLoopInv(s0, script, used, s, sawInputEOS, subs, released, written)
    ensures subs == SampleSubmissions(s0.mExtractor, Inputs(script[..used])).subs
    ensures s.mSignalledInputEOS == Signalled(subs)
    ensures SampleFeed(s0.mExtractor, subs, s.mSignalledInputEOS)
    ensures s.mExtractor == s0.mExtractor[|subs| - (if s.mSignalledInputEOS then 1 else 0)..]
    ensures DrainedSoFar(s0, s, script, used, released, written)
  {
    SampleFeedSignalled(s0.mExtractor, subs, s.mSignalledInputEOS);
  }

  /** `testDecRunExtrator`: the samples come from `s.mExtractor`; the
      extractor reports end of input (`getSampleTrackIndex` fails) once they
      are used up. */
  method DecRunExtractor(s: CodecState, outputOpens: bool, script: seq<Tick>)
    returns (end: RunEnd<Status>, used: nat, s': CodecState,
             subs: seq<Submission>, released: seq<Release>, written: seq<byte>)
    requires !s.mSignalledInputEOS && !s.mSawOutputEOS
    ensures used <= |script|
    // every way out of the function returns OK, even a failed output open
    ensures end.Returned? ==> end.status == OK
    ensures !s.mSurface && !outputOpens ==> end == Returned(OK) && used == 0 && s' == s && subs == []
    ensures end.Returned? && (s.mSurface || outputOpens) <==> s'.mSawOutputEOS
    ensures end.ScriptExhausted? ==> used == |script|
    // every completed round went through; an abort comes from the round where its condition first holds
    ensures ExtractorRoundsWentThrough(s, script, used)
    ensures end.CheckFailed? ==> used < |script| && ExtractorRoundChecks(s, script, used)
    ensures end.Undefined? ==> used < |script| && ExtractorRoundUndefined(s, script, used)
    // what the codec's answers call for: the samples in order with their timestamps,
    // then at most one EOS buffer after the last one
    ensures subs == SampleSubmissions(s.mExtractor, Inputs(script[..used])).subs
    ensures SampleFeed(s.mExtractor, subs, s'.mSignalledInputEOS)
    ensures s'.mExtractor == s.mExtractor[|subs| - (if s'.mSignalledInputEOS then 1 else 0)..]
    ensures DrainedSoFar(s, s', script, used, released, written)
    ensures end.Returned? && s'.mSawOutputEOS ==> used > 0 && !SawOutputEOS(Outputs(script[..used - 1]))
  {
    if !s.mSurface && !outputOpens {
      DrainedNothing(s, script);
      assert Inputs(script[..0]) == [];
      return Returned(OK), 0, s, [], [], [];
    }
    end, used, s', subs, released, written := ExtractorLoop(s, script);
  }
}
