/**
  `native_enc_test`: encodes a raw YUV420 semi-planar file to H.264 with
  Android's `MediaCodec`.  `testSetupEncDataByArgs` walks the options into an
  `EncTestData` record, opening the files as it goes; `testEncodeRun` reads
  the input a frame at a time and pumps the encoder until both the input
  and the output side have seen end of stream.
 */
module NativeEncTest {
  import opened Outcomes
  import opened Stdio
  import opened Cli
  import opened MediaCodecApi

  /** `OMX_COLOR_FormatYUV420SemiPlanar` of OpenMAX IL (OMX_IVCommon.h). */
  const OMX_COLOR_FormatYUV420SemiPlanar: uint32 := 21

  /** 2^32, the modulus of `uint32_t` arithmetic. */
  const UINT32_MOD: nat := 0x1_0000_0000

  /** The record `testSetupEncDataByArgs` fills in.  A stream is represented
      by what the program later does with it: the contents read from the
      input stream, the path written through the output stream; None stands
      for a NULL `FILE *`.  The input-buffer vector is represented by its
      size, the output-buffer vector by its buffers. */
  datatype EncTestData = EncTestData(
    fpInput: Option<seq<byte>>,
    fpOutput: Option<string>,
    fileInput: string,
    fileOutput: string,
    frameCount: uint32,
    inBuffers: nat,
    outBuffers: seq<BufferHandle>,
    width: uint32,
    height: uint32,
    bitRate: uint32,
    colorFormat: uint32,
    frameRate: uint32,
    IDRInterval: uint32,
    timeout: int)

  /** The long options `testSetupEncDataByArgs` knows. */
  const ENC_OPTIONS: set<Key> := {KUsage, KInput, KOutput, KWidth, KHeight, KBitrate, KFramerate}

  /** The record before the option loop: both streams NULL and the four
      numbers zero.  The fields the function sets only after its loop, and
      the codec's buffer vectors, start at zero here. */
  const INITIAL: EncTestData := EncTestData(None, None, "", "", 0, 0, [], 0, 0, 0, 0, 0, 0, 0)

  /** Which stream the `--o` case tests after its `fopen`. */
  datatype OutputCheck =
    | TestsInputHandle    // `fp_input`, as the code is written
    | TestsOutputHandle   // `fp_output`, the stream it has just opened

  /** One round of the option switch on `d`; None when the function returns
      BAD_VALUE in that round. */
  function OptionStep(fs: FileSystem, d: EncTestData, o: CliOption, check: OutputCheck): Option<EncTestData>
  {
    match o
    case Input(path) =>
      if path in fs.contents then Some(d.(fileInput := path, fpInput := fs.OpenRead(path))) else None
    case Output(path) =>
      var d' := d.(fileOutput := path, fpOutput := if fs.CanCreate(path) then Some(path) else None);
      if (if check == TestsOutputHandle then d'.fpOutput.None? else d'.fpInput.None?) then None else Some(d')
    case Width(v) => Some(d.(width := ToUint32(v)))
    case Height(v) => Some(d.(height := ToUint32(v)))
    case Bitrate(v) => Some(d.(bitRate := ToUint32(v)))
    case Framerate(v) => Some(d.(frameRate := ToUint32(v)))
    case _ => None   // `--u`, and every option outside the table
  }

  /** The option loop over `opts`; None when it returns BAD_VALUE. */
  function SetupWalk(fs: FileSystem, opts: seq<CliOption>, check: OutputCheck): Option<EncTestData>
  {
    if opts == [] then Some(INITIAL)
    else
      match SetupWalk(fs, opts[..|opts| - 1], check)
      case None => None
      case Some(d) => OptionStep(fs, d, opts[|opts| - 1], check)
  }

  /** `testSetupEncDataByArgs` as a whole: the option loop, the check that
      both streams are open and both sizes non-zero, then the defaults. */
  function Setup(fs: FileSystem, opts: seq<CliOption>, check: OutputCheck): Option<EncTestData>
  {
    match SetupWalk(fs, opts, check)
    case None => None
    case Some(d) =>
      if d.fpInput.None? || d.fpOutput.None? || d.width == 0 || d.height == 0 then None
      else Some(d.(bitRate := if d.bitRate == 0 then 3000000 else d.bitRate,
                   frameRate := if d.frameRate == 0 then 30 else d.frameRate,
                   frameCount := 0,
                   colorFormat := OMX_COLOR_FormatYUV420SemiPlanar,
                   IDRInterval := 1,
                   timeout := 20 * 1000))
  }

  /** The round for option `i` gets through the switch: the option is in the
      table and is not `--u`, an input file opens, and an output option passes
      the test on the handle the `--o` case looks at. */
  predicate StepOk(fs: FileSystem, opts: seq<CliOption>, i: nat, check: OutputCheck)
    requires i < |opts|
  {
    && Accepts(ENC_OPTIONS, opts[i])
    && (opts[i].Input? ==> opts[i].path in fs.contents)
    && (opts[i].Output? ==>
          if check == TestsOutputHandle then fs.CanCreate(opts[i].path)
          else exists j | 0 <= j < i :: opts[j].Input?)
  }

  lemma StepOkPrefix(fs: FileSystem, opts: seq<CliOption>, n: nat, i: nat, check: OutputCheck)
    requires i < n <= |opts|
    ensures StepOk(fs, opts[..n], i, check) == StepOk(fs, opts, i, check)
  {
    assert forall j | 0 <= j < i :: opts[..n][j] == opts[j];
  }

  /** The path fields after the option loop hold the last `--i` and `--o`
      paths. */
  lemma {:induction false} WalkPaths(fs: FileSystem, opts: seq<CliOption>, check: OutputCheck)
    requires SetupWalk(fs, opts, check).Some?
    ensures SetupWalk(fs, opts, check).value.fileInput == LastPath(opts, KInput, "")
    ensures SetupWalk(fs, opts, check).value.fileOutput == LastPath(opts, KOutput, "")
  {
    if opts != [] {
      WalkPaths(fs, opts[..|opts| - 1], check);
    }
  }

  /** The streams after the option loop are the ones the last `--i` and
      `--o` opened. */
  lemma {:induction false} WalkStreams(fs: FileSystem, opts: seq<CliOption>, check: OutputCheck)
    requires SetupWalk(fs, opts, check).Some?
    ensures var d := SetupWalk(fs, opts, check).value;
            && (d.fpInput.Some? <==> Last(opts, KInput).Some?)
            && (d.fpInput.Some? ==> d.fpInput == fs.OpenRead(LastPath(opts, KInput, "")))
            && (d.fpOutput.Some? <==> Last(opts, KOutput).Some? && fs.CanCreate(LastPath(opts, KOutput, "")))
            && (d.fpOutput.Some? ==> d.fpOutput.value == LastPath(opts, KOutput, ""))
  {
    if opts != [] {
      WalkStreams(fs, opts[..|opts| - 1], check);
    }
  }

  /** The width and height after the option loop are the last ones given,
      stored into `uint32_t`. */
  lemma {:induction false} WalkSizes(fs: FileSystem, opts: seq<CliOption>, check: OutputCheck)
    requires SetupWalk(fs, opts, check).Some?
    ensures SetupWalk(fs, opts, check).value.width == ToUint32(LastValue(opts, KWidth, 0))
    ensures SetupWalk(fs, opts, check).value.height == ToUint32(LastValue(opts, KHeight, 0))
  {
    if opts != [] {
      WalkSizes(fs, opts[..|opts| - 1], check);
    }
  }

  /** The bit rate and frame rate after the option loop are the last ones
      given, stored into `uint32_t`. */
  lemma {:induction false} WalkRates(fs: FileSystem, opts: seq<CliOption>, check: OutputCheck)
    requires SetupWalk(fs, opts, check).Some?
    ensures SetupWalk(fs, opts, check).value.bitRate == ToUint32(LastValue(opts, KBitrate, 0))
    ensures SetupWalk(fs, opts, check).value.frameRate == ToUint32(LastValue(opts, KFramerate, 0))
  {
    if opts != [] {
      WalkRates(fs, opts[..|opts| - 1], check);
    }
  }

  /** Some earlier option was an `--i`. */
  predicate InputGiven(opts: seq<CliOption>)
  {
    exists j | 0 <= j < |opts| :: opts[j].Input?
  }

  lemma InputGivenIsLast(opts: seq<CliOption>)
    ensures InputGiven(opts) <==> Last(opts, KInput).Some?
  {
    LastNoneIffAbsent(opts, KInput);
    assert forall j | 0 <= j < |opts| :: (KeyOf(opts[j]) == Some(KInput) <==> opts[j].Input?);
  }

  /** The option loop gets through every option exactly when every round's
      check passes. */
  lemma {:induction false} WalkOkIff(fs: FileSystem, opts: seq<CliOption>, check: OutputCheck)
    ensures SetupWalk(fs, opts, check).Some? <==> forall i | 0 <= i < |opts| :: StepOk(fs, opts, i, check)
  {
    if opts != [] {
      var n := |opts| - 1;
      var front := opts[..n];
      WalkOkIff(fs, front, check);
      forall i | 0 <= i < n
        ensures StepOk(fs, front, i, check) == StepOk(fs, opts, i, check)
      {
        StepOkPrefix(fs, opts, n, i, check);
      }
      if SetupWalk(fs, front, check).Some? {
        var d := SetupWalk(fs, front, check).value;
        WalkStreams(fs, front, check);
        InputGivenIsLast(front);
        assert InputGiven(front) <==> exists j | 0 <= j < n :: opts[j].Input?;
        assert SetupWalk(fs, opts, check) == OptionStep(fs, d, opts[n], check);
        assert OptionStep(fs, d, opts[n], check).Some? <==> StepOk(fs, opts, n, check);
      }
    }
  }

  /** Once a round returns BAD_VALUE, the whole loop does. */
  lemma {:induction false} WalkFailureSticks(fs: FileSystem, opts: seq<CliOption>, n: nat, check: OutputCheck)
    requires n <= |opts|
    requires SetupWalk(fs, opts[..n], check).None?
    ensures SetupWalk(fs, opts, check).None?
    decreases |opts| - n
  {
    if n < |opts| {
      assert opts[..n + 1][..n] == opts[..n];
      WalkFailureSticks(fs, opts, n + 1, check);
    } else {
      assert opts[..n] == opts;
    }
  }

  /** With the `--o` case testing the stream it opened, setup succeeds exactly
      when every option is in the table and not `--u`, every `--i` file opens,
      every `--o` file can be created, both paths are given and the last width
      and height are non-zero as `uint32_t`. */
  lemma SetupAcceptsIff(fs: FileSystem, opts: seq<CliOption>)
    ensures Setup(fs, opts, TestsOutputHandle).Some? <==>
              && (forall i | 0 <= i < |opts| :: StepOk(fs, opts, i, TestsOutputHandle))
              && Last(opts, KInput).Some? && Last(opts, KOutput).Some?
              && ToUint32(LastValue(opts, KWidth, 0)) != 0
              && ToUint32(LastValue(opts, KHeight, 0)) != 0
  {
    WalkOkIff(fs, opts, TestsOutputHandle);
    if SetupWalk(fs, opts, TestsOutputHandle).Some? {
      WalkStreams(fs, opts, TestsOutputHandle);
      WalkSizes(fs, opts, TestsOutputHandle);
      if Last(opts, KOutput).Some? {
        LastIsLatest(opts, KOutput);
        var i :| 0 <= i < |opts| && opts[i] == Last(opts, KOutput).value && KeyOf(opts[i]) == Some(KOutput) &&
                 forall j | i < j < |opts| :: KeyOf(opts[j]) != Some(KOutput);
        assert StepOk(fs, opts, i, TestsOutputHandle);
      }
    }
  }

  /** As the code is written, setup succeeds exactly when every option is in
      the table and not `--u`, every `--i` file opens, every `--o` comes after
      some `--i`, both paths are given, the last `--o` file can be created and
      the last width and height are non-zero; an earlier `--o` file that
      cannot be created is overridden by a later one. */
  lemma AsWrittenAcceptsIff(fs: FileSystem, opts: seq<CliOption>)
    ensures Setup(fs, opts, TestsInputHandle).Some? <==>
              && (forall i | 0 <= i < |opts| :: StepOk(fs, opts, i, TestsInputHandle))
              && Last(opts, KInput).Some? && Last(opts, KOutput).Some?
              && fs.CanCreate(LastPath(opts, KOutput, ""))
              && ToUint32(LastValue(opts, KWidth, 0)) != 0
              && ToUint32(LastValue(opts, KHeight, 0)) != 0
  {
    WalkOkIff(fs, opts, TestsInputHandle);
    if SetupWalk(fs, opts, TestsInputHandle).Some? {
      WalkStreams(fs, opts, TestsInputHandle);
      WalkSizes(fs, opts, TestsInputHandle);
    }
  }

  /** What a successful setup holds: the files and sizes of the last options,
      a zero bit rate replaced by 3000000 and a zero frame rate by 30,
      `frameCount` 0, YUV420 semi-planar input, one IDR frame per second of
      frames and a 20 ms codec timeout. */
  lemma SetupDefaults(fs: FileSystem, opts: seq<CliOption>, check: OutputCheck)
    requires Setup(fs, opts, check).Some?
    ensures var d := Setup(fs, opts, check).value;
            var b := ToUint32(LastValue(opts, KBitrate, 0));
            var f := ToUint32(LastValue(opts, KFramerate, 0));
            && d.fpInput.Some? && d.fpInput == fs.OpenRead(LastPath(opts, KInput, ""))
            && d.fpOutput == Some(LastPath(opts, KOutput, ""))
            && d.fileInput == LastPath(opts, KInput, "") && d.fileOutput == LastPath(opts, KOutput, "")
            && d.width == ToUint32(LastValue(opts, KWidth, 0)) != 0
            && d.height == ToUint32(LastValue(opts, KHeight, 0)) != 0
            && d.bitRate == (if b == 0 then 3000000 else b)
            && d.frameRate == (if f == 0 then 30 else f)
            && d.frameCount == 0 && d.colorFormat == OMX_COLOR_FormatYUV420SemiPlanar
            && d.IDRInterval == 1 && d.timeout == 20000
  {
    WalkPaths(fs, opts, check);
    WalkStreams(fs, opts, check);
    WalkSizes(fs, opts, check);
    WalkRates(fs, opts, check);
  }

  /** The `--o` case as written rejects `--o out --i in --w 16 --h 16` although
      both files open: `fp_input` is still NULL when `--o` is handled.  With
      the test on `fp_output` the same command line is accepted. */
  lemma OutputBeforeInputRejected()
    ensures var fs := FileSystem(map["in" := []], {"out"});
            var opts := [Output("out"), Input("in"), Width(16), Height(16)];
            && Setup(fs, opts, TestsInputHandle).None?
            && Setup(fs, opts, TestsOutputHandle).Some?
  {
    var fs := FileSystem(map["in" := []], {"out"});
    var opts := [Output("out"), Input("in"), Width(16), Height(16)];
    assert opts[..1] == [Output("out")] && [Output("out")][..0] == [];
    assert SetupWalk(fs, opts[..1], TestsInputHandle).None?;
    WalkFailureSticks(fs, opts, 1, TestsInputHandle);
    var d1 := INITIAL.(fileOutput := "out", fpOutput := Some("out"));
    assert SetupWalk(fs, opts[..1], TestsOutputHandle) == Some(d1);
    var d2 := d1.(fileInput := "in", fpInput := Some([]));
    assert opts[..2][..1] == opts[..1];
    assert SetupWalk(fs, opts[..2], TestsOutputHandle) == Some(d2);
    assert opts[..3][..2] == opts[..2];
    assert SetupWalk(fs, opts[..3], TestsOutputHandle) == Some(d2.(width := 16));
    assert opts[..4][..3] == opts[..3] && opts[..4] == opts;
    assert SetupWalk(fs, opts, TestsOutputHandle) == Some(d2.(width := 16, height := 16));
  }

  /** `testSetupEncDataByArgs`, with the `--o` case testing `fp_output`. */
  method ParseArgs(fs: FileSystem, opts: seq<CliOption>) returns (status: Status, data: EncTestData)
    ensures status == OK <==> Setup(fs, opts, TestsOutputHandle).Some?
    ensures status == OK ==> data == Setup(fs, opts, TestsOutputHandle).value
  {
    data := INITIAL;
    for i := 0 to |opts|
      invariant SetupWalk(fs, opts[..i], TestsOutputHandle) == Some(data)
    {
      assert opts[..i + 1][..i] == opts[..i];
      match opts[i]
      case Input(path) =>
        data := data.(fileInput := path, fpInput := fs.OpenRead(path));
        if data.fpInput.None? {
          WalkFailureSticks(fs, opts, i + 1, TestsOutputHandle);
          return BAD_VALUE, data;
        }
      case Output(path) =>
        data := data.(fileOutput := path, fpOutput := if fs.CanCreate(path) then Some(path) else None);
        if data.fpOutput.None? {
          WalkFailureSticks(fs, opts, i + 1, TestsOutputHandle);
          return BAD_VALUE, data;
        }
      case Width(v) =>
        data := data.(width := ToUint32(v));
      case Height(v) =>
        data := data.(height := ToUint32(v));
      case Bitrate(v) =>
        data := data.(bitRate := ToUint32(v));
      case Framerate(v) =>
        data := data.(frameRate := ToUint32(v));
      case Usage =>
        WalkFailureSticks(fs, opts, i + 1, TestsOutputHandle);
        return BAD_VALUE, data;
      case Type(_) =>
        WalkFailureSticks(fs, opts, i + 1, TestsOutputHandle);
        return BAD_VALUE, data;
      case Unknown =>
        WalkFailureSticks(fs, opts, i + 1, TestsOutputHandle);
        return BAD_VALUE, data;
    }
    assert opts[..|opts|] == opts;
    if data.fpInput.None? || data.fpOutput.None? || data.width == 0 || data.height == 0 {
      return BAD_VALUE, data;
    }
    if data.bitRate == 0 {
      data := data.(bitRate := 3000000);
    }
    if data.frameRate == 0 {
      data := data.(frameRate := 30);
    }
    data := data.(frameCount := 0, colorFormat := OMX_COLOR_FormatYUV420SemiPlanar,
                  IDRInterval := 1, timeout := 20 * 1000);
    status := OK;
  }

  /** The packet size, width times height times 3 halves: the products wrap
      modulo 2^32 in `uint32_t`; the quotient always fits the `int32_t` it is
      stored into. */
  function PacketSize(width: uint32, height: uint32): (r: int32)
  {
    var area: uint32 := width * height % UINT32_MOD;
    var triple: uint32 := area * 3 % UINT32_MOD;
    triple / 2
  }

  /** Without wrap-around the packet is the size of one YUV420 frame: a
      full-resolution luma plane and two quarter-resolution chroma planes. */
  lemma PacketSizeIsFrameSize(width: uint32, height: uint32)
    requires width * height * 3 < UINT32_MOD
    ensures PacketSize(width, height) == width * height * 3 / 2
  {
    var area := width * height;
    assert area * 3 < UINT32_MOD;
    assert area < UINT32_MOD;
    assert area % UINT32_MOD == area;
    assert (area * 3) % UINT32_MOD == area * 3;
  }

  /** A frame of 65536 x 65536 pixels wraps to a packet size of zero. */
  lemma PacketSizeWraps()
    ensures PacketSize(65536, 65536) == 0
  {
  }

  /** One drained output event of `testEncodeRun`: a filled buffer is written,
      its EOS flag latched into `signalledOutputEOS`, `frameCount` incremented
      modulo 2^32 and the buffer released once; a buffers-changed event
      replaces the cached vector; nothing else changes. */
  ghost predicate EncDrainStep(d: EncTestData, outputEOS: bool, reply: OutputReply,
                               d': EncTestData, outputEOS': bool, e: DrainEnd)
  {
    && e.Drained?
    && d' == d.(frameCount := if reply.OutputUnit? then (d.frameCount + 1) % UINT32_MOD else d.frameCount,
                outBuffers := if reply.OutputBuffersChanged? then reply.buffers else d.outBuffers)
    && outputEOS' == (outputEOS || (reply.OutputUnit? && reply.eos))
    && e.released == (if reply.OutputUnit? then [Release(reply.index, false)] else [])
    && e.written == (if reply.OutputUnit? then reply.bytes else [])
  }

  /** The `dequeueOutputBuffer` half of one round of `testEncodeRun`. */
  method EncDrainOnce(d: EncTestData, outputEOS: bool, reply: OutputReply)
    returns (d': EncTestData, outputEOS': bool, e: DrainEnd)
    ensures e.Drained? ==> EncDrainStep(d, outputEOS, reply, d', outputEOS', e)
    ensures e.DrainUndefined? <==> reply.OutputUnit? && reply.index >= |d.outBuffers|
    ensures e.DrainCheckFailed? <==> reply.OutputError?
  {
    d', outputEOS' := d, outputEOS;
    match reply
    case OutputUnit(index, eos, bytes) =>
      if index >= |d.outBuffers| {
        return d, outputEOS, DrainUndefined;
      }
      if eos {
        outputEOS' := true;
      }
      d' := d.(frameCount := (d.frameCount + 1) % UINT32_MOD);
      e := Drained([Release(index, false)], bytes);
    case OutputBuffersChanged(buffers) =>
      d' := d.(outBuffers := buffers);
      e := Drained([], []);
    case OutputFormatChanged =>
      e := Drained([], []);
    case OutputTryAgain =>
      e := Drained([], []);
    case OutputError =>
      e := DrainCheckFailed;
  }

  /** The drain side of `testEncodeRun` after the first `used` rounds of
      `script`, starting from `d0`: one count (modulo 2^32), one write and one
      release per filled buffer, in order; the cached vector from the last
      change event; the output EOS flag set exactly when a filled buffer
      carried it; every other field as it was. */
  ghost predicate EncDrainedSoFar(d0: EncTestData, d: EncTestData, script: seq<Tick>, used: nat,
                                  outputEOS: bool, released: seq<Release>, written: seq<byte>)
    requires used <= |script|
  {
    var outs := Outputs(script[..used]);
    && d == d0.(frameCount := d.frameCount, outBuffers := d.outBuffers)
    && d.frameCount == (d0.frameCount + |Units(outs)|) % UINT32_MOD
    && d.outBuffers == CurrentBuffers(d0.outBuffers, outs)
    && released == ReleasesOf(Units(outs), false)
    && written == UnitBytes(Units(outs))
    && outputEOS == SawOutputEOS(outs)
  }

  lemma EncDrainedNothing(d0: EncTestData, script: seq<Tick>)
    ensures EncDrainedSoFar(d0, d0, script, 0, false, [], [])
  {
    assert script[..0] == [];
    assert Outputs([]) == [];
    assert Units([]) == [];
  }

  lemma WrapSucc(x: int)
    ensures (x % UINT32_MOD + 1) % UINT32_MOD == (x + 1) % UINT32_MOD
  {
  }

  lemma EncDrainedStep(d0: EncTestData, d: EncTestData, script: seq<Tick>, used: nat, outputEOS: bool,
                       released: seq<Release>, written: seq<byte>,
                       d': EncTestData, outputEOS': bool, e: DrainEnd)
    requires used < |script|
    requires EncDrainedSoFar(d0, d, script, used, outputEOS, released, written)
    requires EncDrainStep(d, outputEOS, script[used].output, d', outputEOS', e)
    ensures EncDrainedSoFar(d0, d', script, used + 1, outputEOS', released + e.released, written + e.written)
  {
    var outs := Outputs(script[..used]);
    var o := script[used].output;
    OutputsStep(script, used);
    SawOutputEOSAppend(outs, o);
    CurrentBuffersAppend(d0.outBuffers, outs, o);
    UnitsAppend(outs, o);
    var outs' := Outputs(script[..used + 1]);
    assert outs' == outs + [o];
    if o.OutputUnit? {
      UnitDrained(d0.frameCount, Units(outs), o);
      assert Units(outs') == Units(outs) + [o];
      assert d'.frameCount == (d0.frameCount + |Units(outs')|) % UINT32_MOD;
      assert released + e.released == ReleasesOf(Units(outs'), false);
      assert written + e.written == UnitBytes(Units(outs'));
    } else {
      assert Units(outs') == Units(outs);
      assert e.released == [] && e.written == [];
      assert released + e.released == released;
      assert written + e.written == written;
    }
    assert d'.outBuffers == CurrentBuffers(d0.outBuffers, outs');
    assert outputEOS' == SawOutputEOS(outs');
    assert d' == d0.(frameCount := d'.frameCount, outBuffers := d'.outBuffers);
  }

  /** The accounting of one more filled buffer. */
  lemma UnitDrained(frameCount0: int, units: seq<OutputReply>, o: OutputReply)
    requires forall k | 0 <= k < |units| :: units[k].OutputUnit?
    requires o.OutputUnit?
    ensures ((frameCount0 + |units|) % UINT32_MOD + 1) % UINT32_MOD == (frameCount0 + |units + [o]|) % UINT32_MOD
    ensures ReleasesOf(units + [o], false) == ReleasesOf(units, false) + [Release(o.index, false)]
    ensures UnitBytes(units + [o]) == UnitBytes(units) + o.bytes
  {
    WrapSucc(frameCount0 + |units|);
    ReleasesAppend(units, o, false);
    UnitBytesAppend(units, o);
  }

  /** The output half of round `k` finds a filled buffer whose index is
      outside the cached output-buffer vector. */
  ghost predicate EncDrainUndefinedAt(d0: EncTestData, script: seq<Tick>, k: nat)
    requires k < |script|
  {
    var o := script[k].output;
    o.OutputUnit? && o.index >= |CurrentBuffers(d0.outBuffers, Outputs(script[..k]))|
  }

  /** The output half of round `used`, accounted into the drain side. */
  method EncDrainRound(d0: EncTestData, script: seq<Tick>, used: nat, d: EncTestData, outputEOS: bool,
                       released: seq<Release>, written: seq<byte>)
    returns (e: DrainEnd, d': EncTestData, outputEOS': bool, released': seq<Release>, written': seq<byte>)
    requires used < |script|
    requires EncDrainedSoFar(d0, d, script, used, outputEOS, released, written)
    ensures e.Drained? ==> EncDrainedSoFar(d0, d', script, used + 1, outputEOS', released', written')
    ensures !e.Drained? ==> d' == d && outputEOS' == outputEOS && released' == released && written' == written
    ensures e.DrainCheckFailed? <==> script[used].output.OutputError?
    ensures e.DrainUndefined? <==> EncDrainUndefinedAt(d0, script, used)
  {
    d', outputEOS', e := EncDrainOnce(d, outputEOS, script[used].output);
    if e.Drained? {
      EncDrainedStep(d0, d, script, used, outputEOS, released, written, d', outputEOS', e);
      released', written' := released + e.released, written + e.written;
    } else {
      d', outputEOS', released', written' := d, outputEOS, released, written;
    }
  }

  /** After the first `k` rounds the EOS buffer has been queued and an output
      buffer carried EOS: the condition that ends `testEncodeRun`'s loop. */
  ghost predicate EncBoth(file: seq<byte>, p: nat, script: seq<Tick>, k: nat)
    requires k <= |script|
  {
    Signalled(RawSubmissions(file, p, Inputs(script[..k]))) && SawOutputEOS(Outputs(script[..k]))
  }

  /** Round `k` of `testEncodeRun`'s loop fails a CHECK: a failed
      `dequeueInputBuffer` while frames remain, or, when the input half went
      through, a failed `dequeueOutputBuffer`.  A failed dequeue while only
      the EOS buffer is left is not checked. */
  ghost predicate EncRoundChecks(d0: EncTestData, file: seq<byte>, p: nat, script: seq<Tick>, k: nat)
    requires k < |script|
  {
    var subs := RawSubmissions(file, p, Inputs(script[..k]));
    || RawInputFails(file, p, subs, script[k].input, false)
    || (!RawInputUndefined(file, p, d0.inBuffers, subs, script[k].input) && script[k].output.OutputError?)
  }

  /** Round `k` of `testEncodeRun`'s loop indexes a buffer vector out of
      range, on the input side or, when that went through, on the output
      side. */
  ghost predicate EncRoundUndefined(d0: EncTestData, file: seq<byte>, p: nat, script: seq<Tick>, k: nat)
    requires k < |script|
  {
    var subs := RawSubmissions(file, p, Inputs(script[..k]));
    || RawInputUndefined(file, p, d0.inBuffers, subs, script[k].input)
    || (!RawInputFails(file, p, subs, script[k].input, false) && EncDrainUndefinedAt(d0, script, k))
  }

  /** Each of the first `used` rounds went through and left the loop's exit
      condition false. */
  ghost predicate EncRoundsWentThrough(d0: EncTestData, file: seq<byte>, p: nat, script: seq<Tick>, used: nat)
    requires used <= |script|
  {
    forall k | 0 <= k < used ::
      && !EncRoundChecks(d0, file, p, script, k) && !EncRoundUndefined(d0, file, p, script, k)
      && !EncBoth(file, p, script, k + 1)
  }

  lemma EncWentThroughStep(d0: EncTestData, file: seq<byte>, p: nat, script: seq<Tick>, used: nat)
    requires used < |script|
    requires EncRoundsWentThrough(d0, file, p, script, used)
    requires !EncRoundChecks(d0, file, p, script, used) && !EncRoundUndefined(d0, file, p, script, used)
    requires !EncBoth(file, p, script, used + 1)
    ensures EncRoundsWentThrough(d0, file, p, script, used + 1)
  {
    forall k | 0 <= k < used + 1
      ensures !EncRoundChecks(d0, file, p, script, k) && !EncRoundUndefined(d0, file, p, script, k)
      ensures !EncBoth(file, p, script, k + 1)
    {
      if k < used {
        assert !EncRoundChecks(d0, file, p, script, k);
      }
    }
  }

  /** The variables of `testEncodeRun`'s loop after `used` completed rounds:
      the submissions are the ones the codec's answers call for, the reader
      agrees with them, and the drain side accounts for every output event
      of those rounds. */
  ghost predicate EncLoopInv(d0: EncTestData, file: seq<byte>, p: nat, script: seq<Tick>, used: nat,
                             d: EncTestData, rd: RawReader, inputEOS: bool, outputEOS: bool,
                             subs: seq<Submission>, released: seq<Release>, written: seq<byte>)
  {
    && used <= |script|
    && subs == RawSubmissions(file, p, Inputs(script[..used]))
    && inputEOS == Signalled(subs)
    && RawInputInv(file, p, rd, inputEOS, subs)
    && EncDrainedSoFar(d0, d, script, used, outputEOS, released, written)
  }

  /** One round of `testEncodeRun`'s loop.  A failed `dequeueInputBuffer` in
      the EOS branch is not checked: the round goes on and the EOS buffer is
      offered again next round.  A round cut short by a CHECK or an
      out-of-range index ends the run there and is not recorded. */
  method EncRound(d0: EncTestData, file: seq<byte>, p: nat, script: seq<Tick>, used: nat,
                  d: EncTestData, rd: RawReader, inputEOS: bool, outputEOS: bool,
                  subs: seq<Submission>, released: seq<Release>, written: seq<byte>)
    returns (stop: Option<RunEnd<int>>, used': nat, d': EncTestData, rd': RawReader,
             inputEOS': bool, outputEOS': bool,
             subs': seq<Submission>, released': seq<Release>, written': seq<byte>)
    requires used < |script|
    requires EncLoopInv(d0, file, p, script, used, d, rd, inputEOS, outputEOS, subs, released, written)
    ensures EncLoopInv(d0, file, p, script, used', d', rd', inputEOS', outputEOS', subs', released', written')
    ensures stop == Some(CheckFailed) <==> EncRoundChecks(d0, file, p, script, used)
    ensures stop == Some(Undefined) <==> EncRoundUndefined(d0, file, p, script, used)
    ensures stop.Some? ==> stop.value in {Returned(0), CheckFailed, Undefined}
    ensures stop == Some(CheckFailed) || stop == Some(Undefined) ==>
              used' == used && d' == d && inputEOS' == inputEOS && outputEOS' == outputEOS &&
              subs' == subs && released' == released && written' == written
    ensures stop.None? || stop == Some(Returned(0)) ==> used' == used + 1
    ensures stop == Some(Returned(0)) <==> inputEOS' && outputEOS' && used' == used + 1
  {
    var sub, e;
    rd', inputEOS', sub, e := RawInputHalf(file, p, d.inBuffers, rd, inputEOS, script[used].input, false, subs);
    if !e.Fed? {
      return Some(if e.FeedCheckFailed? then CheckFailed else Undefined), used, d, rd, inputEOS, outputEOS,
             subs, released, written;
    }
    RawSubmissionsStep(file, p, script, used);
    var de;
    de, d', outputEOS', released', written' := EncDrainRound(d0, script, used, d, outputEOS, released, written);
    if !de.Drained? {
      return Some(if de.DrainCheckFailed? then CheckFailed else Undefined), used, d, rd, inputEOS, outputEOS,
             subs, released, written;
    }
    used', subs' := used + 1, subs + sub.ToSeq();
    RawFeedSignalled(file, p, subs', inputEOS');
    stop := if inputEOS' && outputEOS' then Some(Returned(0)) else None;
  }

  /** `testEncodeRun` on the record `setup` produced, with the codec behaving
      as `script`: frames of `PacketSize(width, height)` bytes are read from
      the input file and queued, then one empty EOS buffer.  The run is
      determined by the script: every completed round went through, and the
      loop ends, returning 0, in the first round after which the EOS buffer is
      queued and an output buffer carried EOS; or at the first round whose
      replies fail a CHECK or index out of range; or when the script runs
      out. */
  method EncodeRun(d: EncTestData, script: seq<Tick>)
    returns (end: RunEnd<int>, used: nat, d': EncTestData, subs: seq<Submission>,
             released: seq<Release>, written: seq<byte>, inputEOS: bool, outputEOS: bool)
    requires d.fpInput.Some?
    ensures used <= |script|
    ensures end.Returned? ==> end.status == 0
    ensures end.Returned? <==> inputEOS && outputEOS
    ensures end.ScriptExhausted? ==> used == |script|
    // every round before the last went through without meeting the exit condition
    ensures var file, p := d.fpInput.value, PacketSize(d.width, d.height);
            && (end.Returned? ==> 0 < used && EncRoundsWentThrough(d, file, p, script, used - 1)
                                  && EncBoth(file, p, script, used))
            && (!end.Returned? ==> EncRoundsWentThrough(d, file, p, script, used))
            && (end.CheckFailed? ==> used < |script| && EncRoundChecks(d, file, p, script, used))
            && (end.Undefined? ==> used < |script| && EncRoundUndefined(d, file, p, script, used))
    // input side: what the codec's answers call for; whole frames in file order, the short tail
    // never queued, EOS at most once and last
    ensures subs == RawSubmissions(d.fpInput.value, PacketSize(d.width, d.height), Inputs(script[..used]))
    ensures inputEOS == Signalled(subs)
    ensures RawFeed(d.fpInput.value, PacketSize(d.width, d.height), subs, inputEOS)
    // output side: one count, write and release per filled buffer, in order
    ensures EncDrainedSoFar(d, d', script, used, outputEOS, released, written)
  {
    var file := d.fpInput.value;
    var p: nat := PacketSize(d.width, d.height);
    used, d', subs, released, written, inputEOS, outputEOS := 0, d, [], [], [], false, false;
    EncDrainedNothing(d, script);
    assert Inputs(script[..0]) == [];
    var rd := RawReader(0, [], false, true);
    end := ScriptExhausted;
    while used < |script|
      invariant EncLoopInv(d, file, p, script, used, d', rd, inputEOS, outputEOS, subs, released, written)
      invariant !(inputEOS && outputEOS)
      invariant EncRoundsWentThrough(d, file, p, script, used)
    {
      var stop, used1;
      stop, used1, d', rd, inputEOS, outputEOS, subs, released, written :=
        EncRound(d, file, p, script, used, d', rd, inputEOS, outputEOS, subs, released, written);
      if stop.Some? {
        end := stop.value;
        used := used1;
        break;
      }
      EncWentThroughStep(d, file, p, script, used);
      used := used1;
    }
    RawFeedSignalled(file, p, subs, inputEOS);
  }
}
