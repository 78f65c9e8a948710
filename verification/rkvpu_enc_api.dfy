/**
  `RKHWEncApi`, the thin wrapper the Rockchip samples put around the vendor's
  `VpuCodecContext` encoder: `prepare` opens and configures the context,
  `sendFrame` hands one raw picture to the encoder and `getOutStream` takes
  one coded packet back, framed as an H.264 byte stream (Annex B of ITU-T
  H.264) with the SPS/PPS header in front of the first packet.

  The vendor context is an oracle: each method takes the values the vendor
  calls return (status codes, the consumed size, the packet) as parameters.
 */
module RkvpuEncApi {
  import opened Outcomes
  import opened Cli
  import opened Stdio

  /** A C `int64_t`. */
  type int64 = x: int | -0x8000_0000_0000_0000 <= x < 0x8000_0000_0000_0000

  /** The flag bit that marks the last frame of a stream. */
  const OMX_BUFFERFLAG_EOS: int32 := 0x0000_0001

  /** `VPU_API_ERR_BASE` comes from the vendor header `vpu_api.h`, which is
      not part of this model; Rockchip's header defines it as -1000. */
  const VPU_API_ERR_BASE: int := -1000

  /** The status codes of the wrapper (`VPU_RET`). */
  datatype VpuRet =
    | VPU_OK
    | VPU_ERR_UNKNOW
    | VPU_ERR_BASE
    | VPU_ERR_LIST_STREAM
    | VPU_ERR_INIT
    | VPU_ERR_VPU_CODEC_INIT
    | VPU_ERR_STREAM
    | VPU_ERR_FATAL_THREAD
    | VPU_EAGAIN
    | VPU_EOS_STREAM_REACHED
  {
    /** The integer value of the enumerator.  Zero means success and only
        `VPU_OK` has it, so `if (!ret)` and `ret == VPU_OK` agree; every other
        code is negative. */
    function Code(): (c: int32)
      ensures c == 0 <==> VPU_OK?
      ensures c != 0 ==> c < 0
    {
      match this
      case VPU_OK => 0
      case VPU_ERR_UNKNOW => -1
      case VPU_ERR_BASE => -1000
      case VPU_ERR_LIST_STREAM => VPU_API_ERR_BASE - 1
      case VPU_ERR_INIT => VPU_API_ERR_BASE - 2
      case VPU_ERR_VPU_CODEC_INIT => VPU_API_ERR_BASE - 3
      case VPU_ERR_STREAM => VPU_API_ERR_BASE - 4
      case VPU_ERR_FATAL_THREAD => VPU_API_ERR_BASE - 5
      case VPU_EAGAIN => VPU_API_ERR_BASE - 6
      case VPU_EOS_STREAM_REACHED => VPU_API_ERR_BASE - 11
    }
  }

  /** The status an integer code stands for, if any. */
  function FromCode(c: int): (r: Option<VpuRet>)
    ensures r.Some? ==> r.value.Code() == c
  {
    if c == 0 then Some(VPU_OK)
    else if c == -1 then Some(VPU_ERR_UNKNOW)
    else if c == -1000 then Some(VPU_ERR_BASE)
    else if c == VPU_API_ERR_BASE - 1 then Some(VPU_ERR_LIST_STREAM)
    else if c == VPU_API_ERR_BASE - 2 then Some(VPU_ERR_INIT)
    else if c == VPU_API_ERR_BASE - 3 then Some(VPU_ERR_VPU_CODEC_INIT)
    else if c == VPU_API_ERR_BASE - 4 then Some(VPU_ERR_STREAM)
    else if c == VPU_API_ERR_BASE - 5 then Some(VPU_ERR_FATAL_THREAD)
    else if c == VPU_API_ERR_BASE - 6 then Some(VPU_EAGAIN)
    else if c == VPU_API_ERR_BASE - 11 then Some(VPU_EOS_STREAM_REACHED)
    else None
  }

  /** Every status is recovered from its code, so no two statuses share a
      code: in particular a caller can tell `VPU_EAGAIN` from
      `VPU_EOS_STREAM_REACHED`. */
  lemma CodesAreDistinct(r: VpuRet, s: VpuRet)
    ensures FromCode(r.Code()) == Some(r)
    ensures r.Code() == s.Code() ==> r == s
  {
    assert FromCode(s.Code()) == Some(s);
  }

  /** Rate-control modes (`EncRcMode`). */
  datatype EncRcMode = ENC_RC_MODE_VBR | ENC_RC_MODE_CBR | ENC_RC_MODE_FIXQP
  {
    /** The value of the enumerator, as the `rc_mode` field of the
        configuration stores it (0 VBR, 1 CBR, 2 FIXQP). */
    function Value(): (v: int32)
      ensures 0 <= v <= 2
    {
      match this
      case ENC_RC_MODE_VBR => 0
      case ENC_RC_MODE_CBR => 1
      case ENC_RC_MODE_FIXQP => 2
    }
  }

  function RcModeOf(v: int32): (r: Option<EncRcMode>)
    ensures r.Some? <==> 0 <= v <= 2
    ensures r.Some? ==> r.value.Value() == v
  {
    if v == 0 then Some(ENC_RC_MODE_VBR)
    else if v == 1 then Some(ENC_RC_MODE_CBR)
    else if v == 2 then Some(ENC_RC_MODE_FIXQP)
    else None
  }

  /** Each mode is recovered from the value stored for it. */
  lemma RcModeRoundTrip(m: EncRcMode)
    ensures RcModeOf(m.Value()) == Some(m)
  {
  }

  /** The vendor's video coding types (`OMX_RK_VIDEO_CODINGTYPE`); the
      wrapper only tells AVC and HEVC apart from the rest. */
  datatype Coding = CodingAVC | CodingHEVC | CodingOther(id: int32)

  /** `EncProfile` and the level enumerators `prepare` uses. */
  const BASELINE_PROFILE: int32 := 66
  const AVC_LEVEL4_1: int32 := 41
  const HEVC_LEVEL4_1: int32 := 0

  /** `RKHWEncApi::EncCfgInfo`, the caller's configuration. */
  datatype EncCfgInfo = EncCfgInfo(
    width: int32,
    height: int32,
    coding: Coding,
    format: int32,
    IDRInterval: int32,
    rc_mode: int32,
    bitRate: int32,
    framerate: int32,
    qp: int32)

  /** The fields of the vendor's `EncParameter_t` that `prepare` sets; the
      structure is zeroed first, so a field it does not set is 0. */
  datatype EncParameter = EncParameter(
    width: int32,
    height: int32,
    format: int32,
    bitRate: int32,
    framerate: int32,
    intraPicRate: int,
    enableCabac: int32,
    cabacInitIdc: int32,
    profileIdc: int32,
    levelIdc: int32,
    rc_mode: int32,
    qp: int32)

  /** The encoder parameters `prepare` derives from a configuration. */
  function EncParams(cfg: EncCfgInfo): EncParameter
  {
    var profile := if cfg.coding == CodingAVC || cfg.coding == CodingHEVC then BASELINE_PROFILE else 0;
    var level := if cfg.coding == CodingAVC then AVC_LEVEL4_1
                 else if cfg.coding == CodingHEVC then HEVC_LEVEL4_1 else 0;
    EncParameter(cfg.width, cfg.height, cfg.format, cfg.bitRate, cfg.framerate,
                 cfg.IDRInterval * cfg.framerate, 0, 0, profile, level, cfg.rc_mode, cfg.qp)
  }

  /** The derived parameters copy the picture and rate settings, make the GOP
      `IDRInterval` seconds long (that many seconds' worth of frames between
      intra pictures), switch CABAC off, and choose the Baseline profile
      (profile_idc 66, clause A.2.1 of ITU-T H.264) at level 4.1 (level_idc
      41, Table A-1) for AVC, the Baseline value with `HEVC_LEVEL4_1` for
      HEVC, and leave profile and level zero for any other coding. */
  lemma EncParamsDerivation(cfg: EncCfgInfo)
    ensures var p := EncParams(cfg);
      && p.width == cfg.width && p.height == cfg.height && p.format == cfg.format
      && p.bitRate == cfg.bitRate && p.framerate == cfg.framerate
      && p.rc_mode == cfg.rc_mode && p.qp == cfg.qp
      && p.intraPicRate == cfg.IDRInterval * cfg.framerate
      && p.enableCabac == 0 && p.cabacInitIdc == 0
      && (cfg.coding == CodingAVC ==> p.profileIdc == 66 && p.levelIdc == 41)
      && (cfg.coding == CodingHEVC ==> p.profileIdc == 66 && p.levelIdc == 0)
      && (cfg.coding.CodingOther? ==> p.profileIdc == 0 && p.levelIdc == 0)
  {
  }

  /** What the vendor context reports during `prepare`: the result of
      `vpu_open_context`, the result of `init`, and the `extradata` buffer
      (the coded SPS/PPS) it exposes afterwards, absent when NULL. */
  datatype PrepareReply = PrepareReply(openRet: int32, initRet: int32, extradata: Option<seq<byte>>)

  /** The timestamp of a submitted frame: a positive `pts`, or the vendor's
      `VPU_API_NOPTS_VALUE`. */
  datatype Timestamp = Pts(us: int64) | NoPts

  /** The `EncInputStream_t` handed to `encoder_sendframe`. */
  datatype EncInputStream = EncInputStream(buf: seq<byte>, size: int32, timeUs: Timestamp, nFlags: int32)

  /** What `encoder_sendframe` reports: its return value and the `size`
      field it leaves in the input structure (what it did not consume). */
  datatype SendReply = SendReply(ret: int32, remaining: int32)

  /** What `encoder_getstream` reports: its return value and the packet it
      fills in (`size` and the bytes `data` points to). */
  datatype StreamReply = StreamReply(ret: int32, size: int32, data: seq<byte>)

  /** The `EncoderOut_t` the caller gets back. */
  datatype EncoderOut = EncoderOut(data: seq<byte>, size: int)

  /** The four-byte start code of the Annex B byte stream. */
  const START_CODE: seq<byte> := [0x00, 0x00, 0x00, 0x01]

  /** The bytes `getOutStream` hands out for one coded payload.  For AVC each
      payload follows a start code, and the very first packet (frame count
      zero) carries the SPS/PPS header in front when there is one; any other
      coding passes the payload through. */
  function FramePacket(coding: Coding, frameCount: nat, spsPps: seq<byte>, payload: seq<byte>): seq<byte>
  {
    if coding == CodingAVC then
      (if frameCount == 0 && |spsPps| > 0 then spsPps else []) + START_CODE + payload
    else payload
  }

  /** The length `getOutStream` reports for a packet is the length of its
      bytes: the payload, plus four for the start code and the header length
      on the first AVC packet. */
  lemma FramePacketSize(coding: Coding, frameCount: nat, spsPps: seq<byte>, payload: seq<byte>)
    ensures |FramePacket(coding, frameCount, spsPps, payload)| ==
            |payload| + (if coding == CodingAVC then 4 + (if frameCount == 0 then |spsPps| else 0) else 0)
    ensures coding == CodingAVC ==>
              FramePacket(coding, frameCount, spsPps, payload)[|FramePacket(coding, frameCount, spsPps, payload)| - |payload| - 4..] ==
              START_CODE + payload
  {
  }

  /** The bytes of consecutive packets whose frame numbers start at `first`. */
  function Stream(coding: Coding, spsPps: seq<byte>, first: nat, payloads: seq<seq<byte>>): seq<byte>
  {
    if payloads == [] then []
    else Stream(coding, spsPps, first, payloads[..|payloads| - 1]) +
         FramePacket(coding, first + |payloads| - 1, spsPps, payloads[|payloads| - 1])
  }

  /** One more packet extends the stream by its framed bytes. */
  lemma StreamAppend(coding: Coding, spsPps: seq<byte>, first: nat, payloads: seq<seq<byte>>, payload: seq<byte>)
    ensures Stream(coding, spsPps, first, payloads + [payload]) ==
            Stream(coding, spsPps, first, payloads) + FramePacket(coding, first + |payloads|, spsPps, payload)
  {
    assert (payloads + [payload])[..|payloads|] == payloads;
  }

  /** An Annex B byte stream: every payload preceded by a start code. */
  function AnnexB(payloads: seq<seq<byte>>): seq<byte>
  {
    if payloads == [] then []
    else AnnexB(payloads[..|payloads| - 1]) + START_CODE + payloads[|payloads| - 1]
  }

  /** AVC packets after the first one carry no header: they form a plain
      Annex B byte stream. */
  lemma {:induction false} AvcStreamAfterFirst(spsPps: seq<byte>, first: nat, payloads: seq<seq<byte>>)
    requires first > 0
    ensures Stream(CodingAVC, spsPps, first, payloads) == AnnexB(payloads)
    decreases |payloads|
  {
    if payloads != [] {
      var n := |payloads| - 1;
      AvcStreamAfterFirst(spsPps, first, payloads[..n]);
      assert FramePacket(CodingAVC, first + n, spsPps, payloads[n]) == START_CODE + payloads[n];
    }
  }

  /** Across the packets of one AVC session the SPS/PPS header appears exactly
      once, at the very front, and the rest is a plain Annex B byte stream. */
  lemma {:induction false} AvcStreamIsHeaderThenAnnexB(spsPps: seq<byte>, payloads: seq<seq<byte>>)
    requires payloads != []
    ensures Stream(CodingAVC, spsPps, 0, payloads) == spsPps + AnnexB(payloads)
    decreases |payloads|
  {
    var n := |payloads| - 1;
    var front := payloads[..n];
    assert payloads == front + [payloads[n]];
    StreamAppend(CodingAVC, spsPps, 0, front, payloads[n]);
    var tail := START_CODE + payloads[n];
    if n == 0 {
      var header := if |spsPps| > 0 then spsPps else [];
      assert header == spsPps;
      assert FramePacket(CodingAVC, 0, spsPps, payloads[0]) == spsPps + tail;
      assert AnnexB(payloads) == AnnexB(front) + tail;
    } else {
      AvcStreamIsHeaderThenAnnexB(spsPps, front);
      assert FramePacket(CodingAVC, n, spsPps, payloads[n]) == tail;
      assert AnnexB(payloads) == AnnexB(front) + tail;
    }
  }

  /** For any other coding the packets are the payloads back to back. */
  lemma {:induction false} OtherStreamIsPayloads(coding: Coding, spsPps: seq<byte>, first: nat, payloads: seq<seq<byte>>)
    requires coding != CodingAVC
    ensures Stream(coding, spsPps, first, payloads) == Flatten(payloads)
    decreases |payloads|
  {
    if payloads != [] {
      OtherStreamIsPayloads(coding, spsPps, first, payloads[..|payloads| - 1]);
    }
  }

  /** The encoder wrapper.  `mParams` stands for the opened vendor context
      (`mVpuCtx` with its `private_data` parameters), holding the parameter
      block as `prepare` fills it in before `init`; the vendor may write its
      own configuration back into that block through the
      `VPU_API_ENC_GETCFG` control call after `init`, which is not modelled.
      `mOutputBuf` holds the bytes of the last packet handed out. */
  class RKHWEncApi {
    var mParams: Option<EncParameter>
    var mOutputBuf: seq<byte>
    var mSpsPpsBuf: seq<byte>
    var mSpsPpsLen: int32
    var mCoding: Coding
    var mInitOK: int32
    var mFrameCount: nat

    /** The header length matches the stored header, which is shorter than
        the 2048-byte buffer it is copied into, and the init gate is 0 or 1. */
    ghost predicate Valid()
      reads this
    {
      mSpsPpsLen as int == |mSpsPpsBuf| && |mSpsPpsBuf| < 2048 && (mInitOK == 0 || mInitOK == 1)
    }

    /** A fresh wrapper is not prepared, has handed out no frame and holds no
        header.  (The constructor leaves `mCoding` unset; it is read only
        after `prepare` has set it.) */
    constructor ()
      ensures Valid()
      ensures mInitOK == 0 && mFrameCount == 0 && mSpsPpsLen == 0 && mSpsPpsBuf == []
      ensures mParams == None && mOutputBuf == []
    {
      mParams := None;
      mOutputBuf := [];
      mSpsPpsBuf := [];
      mSpsPpsLen := 0;
      mCoding := CodingAVC;
      mInitOK := 0;
      mFrameCount := 0;
    }

    /** Opens and configures the encoder.  A failed open or init gives
        `VPU_ERR_INIT` and leaves the gate closed; success stores the coding,
        keeps the SPS/PPS header for AVC when the context exposes one shorter
        than 2048 bytes (drops it for any other coding) and opens the gate
        last.  The parameters are those `EncParams` computes; whatever the
        `VPU_API_ENC_GETCFG` call writes back into them is not modelled. */
    method Prepare(cfg: EncCfgInfo, vendor: PrepareReply) returns (ret: VpuRet)
      requires Valid()
      modifies this
      ensures Valid()
      ensures mFrameCount == old(mFrameCount)
      ensures ret == VPU_OK || ret == VPU_ERR_INIT
      ensures ret == VPU_OK <==> vendor.openRet == 0 && vendor.initRet == 0
      ensures vendor.openRet != 0 ==> unchanged(this)
      ensures vendor.openRet == 0 ==> mParams == Some(EncParams(cfg))
      ensures ret != VPU_OK ==>
                mInitOK == old(mInitOK) && mCoding == old(mCoding) && mSpsPpsBuf == old(mSpsPpsBuf)
      ensures ret == VPU_OK ==> mInitOK == 1 && mCoding == cfg.coding
      ensures ret == VPU_OK ==>
                mSpsPpsBuf ==
                  if cfg.coding != CodingAVC then []
                  else if vendor.extradata.Some? && |vendor.extradata.value| < 2048 then vendor.extradata.value
                  else old(mSpsPpsBuf)
    {
      if vendor.openRet != 0 {
        return VPU_ERR_INIT;
      }
      mOutputBuf := [];
      mParams := Some(EncParams(cfg));
      if vendor.initRet != 0 {
        return VPU_ERR_INIT;
      }
      if cfg.coding == CodingAVC {
        if vendor.extradata.Some? && |vendor.extradata.value| < 2048 {
          mSpsPpsBuf := vendor.extradata.value;
          mSpsPpsLen := |vendor.extradata.value|;
        }
      } else {
        mSpsPpsBuf := [];
        mSpsPpsLen := 0;
      }
      mCoding := cfg.coding;
      mInitOK := 1;
      return VPU_OK;
    }

    /** Submits one raw frame.  Before a successful `prepare` nothing is
        submitted.  Otherwise the frame goes out with its timestamp when
        `pts` is positive and without one otherwise, and a flagged frame is
        never submitted empty.  The frame counts as sent exactly when the
        encoder took all of it. */
    method SendFrame(data: seq<byte>, size: int32, pts: int64, flag: int32, reply: SendReply)
      returns (ret: VpuRet, submitted: Option<EncInputStream>)
      ensures submitted.Some? <==> mInitOK != 0
      ensures mInitOK == 0 ==> ret == VPU_ERR_UNKNOW
      ensures submitted.Some? ==>
                submitted.value.buf == data && submitted.value.nFlags == flag &&
                (submitted.value.timeUs.Pts? <==> pts > 0) &&
                (submitted.value.timeUs.Pts? ==> submitted.value.timeUs.us == pts) &&
                (size != 0 || flag == 0 ==> submitted.value.size == size) &&
                (size == 0 && flag != 0 ==> submitted.value.size == 1)
      ensures ret == VPU_OK <==> mInitOK != 0 && reply.ret >= 0 && reply.remaining == 0
      ensures ret == VPU_EAGAIN <==> mInitOK != 0 && reply.ret >= 0 && reply.remaining != 0
      ensures ret in {VPU_OK, VPU_EAGAIN, VPU_ERR_UNKNOW}
    {
      if mInitOK == 0 {
        return VPU_ERR_UNKNOW, None;
      }
      var input := EncInputStream(data, size, if pts > 0 then Pts(pts) else NoPts, flag);
      if input.nFlags != 0 && input.size == 0 {
        input := input.(size := 1);
      }
      submitted := Some(input);
      if reply.ret < 0 {
        ret := VPU_ERR_UNKNOW;
      } else if reply.remaining != 0 {
        ret := VPU_EAGAIN;
      } else {
        ret := VPU_OK;
      }
    }

    /** Takes one coded packet.  A closed gate gives `VPU_ERR_UNKNOW`, a
        failing or empty fetch `VPU_EOS_STREAM_REACHED` and a negative size
        `VPU_EAGAIN`, none of which changes the wrapper.  A packet gives
        `VPU_OK`: its bytes are the framed payload, its size counts them when
        the vendor's size matches its payload, and the frame counter goes up
        by one. */
    method GetOutStream(reply: StreamReply) returns (ret: VpuRet, out: EncoderOut)
      requires Valid()
      modifies this
      ensures Valid()
      ensures ret in {VPU_OK, VPU_EAGAIN, VPU_EOS_STREAM_REACHED, VPU_ERR_UNKNOW}
      ensures ret == VPU_ERR_UNKNOW <==> old(mInitOK) == 0
      ensures ret == VPU_EOS_STREAM_REACHED <==> old(mInitOK) != 0 && (reply.ret < 0 || reply.size == 0)
      ensures ret == VPU_EAGAIN <==> old(mInitOK) != 0 && reply.ret >= 0 && reply.size < 0
      ensures ret != VPU_OK ==> unchanged(this)
      ensures ret == VPU_OK ==>
                && mFrameCount == old(mFrameCount) + 1
                && mOutputBuf == FramePacket(mCoding, old(mFrameCount), mSpsPpsBuf, reply.data)
                && out.data == mOutputBuf
                && out.size == reply.size + (if mCoding == CodingAVC then 4 + (if old(mFrameCount) == 0 then mSpsPpsLen else 0) else 0)
                && (reply.size == |reply.data| ==> out.size == |out.data|)
                && mParams == old(mParams) && mSpsPpsBuf == old(mSpsPpsBuf) && mCoding == old(mCoding)
                && mInitOK == old(mInitOK)
    {
      out := EncoderOut([], 0);
      if mInitOK == 0 {
        return VPU_ERR_UNKNOW, out;
      }
      if reply.ret < 0 || reply.size == 0 {
        return VPU_EOS_STREAM_REACHED, out;
      } else if reply.size > 0 {
        var size: int := reply.size;
        if mCoding == CodingAVC {
          var header: seq<byte> := [];
          if mFrameCount == 0 && mSpsPpsLen > 0 {
            header := mSpsPpsBuf;
            size := size + mSpsPpsLen as int;
          }
          mOutputBuf := header + START_CODE + reply.data;
          size := size + 4;
        } else {
          mOutputBuf := reply.data;
        }
        FramePacketSize(mCoding, mFrameCount, mSpsPpsBuf, reply.data);
        out := EncoderOut(mOutputBuf, size);
        mFrameCount := mFrameCount + 1;
        return VPU_OK, out;
      }
      return VPU_EAGAIN, out;
    }
  }
}
