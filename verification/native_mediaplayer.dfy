/**
  `native_mediaplayer`: plays a video file through Android's media player
  service on a surface that covers one cell of a two-column, four-row grid
  over the display, chosen by a position argument, and waits until the
  player reports the end of playback or an error.

  The surface, binder and player calls are not modelled; what is modelled is
  the command line, the placement arithmetic and the end-of-playback latch of
  the player client.
 */
module NativeMediaPlayer {
  import opened Cli

  /** How `main` proceeds after looking at its arguments: it refuses (exit
      status 1) without a video path, or plays the path at a grid position. */
  datatype StartPlan = Refuse | Play(path: string, position: int32)

  /** `main`'s argument handling on `argv` (program name first); `atoi` is
      the C library conversion. */
  function ParseCommandLine(argv: seq<string>, atoi: string -> int32): (r: StartPlan)
    ensures r.Refuse? <==> |argv| < 2
    ensures r.Play? ==> r.path == argv[1]
    ensures r.Play? && |argv| == 2 ==> r.position == 1
    ensures r.Play? && |argv| > 2 ==> r.position == atoi(argv[2])
  {
    if |argv| < 2 then Refuse
    else Play(argv[1], if |argv| > 2 then atoi(argv[2]) else 1)
  }

  /** A surface's placement: its top-left corner and its size in pixels. */
  datatype Rect = Rect(offsetx: int, offsety: int, width: int, height: int)

  /** Two rectangles share a pixel. */
  predicate Overlap(a: Rect, b: Rect)
  {
    && a.offsetx < b.offsetx + b.width && b.offsetx < a.offsetx + a.width
    && a.offsety < b.offsety + b.height && b.offsety < a.offsety + a.height
  }

  /** The surface `main` creates: half the display wide and a quarter of it
      high, placed by `position` in a grid of two columns (odd positions
      left, even right) and four rows at 0, a quarter, a half and three
      quarters of the display height; any other position goes to the
      top-left corner.  The surface never reaches past the display. */
  function SurfaceRect(displayWidth: int32, displayHeight: int32, position: int32): (r: Rect)
    requires displayWidth >= 0 && displayHeight >= 0
    ensures r.width == displayWidth / 2 && r.height == displayHeight / 4
    ensures 0 <= r.offsetx && r.offsetx + r.width <= displayWidth
    ensures 0 <= r.offsety && r.offsety + r.height <= displayHeight
    ensures 1 <= position <= 8 ==>
              && r.offsetx == (if position % 2 == 1 then 0 else displayWidth / 2)
              && r.offsety == [0, displayHeight / 4, displayHeight / 2, displayHeight / 4 * 3][(position - 1) / 2]
    ensures !(1 <= position <= 8) ==> r.offsetx == 0 && r.offsety == 0
  {
    var width := displayWidth / 2;
    var height := displayHeight / 4;
    var half := displayWidth / 2;
    match position
    case 1 => Rect(0, 0, width, height)
    case 2 => Rect(half, 0, width, height)
    case 3 => Rect(0, displayHeight / 4, width, height)
    case 4 => Rect(half, displayHeight / 4, width, height)
    case 5 => Rect(0, displayHeight / 2, width, height)
    case 6 => Rect(half, displayHeight / 2, width, height)
    case 7 => Rect(0, displayHeight / 4 * 3, width, height)
    case 8 => Rect(half, displayHeight / 4 * 3, width, height)
    case _ => Rect(0, 0, width, height)
  }

  /** As written, the third row starts at half the display height but the
      fourth at three quarter-heights, so when the height leaves a remainder
      of 2 or 3 after division by 4 the surfaces at positions 5 and 7 share a
      pixel row (and so do 6 and 8). */
  lemma SurfaceRowsOverlap(displayWidth: int32, displayHeight: int32)
    requires displayWidth >= 2 && displayHeight >= 4
    ensures Overlap(SurfaceRect(displayWidth, displayHeight, 5), SurfaceRect(displayWidth, displayHeight, 7)) <==>
            displayHeight % 4 >= 2
    ensures Overlap(SurfaceRect(displayWidth, displayHeight, 6), SurfaceRect(displayWidth, displayHeight, 8)) <==>
            displayHeight % 4 >= 2
  {
    var q, m := displayHeight / 4, displayHeight % 4;
    assert displayHeight == 4 * q + m;
    assert displayHeight / 2 == 2 * q + m / 2;
  }

  /** A 1080 x 2246 display: positions 5 and 7 overlap. */
  lemma SurfaceOverlapExample()
    ensures Overlap(SurfaceRect(1080, 2246, 5), SurfaceRect(1080, 2246, 7))
  {
    SurfaceRowsOverlap(1080, 2246);
  }

  /** The placement with every row at a whole number of quarter-heights. */
  function GridRect(displayWidth: int32, displayHeight: int32, position: int32): (r: Rect)
    requires displayWidth >= 0 && displayHeight >= 0
    ensures r.width == displayWidth / 2 && r.height == displayHeight / 4
    ensures 0 <= r.offsetx && r.offsetx + r.width <= displayWidth
    ensures 0 <= r.offsety && r.offsety + r.height <= displayHeight
  {
    var width := displayWidth / 2;
    var height := displayHeight / 4;
    if 1 <= position <= 8 then
      var row := (position as int - 1) / 2;
      Rect(if position % 2 == 1 then 0 else width, row * height, width, height)
    else Rect(0, 0, width, height)
  }

  /** The corrected placement differs from the written one only in the third
      row, and only when the height leaves a remainder of 2 or 3 after
      division by 4. */
  lemma GridRectMatchesSurfaceRect(displayWidth: int32, displayHeight: int32, position: int32)
    requires displayWidth >= 0 && displayHeight >= 0
    ensures GridRect(displayWidth, displayHeight, position) == SurfaceRect(displayWidth, displayHeight, position) <==>
            !((position == 5 || position == 6) && displayHeight % 4 >= 2)
  {
    var q, m := displayHeight / 4, displayHeight % 4;
    assert displayHeight == 4 * q + m;
    assert displayHeight / 2 == 2 * q + m / 2;
  }

  /** With the corrected placement the eight grid cells are pairwise
      disjoint. */
  lemma GridCellsDisjoint(displayWidth: int32, displayHeight: int32, p: int32, q: int32)
    requires displayWidth >= 0 && displayHeight >= 0
    requires 1 <= p <= 8 && 1 <= q <= 8 && p != q
    ensures !Overlap(GridRect(displayWidth, displayHeight, p), GridRect(displayWidth, displayHeight, q))
  {
    var h := displayHeight / 4;
    var rp, rq := (p as int - 1) / 2, (q as int - 1) / 2;
    var a, b := GridRect(displayWidth, displayHeight, p), GridRect(displayWidth, displayHeight, q);
    assert a.offsety == rp * h && b.offsety == rq * h && a.height == b.height == h;
    if rp == rq {
      assert p % 2 != q % 2;
    } else {
      if rp < rq {
        RowsApart(rp, rq, h);
      } else {
        RowsApart(rq, rp, h);
      }
    }
  }

  /** Row `a` ends no lower than row `b` begins. */
  lemma RowsApart(a: int, b: int, h: nat)
    requires 0 <= a < b
    ensures a * h + h <= b * h
  {
    assert (b - a) * h >= h by {
      assert b - a >= 1;
    }
    assert b * h - a * h == (b - a) * h;
  }

  /** The message codes that end playback (`media_event_type` of Android's
      media player; the header is not part of this model). */
  const MEDIA_PLAYBACK_COMPLETE: int := 2
  const MEDIA_ERROR: int := 100

  predicate EndsPlayback(msg: int)
  {
    msg == MEDIA_ERROR || msg == MEDIA_PLAYBACK_COMPLETE
  }

  /** The flag after the messages `msgs` arrive in order, starting from
      `eos`. */
  function Latch(eos: bool, msgs: seq<int>): bool
  {
    if msgs == [] then eos
    else Latch(eos, msgs[..|msgs| - 1]) || EndsPlayback(msgs[|msgs| - 1])
  }

  /** The flag is set exactly when it was set already or some message ended
      playback: nothing ever clears it. */
  lemma {:induction false} LatchIff(eos: bool, msgs: seq<int>)
    ensures Latch(eos, msgs) <==> eos || exists k | 0 <= k < |msgs| :: EndsPlayback(msgs[k])
  {
    if msgs != [] {
      var n := |msgs| - 1;
      LatchIff(eos, msgs[..n]);
      assert forall k | 0 <= k < n :: msgs[..n][k] == msgs[k];
      if EndsPlayback(msgs[n]) {
        assert exists k | 0 <= k < |msgs| :: EndsPlayback(msgs[k]);
      }
    }
  }

  /** The player's client (`MyClient`): it latches end of playback. */
  class MyClient {
    var mEOS: bool

    constructor ()
      ensures !mEOS
    {
      mEOS := false;
    }

    /** `notify`: end of playback and errors set the flag; every other message
        leaves it as it was. */
    method Notify(msg: int, ext1: int, ext2: int)
      modifies this
      ensures mEOS == Latch(old(mEOS), [msg])
    {
      if msg == MEDIA_ERROR || msg == MEDIA_PLAYBACK_COMPLETE {
        mEOS := true;
      }
      assert [msg][..0] == [];
    }
  }
}
