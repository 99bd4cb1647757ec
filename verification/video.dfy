/**
 The 64 x 32 framebuffer of `src/video.rs`: 2048 `u32` cells, row-major.
 A cell is off (0) or on (all ones); drawing toggles it by XOR with all ones.
 */
module Framebuffer {

  const VIDEO_WIDTH: nat := 64
  const VIDEO_HEIGHT: nat := 32
  const VIDEO_SIZE: nat := VIDEO_WIDTH * VIDEO_HEIGHT

  /** The value of a lit cell, and the XOR mask that toggles one. */
  const ON: bv32 := 0xFFFF_FFFF

  type VideoBuf = s: seq<bv32> | |s| == VIDEO_SIZE witness seq(VIDEO_SIZE, _ => 0)

  datatype Video = Video(buf: VideoBuf)

  /** Every cell is off or on. */
  predicate Canonical(v: Video)
  {
    forall i :: 0 <= i < VIDEO_SIZE ==> v.buf[i] == 0 || v.buf[i] == ON
  }

  /** `Video::new`: every cell off. */
  function New(): (v: Video)
    ensures forall i :: 0 <= i < VIDEO_SIZE ==> v.buf[i] == 0
  {
    Video(seq(VIDEO_SIZE, _ => 0))
  }

  /** `clear`: every cell off; the buffer keeps its 2048 cells. */
  function Clear(v: Video): (v': Video)
    ensures |v'.buf| == |v.buf| == VIDEO_SIZE
    ensures forall i :: 0 <= i < VIDEO_SIZE ==> v'.buf[i] == 0
  {
    Video(seq(VIDEO_SIZE, _ => 0))
  }

  /** `clear` is idempotent, its result is the initial framebuffer, and it is canonical. */
  lemma ClearIsNew(v: Video)
    ensures Clear(Clear(v)) == Clear(v)
    ensures Clear(v) == New()
    ensures Canonical(Clear(v))
  {
  }

  /**
   ASSUMPTION for `Video::pixel(row, col)` (called by the source but not
   defined in `video.rs`): the cell `row * VIDEO_WIDTH + col`, with width 64
   and height 32 as in `VIDEO_SIZE`. The index determines the row and column.
   */
  function PixelIndex(row: nat, col: nat): (i: nat)
    requires row < VIDEO_HEIGHT && col < VIDEO_WIDTH
    ensures i < VIDEO_SIZE
    ensures i / VIDEO_WIDTH == row && i % VIDEO_WIDTH == col
  {
    row * VIDEO_WIDTH + col
  }
}
