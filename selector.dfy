/**
 * Clip window selector: turns a probed duration, the clip length and the
 * start mode into the (start, end) offsets, in seconds, of the clip.
 *
 * The random source is not modelled: the value `random.randrange(audioLen)`
 * returned is passed in as `draw`, and the generator's promise that it lies in
 * [0, audioLen) is a precondition. `randrange(0)` raises instead of drawing;
 * that is the `None` result.
 */
module Selector {
  import opened Wrappers

  /** Fixed start (the `-s` option, in minutes) or a random start (the default). */
  datatype Mode = Random | Fixed(startMins: int)

  /** Start and end offsets, in seconds; the start is not guaranteed to be >= 0. */
  datatype Window = Window(start: int, end: int)

  /** The clip length in seconds, from the `-t` option in minutes. */
  function ClipLengthSeconds(clipLenMins: int): (sec: int)
    ensures sec / 60 == clipLenMins && sec % 60 == 0
  {
    clipLenMins * 60
  }

  /** What `random.randrange(audioLen)` can return. */
  predicate DrawInRange(audioLen: nat, draw: int) {
    0 <= draw < audioLen
  }

  /** Python's `min(a, b)` on integers. */
  function Min(a: int, b: int): (m: int)
    ensures m <= a && m <= b && (m == a || m == b)
  {
    if b < a then b else a
  }

  /** The window the script picks, or None when the random draw raises
      because the duration is 0. */
  function SelectWindow(audioLen: nat, clipLenSec: int, mode: Mode, draw: int): (w: Option<Window>)
    requires mode.Random? && audioLen > 0 ==> DrawInRange(audioLen, draw)
    ensures w.None? <==> mode.Random? && audioLen == 0
    ensures w.Some? ==> w.value.end - w.value.start == clipLenSec
    ensures w.Some? && mode.Fixed? ==> w.value.start == mode.startMins * 60
    ensures w.Some? && mode.Random? ==> w.value.start <= draw && w.value.start <= audioLen - clipLenSec
  {
    match mode
    case Fixed(mins) =>
      var start := mins * 60;
      Some(Window(start, start + clipLenSec))
    case Random =>
      if audioLen == 0 then None
      else
        var start := Min(draw, audioLen - clipLenSec);
        Some(Window(start, start + clipLenSec))
  }

  /** A duration of at least the clip length yields a random window inside
      the file. */
  lemma RandomWindowInside(audioLen: nat, clipLenSec: int, draw: int)
    requires DrawInRange(audioLen, draw) && clipLenSec <= audioLen
    ensures SelectWindow(audioLen, clipLenSec, Random, draw).Some?
    ensures var w := SelectWindow(audioLen, clipLenSec, Random, draw).value;
      0 <= w.start && w.end <= audioLen
  {
  }

  /** The random start is the draw itself when enough of the file remains
      after it, and otherwise the latest start that still fits the clip. */
  lemma RandomStartIsClamp(audioLen: nat, clipLenSec: int, draw: int)
    requires DrawInRange(audioLen, draw)
    ensures var w := SelectWindow(audioLen, clipLenSec, Random, draw).value;
      (draw + clipLenSec <= audioLen ==> w.start == draw) &&
      (draw + clipLenSec > audioLen ==> w.start == audioLen - clipLenSec && w.end == audioLen)
  {
  }

  /** When the file is shorter than the clip the random start is negative:
      the clamp moves it to audioLen - clipLenSec whatever the draw was. */
  lemma ShortFileNegativeStart(audioLen: nat, clipLenSec: int, draw: int)
    requires DrawInRange(audioLen, draw) && audioLen < clipLenSec
    ensures var w := SelectWindow(audioLen, clipLenSec, Random, draw).value;
      w.start == audioLen - clipLenSec < 0 && w.end == audioLen
  {
  }

  /** The fixed start is never clamped: it depends neither on the duration
      nor on any draw. */
  lemma FixedIgnoresDuration(len1: nat, len2: nat, clipLenSec: int, mins: int, d1: int, d2: int)
    ensures SelectWindow(len1, clipLenSec, Fixed(mins), d1) == SelectWindow(len2, clipLenSec, Fixed(mins), d2)
  {
  }

  /** The fixed start can lie past the end of the file. */
  lemma ExampleFixedPastEnd()
    ensures SelectWindow(30, 60, Fixed(10), 0) == Some(Window(600, 660))
  {
  }

  /** A 30-second file and a one-minute clip: start -30 whatever the draw. */
  lemma ExampleShortFile(draw: int)
    requires DrawInRange(30, draw)
    ensures SelectWindow(30, 60, Random, draw) == Some(Window(-30, 30))
  {
  }
}
