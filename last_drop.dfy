/**
 * Two small helpers of last-drop.js: `countdown`, the timer decrement used for
 * reloads and effects, and the frame stepper of `Sprite`.
 *
 * Both work on JavaScript numbers; here they are integers (the game's frame counts and
 * tick counts are whole numbers). An optional argument that is `undefined` is `None`;
 * `x || d` replaces both `undefined` and 0 by `d`.
 */
module LastDrop {

  import opened Wrappers

  /** `x || d` for an optional number. */
  function OrElse(x: Option<int>, d: int): (r: int)
    ensures x.Some? && x.value != 0 ==> r == x.value
    ensures x.None? || x.value == 0 ==> r == d
  {
    if x.Some? && x.value != 0 then x.value else d
  }

  /** `n ? Math.max(0, n - (dn || 1)) : 0`. */
  function Countdown(n: int, dn: Option<int>): (r: int)
    ensures r >= 0
    ensures n == 0 ==> r == 0
    ensures n != 0 ==> r >= n - OrElse(dn, 1) && (r == 0 || r == n - OrElse(dn, 1))
    ensures n >= 0 && OrElse(dn, 1) >= 0 ==> r <= n
    ensures n > 0 && OrElse(dn, 1) > 0 ==> r < n
  {
    if n != 0 then (if n - OrElse(dn, 1) > 0 then n - OrElse(dn, 1) else 0) else 0
  }

  /** `k` frames of `n = countdown(n)`. */
  function CountdownFrames(n: int, k: nat): int
    decreases k
  {
    if k == 0 then n else CountdownFrames(Countdown(n, None), k - 1)
  }

  /** A timer set to `n` frames reads `n - k` after `k` frames and stays at 0 from the
      `n`-th frame on. */
  lemma {:induction false} CountdownReachesZero(n: nat, k: nat)
    ensures CountdownFrames(n, k) == if k <= n then n - k else 0
    decreases k
  {
    if k > 0 {
      CountdownReachesZero(Countdown(n, None), k - 1);
    }
  }

  /** The frame after `index` in a strip of `numFrames` frames: the next one, or the
      first after the last. */
  function NextFrame(index: int, numFrames: int): (r: int)
    ensures r == 0 || r == index + 1
    ensures index >= 0 ==> (r == index + 1 <==> index < numFrames - 1)
  {
    if index < numFrames - 1 then index + 1 else 0
  }

  /** One call of `update` on `(index, tickCount)`: count the tick; once the count
      exceeds `ticksPerFrame`, reset it and move to the next frame. */
  function Tick(index: int, tickCount: int, ticksPerFrame: int, numFrames: int): (r: (int, int))
    ensures r.0 != index ==> r.1 == 0
    ensures tickCount + 1 > ticksPerFrame ==> r == (NextFrame(index, numFrames), 0)
    ensures tickCount + 1 <= ticksPerFrame ==> r == (index, tickCount + 1)
  {
    if tickCount + 1 > ticksPerFrame then (NextFrame(index, numFrames), 0)
    else (index, tickCount + 1)
  }

  /** `k` calls of `update`. */
  function Ticks(index: int, tickCount: int, ticksPerFrame: int, numFrames: int, k: nat): (int, int)
    decreases k
  {
    if k == 0 then (index, tickCount)
    else
      var next := Tick(index, tickCount, ticksPerFrame, numFrames);
      Ticks(next.0, next.1, ticksPerFrame, numFrames, k - 1)
  }

  /** A frame is shown for exactly `ticksPerFrame + 1` updates: counted from a fresh
      frame, the index holds for the first `ticksPerFrame` updates and moves on at the
      next one. */
  lemma {:induction false} FramePeriod(index: int, ticksPerFrame: nat, numFrames: int, k: nat)
    requires k <= ticksPerFrame + 1
    ensures Ticks(index, 0, ticksPerFrame, numFrames, k) ==
              if k <= ticksPerFrame then (index, k) else (NextFrame(index, numFrames), 0)
  {
    CountUp(index, 0, ticksPerFrame, numFrames, k);
  }

  /** From tick count `c`, `k` updates that stay within `ticksPerFrame` only count, and
      the first one beyond it moves to the next frame. */
  lemma {:induction false} CountUp(index: int, c: nat, ticksPerFrame: nat, numFrames: int, k: nat)
    requires c <= ticksPerFrame && c + k <= ticksPerFrame + 1
    ensures Ticks(index, c, ticksPerFrame, numFrames, k) ==
              if c + k <= ticksPerFrame then (index, c + k) else (NextFrame(index, numFrames), 0)
    decreases k
  {
    if k > 0 {
      if c + 1 <= ticksPerFrame {
        CountUp(index, c + 1, ticksPerFrame, numFrames, k - 1);
      } else {
        assert k == 1;
        assert Ticks(NextFrame(index, numFrames), 0, ticksPerFrame, numFrames, 0) == (NextFrame(index, numFrames), 0);
      }
    }
  }

  /** The sprite stepper: `index` and `tickCount` are the closure variables `update`
      changes; the other options of `Sprite` serve `draw` and are not part of this
      model. */
  class Sprite {
    /** `opt.ticksPerFrame || 0`. */
    const ticksPerFrame: int
    /** `opt.numFrames || 1`. */
    const numFrames: int
    /** The frame being shown. */
    var index: int
    /** Updates since the frame was shown. */
    var tickCount: int

    /** The frame index is within the strip (a frame of its own when `numFrames` is
        negative) and the tick count within the period. */
    ghost predicate Valid()
      reads this
    {
      0 <= index < (if numFrames >= 1 then numFrames else 1) &&
      0 <= tickCount <= (if ticksPerFrame >= 0 then ticksPerFrame else 0)
    }

    /** `Sprite(opt)`. */
    constructor (ticksPerFrameOpt: Option<int>, numFramesOpt: Option<int>)
      ensures ticksPerFrame == OrElse(ticksPerFrameOpt, 0) && numFrames == OrElse(numFramesOpt, 1)
      ensures index == 0 && tickCount == 0
      ensures Valid()
    {
      ticksPerFrame := OrElse(ticksPerFrameOpt, 0);
      numFrames := OrElse(numFramesOpt, 1);
      index := 0;
      tickCount := 0;
    }

    /** `self.update()`. */
    method Update()
      requires Valid()
      modifies this
      ensures Valid()
      ensures (index, tickCount) == Tick(old(index), old(tickCount), ticksPerFrame, numFrames)
    {
      tickCount := tickCount + 1;
      if tickCount > ticksPerFrame {
        tickCount := 0;
        if index < numFrames - 1 {
          index := index + 1;
        } else {
          index := 0;
        }
      }
    }
  }

  /** `update` keeps the bounds: the index stays in the strip and the count in the
      period. */
  lemma TickKeepsBounds(index: int, tickCount: int, ticksPerFrame: int, numFrames: int)
    requires 0 <= index < (if numFrames >= 1 then numFrames else 1)
    requires 0 <= tickCount <= (if ticksPerFrame >= 0 then ticksPerFrame else 0)
    ensures var r := Tick(index, tickCount, ticksPerFrame, numFrames);
            0 <= r.0 < (if numFrames >= 1 then numFrames else 1) &&
            0 <= r.1 <= (if ticksPerFrame >= 0 then ticksPerFrame else 0)
  {
  }
}
