/**
  `Animation`: a frame-advance state machine over a fixed list of frames,
  and the frame list that `load_animation` builds from a folder of images.
*/
module Animations {
  import opened Options

  /** The mutable part of an animation: frame index, time spent on the
      frame, and the playing and finished flags. */
  datatype Playback = Playback(frame: int, time: real, playing: bool, finished: bool)

  /** The frame index is a valid index of a non-empty frame list. For an
      empty list it stays at 0, or at -1 once a non-looping run has ended. */
  predicate FrameInRange(count: nat, frame: int)
  {
    if count > 0 then 0 <= frame < count else -1 <= frame <= 0
  }

  /** One call of `update(dt)` for `count` frames, each shown for `duration`. */
  function Advance(p: Playback, count: nat, loop: bool, duration: real, dt: real): (r: Playback)
    ensures r.playing ==> p.playing
    ensures r.finished != p.finished ==> r.finished && !loop && !r.playing && r.frame == count - 1
  {
    if !p.playing then p
    else if p.time + dt < duration then p.(time := p.time + dt)
    else if p.frame + 1 < count then Playback(p.frame + 1, 0.0, p.playing, p.finished)
    else if loop then Playback(0, 0.0, p.playing, p.finished)
    else Playback(count - 1, 0.0, false, true)
  }

  /** `update` does nothing while the animation is not playing. */
  lemma AdvanceWhenStopped(p: Playback, count: nat, loop: bool, duration: real, dt: real)
    requires !p.playing
    ensures Advance(p, count, loop, duration, dt) == p
  {
  }

  /** `update` moves at most one frame forward (or wraps to the first frame),
      and the time on the frame restarts from zero exactly when it moves;
      otherwise `dt` is added to the time. */
  lemma AdvanceAtMostOneFrame(p: Playback, count: nat, loop: bool, duration: real, dt: real)
    requires FrameInRange(count, p.frame) && count > 0
    ensures var r := Advance(p, count, loop, duration, dt);
      && (r.frame == p.frame || r.frame == p.frame + 1 || r.frame == 0)
      && (r.frame != p.frame ==> r.time == 0.0)
      && (p.playing && p.time + dt < duration ==> r.frame == p.frame && r.time == p.time + dt)
      && (p.playing && p.time + dt >= duration ==> r.time == 0.0)
  {
  }

  /** A looping animation wraps from the last frame to the first and is
      never marked finished by `update`. */
  lemma LoopingNeverFinishes(p: Playback, count: nat, duration: real, dt: real)
    requires count > 0 && p.frame == count - 1 && p.playing && p.time + dt >= duration
    ensures Advance(p, count, true, duration, dt) == Playback(0, 0.0, true, p.finished)
    ensures forall q: Playback :: Advance(q, count, true, duration, dt).finished == q.finished
  {
  }

  /** A non-looping animation that runs past its last frame stays on the
      last frame, finished and no longer playing. */
  lemma OneShotStopsOnLast(p: Playback, count: nat, duration: real, dt: real)
    requires count > 0 && p.frame == count - 1 && p.playing && p.time + dt >= duration
    ensures Advance(p, count, false, duration, dt) == Playback(count - 1, 0.0, false, true)
  {
  }

  /** Every update keeps the frame index in range. */
  lemma AdvanceInRange(p: Playback, count: nat, loop: bool, duration: real, dt: real)
    requires FrameInRange(count, p.frame)
    ensures FrameInRange(count, Advance(p, count, loop, duration, dt).frame)
  {
  }

  /** An animation object. The frames, rate and looping flag are fixed at
      construction; the playback state changes. */
  class Animation<F> {
    const frames: seq<F>
    const fps: real
    const loop: bool
    const frameDuration: real
    var currentFrame: int
    var frameTime: real
    var isPlaying: bool
    var isFinished: bool

    ghost predicate Valid()
      reads this
    {
      fps != 0.0 && frameDuration == 1.0 / fps && FrameInRange(|frames|, currentFrame)
    }

    function State(): Playback
      reads this
    {
      Playback(currentFrame, frameTime, isPlaying, isFinished)
    }

    /** A new animation is on frame 0, neither playing nor finished. */
    constructor (frames: seq<F>, fps: real, loop: bool)
      requires fps != 0.0
      ensures Valid()
      ensures this.frames == frames && this.fps == fps && this.loop == loop
      ensures State() == Playback(0, 0.0, false, false)
    {
      this.frames := frames;
      this.fps := fps;
      this.loop := loop;
      this.frameDuration := 1.0 / fps;
      currentFrame := 0;
      frameTime := 0.0;
      isPlaying := false;
      isFinished := false;
    }

    /** `play`: playing, not finished, frame and time kept. */
    method Play()
      requires Valid()
      modifies this
      ensures Valid()
      ensures State() == Playback(old(currentFrame), old(frameTime), true, false)
    {
      isPlaying := true;
      isFinished := false;
    }

    /** `stop`: only the playing flag is cleared. */
    method Stop()
      requires Valid()
      modifies this
      ensures Valid()
      ensures State() == old(State()).(playing := false)
    {
      isPlaying := false;
    }

    /** `reset`: back to frame 0 with no time spent and not finished; the
        playing flag is kept. */
    method Reset()
      requires Valid()
      modifies this
      ensures Valid()
      ensures State() == Playback(0, 0.0, old(isPlaying), false)
    {
      currentFrame := 0;
      frameTime := 0.0;
      isFinished := false;
    }

    /** `update(dt)`. */
    method Update(dt: real)
      requires Valid()
      modifies this
      ensures Valid()
      ensures State() == Advance(old(State()), |frames|, loop, frameDuration, dt)
    {
      AdvanceInRange(State(), |frames|, loop, frameDuration, dt);
      if !isPlaying {
        return;
      }
      frameTime := frameTime + dt;
      if frameTime >= frameDuration {
        frameTime := 0.0;
        currentFrame := currentFrame + 1;
        if currentFrame >= |frames| {
          if loop {
            currentFrame := 0;
          } else {
            currentFrame := |frames| - 1;
            isFinished := true;
            isPlaying := false;
          }
        }
      }
    }

    /** `get_current_frame`: nothing for an empty frame list, otherwise the current frame. */
    function CurrentFrame(): (r: Option<F>)
      requires Valid()
      reads this
      ensures r.None? <==> |frames| == 0
      ensures r.Some? ==> 0 <= currentFrame < |frames| && r.value == frames[currentFrame]
    {
      if |frames| == 0 then None else Some(frames[currentFrame])
    }
  }

  /** The images that loaded, in file order; a file that failed is skipped. */
  function Loaded<F>(results: seq<Option<F>>): (frames: seq<F>)
    ensures |frames| <= |results|
    ensures forall k :: 0 <= k < |frames| ==> Some(frames[k]) in results
    ensures (exists i :: 0 <= i < |results| && results[i].Some?) ==> |frames| > 0
  {
    if |results| == 0 then []
    else
      var init := Loaded(results[..|results| - 1]);
      assert forall k :: 0 <= k < |init| ==> Some(init[k]) in results by {
        forall k | 0 <= k < |init| ensures Some(init[k]) in results {
          assert Some(init[k]) in results[..|results| - 1];
        }
      }
      match results[|results| - 1]
      case Some(f) => init + [f]
      case None => init
  }

  /** Loading two runs of files one after the other gives the frames of
      the first run followed by those of the second. */
  lemma {:induction false} LoadedAppend<F>(xs: seq<Option<F>>, ys: seq<Option<F>>)
    ensures Loaded(xs + ys) == Loaded(xs) + Loaded(ys)
    decreases |ys|
  {
    if |ys| == 0 {
      assert xs + ys == xs;
    } else {
      var init := ys[..|ys| - 1];
      assert (xs + ys)[..|xs + ys| - 1] == xs + init;
      assert ys[..|ys| - 1] == init;
      LoadedAppend(xs, init);
    }
  }

  /** A single file gives its image when it loaded and nothing when it failed. */
  lemma LoadedOne<F>(x: Option<F>)
    ensures Loaded([x]) == if x.Some? then [x.value] else []
  {
    assert [x][..0] == [];
  }

  /** Every image that loaded is kept. */
  lemma {:induction false} LoadedKeepsEvery<F>(results: seq<Option<F>>)
    ensures forall i :: 0 <= i < |results| && results[i].Some? ==> results[i].value in Loaded(results)
    decreases |results|
  {
    if |results| > 0 {
      var init := results[..|results| - 1];
      var last := results[|results| - 1];
      LoadedKeepsEvery(init);
      assert results == init + [last];
      LoadedAppend(init, [last]);
      LoadedOne(last);
      forall i | 0 <= i < |results| && results[i].Some? ensures results[i].value in Loaded(results) {
        if i < |init| { assert results[i] == init[i]; }
      }
    }
  }

  /** `load_animation`: the frames that loaded, or a single placeholder when
      none did, so the animation always has at least one frame. The image
      files are given as their load results in sorted order. */
  method LoadAnimation<F>(results: seq<Option<F>>, placeholder: F, fps: real, loop: bool)
    returns (a: Animation<F>)
    requires fps != 0.0
    ensures fresh(a) && a.Valid()
    ensures a.frames == (if |Loaded(results)| > 0 then Loaded(results) else [placeholder])
    ensures |a.frames| >= 1
    ensures a.fps == fps && a.loop == loop && a.State() == Playback(0, 0.0, false, false)
  {
    var frames: seq<F> := [];
    var i := 0;
    while i < |results|
      invariant 0 <= i <= |results|
      invariant frames == Loaded(results[..i])
    {
      assert results[..i + 1][..i] == results[..i];
      if results[i].Some? {
        frames := frames + [results[i].value];
      }
      i := i + 1;
    }
    assert results[..i] == results;
    if |frames| == 0 {
      frames := [placeholder];
    }
    a := new Animation(frames, fps, loop);
  }
}
