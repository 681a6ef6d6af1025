/**
  The horse's gait machine: nine named animations, the name of the one
  playing, an animation queued to follow a one-shot transition, and the
  timer of the random idle variations. The gait changes are specified as
  functions on the pair (current, queued); the horse object reproduces
  them and switches the animation objects as `set_animation` does.
*/
module Horses {
  import opened Options
  import opened Animations

  /** The animation names: the nine the horse loads, and any other string. */
  datatype Name = Idle | Idle2 | Idle3 | StartMoving | StopMoving | Walk | Trot | Gallop | BarrierJump
                | Other(text: string)

  /** The names the animation dictionary has keys for. */
  predicate Known(n: Name) { !n.Other? }

  /** Frame rate of each loaded animation. */
  function FpsOf(n: Name): real
  {
    match n
    case Walk => 10.0
    case Trot => 12.0
    case Gallop | BarrierJump => 20.0
    case _ => 8.0
  }

  /** Whether each loaded animation loops. */
  predicate LoopsOf(n: Name)
  {
    n == Idle || n == Walk || n == Trot || n == Gallop
  }

  /** `IDLE_RANDOM_MIN_INTERVAL` and `IDLE_RANDOM_MAX_INTERVAL`, in seconds. */
  const IdleMinInterval := 2.0
  const IdleMaxInterval := 5.0

  /** The gait part of the horse's state. */
  datatype Gait = Gait(current: Name, queued: Option<Name>)

  predicate IsIdle(name: Name) { name == Idle || name == Idle2 || name == Idle3 }

  /** The animation `set_animation(name)` leaves current: `name` when it is
      a known animation other than the current one, otherwise the current one. */
  function SetTarget(current: Name, name: Name): (r: Name)
    ensures r == name || r == current
    ensures Known(r) || r == current
  {
    if Known(name) && name != current then name else current
  }

  /** `accelerate`. */
  function Accelerated(g: Gait): Gait
  {
    if IsIdle(g.current) then Gait(SetTarget(g.current, StartMoving), Some(Walk))
    else if g.current == Walk then g.(current := SetTarget(g.current, Trot))
    else if g.current == Trot then g.(current := SetTarget(g.current, Gallop))
    else g
  }

  /** `decelerate`. */
  function Decelerated(g: Gait): Gait
  {
    if g.current == Walk then Gait(SetTarget(g.current, StopMoving), Some(Idle))
    else if g.current == Trot then g.(current := SetTarget(g.current, Walk))
    else if g.current == Gallop then g.(current := SetTarget(g.current, Trot))
    else g
  }

  /** `barrier`. */
  function Barriered(g: Gait): Gait
  {
    if g.current == Gallop || g.current == Trot || g.current == Walk
    then Gait(SetTarget(g.current, BarrierJump), Some(g.current))
    else g
  }

  /** The queue switch of `update`: when the current animation has finished,
      play the queued one and clear the queue, or fall back to idle. */
  function Switched(g: Gait, finished: bool): Gait
  {
    if !finished then g
    else if g.queued.Some? then Gait(SetTarget(g.current, g.queued.value), None)
    else g.(current := SetTarget(g.current, Idle))
  }

  /** The random idle variation: after its interval the looping idle gives
      way to `idle2` or `idle3` by the draw; a finished variation returns to idle. */
  function IdleChecked(current: Name, finished: bool, due: bool, pickSecond: bool): Name
  {
    if current == Idle then
      (if due then SetTarget(current, if pickSecond then Idle2 else Idle3) else current)
    else if current == Idle2 || current == Idle3 then
      (if finished then SetTarget(current, Idle) else current)
    else current
  }

  /** The gait after one `update`: the queue switch with the finished flag
      the advance left, then the idle variation, which sees the switched
      animation as not finished when the switch started a new one and the
      idle timer restarted at `now` when the switch returned to idle. */
  function Updated(g: Gait, finished: bool, idleStart: real, nextIdleChange: real,
                   now: real, pickSecond: bool, interval: real): Gait
  {
    var s := Switched(g, finished);
    var changed := s.current != g.current;
    var restarted := changed && s.current == Idle;
    var start := if restarted then now else idleStart;
    var wait := if restarted then interval else nextIdleChange;
    Gait(IdleChecked(s.current, finished && !changed, now - start >= wait, pickSecond), s.queued)
  }

  /** What one `update` does to the gait: a finished transition hands over
      to the queued animation and empties the queue; a due idle timer starts
      the drawn variation; a running gait that has not finished stays. */
  lemma UpdatedCases(g: Gait, finished: bool, idleStart: real, nextIdleChange: real,
                     now: real, pickSecond: bool, interval: real)
    requires IdleMinInterval <= interval
    ensures finished && g.queued.Some? && Known(g.queued.value) && g.queued.value != g.current
            && g.queued.value != Idle2 && g.queued.value != Idle3 ==>
      Updated(g, finished, idleStart, nextIdleChange, now, pickSecond, interval) == Gait(g.queued.value, None)
    ensures !finished && g.current == Idle && now - idleStart >= nextIdleChange ==>
      Updated(g, finished, idleStart, nextIdleChange, now, pickSecond, interval)
        == g.(current := if pickSecond then Idle2 else Idle3)
    ensures !finished && !IsIdle(g.current) ==>
      Updated(g, finished, idleStart, nextIdleChange, now, pickSecond, interval) == g
  {
  }

  /** Rank of the three running gaits. */
  function Pace(name: Name): int
  {
    if name == Walk then 1 else if name == Trot then 2 else if name == Gallop then 3 else 0
  }

  /** From a resting animation, accelerating plays the start transition with
      walk queued; once it finishes the horse walks and the queue is empty. */
  lemma StartThenWalk(g: Gait)
    requires IsIdle(g.current)
    ensures Accelerated(g) == Gait(StartMoving, Some(Walk))
    ensures Switched(Accelerated(g), true) == Gait(Walk, None)
  {
  }

  /** Decelerating from walk plays the stop transition with idle queued;
      once it finishes the horse is idle and the queue is empty. */
  lemma StopThenIdle(g: Gait)
    requires g.current == Walk
    ensures Decelerated(g) == Gait(StopMoving, Some(Idle))
    ensures Switched(Decelerated(g), true) == Gait(Idle, None)
  {
  }

  /** Among the running gaits, accelerating raises the pace by one up to
      gallop and decelerating lowers it by one down to walk; the queue is kept. */
  lemma PaceSteps(g: Gait)
    requires Pace(g.current) > 0
    ensures Pace(g.current) < 3 ==> Pace(Accelerated(g).current) == Pace(g.current) + 1
    ensures Pace(g.current) == 3 ==> Accelerated(g) == g
    ensures Pace(g.current) > 1 ==> Pace(Decelerated(g).current) == Pace(g.current) - 1
    ensures Pace(g.current) > 1 ==> Accelerated(g).queued == g.queued == Decelerated(g).queued
  {
  }

  /** From walk or trot, accelerating and then decelerating restores the gait. */
  lemma AccelerateThenDecelerate(g: Gait)
    requires g.current == Walk || g.current == Trot
    ensures Decelerated(Accelerated(g)) == g
  {
  }

  /** Any other state than the listed ones is left alone by both. */
  lemma UnlistedUnchanged(g: Gait)
    requires !IsIdle(g.current) && Pace(g.current) == 0
    ensures Accelerated(g) == g && Decelerated(g) == g
  {
  }

  /** A barrier jump acts only in a running gait, and when it finishes the
      horse is back in that gait with the queue empty. */
  lemma BarrierReturns(g: Gait)
    ensures Pace(g.current) == 0 ==> Barriered(g) == g
    ensures Pace(g.current) > 0 ==>
      Barriered(g) == Gait(BarrierJump, Some(g.current)) && Switched(Barriered(g), true) == Gait(g.current, None)
  {
  }

  /** Every gait change keeps the current and queued names among the loaded animations. */
  lemma GaitsStayKnown(g: Gait, finished: bool)
    requires Known(g.current) && (g.queued.Some? ==> Known(g.queued.value))
    ensures var a := Accelerated(g); Known(a.current) && (a.queued.Some? ==> Known(a.queued.value))
    ensures var d := Decelerated(g); Known(d.current) && (d.queued.Some? ==> Known(d.queued.value))
    ensures var b := Barriered(g); Known(b.current) && (b.queued.Some? ==> Known(b.queued.value))
    ensures var s := Switched(g, finished); Known(s.current) && (s.queued.Some? ==> Known(s.queued.value))
  {
  }

  /** The playback state of animation `n` after `set_animation` moved from
      `from` to `to`: the old animation is stopped, the new one is reset
      and playing, every other one is untouched. */
  function Switch(p: Playback, n: Name, from: Name, to: Name): (r: Playback)
  {
    if from == to then p
    else if n == to then Playback(0, 0.0, true, false)
    else if n == from then p.(playing := false)
    else p
  }

  /** After a switch, exactly the new animation is newly started, and the
      animation left behind is not playing. */
  lemma SwitchEffect(p: Playback, n: Name, from: Name, to: Name)
    requires from != to
    ensures n == to ==> Switch(p, n, from, to).playing && Switch(p, n, from, to).frame == 0
    ensures n == from ==> !Switch(p, n, from, to).playing && Switch(p, n, from, to).frame == p.frame
    ensures n != from && n != to ==> Switch(p, n, from, to) == p
  {
  }

  class Horse<F> {
    const animations: map<Name, Animation<F>>
    var current: Name
    var queued: Option<Name>
    var image: Option<F>
    var idleStart: real
    var nextIdleChange: real

    ghost predicate Valid()
      reads this, animations.Values
    {
      && (forall n :: n in animations <==> Known(n))
      && (forall a, b :: a in animations && b in animations && a != b ==> animations[a] != animations[b])
      && (forall n :: n in animations ==>
            && animations[n].Valid() && |animations[n].frames| > 0
            && animations[n].fps == FpsOf(n) && animations[n].loop == LoopsOf(n))
      && current in animations
      && (queued.Some? ==> queued.value in animations)
    }

    function CurrentGait(): Gait
      reads this
    {
      Gait(current, queued)
    }

    /** A horse with freshly loaded animations starts playing idle, with
        nothing queued and the idle timer started at `now`. */
    constructor (animations: map<Name, Animation<F>>, now: real, interval: real)
      requires forall n :: n in animations <==> Known(n)
      requires forall a, b :: a in animations && b in animations && a != b ==> animations[a] != animations[b]
      requires forall n :: n in animations ==>
        && animations[n].Valid() && |animations[n].frames| > 0
        && animations[n].fps == FpsOf(n) && animations[n].loop == LoopsOf(n)
        && animations[n].State() == Playback(0, 0.0, false, false)
      modifies animations.Values
      ensures Valid() && this.animations == animations
      ensures CurrentGait() == Gait(Idle, None)
      ensures forall n :: n in animations ==>
        animations[n].State() == Playback(0, 0.0, n == Idle, false)
      ensures image == Some(animations[Idle].frames[0])
      ensures idleStart == now && nextIdleChange == interval
    {
      this.animations := animations;
      current := Idle;
      queued := None;
      image := animations[Idle].CurrentFrame();
      idleStart := now;
      nextIdleChange := interval;
      new;
      animations[Idle].Play();
    }

    /** `set_animation(name)`; `now` and `interval` stand for the clock and
        the random draw of the idle timer, used when switching to idle. */
    method SetAnimation(name: Name, now: real, interval: real)
      requires Valid()
      modifies this, animations.Values
      ensures Valid()
      ensures current == SetTarget(old(current), name) && queued == old(queued) && image == old(image)
      ensures forall n :: n in animations ==>
        animations[n].State() == Switch(old(animations[n].State()), n, old(current), current)
      ensures if current != old(current) && name == Idle
              then idleStart == now && nextIdleChange == interval
              else idleStart == old(idleStart) && nextIdleChange == old(nextIdleChange)
      ensures name != Idle ==> idleStart == old(idleStart) && nextIdleChange == old(nextIdleChange)
    {
      if name in animations && name != current {
        var before := current;
        animations[before].Stop();
        current := name;
        animations[current].Reset();
        animations[current].Play();
        if name == Idle {
          idleStart := now;
          nextIdleChange := interval;
        }
      }
    }

    /** `accelerate`. */
    method Accelerate()
      requires Valid()
      modifies this, animations.Values
      ensures Valid()
      ensures CurrentGait() == Accelerated(old(CurrentGait()))
      ensures forall n :: n in animations ==>
        animations[n].State() == Switch(old(animations[n].State()), n, old(current), current)
      ensures image == old(image) && idleStart == old(idleStart) && nextIdleChange == old(nextIdleChange)
    {
      if current == Idle || current == Idle2 || current == Idle3 {
        queued := Some(Walk);
        SetAnimation(StartMoving, 0.0, 0.0);
      } else if current == Walk {
        SetAnimation(Trot, 0.0, 0.0);
      } else if current == Trot {
        SetAnimation(Gallop, 0.0, 0.0);
      }
    }

    /** `decelerate`. */
    method Decelerate()
      requires Valid()
      modifies this, animations.Values
      ensures Valid()
      ensures CurrentGait() == Decelerated(old(CurrentGait()))
      ensures forall n :: n in animations ==>
        animations[n].State() == Switch(old(animations[n].State()), n, old(current), current)
      ensures image == old(image) && idleStart == old(idleStart) && nextIdleChange == old(nextIdleChange)
    {
      if current == Walk {
        queued := Some(Idle);
        SetAnimation(StopMoving, 0.0, 0.0);
      } else if current == Trot {
        SetAnimation(Walk, 0.0, 0.0);
      } else if current == Gallop {
        SetAnimation(Trot, 0.0, 0.0);
      }
    }

    /** `barrier`. */
    method Barrier()
      requires Valid()
      modifies this, animations.Values
      ensures Valid()
      ensures CurrentGait() == Barriered(old(CurrentGait()))
      ensures forall n :: n in animations ==>
        animations[n].State() == Switch(old(animations[n].State()), n, old(current), current)
      ensures image == old(image) && idleStart == old(idleStart) && nextIdleChange == old(nextIdleChange)
    {
      if current == Gallop || current == Trot || current == Walk {
        queued := Some(current);
        SetAnimation(BarrierJump, 0.0, 0.0);
      }
    }

    /** The first part of `update`: advance the current animation by `dt`
        and show its current frame. */
    method AdvanceCurrent(dt: real)
      requires Valid()
      modifies animations.Values, this`image
      ensures Valid()
      ensures forall n :: n in animations ==>
        animations[n].State() ==
          (if n == current
           then Advance(old(animations[n].State()), |animations[n].frames|, LoopsOf(n), animations[n].frameDuration, dt)
           else old(animations[n].State()))
      ensures image == animations[current].CurrentFrame()
    {
      var a := animations[current];
      a.Update(dt);
      image := a.CurrentFrame();
    }

    /** The queue switch of `update`. */
    method SwitchWhenFinished(now: real, interval: real)
      requires Valid()
      modifies this, animations.Values
      ensures Valid()
      ensures CurrentGait() == Switched(old(CurrentGait()), old(animations[current].isFinished))
      ensures forall n :: n in animations ==>
        animations[n].State() == Switch(old(animations[n].State()), n, old(current), current)
      ensures image == old(image)
      ensures if current != old(current) && current == Idle
              then idleStart == now && nextIdleChange == interval
              else idleStart == old(idleStart) && nextIdleChange == old(nextIdleChange)
    {
      if animations[current].isFinished {
        if queued.Some? {
          var next := queued.value;
          queued := None;
          SetAnimation(next, now, interval);
        } else {
          SetAnimation(Idle, now, interval);
        }
      }
    }

    /** `_check_idle_random_change` with the clock reading `now`, the choice
        between `idle2` and `idle3` and the next interval given as inputs. */
    method CheckIdleRandomChange(now: real, pickSecond: bool, interval: real)
      requires Valid()
      modifies this, animations.Values
      ensures Valid()
      ensures current == IdleChecked(old(current), old(animations[current].isFinished),
                                     now - old(idleStart) >= old(nextIdleChange), pickSecond)
      ensures queued == old(queued) && image == old(image)
      ensures forall n :: n in animations ==>
        animations[n].State() == Switch(old(animations[n].State()), n, old(current), current)
      ensures if current != old(current)
              then idleStart == now && nextIdleChange == interval
              else idleStart == old(idleStart) && nextIdleChange == old(nextIdleChange)
    {
      if current == Idle {
        var elapsed := now - idleStart;
        if elapsed >= nextIdleChange {
          SetAnimation(if pickSecond then Idle2 else Idle3, now, interval);
          idleStart := now;
          nextIdleChange := interval;
        }
      } else if current == Idle2 || current == Idle3 {
        if animations[current].isFinished {
          SetAnimation(Idle, now, interval);
        }
      }
    }

    /** `update(dt)`: advance, switch to the queued animation when a
        transition has finished, then the idle variation. */
    method Update(dt: real, now: real, pickSecond: bool, interval: real)
      requires Valid()
      modifies this, animations.Values
      ensures Valid()
      ensures CurrentGait() == Updated(old(CurrentGait()),
        Advance(old(animations[current].State()), |animations[old(current)].frames|, LoopsOf(old(current)),
                animations[old(current)].frameDuration, dt).finished,
        old(idleStart), old(nextIdleChange), now, pickSecond, interval)
    {
      AdvanceCurrent(dt);
      SwitchWhenFinished(now, interval);
      CheckIdleRandomChange(now, pickSecond, interval);
    }
  }
}
