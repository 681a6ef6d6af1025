/**
  The bookkeeping of one race lane (`Path`): the distance travelled, the
  window of track events around it, the sprites kept for the events in
  that window and the sprite group of each kind, the winner check, the
  progress bar and the tiling of the sky picture.

  The horse is not part of this model: its speed, its facing and the flags
  it has passed come in as parameters. Sprites are identified by a number
  handed out when the sprite is created.
*/
module Paths {
  import opened Options
  import opened Tracks
  import opened Race
  import ColorSpace

  /** Python's `int()` on a float: truncation toward zero. */
  function Trunc(r: real): (n: int)
    ensures r >= 0.0 ==> n == r.Floor
    ensures r < 0.0 ==> n == -((-r).Floor)
    ensures ColorSpace.Abs(r - n as real) < 1.0 && ColorSpace.Abs(n as real) <= ColorSpace.Abs(r)
  {
    if r >= 0.0 then r.Floor else -((-r).Floor)
  }

  /** Python's `round()`: to the nearest integer, halves to the even one. */
  function Round(r: real): (n: int)
    ensures ColorSpace.Abs(r - n as real) <= 0.5
    ensures ColorSpace.Abs(r - n as real) == 0.5 ==> n % 2 == 0
  {
    var f := r.Floor;
    var d := r - f as real;
    if d < 0.5 then f
    else if d > 0.5 then f + 1
    else if f % 2 == 0 then f
    else f + 1
  }

  /** The constants the lane reads: where the horse sits on screen, the
      band heights of the shadow and the share of the lane given to sky. */
  datatype Layout = Layout(horseOffsetX: real, shadowMinFrac: real, shadowMaxFrac: real, skyProportion: real)

  /** A sprite on screen: its number and position. */
  datatype Sprite = Sprite(id: nat, x: real, y: int)

  /** A plan the lane can display: every grass event carries a height. */
  predicate PlanDisplayable(events: seq<TrackEvent>)
  {
    forall e :: e in events && e.kind == Grass ==> e.yFrac.Some?
  }

  /** Every plan `TrackPlan.generate` builds is displayable. */
  lemma GeneratedDisplayable(plan: TrackPlan, b: Bands)
    requires |plan.events| > 0
    requires plan.events[|plan.events| - 1].kind == Flag
    requires forall j :: 0 <= j < |plan.events| - 1 ==>
      plan.events[j].kind == Grass ==> plan.events[j].yFrac.Some? && !InShadow(plan.events[j].yFrac.value, b)
    ensures PlanDisplayable(plan.events)
  {
    forall e | e in plan.events && e.kind == Grass ensures e.yFrac.Some? {
      var j :| 0 <= j < |plan.events| && plan.events[j] == e;
    }
  }

  /** The numbers of the sprites kept for events of kind `k`. */
  function IdsOf(m: map<TrackEvent, Sprite>, k: Kind): set<nat>
  {
    set e | e in m && e.kind == k :: m[e].id
  }

  predicate Injective(m: map<TrackEvent, Sprite>)
  {
    forall e1, e2 :: e1 in m && e2 in m && e1 != e2 ==> m[e1].id != m[e2].id
  }

  /** Adding a sprite with a new number adds it to its own kind's group only. */
  lemma IdsAdd(m: map<TrackEvent, Sprite>, e: TrackEvent, s: Sprite, k: Kind)
    requires e !in m
    ensures IdsOf(m[e := s], k) == if e.kind == k then IdsOf(m, k) + {s.id} else IdsOf(m, k)
  {
    var m' := m[e := s];
    forall id | id in IdsOf(m', k) ensures id in (if e.kind == k then IdsOf(m, k) + {s.id} else IdsOf(m, k)) {
      var f :| f in m' && f.kind == k && m'[f].id == id;
      if f != e { assert id in IdsOf(m, k); }
    }
    forall id | id in IdsOf(m, k) ensures id in IdsOf(m', k) {
      var f :| f in m && f.kind == k && m[f].id == id;
      assert m'[f] == m[f];
    }
  }

  /** Removing a sprite removes its number from its kind's group. */
  lemma IdsRemove(m: map<TrackEvent, Sprite>, e: TrackEvent, k: Kind)
    requires e in m && Injective(m)
    ensures IdsOf(m - {e}, k) == if e.kind == k then IdsOf(m, k) - {m[e].id} else IdsOf(m, k)
  {
    var m' := m - {e};
    forall id | id in IdsOf(m, k) ensures id in IdsOf(m', k) || (e.kind == k && id == m[e].id) {
      var f :| f in m && f.kind == k && m[f].id == id;
      if f != e {
        assert m'[f] == m[f];
      }
    }
    forall id | id in IdsOf(m', k) ensures id in IdsOf(m, k) && (e.kind == k ==> id != m[e].id) {
      var f :| f in m' && f.kind == k && m'[f].id == id;
      assert m[f] == m'[f];
    }
  }

  /** Moving a sprite keeps every group. */
  lemma IdsMove(m: map<TrackEvent, Sprite>, e: TrackEvent, x: real, y: int, k: Kind)
    requires e in m
    ensures IdsOf(m[e := m[e].(x := x, y := y)], k) == IdsOf(m, k)
  {
    var m' := m[e := m[e].(x := x, y := y)];
    forall id | id in IdsOf(m', k) ensures id in IdsOf(m, k) {
      var f :| f in m' && f.kind == k && m'[f].id == id;
      assert m[f].id == id;
    }
    forall id | id in IdsOf(m, k) ensures id in IdsOf(m', k) {
      var f :| f in m && f.kind == k && m[f].id == id;
      assert m'[f].id == id;
    }
  }

  /** The events of `events` inside the window `[left, right]`. */
  function InWindow(events: seq<TrackEvent>, left: real, right: real): (w: set<TrackEvent>)
    ensures forall e :: e in w <==> e in events && left <= e.distance <= right
  {
    set e | e in events && left <= e.distance <= right
  }

  /** The first loop of `_update_visible_sprites` as written. `TrackEvent`
      is a `@dataclass` with the generated `__eq__` and without `frozen`, so
      Python sets its `__hash__` to `None`, and `visible_events.add(event)`
      raises `TypeError` on the first event inside the window. The result is
      the position of that event, or `None` when the loop runs to the end. */
  function RaisesAt(events: seq<TrackEvent>, left: real, right: real): (k: Option<nat>)
    decreases |events|
  {
    if |events| == 0 then None
    else if left <= events[0].distance <= right then Some(0)
    else
      match RaisesAt(events[1..], left, right)
      case None => None
      case Some(j) => Some(j + 1)
  }

  /** As written, the update fails exactly when the window holds an event,
      and it fails at the first such event. */
  lemma {:induction false} UnhashableEventRaises(events: seq<TrackEvent>, left: real, right: real)
    ensures RaisesAt(events, left, right).None? <==> InWindow(events, left, right) == {}
    ensures var k := RaisesAt(events, left, right);
      k.Some? ==> (k.value < |events| && events[k.value] in InWindow(events, left, right)
                   && forall j :: 0 <= j < k.value ==> !(left <= events[j].distance <= right))
    decreases |events|
  {
    if |events| > 0 && !(left <= events[0].distance <= right) {
      var rest := events[1..];
      UnhashableEventRaises(rest, left, right);
      assert events == [events[0]] + rest;
      if InWindow(rest, left, right) != {} {
        var e :| e in InWindow(rest, left, right);
        assert e in InWindow(events, left, right);
      }
      var k := RaisesAt(rest, left, right);
      if k.Some? {
        assert events[k.value + 1] == rest[k.value];
        forall j | 0 <= j < k.value + 1 ensures !(left <= events[j].distance <= right) {
          if j > 0 { assert events[j] == rest[j - 1]; }
        }
      }
    } else if |events| > 0 {
      assert events[0] in InWindow(events, left, right);
    }
  }

  /** At the start of a race the window is 2.5 view ranges either side of
      0, so a plan with its first event within that distance fails on the
      first frame. */
  lemma FirstFrameRaises(plan: TrackPlan, viewRange: real)
    requires 0.0 <= viewRange && |plan.events| > 0
    requires 0.0 <= plan.events[0].distance <= 2.5 * viewRange
    ensures var (left, right) := ViewBounds(0.0, viewRange);
      RaisesAt(plan.events, left, right) == Some(0)
  {
  }

  /** `_calculate_view_bounds`: 2.5 view ranges either side of the distance travelled. */
  function ViewBounds(traveled: real, viewRange: real): (b: (real, real))
    ensures b.1 - b.0 == 5.0 * viewRange
    ensures (b.0 + b.1) / 2.0 == traveled
    ensures viewRange >= 0.0 ==> b.0 <= traveled <= b.1
  {
    (traveled - 2.5 * viewRange, traveled + 2.5 * viewRange)
  }

  /** `_pixels_per_distance`: the view range is the screen width, so the
      scale is one pixel per unit of distance whatever the width. */
  function PixelsPerDistance(screenWidth: real, viewRange: real): real
  {
    if viewRange > 0.0 then screenWidth / viewRange else 1.0
  }

  lemma OnePixelPerDistance(screenWidth: real)
    ensures PixelsPerDistance(screenWidth, screenWidth) == 1.0
  {
  }

  /** Progress-bar width and filled width for a positive path length, or
      nothing when the path length is not positive (no bar is drawn). */
  function ProgressBar(traveled: real, pathDistance: real, screenWidth: int): (r: Option<(int, int)>)
    ensures r.None? <==> pathDistance <= 0.0
    ensures r.Some? ==> var (width, fill) := r.value;
      && width >= 10 && width >= screenWidth
      && 0 <= fill <= width
      && (traveled <= 0.0 ==> fill == 0)
      && (traveled >= pathDistance ==> fill == width)
  {
    if pathDistance <= 0.0 then None
    else
      var width := if 10 < screenWidth then screenWidth else 10;
      Some((width, Filled(width, Ratio(traveled, pathDistance))))
  }

  /** `max(0.0, min(1.0, traveled / path_distance))`. */
  function Ratio(traveled: real, pathDistance: real): (c: real)
    requires 0.0 < pathDistance
    ensures 0.0 <= c <= 1.0
    ensures traveled <= 0.0 ==> c == 0.0
    ensures traveled >= pathDistance ==> c == 1.0
    ensures 0.0 <= traveled <= pathDistance ==> c * pathDistance == traveled
  {
    DivideAtLeastOne(traveled, pathDistance);
    assert (traveled / pathDistance) * pathDistance == traveled;
    Clamp01(traveled / pathDistance)
  }

  lemma DivideAtLeastOne(a: real, d: real)
    requires 0.0 < d
    ensures a >= d ==> a / d >= 1.0
    ensures a <= 0.0 ==> a / d <= 0.0
  {
  }

  /** `int(bar_width * ratio)` for a ratio in `[0, 1]`. */
  function Filled(width: int, ratio: real): (fill: int)
    requires 0 <= width && 0.0 <= ratio <= 1.0
    ensures 0 <= fill <= width
    ensures ratio == 0.0 ==> fill == 0
    ensures ratio == 1.0 ==> fill == width
  {
    ScaleWithin(width as real, ratio);
    (width as real * ratio).Floor
  }

  lemma ScaleWithin(w: real, r: real)
    requires 0.0 <= w && 0.0 <= r <= 1.0
    ensures 0.0 <= w * r <= w
  {
  }

  lemma RatioMonotone(t1: real, t2: real, d: real)
    requires 0.0 < d && t1 <= t2
    ensures Ratio(t1, d) <= Ratio(t2, d)
  {
    assert t1 / d <= t2 / d;
  }

  lemma FilledMonotone(width: int, r1: real, r2: real)
    requires 0 <= width && 0.0 <= r1 <= r2 <= 1.0
    ensures Filled(width, r1) <= Filled(width, r2)
  {
    assert width as real * r1 <= width as real * r2;
  }

  /** `max(0.0, min(1.0, r))`. */
  function Clamp01(r: real): (c: real)
    ensures 0.0 <= c <= 1.0
    ensures 0.0 <= r <= 1.0 ==> c == r
    ensures r <= 0.0 ==> c == 0.0
    ensures r >= 1.0 ==> c == 1.0
  {
    if r < 0.0 then 0.0 else if r > 1.0 then 1.0 else r
  }

  /** The filled part of the bar grows as the horse gets further. */
  lemma ProgressMonotone(t1: real, t2: real, pathDistance: real, screenWidth: int)
    requires 0.0 < pathDistance && t1 <= t2
    ensures ProgressBar(t1, pathDistance, screenWidth).value.1 <= ProgressBar(t2, pathDistance, screenWidth).value.1
  {
    var width := if 10 < screenWidth then screenWidth else 10;
    RatioMonotone(t1, t2, pathDistance);
    FilledMonotone(width, Ratio(t1, pathDistance), Ratio(t2, pathDistance));
  }

  class Lane {
    const events: seq<TrackEvent>
    const pathDistance: real
    const topY: int
    const bottomY: int
    const screenWidth: int
    const viewRange: real
    const pixelsPerDistance: real
    const layout: Layout
    var traveled: real
    var isWinner: bool
    var sprites: map<TrackEvent, Sprite>
    var grassGroup: set<nat>
    var barrierGroup: set<nat>
    var flagGroup: set<nat>
    var nextId: nat

    /** Each group holds exactly the sprites of its kind, and sprite numbers
        are distinct and below the next number to hand out. */
    ghost predicate Valid()
      reads this
    {
      && PlanDisplayable(events)
      && (forall e :: e in sprites ==> sprites[e].id < nextId)
      && Injective(sprites)
      && grassGroup == IdsOf(sprites, Grass)
      && barrierGroup == IdsOf(sprites, Barrier)
      && flagGroup == IdsOf(sprites, Flag)
    }

    function Group(k: Kind): set<nat>
      reads this
    {
      match k
      case Grass => grassGroup
      case Barrier => barrierGroup
      case Flag => flagGroup
    }

    /** A lane at the start: nothing travelled, no sprites, no win. */
    constructor (topY: int, bottomY: int, screenWidth: int, plan: TrackPlan, layout: Layout)
      requires PlanDisplayable(plan.events)
      ensures Valid()
      ensures events == plan.events && pathDistance == plan.totalDistance && this.layout == layout
      ensures this.topY == topY && this.bottomY == bottomY && this.screenWidth == screenWidth
      ensures viewRange == screenWidth as real && pixelsPerDistance == 1.0
      ensures traveled == 0.0 && !isWinner && sprites == map[] && nextId == 0
    {
      events := plan.events;
      pathDistance := plan.totalDistance;
      this.topY := topY;
      this.bottomY := bottomY;
      this.screenWidth := screenWidth;
      viewRange := screenWidth as real;
      pixelsPerDistance := PixelsPerDistance(screenWidth as real, screenWidth as real);
      this.layout := layout;
      traveled := 0.0;
      isWinner := false;
      sprites := map[];
      grassGroup := {};
      barrierGroup := {};
      flagGroup := {};
      nextId := 0;
    }

    /** The distance update of `update(dt)`: facing right moves forward. */
    method Move(speed: real, facingRight: bool, dt: real)
      modifies this`traveled
      ensures facingRight ==> traveled == old(traveled) + speed * dt
      ensures !facingRight ==> traveled == old(traveled) - speed * dt
    {
      var direction := if facingRight then -1.0 else 1.0;
      var baseDx := direction * speed * dt;
      traveled := traveled - baseDx;
    }

    function Height(): int
    {
      bottomY - topY
    }

    /** The top of the ground strip and the line the horse stands on. */
    function GroundY(): int
    {
      topY + Trunc(Height() as real * layout.skyProportion)
    }

    function HorseY(): int
    {
      topY + Trunc(Height() as real * layout.shadowMaxFrac)
    }

    /** `_distance_to_screen_x`: the horizontal offset from the horse's
        column grows with the distance ahead, scaled by the perspective of
        the sprite's line. */
    function ScreenX(distance: real, yPos: real, groundY: real, horseY: real): real
      requires horseY != groundY
      reads this`traveled
    {
      var perspective := (yPos - groundY) / (horseY - groundY);
      layout.horseOffsetX + (distance - traveled) * pixelsPerDistance * perspective
    }

    /** The horse's own distance maps to the horse's column on every line,
        and on the horse's line one unit of distance is one pixel. */
    lemma ScreenXAtHorse(distance: real, yPos: real, groundY: real, horseY: real)
      requires horseY != groundY && pixelsPerDistance == 1.0
      ensures distance == traveled ==> ScreenX(distance, yPos, groundY, horseY) == layout.horseOffsetX
      ensures yPos == horseY ==> ScreenX(distance, yPos, groundY, horseY) == layout.horseOffsetX + (distance - traveled)
    {
    }

    /** The bottom line of an event's sprite: grass at its own height,
        barriers on the lower and the flag on the upper edge of the shadow. */
    function SpriteY(e: TrackEvent): int
      requires e.kind == Grass ==> e.yFrac.Some?
    {
      var frac := match e.kind
        case Grass => e.yFrac.value
        case Barrier => layout.shadowMaxFrac
        case Flag => layout.shadowMinFrac;
      Trunc(topY as real + frac * Height() as real)
    }

    /** `_create_sprite_for_event`: a new sprite, numbered `nextId`, placed
        for the event and added to its kind's group. */
    method CreateSprite(e: TrackEvent, groundY: int, horseY: int)
      requires Valid() && e in events && e !in sprites && horseY != groundY
      modifies this`sprites, this`grassGroup, this`barrierGroup, this`flagGroup, this`nextId
      ensures Valid()
      ensures sprites == old(sprites)[e := Sprite(old(nextId),
        ScreenX(e.distance, SpriteY(e) as real, groundY as real, horseY as real), SpriteY(e))]
      ensures nextId == old(nextId) + 1
      ensures forall k :: Group(k) == if k == e.kind then old(Group(k)) + {old(nextId)} else old(Group(k))
    {
      var y := SpriteY(e);
      var x := ScreenX(e.distance, y as real, groundY as real, horseY as real);
      var sprite := Sprite(nextId, x, y);
      IdsAdd(sprites, e, sprite, Grass);
      IdsAdd(sprites, e, sprite, Barrier);
      IdsAdd(sprites, e, sprite, Flag);
      sprites := sprites[e := sprite];
      match e.kind {
        case Grass => grassGroup := grassGroup + {nextId};
        case Barrier => barrierGroup := barrierGroup + {nextId};
        case Flag => flagGroup := flagGroup + {nextId};
      }
      nextId := nextId + 1;
    }

    /** `_update_sprite_position`: the same sprite, moved to the rounded
        column and the event's line. */
    method MoveSprite(e: TrackEvent, groundY: int, horseY: int)
      requires Valid() && e in events && e in sprites && horseY != groundY
      modifies this`sprites
      ensures Valid()
      ensures sprites == old(sprites)[e := old(sprites)[e].(
        x := Round(ScreenX(e.distance, SpriteY(e) as real, groundY as real, horseY as real)) as real,
        y := SpriteY(e))]
    {
      var y := SpriteY(e);
      var x := ScreenX(e.distance, y as real, groundY as real, horseY as real);
      IdsMove(sprites, e, Round(x) as real, y, Grass);
      IdsMove(sprites, e, Round(x) as real, y, Barrier);
      IdsMove(sprites, e, Round(x) as real, y, Flag);
      sprites := sprites[e := sprites[e].(x := Round(x) as real, y := y)];
    }

    /** `_remove_sprite_for_event`: the sprite leaves the dictionary and its group. */
    method RemoveSprite(e: TrackEvent)
      requires Valid() && e in sprites
      modifies this`sprites, this`grassGroup, this`barrierGroup, this`flagGroup
      ensures Valid()
      ensures sprites == old(sprites) - {e}
      ensures forall k :: Group(k) == if k == e.kind then old(Group(k)) - {old(sprites)[e].id} else old(Group(k))
    {
      var id := sprites[e].id;
      IdsRemove(sprites, e, Grass);
      IdsRemove(sprites, e, Barrier);
      IdsRemove(sprites, e, Flag);
      sprites := sprites - {e};
      match e.kind {
        case Grass => grassGroup := grassGroup - {id};
        case Barrier => barrierGroup := barrierGroup - {id};
        case Flag => flagGroup := flagGroup - {id};
      }
    }

    /** Where the sprite kept for `e` in `m` stands after a pass that started
        from the sprites `before` with next number `firstId`: an existing
        sprite keeps its number and moves to the rounded column; a new one
        has a new number and stands at the exact column (or at the rounded
        one, when the plan lists the same event twice). */
    ghost predicate Shown(m: map<TrackEvent, Sprite>, e: TrackEvent, before: map<TrackEvent, Sprite>,
                          firstId: nat, groundY: int, horseY: int)
      requires e in m && e in events && PlanDisplayable(events) && horseY != groundY
      reads this`traveled
    {
      var x := ScreenX(e.distance, SpriteY(e) as real, groundY as real, horseY as real);
      && m[e].y == SpriteY(e)
      && (e in before ==> m[e] == Sprite(before[e].id, Round(x) as real, SpriteY(e)))
      && (e !in before ==> m[e].id >= firstId && (m[e].x == x || m[e].x == Round(x) as real))
    }

    /** The state during the first loop of `_update_visible_sprites`, which
        started from the sprites `before` with next number `firstId`, once
        the events `visible` have been handled. */
    ghost predicate Handled(visible: set<TrackEvent>, before: map<TrackEvent, Sprite>, firstId: nat,
                            groundY: int, horseY: int)
      requires Valid() && horseY != groundY
      reads this
    {
      && nextId >= firstId
      && sprites.Keys == before.Keys + visible
      && (forall e :: e in before && e !in visible ==> sprites[e] == before[e])
      && (forall e :: e in visible ==> e in events && e in sprites && Shown(sprites, e, before, firstId, groundY, horseY))
    }

    /** One step of that loop for an event inside the window that has no
        sprite yet: a new sprite is created. */
    method ShowNew(e: TrackEvent, groundY: int, horseY: int, ghost visible: set<TrackEvent>,
                   ghost before: map<TrackEvent, Sprite>, ghost firstId: nat)
      requires Valid() && horseY != groundY && e in events && e !in sprites
      requires Handled(visible, before, firstId, groundY, horseY)
      modifies this`sprites, this`grassGroup, this`barrierGroup, this`flagGroup, this`nextId
      ensures Valid() && Handled(visible + {e}, before, firstId, groundY, horseY)
    {
      ghost var m0 := sprites;
      CreateSprite(e, groundY, horseY);
      forall f | f in visible
        ensures f in sprites && Shown(sprites, f, before, firstId, groundY, horseY)
      {
        assert sprites[f] == m0[f];
      }
    }

    /** The same step for an event that already has a sprite: it is moved. */
    method ShowKnown(e: TrackEvent, groundY: int, horseY: int, ghost visible: set<TrackEvent>,
                     ghost before: map<TrackEvent, Sprite>, ghost firstId: nat)
      requires Valid() && horseY != groundY && e in events && e in sprites
      requires Handled(visible, before, firstId, groundY, horseY)
      modifies this`sprites
      ensures Valid() && Handled(visible + {e}, before, firstId, groundY, horseY)
    {
      ghost var m0 := sprites;
      MoveSprite(e, groundY, horseY);
      forall f | f in visible && f != e
        ensures f in sprites && Shown(sprites, f, before, firstId, groundY, horseY)
      {
        assert sprites[f] == m0[f];
      }
    }

    /** The first loop of `_update_visible_sprites`: every event inside the
        window gets a new sprite or has its sprite moved. */
    method ShowWindow(left: real, right: real, groundY: int, horseY: int) returns (visible: set<TrackEvent>)
      requires Valid() && horseY != groundY
      modifies this`sprites, this`grassGroup, this`barrierGroup, this`flagGroup, this`nextId
      ensures Valid() && visible == InWindow(events, left, right)
      ensures Handled(visible, old(sprites), old(nextId), groundY, horseY)
    {
      visible := {};
      for i := 0 to |events|
        invariant Valid() && visible == InWindow(events[..i], left, right)
        invariant Handled(visible, old(sprites), old(nextId), groundY, horseY)
      {
        var e := events[i];
        assert events[..i + 1] == events[..i] + [e];
        if left <= e.distance <= right {
          if e !in sprites {
            ShowNew(e, groundY, horseY, visible, old(sprites), old(nextId));
          } else {
            ShowKnown(e, groundY, horseY, visible, old(sprites), old(nextId));
          }
          visible := visible + {e};
        }
      }
      assert events[..|events|] == events;
    }

    /** The second loop: the events whose sprites fall outside the window,
        each listed once. */
    method StaleEvents(visible: set<TrackEvent>) returns (stale: seq<TrackEvent>)
      ensures forall e :: e in stale <==> e in sprites && e !in visible
      ensures forall j, k :: 0 <= j < k < |stale| ==> stale[j] != stale[k]
    {
      var pending := sprites.Keys;
      stale := [];
      while pending != {}
        invariant pending <= sprites.Keys
        invariant forall e :: e in stale ==> e in sprites && e !in visible
        invariant forall e :: e in sprites && e !in visible ==> e in pending || e in stale
        invariant forall j, k :: 0 <= j < k < |stale| ==> stale[j] != stale[k]
        invariant forall j :: 0 <= j < |stale| ==> stale[j] !in pending
        decreases pending
      {
        var e :| e in pending;
        if e !in visible {
          stale := stale + [e];
        }
        pending := pending - {e};
      }
    }

    /** The last loop: each stale sprite is removed; the others stay as they are. */
    method RemoveAll(stale: seq<TrackEvent>)
      requires Valid() && forall e :: e in stale ==> e in sprites
      requires forall j, k :: 0 <= j < k < |stale| ==> stale[j] != stale[k]
      modifies this`sprites, this`grassGroup, this`barrierGroup, this`flagGroup
      ensures Valid()
      ensures sprites.Keys == old(sprites).Keys - set e | e in stale
      ensures forall e :: e in sprites ==> sprites[e] == old(sprites)[e]
    {
      for j := 0 to |stale|
        invariant Valid()
        invariant sprites.Keys == old(sprites).Keys - set e | e in stale[..j]
        invariant forall e :: e in sprites ==> sprites[e] == old(sprites)[e]
      {
        assert stale[..j + 1] == stale[..j] + [stale[j]];
        assert stale[j] !in stale[..j];
        RemoveSprite(stale[j]);
      }
      assert stale[..|stale|] == stale;
    }

    /** `_update_visible_sprites`: afterwards there is a sprite for exactly
        the events inside the view window around the distance travelled;
        a sprite that was already there keeps its number, and new sprites
        get new numbers. */
    method UpdateVisibleSprites(groundY: int, horseY: int)
      requires Valid() && horseY != groundY
      modifies this`sprites, this`grassGroup, this`barrierGroup, this`flagGroup, this`nextId
      ensures Valid()
      ensures var (left, right) := ViewBounds(traveled, viewRange);
        sprites.Keys == InWindow(events, left, right)
      ensures forall e :: e in sprites ==> e in events && Shown(sprites, e, old(sprites), old(nextId), groundY, horseY)
    {
      var (left, right) := ViewBounds(traveled, viewRange);
      var visible := ShowWindow(left, right, groundY, horseY);
      var stale := StaleEvents(visible);
      RemoveAll(stale);
    }

    /** The winner check of `update`: if neither this lane nor any other has
        won yet and the horse has passed one of this lane's flags, this lane
        is declared the winner at `now`. */
    method CheckWinner(race: RaceController<Lane>, passed: set<nat>, now: real)
      requires race.Valid()
      modifies this`isWinner, race
      ensures race.Valid()
      ensures var wins := !old(isWinner) && old(race.winnerPath).None? && flagGroup * passed != {};
        && (wins ==> isWinner && race.winnerPath == Some(this) && race.winnerTime == Some(now))
        && (!wins ==> isWinner == old(isWinner) && race.winnerPath == old(race.winnerPath)
                      && race.winnerTime == old(race.winnerTime))
    {
      if !isWinner && race.GetWinner().None? {
        var flags := flagGroup;
        while flags != {}
          invariant flags <= flagGroup && !isWinner && race.winnerPath.None?
          invariant race.Valid() && race.winnerTime == old(race.winnerTime)
          invariant (flagGroup - flags) * passed == {}
          decreases flags
        {
          var f :| f in flags;
          if f in passed {
            assert f in flagGroup * passed;
            race.DeclareWinner(this, now);
            isWinner := true;
            return;
          }
          flags := flags - {f};
        }
      }
    }

    /** `update(dt)` without the horse and the barrier collisions: move,
        refresh the sprites around the new distance, then the winner check. */
    method Update(dt: real, speed: real, facingRight: bool, race: RaceController<Lane>, passed: set<nat>, now: real)
      requires Valid() && race.Valid() && GroundY() != HorseY()
      modifies this`traveled, this`sprites, this`grassGroup, this`barrierGroup, this`flagGroup, this`nextId
      modifies this`isWinner, race
      ensures Valid() && race.Valid()
      ensures traveled == if facingRight then old(traveled) + speed * dt else old(traveled) - speed * dt
      ensures var (left, right) := ViewBounds(traveled, viewRange);
        sprites.Keys == InWindow(events, left, right)
      ensures var wins := !old(isWinner) && old(race.winnerPath).None? && flagGroup * passed != {};
        && (wins ==> isWinner && race.winnerPath == Some(this) && race.winnerTime == Some(now))
        && (!wins ==> isWinner == old(isWinner) && race.winnerPath == old(race.winnerPath)
                      && race.winnerTime == old(race.winnerTime))
    {
      Move(speed, facingRight, dt);
      UpdateVisibleSprites(GroundY(), HorseY());
      CheckWinner(race, passed, now);
    }
  }

  /** A piece of the sky picture on screen: where it starts, how wide it is
      drawn and whether it is the mirrored copy. */
  datatype Tile = Tile(x: int, width: int, flipped: bool)

  /** What `_draw_sky` puts on screen: a plain sky-coloured strip, the
      picture cut to the screen width, or a row of tiles. */
  datatype SkyDrawing = PlainSky | CroppedSky(width: int) | TiledSky(tiles: seq<Tile>)

  /** Tiles that cover `[0, screenWidth)` from the left without gaps or
      overlaps: all full width but the last, which may be cut, and every
      second one mirrored when a mirrored copy exists. */
  predicate Covers(tiles: seq<Tile>, screenWidth: int, tileWidth: int, hasFlipped: bool)
  {
    && |tiles| > 0
    && (forall i :: 0 <= i < |tiles| ==> tiles[i].x == i * tileWidth && tiles[i].flipped == (hasFlipped && i % 2 == 1))
    && (forall i :: 0 <= i < |tiles| - 1 ==> tiles[i].width == tileWidth)
    && 0 < tiles[|tiles| - 1].width <= tileWidth
    && tiles[|tiles| - 1].x + tiles[|tiles| - 1].width == screenWidth
  }

  function TotalWidth(tiles: seq<Tile>): int
  {
    if |tiles| == 0 then 0 else TotalWidth(tiles[..|tiles| - 1]) + tiles[|tiles| - 1].width
  }

  /** Full tiles placed side by side from 0 end where their widths add up to. */
  lemma {:induction false} FullTilesWidth(tiles: seq<Tile>, tileWidth: int)
    requires forall i :: 0 <= i < |tiles| ==> tiles[i].width == tileWidth
    ensures TotalWidth(tiles) == |tiles| * tileWidth
  {
    if |tiles| > 0 {
      FullTilesWidth(tiles[..|tiles| - 1], tileWidth);
    }
  }

  /** Covering tiles' widths add up to exactly the screen width. */
  lemma CoversWidth(tiles: seq<Tile>, screenWidth: int, tileWidth: int, hasFlipped: bool)
    requires Covers(tiles, screenWidth, tileWidth, hasFlipped)
    ensures TotalWidth(tiles) == screenWidth
  {
    FullTilesWidth(tiles[..|tiles| - 1], tileWidth);
  }

  /** The tiling loop of `_draw_sky` for a tile narrower than the screen.
      The mirrored copy, when there is one, is as wide as the tile. */
  method TileSky(screenWidth: int, tileWidth: int, hasFlipped: bool) returns (tiles: seq<Tile>)
    requires 0 < tileWidth < screenWidth
    ensures Covers(tiles, screenWidth, tileWidth, hasFlipped)
  {
    var x := 0;
    var useFlip := false;
    tiles := [];
    while x < screenWidth
      invariant 0 <= x <= screenWidth && x == |tiles| * tileWidth
      invariant useFlip == (|tiles| % 2 == 1)
      invariant forall i :: 0 <= i < |tiles| ==> tiles[i] == Tile(i * tileWidth, tileWidth, hasFlipped && i % 2 == 1)
      invariant x == screenWidth ==> |tiles| > 0
      decreases screenWidth - x
    {
      var flipped := useFlip && hasFlipped;
      var remaining := screenWidth - x;
      var drawWidth := tileWidth;
      if drawWidth > remaining {
        tiles := tiles + [Tile(x, remaining, flipped)];
        return;
      }
      tiles := tiles + [Tile(x, drawWidth, flipped)];
      x := x + drawWidth;
      useFlip := !useFlip;
    }
  }

  /** `_draw_sky` with the tile width of the scaled picture (`None` when
      there is no picture). A picture of width 0 is drawn as plain sky. */
  method DrawSky(screenWidth: int, tileWidth: Option<int>, hasFlipped: bool) returns (d: SkyDrawing)
    ensures tileWidth.None? || tileWidth.value <= 0 ==> d == PlainSky
    ensures tileWidth.Some? && 0 < tileWidth.value && tileWidth.value >= screenWidth ==> d == CroppedSky(screenWidth)
    ensures tileWidth.Some? && 0 < tileWidth.value < screenWidth ==>
      d.TiledSky? && Covers(d.tiles, screenWidth, tileWidth.value, hasFlipped)
  {
    if tileWidth.None? || tileWidth.value <= 0 {
      d := PlainSky;
    } else if tileWidth.value >= screenWidth {
      d := CroppedSky(screenWidth);
    } else {
      var tiles := TileSky(screenWidth, tileWidth.value, hasFlipped);
      d := TiledSky(tiles);
    }
  }

  /** One pass of the tiling loop as written, for a tile that fits in the
      remaining width: the next column and the mirroring flag. */
  function SkyStep(x: int, useFlip: bool, tileWidth: int): (int, bool)
  {
    (x + tileWidth, !useFlip)
  }

  function SkySteps(n: nat, tileWidth: int): (int, bool)
  {
    if n == 0 then (0, false) else var (x, f) := SkySteps(n - 1, tileWidth); SkyStep(x, f, tileWidth)
  }

  /** As written, a picture scaled to width 0 never moves the column: after
      any number of passes the loop condition `x < screen_width` still holds
      and the cut-off branch is never taken. */
  lemma {:induction false} ZeroWidthSkyNeverEnds(screenWidth: int, n: nat)
    requires 0 < screenWidth
    ensures SkySteps(n, 0).0 == 0 < screenWidth && !(0 > screenWidth - SkySteps(n, 0).0)
  {
    if n > 0 {
      ZeroWidthSkyNeverEnds(screenWidth, n - 1);
    }
  }
}
