/**
  `TrackPlan.generate`: grass tufts and barriers at random spacings up to
  the total distance, a flag at the total distance, all sorted by
  distance. Every `random.uniform` draw comes from a stream given as a
  function from the draw's position to its value.
*/
module Tracks {
  import opened Options

  datatype Kind = Grass | Barrier | Flag

  /** `TrackEvent(kind, distance, y_frac)`; `y_frac` is `None` for barriers and the flag. */
  datatype TrackEvent = TrackEvent(kind: Kind, distance: real, yFrac: Option<real>)

  datatype TrackPlan = TrackPlan(skyBackground: Option<string>, events: seq<TrackEvent>, totalDistance: real)

  /** The grass band `[GRASS_MIN_Y_FRAC, GRASS_MAX_Y_FRAC]` and the horse
      shadow band `(HORSE_SHADOW_MIN_Y_FRAC, HORSE_SHADOW_MAX_Y_FRAC)`. */
  datatype Bands = Bands(grassMin: real, grassMax: real, shadowMin: real, shadowMax: real)

  /** A height strictly inside the shadow band, which grass must avoid. */
  predicate InShadow(y: real, b: Bands)
  {
    b.shadowMin < y < b.shadowMax
  }

  /** From draw `i` on, some draw lies outside the shadow band. */
  ghost predicate AcceptedFrom(draws: nat -> real, b: Bands, i: nat)
  {
    exists j: nat :: i <= j && !InShadow(draws(j), b)
  }

  /** `y` is one of the values of the stream. */
  ghost predicate Drawn(y: real, draws: nat -> real)
  {
    exists k: nat :: y == draws(k)
  }

  /** The distance after the first `n` steps. */
  function Travel(steps: nat -> real, n: nat): real
  {
    if n == 0 then 0.0 else Travel(steps, n - 1) + steps(n - 1)
  }

  /** With steps of at least `lo`, distances grow by at least `lo` each step. */
  lemma {:induction false} TravelGrows(steps: nat -> real, lo: real, m: nat, n: nat)
    requires forall i: nat :: lo <= steps(i)
    requires m <= n
    ensures Travel(steps, m) + (n - m) as real * lo <= Travel(steps, n)
    decreases n - m
  {
    if m < n {
      TravelGrows(steps, lo, m, n - 1);
    }
  }

  predicate SteppedBy(events: seq<TrackEvent>, steps: nat -> real)
  {
    forall i :: 0 <= i < |events| ==> events[i].distance == Travel(steps, i + 1)
  }

  /** Distances from positive steps strictly increase along the list. */
  lemma SteppedIncreasing(events: seq<TrackEvent>, steps: nat -> real, lo: real)
    requires 0.0 < lo && (forall i: nat :: lo <= steps(i)) && SteppedBy(events, steps)
    ensures forall i, j :: 0 <= i < j < |events| ==> events[i].distance + lo <= events[j].distance
  {
    forall i, j | 0 <= i < j < |events| ensures events[i].distance + lo <= events[j].distance {
      TravelGrows(steps, lo, i + 1, j + 1);
    }
  }

  /** The rejection loop for a grass height: draw until the value is
      outside the shadow band. Draws `i` to `next - 1` are consumed. */
  method DrawHeight(draws: nat -> real, b: Bands, i: nat) returns (y: real, next: nat)
    requires forall k: nat :: AcceptedFrom(draws, b, k)
    ensures i < next && y == draws(next - 1) && !InShadow(y, b)
    ensures forall k :: i <= k < next - 1 ==> InShadow(draws(k), b)
  {
    assert AcceptedFrom(draws, b, i);
    ghost var j: nat :| i <= j && !InShadow(draws(j), b);
    y := draws(i);
    next := i + 1;
    while y > b.shadowMin && y < b.shadowMax
      invariant i < next <= j + 1 && y == draws(next - 1)
      invariant forall k :: i <= k < next - 1 ==> InShadow(draws(k), b)
      decreases j + 1 - next
    {
      y := draws(next);
      next := next + 1;
    }
  }

  /** A real quotient drops by at least one when the numerator drops by the divisor. */
  lemma QuotientDrops(a: real, s: real, lo: real)
    requires 0.0 < lo <= s
    ensures ((a - s) / lo).Floor < (a / lo).Floor
  {
    assert (a - s) / lo <= a / lo - 1.0 by {
      assert (a - s) / lo == a / lo - s / lo;
      assert s / lo >= 1.0;
    }
  }

  lemma QuotientNonNegative(a: real, lo: real)
    requires 0.0 < lo && 0.0 < a
    ensures 0 <= (a / lo).Floor
  {
  }

  /** The grass loop: step forward, stop once the total is reached,
      otherwise draw a height outside the shadow band. */
  method GrassEvents(total: real, minSpacing: real, maxSpacing: real, steps: nat -> real,
                     draws: nat -> real, b: Bands)
    returns (events: seq<TrackEvent>)
    requires 0.0 < minSpacing && forall i: nat :: minSpacing <= steps(i) <= maxSpacing
    requires forall k: nat :: AcceptedFrom(draws, b, k)
    ensures SteppedBy(events, steps) && Travel(steps, |events| + 1) >= total
    ensures forall i :: 0 <= i < |events| ==>
      && events[i].kind == Grass && events[i].distance < total
      && events[i].yFrac.Some? && !InShadow(events[i].yFrac.value, b)
    ensures forall i :: 0 <= i < |events| ==> Drawn(events[i].yFrac.value, draws)
    ensures (forall k: nat :: b.grassMin <= draws(k) <= b.grassMax) ==>
      forall i :: 0 <= i < |events| ==> b.grassMin <= events[i].yFrac.value <= b.grassMax
  {
    events := [];
    var d := 0.0;
    var n: nat := 0;
    ghost var used: seq<nat> := [];
    while d < total
      invariant d == Travel(steps, |events|) && SteppedBy(events, steps)
      invariant forall i :: 0 <= i < |events| ==>
        && events[i].kind == Grass && events[i].distance < total
        && events[i].yFrac.Some? && !InShadow(events[i].yFrac.value, b)
      invariant |used| == |events| && forall i :: 0 <= i < |events| ==> events[i].yFrac.value == draws(used[i])
      decreases ((total - d) / minSpacing).Floor
    {
      QuotientNonNegative(total - d, minSpacing);
      QuotientDrops(total - d, steps(|events|), minSpacing);
      d := d + steps(|events|);
      if d >= total {
        break;
      }
      var y;
      y, n := DrawHeight(draws, b, n);
      used := used + [n - 1];
      events := events + [TrackEvent(Grass, d, Some(y))];
    }
    forall i | 0 <= i < |events| ensures Drawn(events[i].yFrac.value, draws) {
      assert events[i].yFrac.value == draws(used[i]);
    }
  }

  /** The barrier loop: the same stepping, without a height. */
  method BarrierEvents(total: real, minSpacing: real, maxSpacing: real, steps: nat -> real)
    returns (events: seq<TrackEvent>)
    requires 0.0 < minSpacing && forall i: nat :: minSpacing <= steps(i) <= maxSpacing
    ensures SteppedBy(events, steps) && Travel(steps, |events| + 1) >= total
    ensures forall i :: 0 <= i < |events| ==>
      events[i].kind == Barrier && events[i].distance < total && events[i].yFrac.None?
  {
    events := [];
    var d := 0.0;
    while d < total
      invariant d == Travel(steps, |events|) && SteppedBy(events, steps)
      invariant forall i :: 0 <= i < |events| ==>
        events[i].kind == Barrier && events[i].distance < total && events[i].yFrac.None?
      decreases ((total - d) / minSpacing).Floor
    {
      QuotientNonNegative(total - d, minSpacing);
      QuotientDrops(total - d, steps(|events|), minSpacing);
      d := d + steps(|events|);
      if d >= total {
        break;
      }
      events := events + [TrackEvent(Barrier, d, None)];
    }
  }

  predicate Sorted(s: seq<TrackEvent>)
  {
    forall i, j :: 0 <= i < j < |s| ==> s[i].distance <= s[j].distance
  }

  /** Insert `e` after every element whose distance is not larger. */
  function Insert(s: seq<TrackEvent>, e: TrackEvent): (r: seq<TrackEvent>)
    ensures multiset(r) == multiset(s) + multiset{e}
    decreases |s|
  {
    if |s| == 0 || s[|s| - 1].distance <= e.distance then s + [e]
    else
      assert s == s[..|s| - 1] + [s[|s| - 1]];
      Insert(s[..|s| - 1], e) + [s[|s| - 1]]
  }

  /** Inserting into a sorted list keeps it sorted. */
  lemma {:induction false} InsertSorted(s: seq<TrackEvent>, e: TrackEvent)
    requires Sorted(s)
    ensures Sorted(Insert(s, e))
    decreases |s|
  {
    if |s| > 0 && s[|s| - 1].distance > e.distance {
      var init, last := s[..|s| - 1], s[|s| - 1];
      InsertSorted(init, e);
      var r := Insert(init, e);
      forall i | 0 <= i < |r| ensures r[i].distance <= last.distance {
        assert r[i] in multiset(r);
        if r[i] != e {
          assert r[i] in multiset(init);
          var k :| 0 <= k < |init| && init[k] == r[i];
          assert s[k] == init[k];
        }
      }
      assert Insert(s, e) == r + [last];
    }
  }

  /** `events.sort(key=lambda e: e.distance)`: a sorted rearrangement. */
  function SortByDistance(s: seq<TrackEvent>): (r: seq<TrackEvent>)
    ensures Sorted(r) && multiset(r) == multiset(s)
  {
    if |s| == 0 then []
    else
      assert s == s[..|s| - 1] + [s[|s| - 1]];
      var init := SortByDistance(s[..|s| - 1]);
      InsertSorted(init, s[|s| - 1]);
      Insert(init, s[|s| - 1])
  }

  /** Every element of `s` other than the one at `k` is an element of `others`
      when `s` holds `others` plus `s[k]`. */
  lemma ExceptAt(s: seq<TrackEvent>, k: nat, others: seq<TrackEvent>)
    requires k < |s| && multiset(s) == multiset(others) + multiset{s[k]}
    ensures forall j :: 0 <= j < |s| && j != k ==> s[j] in others
  {
    var rest := s[..k] + s[k + 1..];
    assert s == s[..k] + [s[k]] + s[k + 1..];
    assert multiset(rest) == multiset(s) - multiset{s[k]};
    forall j | 0 <= j < |s| && j != k ensures s[j] in others {
      if j < k { assert s[j] == rest[j]; } else { assert s[j] == rest[j - 1]; }
      assert s[j] in multiset(rest);
    }
  }

  /** In a sorted arrangement of events that are all nearer than `total`
      plus one flag at `total`, the flag comes last and only there. */
  lemma FlagLast(s: seq<TrackEvent>, others: seq<TrackEvent>, flag: TrackEvent)
    requires Sorted(s) && multiset(s) == multiset(others + [flag])
    requires flag.kind == Flag
    requires forall e :: e in others ==> e.kind != Flag && e.distance < flag.distance
    ensures |s| > 0 && s[|s| - 1] == flag
    ensures forall j :: 0 <= j < |s| - 1 ==> s[j] in others
  {
    assert multiset(others + [flag]) == multiset(others) + multiset{flag};
    assert flag in multiset(s);
    var k :| 0 <= k < |s| && s[k] == flag;
    ExceptAt(s, k, others);
    assert flag.distance <= s[|s| - 1].distance;
    assert k == |s| - 1;
  }

  /** `TrackPlan.generate`, with the background chosen by the caller. */
  method Generate(total: real, minGrass: real, maxGrass: real, minBarrier: real, maxBarrier: real,
                  grassSteps: nat -> real, heights: nat -> real, barrierSteps: nat -> real,
                  b: Bands, sky: Option<string>)
    returns (plan: TrackPlan, ghost grass: seq<TrackEvent>, ghost barriers: seq<TrackEvent>)
    requires 0.0 < minGrass && forall i: nat :: minGrass <= grassSteps(i) <= maxGrass
    requires 0.0 < minBarrier && forall i: nat :: minBarrier <= barrierSteps(i) <= maxBarrier
    requires forall k: nat :: AcceptedFrom(heights, b, k)
    ensures plan.totalDistance == total && plan.skyBackground == sky
    ensures Sorted(plan.events)
    ensures |plan.events| > 0 && plan.events[|plan.events| - 1] == TrackEvent(Flag, total, None)
    ensures forall j :: 0 <= j < |plan.events| - 1 ==>
      && plan.events[j].kind != Flag && plan.events[j].distance < total
      && (plan.events[j].kind == Grass ==> plan.events[j].yFrac.Some? && !InShadow(plan.events[j].yFrac.value, b))
      && (plan.events[j].kind == Barrier ==> plan.events[j].yFrac.None?)
    ensures multiset(plan.events) == multiset(grass + barriers + [TrackEvent(Flag, total, None)])
    ensures SteppedBy(grass, grassSteps) && Travel(grassSteps, |grass| + 1) >= total
    ensures forall i :: 0 <= i < |grass| ==>
      && grass[i].kind == Grass && grass[i].distance < total
      && grass[i].yFrac.Some? && !InShadow(grass[i].yFrac.value, b)
      && Drawn(grass[i].yFrac.value, heights)
    ensures SteppedBy(barriers, barrierSteps) && Travel(barrierSteps, |barriers| + 1) >= total
    ensures forall i :: 0 <= i < |barriers| ==>
      barriers[i].kind == Barrier && barriers[i].distance < total && barriers[i].yFrac.None?
  {
    var grassTufts := GrassEvents(total, minGrass, maxGrass, grassSteps, heights, b);
    var barrierList := BarrierEvents(total, minBarrier, maxBarrier, barrierSteps);
    grass, barriers := grassTufts, barrierList;
    var flag := TrackEvent(Flag, total, None);
    var others := grassTufts + barrierList;
    var events := others + [flag];
    var sorted := SortByDistance(events);
    FlagLast(sorted, others, flag);
    plan := TrackPlan(sky, sorted, total);
  }
}
