/**
 One frame of `boids.js`: the body of the `for (let boid of flock)` loop in
 `animate`, which runs `edges`, `flock` and `update` on each boid in turn and
 in place. A boid later in the array therefore already sees the new state of
 every boid before it.
 */
module BoidTick {
  import opened Roots
  import opened Vector2
  import opened Boids
  import opened Frames

  /** Every boid's speed cap is non-negative (the script sets it to 4). */
  predicate WellFormed(flock: seq<Boid>) {
    forall j :: 0 <= j < |flock| ==> 0.0 <= flock[j].maxSpeed
  }

  /** What a frame leaves behind for one boid, relative to its state before the frame. */
  ghost predicate Advanced(sqrt: real -> real, before: Boid, after: Boid, width: real, height: real)
    requires IsSqrt(sqrt)
  {
    && after.position == Add(Edges(before, width, height).position, before.velocity)
    && after.acceleration == Zero
    && after.maxSpeed == before.maxSpeed
    && after.maxForce == before.maxForce
    && Len(sqrt, after.velocity) <= after.maxSpeed
  }

  /**
   What the loop body makes of the boid at index `j`, given the flock as the
   loop reaches it: `edges`, then `flock` against the flock holding the
   wrapped boid, then `update`.
   */
  function Visit(sqrt: real -> real, width: real, height: real, seen: seq<Boid>, j: nat): (r: Boid)
    requires IsSqrt(sqrt)
    requires j < |seen| && 0.0 <= seen[j].maxSpeed
    ensures Advanced(sqrt, seen[j], r, width, height)
  {
    Update(sqrt, Flock(sqrt, seen[j := Edges(seen[j], width, height)], j))
  }

  /**
   The loop body for the boid at index `i`. The boid is wrapped in place, then
   steered against the flock holding the wrapped boid, then moved. No other
   boid changes.
   */
  function StepBoid(sqrt: real -> real, width: real, height: real, flock: seq<Boid>, i: nat): (r: seq<Boid>)
    requires IsSqrt(sqrt)
    requires i < |flock| && 0.0 <= flock[i].maxSpeed
    ensures |r| == |flock|
    ensures forall j :: 0 <= j < |r| && j != i ==> r[j] == flock[j]
    ensures r[i] == Visit(sqrt, width, height, flock, i)
    ensures Advanced(sqrt, flock[i], r[i], width, height)
  {
    var edged := flock[i := Edges(flock[i], width, height)];
    var steered := edged[i := Flock(sqrt, edged, i)];
    steered[i := Update(sqrt, steered[i])]
  }

  /**
   The loop from index `i` to the end of the flock. Each boid from `i` on is
   wrapped, then steered against the flock as the loop reaches it (the boids
   before it already updated, itself wrapped, the rest as they were), then
   moved.
   */
  function TickFrom(sqrt: real -> real, width: real, height: real, flock: seq<Boid>, i: nat): (r: seq<Boid>)
    requires IsSqrt(sqrt)
    requires i <= |flock| && WellFormed(flock)
    ensures |r| == |flock| && WellFormed(r)
    ensures forall j :: 0 <= j < i ==> r[j] == flock[j]
    ensures forall j :: i <= j < |flock| ==> r[j] == Visit(sqrt, width, height, Seen(r, flock, j), j)
    ensures forall j :: i <= j < |flock| ==> Advanced(sqrt, flock[j], r[j], width, height)
    decreases |flock| - i
  {
    if i == |flock| then
      flock
    else
      var next := StepBoid(sqrt, width, height, flock, i);
      var r := TickFrom(sqrt, width, height, next, i + 1);
      TickFromStep(sqrt, width, height, flock, i, next, r);
      r
  }

  /** One step of `TickFrom`: the boid at `i` and those after it see what the loop shows them. */
  lemma TickFromStep(sqrt: real -> real, width: real, height: real, flock: seq<Boid>, i: nat, next: seq<Boid>, r: seq<Boid>)
    requires IsSqrt(sqrt)
    requires i < |flock| && WellFormed(flock)
    requires next == flock[i := Visit(sqrt, width, height, flock, i)]
    requires |r| == |flock|
    requires forall j :: 0 <= j < i + 1 ==> r[j] == next[j]
    requires forall j :: i + 1 <= j < |flock| ==> r[j] == Visit(sqrt, width, height, Seen(r, next, j), j)
    ensures forall j :: i <= j < |flock| ==> r[j] == Visit(sqrt, width, height, Seen(r, flock, j), j)
  {
    SeenUnchanged(r, flock, i);
    forall j | i < j < |flock|
      ensures r[j] == Visit(sqrt, width, height, Seen(r, flock, j), j)
    {
      SeenPastUpdate(r, flock, i, next[i], j);
    }
  }

  /**
   One frame. Every boid is wrapped, steered against the flock as the loop
   reaches it, and moved, so it sees the new state of every boid before it.
   Every boid has been wrapped and then moved by the velocity it had before
   the frame; its acceleration is cleared and its speed is within
   its cap. The flock keeps its size and order.
   */
  function Tick(sqrt: real -> real, width: real, height: real, flock: seq<Boid>): (r: seq<Boid>)
    requires IsSqrt(sqrt)
    requires WellFormed(flock)
    ensures |r| == |flock| && WellFormed(r)
    ensures forall j :: 0 <= j < |flock| ==> r[j] == Visit(sqrt, width, height, Seen(r, flock, j), j)
    ensures forall j :: 0 <= j < |flock| ==> Advanced(sqrt, flock[j], r[j], width, height)
  {
    TickFrom(sqrt, width, height, flock, 0)
  }

  /**
   `edges` runs before `update` moves the boid, so a frame can end with a boid
   off the canvas: a lone boid on the right border moving right ends one unit
   past it (the next frame's `edges` wraps it back).
   */
  lemma TickCanLeaveCanvas(sqrt: real -> real)
    requires IsSqrt(sqrt)
    ensures var after := Tick(sqrt, 100.0, 100.0, [Boid(Vec2(100.0, 0.0), Vec2(1.0, 0.0), Zero, 4.0, 0.1)]);
      && after[0].position == Vec2(101.0, 0.0)
      && !OnCanvas(after[0].position, 100.0, 100.0)
  {
  }
}
