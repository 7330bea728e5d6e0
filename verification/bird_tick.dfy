/**
 One frame of `flocking.js`: the `for (let bird of flock)` loop in `animate`,
 which calls `bird.update(flock)` on each bird. Each bird is updated in place
 and in array order, so a bird later in the array already sees the new
 position and velocity of every bird before it.
 */
module BirdTick {
  import opened Roots
  import opened Vector3
  import opened Birds
  import opened Frames

  /**
   What a frame leaves behind for one bird, relative to its position before
   the frame: it moved by its new velocity and was wrapped into the cube, and
   that velocity is at most 0.2 long.
   */
  ghost predicate Advanced(sqrt: real -> real, before: Bird, after: Bird)
    requires IsSqrt(sqrt)
  {
    && Length(sqrt, after.velocity) <= SpeedLimit
    && InCube(after.position)
    && after.position == WrapCube(Add(before.position, after.velocity))
  }

  /**
   The loop body for the bird at index `i`: it becomes `update` of itself
   against the array as it is now, and no other bird changes.
   */
  function StepBird(sqrt: real -> real, birds: seq<Bird>, i: nat): (r: seq<Bird>)
    requires IsSqrt(sqrt)
    requires i < |birds|
    ensures |r| == |birds|
    ensures forall j :: 0 <= j < |r| && j != i ==> r[j] == birds[j]
    ensures r[i] == Update(sqrt, birds, i)
    ensures Advanced(sqrt, birds[i], r[i])
  {
    birds[i := Update(sqrt, birds, i)]
  }

  /**
   The loop from index `i` to the end of the array. Each bird from `i` on is
   `update` of itself against the array as the loop reaches it: the birds
   before it already updated, the rest as they were.
   */
  function TickFrom(sqrt: real -> real, birds: seq<Bird>, i: nat): (r: seq<Bird>)
    requires IsSqrt(sqrt)
    requires i <= |birds|
    ensures |r| == |birds|
    ensures forall j :: 0 <= j < i ==> r[j] == birds[j]
    ensures forall j :: i <= j < |birds| ==> r[j] == Update(sqrt, Seen(r, birds, j), j)
    ensures forall j :: i <= j < |birds| ==> Advanced(sqrt, birds[j], r[j])
    decreases |birds| - i
  {
    if i == |birds| then
      birds
    else
      var next := StepBird(sqrt, birds, i);
      var r := TickFrom(sqrt, next, i + 1);
      TickFromStep(sqrt, birds, i, next, r);
      r
  }

  /** One step of `TickFrom`: the bird at `i` and those after it see what the loop shows them. */
  lemma TickFromStep(sqrt: real -> real, birds: seq<Bird>, i: nat, next: seq<Bird>, r: seq<Bird>)
    requires IsSqrt(sqrt)
    requires i < |birds| && next == birds[i := Update(sqrt, birds, i)]
    requires |r| == |birds|
    requires forall j :: 0 <= j < i + 1 ==> r[j] == next[j]
    requires forall j :: i + 1 <= j < |birds| ==> r[j] == Update(sqrt, Seen(r, next, j), j)
    ensures forall j :: i <= j < |birds| ==> r[j] == Update(sqrt, Seen(r, birds, j), j)
  {
    SeenUnchanged(r, birds, i);
    forall j | i < j < |birds|
      ensures r[j] == Update(sqrt, Seen(r, birds, j), j)
    {
      SeenPastUpdate(r, birds, i, Update(sqrt, birds, i), j);
    }
  }

  /**
   One frame. Every bird is `update` of itself against the array as the loop
   reaches it, so it sees the new state of every bird before it. Whatever the
   starting state, afterwards every bird is inside the cube and no faster
   than 0.2, and the array keeps its size and order.
   */
  function Tick(sqrt: real -> real, birds: seq<Bird>): (r: seq<Bird>)
    requires IsSqrt(sqrt)
    ensures |r| == |birds|
    ensures forall j :: 0 <= j < |birds| ==> r[j] == Update(sqrt, Seen(r, birds, j), j)
    ensures forall j :: 0 <= j < |birds| ==> Advanced(sqrt, birds[j], r[j])
  {
    TickFrom(sqrt, birds, 0)
  }

  /**
   A frame that reads one snapshot of the flock: every bird is updated against
   the flock as it was when the frame began. The script does not work this
   way; `BirdOrder.DiffersFromSnapshot` compares the two.
   */
  function SnapshotTick(sqrt: real -> real, birds: seq<Bird>): (r: seq<Bird>)
    requires IsSqrt(sqrt)
    ensures |r| == |birds|
    ensures forall j :: 0 <= j < |birds| ==> r[j] == Update(sqrt, birds, j)
    ensures forall j :: 0 <= j < |birds| ==> Advanced(sqrt, birds[j], r[j])
  {
    seq(|birds|, j requires 0 <= j < |birds| => Update(sqrt, birds, j))
  }
}
