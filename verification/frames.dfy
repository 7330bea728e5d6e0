/**
 The flock as one agent sees it in the middle of an in-place frame. Both
 scripts update the agents of one array in array order, so while the agent
 at index `j` runs, every agent before it already holds its new value and
 every agent from `j` on still holds the value it had when the frame began.
 */
module Frames {

  /** The agents before `j` from `done`, the agents from `j` on from `start`. */
  function Seen<T>(done: seq<T>, start: seq<T>, j: nat): (r: seq<T>)
    requires j <= |done| && j <= |start|
    ensures |r| == |start|
    ensures forall k :: 0 <= k < j ==> r[k] == done[k]
    ensures forall k :: j <= k < |start| ==> r[k] == start[k]
  {
    done[..j] + start[j..]
  }

  /** Before any agent before `j` has changed, the agent at `j` sees the frame's start. */
  lemma SeenUnchanged<T>(done: seq<T>, start: seq<T>, j: nat)
    requires j <= |done| && j <= |start|
    requires forall k :: 0 <= k < j ==> done[k] == start[k]
    ensures Seen(done, start, j) == start
  {
    var s := Seen(done, start, j);
    assert forall k :: 0 <= k < |start| ==> s[k] == start[k];
  }

  /**
   Changing the agent at `i` in the starting array does not change what an
   agent after `i` sees: by then the agent at `i` comes from `done`.
   */
  lemma SeenPastUpdate<T>(done: seq<T>, start: seq<T>, i: nat, x: T, j: nat)
    requires i < j <= |done| && j <= |start|
    ensures Seen(done, start[i := x], j) == Seen(done, start, j)
  {
    var a := Seen(done, start[i := x], j);
    var b := Seen(done, start, j);
    assert forall k :: 0 <= k < |start| ==> a[k] == b[k];
  }
}
