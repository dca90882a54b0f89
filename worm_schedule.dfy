/** The worm's speed schedule, shared by both firmware variants' `worm_moves`:
    `speed` is the number of ticks between hops, and it drops by one every
    60 ticks until it reaches the floor of 4. */
module WormSchedule {
  import opened Bits

  const Floor := 4
  const Interval := 60

  /** The first statement of `worm_moves`: `if (speed > 4 && t % 60 == 0) speed -= 1`. */
  function NextSpeed(speed: int, t: nat): (s: int)
    ensures speed - 1 <= s <= speed
    ensures s < speed <==> speed > Floor && t % Interval == 0
    ensures speed >= Floor ==> s >= Floor
  {
    if speed > Floor && t % Interval == 0 then speed - 1 else speed
  }

  /** The worm hops on the ticks that are multiples of the current speed. */
  predicate IsHop(speed: int, t: nat)
    requires speed > 0
  {
    t % speed == 0
  }

  /** The speed after ticks 0 .. i-1 of a walk that starts at `start`: one
      decrement per multiple of 60 in that range, down to the floor. */
  function SpeedAfter(start: int, i: nat): (s: int)
    ensures start >= Floor ==> Floor <= s <= start
  {
    Max(Floor, start - (i + Interval - 1) / Interval)
  }

  /** One more tick moves the closed form exactly as `NextSpeed` does. */
  lemma SpeedAfterStep(start: int, i: nat)
    requires start >= Floor
    ensures NextSpeed(SpeedAfter(start, i), i) == SpeedAfter(start, i + 1)
  {
    var k := (i + Interval - 1) / Interval;
    var k' := (i + Interval) / Interval;
    if i % Interval == 0 {
      assert i == Interval * (i / Interval);
      assert k == i / Interval;
      assert k' == i / Interval + 1;
    } else {
      assert k' == k;
    }
  }

  /** The 4800-tick walk that starts at speed 60 ends at the floor. */
  lemma WalkEndsAtFloor()
    ensures SpeedAfter(60, 4800) == Floor
  {
  }
}
