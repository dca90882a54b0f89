/** The LED sign's physical topology and the worm's random step across it,
    `random_next_pos`, which both firmware variants implement identically over
    their own tables.

    A topology is a compressed adjacency table: `refs[at]` is either
    NO_NEIGHBORS (255), meaning "only the linear neighbours at-1 and at+1,
    clamped to the string", or an offset into `nodes`, where `nodes[offset]`
    is a count n followed by n neighbour ids. */
module Topology {
  import opened Bits

  const NoNeighbors := 255
  /** The number of random draws `random_next_pos` makes before it gives up. */
  const MaxTries := 10

  /** The values `rand()` returns, in order; an operation consumes a prefix
      and hands back the rest. */
  type Draws = seq<nat>

  datatype Tables = Tables(numLeds: nat, refs: seq<byte>, nodes: seq<byte>)

  /** The entry of node `at` can be read: a NO_NEIGHBORS marker, or an offset
      whose count and whole list lie inside `nodes`. */
  predicate EntryInBounds(t: Tables, at: int)
    requires 0 <= at < |t.refs|
  {
    var e := t.refs[at];
    e == NoNeighbors || (e < |t.nodes| && e + 1 + t.nodes[e] <= |t.nodes|)
  }

  /** The fallback neighbours of a node without an entry. */
  function LinearNeighbors(numLeds: nat, at: int): seq<int>
  {
    (if at > 0 then [at - 1] else []) + (if at < numLeds - 1 then [at + 1] else [])
  }

  /** The neighbour list `random_next_pos` builds for node `at`, in table order. */
  function Neighbors(t: Tables, at: int): seq<int>
    requires 0 <= at < |t.refs| && EntryInBounds(t, at)
  {
    var e := t.refs[at];
    if e == NoNeighbors then LinearNeighbors(t.numLeds, at)
    else t.nodes[e + 1 .. e + 1 + t.nodes[e]]
  }

  /** A table the walker can use: one entry per LED, every entry readable,
      every node with at least one neighbour, every neighbour a valid LED. */
  predicate WellFormed(t: Tables)
  {
    && t.numLeds >= 2
    && |t.refs| == t.numLeds
    && forall at :: 0 <= at < |t.refs| ==> EntryInBounds(t, at) && NeighborsValid(t, at)
  }

  predicate NeighborsValid(t: Tables, at: int)
    requires 0 <= at < |t.refs| && EntryInBounds(t, at)
  {
    var ns := Neighbors(t, at);
    |ns| >= 1 && forall k :: 0 <= k < |ns| ==> 0 <= ns[k] < t.numLeds
  }

  /** The acceptance test on a drawn candidate, as written: not one of the two
      excluded nodes, and `cand >= 0 && cand <= num_leds`. */
  predicate Acceptable(cand: int, exclude: int, exclude2: int, numLeds: nat)
  {
    cand != exclude && cand != exclude2 && cand >= 0 && cand <= numLeds
  }

  /** The bounded retry loop: draw an index modulo the list length, accept the
      first acceptable candidate, and fall back to `ns[0]` once the tries are
      spent. Returns the chosen node and the unused draws. */
  function Pick(ns: seq<int>, exclude: int, exclude2: int, numLeds: nat, draws: Draws, tries: nat): (int, Draws)
    requires |ns| >= 1 && |draws| >= tries
  {
    if tries == 0 then (ns[0], draws)
    else
      var cand := ns[draws[0] % |ns|];
      if Acceptable(cand, exclude, exclude2, numLeds) then (cand, draws[1..])
      else Pick(ns, exclude, exclude2, numLeds, draws[1..], tries - 1)
  }

  /** `random_next_pos(at, exclude, exclude2)`: the sole neighbour if there is
      exactly one, otherwise the result of the bounded retry loop. */
  function NextPos(t: Tables, at: int, exclude: int, exclude2: int, draws: Draws): (int, Draws)
    requires WellFormed(t) && 0 <= at < t.numLeds && |draws| >= MaxTries
  {
    var ns := Neighbors(t, at);
    assert NeighborsValid(t, at);
    if |ns| == 1 then (ns[0], draws)
    else Pick(ns, exclude, exclude2, t.numLeds, draws, MaxTries)
  }

  /** The first half of `random_next_pos`: its local `uint8_t neighbors[cap]`
      buffer, filled in a loop from the table or by the linear fallback. The
      firmware never checks that the list fits the buffer; here that is
      stated as a requirement. */
  method CollectNeighbors(t: Tables, at: int, cap: nat) returns (neighbors: array<int>, num: int)
    requires WellFormed(t) && 0 <= at < t.numLeds
    requires |Neighbors(t, at)| <= cap
    ensures fresh(neighbors) && neighbors.Length == cap
    ensures 0 <= num <= cap && neighbors[..num] == Neighbors(t, at)
  {
    assert EntryInBounds(t, at);
    neighbors := new int[cap];
    num := 0;
    var entry: int := t.refs[at];
    if entry == NoNeighbors {
      if at > 0 {
        neighbors[num] := at - 1;
        num := num + 1;
      }
      if at < t.numLeds - 1 {
        neighbors[num] := at + 1;
        num := num + 1;
      }
    } else {
      var ns: int := t.nodes[entry];
      var i := entry + 1;
      while i < entry + ns + 1
        invariant entry + 1 <= i <= entry + ns + 1
        invariant num == i - entry - 1
        invariant neighbors[..num] == t.nodes[entry + 1 .. i]
      {
        neighbors[num] := t.nodes[i];
        num := num + 1;
        i := i + 1;
      }
    }
  }

  /** `random_next_pos(at, exclude, exclude2)`: collect the neighbours, answer
      with the sole one if there is exactly one, otherwise try up to ten draws. */
  method RandomNextPos(t: Tables, at: int, exclude: int, exclude2: int, draws: Draws, cap: nat)
    returns (next: int, rest: Draws)
    requires WellFormed(t) && 0 <= at < t.numLeds
    requires |Neighbors(t, at)| <= cap
    requires |draws| >= MaxTries
    ensures (next, rest) == NextPos(t, at, exclude, exclude2, draws)
    ensures 0 <= next < t.numLeds
  {
    var neighbors, num := CollectNeighbors(t, at, cap);
    ghost var list := neighbors[..num];
    assert NeighborsValid(t, at);
    NextPosIsNeighbor(t, at, exclude, exclude2, draws);
    if num == 1 {
      return neighbors[0], draws;
    }
    rest := draws;
    var i := 0;
    while i < MaxTries
      invariant 0 <= i <= MaxTries
      invariant |rest| == |draws| - i
      invariant neighbors[..num] == list
      invariant Pick(list, exclude, exclude2, t.numLeds, rest, MaxTries - i)
             == Pick(list, exclude, exclude2, t.numLeds, draws, MaxTries)
    {
      var idx := rest[0] % num;
      var cand := neighbors[idx];
      rest := rest[1..];
      if cand != exclude && cand != exclude2 && cand >= 0 && cand <= t.numLeds {
        return cand, rest;
      }
      i := i + 1;
    }
    return neighbors[0], rest;
  }

  /** The retry loop only ever answers with a list member. */
  lemma {:induction false} PickIsMember(ns: seq<int>, exclude: int, exclude2: int, numLeds: nat, draws: Draws, tries: nat)
    requires |ns| >= 1 && |draws| >= tries
    ensures Pick(ns, exclude, exclude2, numLeds, draws, tries).0 in ns
  {
    if tries > 0 && !Acceptable(ns[draws[0] % |ns|], exclude, exclude2, numLeds) {
      PickIsMember(ns, exclude, exclude2, numLeds, draws[1..], tries - 1);
    }
  }

  /** The retry loop, characterised draw by draw: it consumes between one and
      `tries` draws; every draw but the last it consumed selected a rejected
      candidate; the last one either selected the accepted answer, or was
      rejected too, in which case all `tries` draws were spent and the answer
      is `ns[0]`. */
  lemma {:induction false} PickConsumes(ns: seq<int>, exclude: int, exclude2: int, numLeds: nat, draws: Draws, tries: nat)
    requires |ns| >= 1 && |draws| >= tries >= 1
    ensures var (r, rest) := Pick(ns, exclude, exclude2, numLeds, draws, tries);
            var used := |draws| - |rest|;
            && 1 <= used <= tries
            && rest == draws[used..]
            && (forall j :: 0 <= j < used - 1 ==> !Acceptable(ns[draws[j] % |ns|], exclude, exclude2, numLeds))
            && (Acceptable(ns[draws[used - 1] % |ns|], exclude, exclude2, numLeds) ==> r == ns[draws[used - 1] % |ns|])
            && (!Acceptable(ns[draws[used - 1] % |ns|], exclude, exclude2, numLeds) ==> used == tries && r == ns[0])
  {
    var cand := ns[draws[0] % |ns|];
    if !Acceptable(cand, exclude, exclude2, numLeds) && tries > 1 {
      var tail := draws[1..];
      PickConsumes(ns, exclude, exclude2, numLeds, tail, tries - 1);
      var (r, rest) := Pick(ns, exclude, exclude2, numLeds, tail, tries - 1);
      var used := |tail| - |rest|;
      assert tail[used..] == draws[used + 1..];
      forall j | 0 <= j < used
        ensures !Acceptable(ns[draws[j] % |ns|], exclude, exclude2, numLeds)
      {
        if j > 0 {
          assert draws[j] == tail[j - 1];
        }
      }
      assert draws[used] == tail[used - 1];
    }
  }

  /** `random_next_pos` always answers with a neighbour of `at`. */
  lemma NextPosIsNeighbor(t: Tables, at: int, exclude: int, exclude2: int, draws: Draws)
    requires WellFormed(t) && 0 <= at < t.numLeds && |draws| >= MaxTries
    ensures NextPos(t, at, exclude, exclude2, draws).0 in Neighbors(t, at)
    ensures 0 <= NextPos(t, at, exclude, exclude2, draws).0 < t.numLeds
  {
    assert NeighborsValid(t, at);
    var ns := Neighbors(t, at);
    if |ns| != 1 {
      PickIsMember(ns, exclude, exclude2, t.numLeds, draws, MaxTries);
    }
  }

  /** A node with a single neighbour answers with it unconditionally, ignoring
      both exclusions and consuming no draws. Otherwise the answer avoids both
      excluded nodes, unless ten rejected draws forced the fallback to the
      first neighbour; and at most ten draws are consumed. */
  lemma NextPosExclusion(t: Tables, at: int, exclude: int, exclude2: int, draws: Draws)
    requires WellFormed(t) && 0 <= at < t.numLeds && |draws| >= MaxTries
    ensures var (r, rest) := NextPos(t, at, exclude, exclude2, draws);
            var ns := Neighbors(t, at);
            && |ns| >= 1
            && (|ns| == 1 ==> r == ns[0] && rest == draws)
            && (|ns| != 1 ==> (r != exclude && r != exclude2) || (r == ns[0] && rest == draws[MaxTries..]))
            && |draws| - MaxTries <= |rest| <= |draws|
            && rest == draws[|draws| - |rest|..]
  {
    assert NeighborsValid(t, at);
    var ns := Neighbors(t, at);
    if |ns| != 1 {
      PickConsumes(ns, exclude, exclude2, t.numLeds, draws, MaxTries);
    }
  }

  /** Under a well-formed table the `cand <= num_leds` bound never rejects a
      candidate, so acceptance is exactly avoidance of the two excluded nodes. */
  lemma AcceptanceIsExclusion(t: Tables, at: int, k: int, exclude: int, exclude2: int)
    requires WellFormed(t) && 0 <= at < t.numLeds
    requires 0 <= k < |Neighbors(t, at)|
    ensures Acceptable(Neighbors(t, at)[k], exclude, exclude2, t.numLeds)
        <==> Neighbors(t, at)[k] != exclude && Neighbors(t, at)[k] != exclude2
  {
    assert NeighborsValid(t, at);
  }
}
