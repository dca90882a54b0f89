/** The WS2812 test sign's frame buffer of 32-bit pixels, its halving decay,
    and the worm that walks the 32-LED topology and paints its trail. */
module Ws2812Strip {
  import opened Bits
  import opened Topology
  import opened WormSchedule
  import Ws2812Topology
  import opened Ws2812Colors

  /** The decay of one pixel in `decay_frame_buffer`: a nonzero pixel has its
      three channels halved and its top byte cleared, written as the
      firmware's shifts and ORs; a zero pixel is left alone. */
  function DecayPixel(c: u32): (r: u32)
    ensures c == 0 ==> r == 0
    ensures forall k :: 0 <= k < 3 ==> ByteOf(r, k) == ByteOf(c, k) / 2
    ensures ByteOf(r, 3) == 0
  {
    if c == 0 then 0
    else
      var c1, c2, c3 := ByteOf(c, 2), ByteOf(c, 1), ByteOf(c, 0);
      var r := ColorBrg(c2 / 2, c1 / 2, c3 / 2);
      assert r == Word(c3 / 2, c2 / 2, c1 / 2, 0);
      BytesOfWord(c3 / 2, c2 / 2, c1 / 2, 0);
      r
  }

  /** k successive decays of one pixel. */
  function DecayPixelTimes(c: u32, k: nat): u32
  {
    if k == 0 then c else DecayPixel(DecayPixelTimes(c, k - 1))
  }

  /** After k >= 1 decays each channel has been halved k times and the top
      byte is clear. */
  lemma {:induction false} DecayPixelTimesBytes(c: u32, k: nat)
    requires k >= 1
    ensures forall j :: 0 <= j < 3 ==> ByteOf(DecayPixelTimes(c, k), j) == ByteOf(c, j) / Pow2(k)
    ensures ByteOf(DecayPixelTimes(c, k), 3) == 0
  {
    if k > 1 {
      DecayPixelTimesBytes(c, k - 1);
      forall j | 0 <= j < 3
        ensures ByteOf(DecayPixelTimes(c, k), j) == ByteOf(c, j) / Pow2(k)
      {
        var b := ByteOf(c, j);
        assert Pow2(k) == 2 * Pow2(k - 1);
        assert (b / Pow2(k - 1)) / 2 == b / (Pow2(k - 1) * 2) by {
          DivDiv(b, Pow2(k - 1), 2);
        }
      }
    }
  }

  /** Dividing by a then by b is dividing by a * b. */
  lemma DivDiv(n: nat, a: nat, b: nat)
    requires a > 0 && b > 0
    ensures (n / a) / b == n / (a * b)
  {
    var q := n / a;
    var q2 := q / b;
    DivBounds(n, a);
    DivBounds(q, b);
    MulChain(a, b, q2, q, n);
    DivUnique(n, a * b, q2);
  }

  /** The quotient brackets the dividend. */
  lemma DivBounds(n: nat, d: nat)
    requires d > 0
    ensures d * (n / d) <= n < d * (n / d + 1)
  {
    assert n == d * (n / d) + n % d;
  }

  /** Two nested brackets multiply into one. */
  lemma MulChain(a: nat, b: nat, q2: nat, q: nat, n: nat)
    requires b * q2 <= q < b * (q2 + 1)
    requires a * q <= n < a * (q + 1)
    ensures (a * b) * q2 <= n < (a * b) * (q2 + 1)
  {
    MulLeMono(a, b * q2, q);
    assert a * (b * q2) == (a * b) * q2;
    MulLeMono(a, q + 1, b * (q2 + 1));
    assert a * (b * (q2 + 1)) == (a * b) * (q2 + 1);
  }

  lemma MulLeMono(a: nat, x: nat, y: nat)
    requires x <= y
    ensures a * x <= a * y
  {
    assert a * y - a * x == a * (y - x);
  }

  /** The quotient is the only value that brackets the dividend. */
  lemma DivUnique(n: nat, d: nat, q: nat)
    requires d > 0 && d * q <= n < d * (q + 1)
    ensures n / d == q
  {
    var r := n / d;
    DivBounds(n, d);
    if r > q {
      MulLeMono(d, q + 1, r);
    } else if r < q {
      MulLeMono(d, r + 1, q);
    }
  }

  /** Eight decays turn any pixel black. */
  lemma PixelDecaysToBlack(c: u32)
    ensures DecayPixelTimes(c, 8) == 0
  {
    DecayPixelTimesBytes(c, 8);
    assert Pow2(8) == 256 by { Pow2Facts(); }
    var d := DecayPixelTimes(c, 8);
    WordOfBytes(d);
    assert ByteOf(d, 0) == 0 && ByteOf(d, 1) == 0 && ByteOf(d, 2) == 0;
  }

  /** `decay_frame_buffer` on the whole frame. */
  function Decay(f: seq<u32>): (r: seq<u32>)
    ensures |r| == |f|
  {
    seq(|f|, i requires 0 <= i < |f| => DecayPixel(f[i]))
  }

  /** k successive decays of the frame. */
  function DecayTimes(f: seq<u32>, k: nat): (r: seq<u32>)
    ensures |r| == |f|
    ensures forall i :: 0 <= i < |f| ==> r[i] == DecayPixelTimes(f[i], k)
  {
    if k == 0 then f else Decay(DecayTimes(f, k - 1))
  }

  /** Eight decays — 48 ticks of the worm with no repainting — clear the
      frame. */
  lemma FrameDecaysToBlack(f: seq<u32>)
    ensures DecayTimes(f, 8) == seq(|f|, _ => 0)
  {
    forall i | 0 <= i < |f|
      ensures DecayTimes(f, 8)[i] == 0
    {
      PixelDecaysToBlack(f[i]);
    }
  }

  /** `set_fbpixel(pixel, color)` on the frame: a store guarded by
      `pixel < num_leds`. */
  function SetPixel(f: seq<u32>, pixel: byte, c: u32): (r: seq<u32>)
    requires |f| == NumLeds
    ensures |r| == NumLeds
    ensures pixel >= NumLeds ==> r == f
    ensures forall q :: 0 <= q < NumLeds ==> r[q] == if q == pixel then c else f[q]
  {
    if pixel < NumLeds then f[pixel := c] else f
  }

  /** The worm trail: the three tail positions, then the head, each through
      `set_fbpixel`. */
  function Trail(f: seq<u32>, w0: byte, w1: byte, w2: byte, w3: byte, speed: int, t: nat): (r: seq<u32>)
    requires |f| == NumLeds
    ensures |r| == NumLeds
  {
    var f1 := SetPixel(f, w1, WormColorBySpeed(speed, t, 1));
    var f2 := SetPixel(f1, w2, WormColorBySpeed(speed, t, 2));
    var f3 := SetPixel(f2, w3, WormColorBySpeed(speed, t, 3));
    SetPixel(f3, w0, WormColorBySpeed(speed, t, 0))
  }

  /** Since the head is painted last, it wins over any tail position it
      shares an LED with; the other tail positions get the tail colour; no
      other pixel changes. */
  lemma TrailPixels(f: seq<u32>, w0: byte, w1: byte, w2: byte, w3: byte, speed: int, t: nat, q: int)
    requires |f| == NumLeds && 0 <= q < NumLeds
    ensures Trail(f, w0, w1, w2, w3, speed, t)[q] ==
      if q == w0 then WormColorBySpeed(speed, t, 0)
      else if q == w1 || q == w2 || q == w3 then WormColorBySpeed(speed, t, 1)
      else f[q]
  {
    TailIndicesAgree(speed, t, 1, 2);
    TailIndicesAgree(speed, t, 1, 3);
  }

  /** The sign's global state: the frame buffer, the worm, and the stream of
      pixels `put_pixel` has sent to the LED string. */
  class Strip {
    const frame: array<u32>
    var speed: int
    var worm0: byte
    var worm1: byte
    var worm2: byte
    var worm3: byte
    var output: seq<u32>

    ghost predicate Valid()
      reads this
    {
      frame.Length == NumLeds && speed >= Floor && worm0 < NumLeds
    }

    /** The state at power-up: a zeroed frame, speed 60, and the worm at LED 6
        with an off-sign history. */
    constructor ()
      ensures Valid()
      ensures frame[..] == seq(NumLeds, _ => 0) && speed == 60 && output == []
      ensures worm0 == 6 && worm1 == NumLeds && worm2 == NumLeds && worm3 == NumLeds
    {
      frame := new u32[NumLeds](_ => 0);
      speed := 60;
      worm0, worm1, worm2, worm3 := 6, NumLeds, NumLeds, NumLeds;
      output := [];
    }

    /** `set_fbpixel(pixel, color)`. */
    method SetFbPixel(pixel: byte, color: u32)
      requires Valid()
      ensures Valid()
      modifies frame
      ensures frame[..] == SetPixel(old(frame[..]), pixel, color)
    {
      if pixel < NumLeds {
        frame[pixel] := color;
      }
    }

    /** `decay_frame_buffer`: halve the channels of every nonzero pixel. */
    method DecayFrameBuffer()
      requires Valid()
      ensures Valid()
      modifies frame
      ensures frame[..] == Decay(old(frame[..]))
    {
      var i := 0;
      while i < NumLeds
        invariant 0 <= i <= NumLeds
        invariant forall j :: 0 <= j < i ==> frame[j] == DecayPixel(old(frame[j]))
        invariant forall j :: i <= j < NumLeds ==> frame[j] == old(frame[j])
      {
        var c := frame[i];
        if c != 0 {
          var c1, c2, c3 := (c / 65536) % 256, (c / 256) % 256, c % 256;
          frame[i] := ColorBrg(c2 / 2, c1 / 2, c3 / 2);
        }
        i := i + 1;
      }
    }

    /** `paint_frame_buffer`: send the frame, pixel by pixel in index order. */
    method PaintFrameBuffer()
      requires Valid()
      modifies this`output
      ensures output == old(output) + frame[..]
    {
      var i := 0;
      while i < NumLeds
        invariant 0 <= i <= NumLeds
        invariant output == old(output) + frame[..i]
      {
        assert frame[..i + 1] == frame[..i] + [frame[i]];
        output := output + [frame[i]];
        i := i + 1;
      }
      assert frame[..NumLeds] == frame[..];
    }

    /** The hop of `worm_moves`: the history shifts by one and the new head
        is `random_next_pos(worm0, worm1, worm2)`, through the firmware's own
        four-entry neighbour buffer, which every list of this sign fits. */
    method Hop(draws: Draws) returns (rest: Draws)
      requires Valid() && |draws| >= MaxTries
      modifies this`worm0, this`worm1, this`worm2, this`worm3
      ensures Valid() && WellFormed(Ws2812Topology.Table)
      ensures (worm0 as int, rest) == NextPos(Ws2812Topology.Table, old(worm0), old(worm1), old(worm2), draws)
      ensures worm1 == old(worm0) && worm2 == old(worm1) && worm3 == old(worm2)
      ensures |draws| - MaxTries <= |rest| <= |draws|
    {
      Ws2812Topology.TableWellFormed();
      NextPosExclusion(Ws2812Topology.Table, worm0, worm1, worm2, draws);
      var newPos;
      newPos, rest := RandomNextPos(Ws2812Topology.Table, worm0, worm1, worm2, draws, Ws2812Topology.BufferSize);
      worm3 := worm2;
      worm2 := worm1;
      worm1 := worm0;
      worm0 := newPos;
    }

    /** The painting of `worm_moves`: the three tail positions, then the head. */
    method PaintTrail(t: nat)
      requires Valid()
      ensures Valid()
      modifies frame
      ensures frame[..] == Trail(old(frame[..]), worm0, worm1, worm2, worm3, speed, t)
    {
      SetFbPixel(worm1, WormColorBySpeed(speed, t, 1));
      SetFbPixel(worm2, WormColorBySpeed(speed, t, 2));
      SetFbPixel(worm3, WormColorBySpeed(speed, t, 3));
      SetFbPixel(worm0, WormColorBySpeed(speed, t, 0));
    }

    /** `worm_moves(t)`: one tick of the worm. The speed schedule runs first;
        every sixth tick the frame decays; on a hop tick the history shifts
        and the new head is drawn; then the trail is painted, head last, so
        the head's LED shows the head colour; and the frame is sent. */
    method WormMoves(t: nat, draws: Draws) returns (rest: Draws)
      requires Valid() && |draws| >= MaxTries
      modifies this, frame
      ensures Valid()
      ensures speed == NextSpeed(old(speed), t)
      ensures IsHop(speed, t) ==>
        && WellFormed(Ws2812Topology.Table)
        && (worm0 as int, rest) == NextPos(Ws2812Topology.Table, old(worm0), old(worm1), old(worm2), draws)
        && worm1 == old(worm0) && worm2 == old(worm1) && worm3 == old(worm2)
      ensures !IsHop(speed, t) ==>
        worm0 == old(worm0) && worm1 == old(worm1) && worm2 == old(worm2) && worm3 == old(worm3) && rest == draws
      ensures |draws| - MaxTries <= |rest| <= |draws|
      ensures frame[..] == Trail(if t % 6 == 0 then Decay(old(frame[..])) else old(frame[..]),
                                 worm0, worm1, worm2, worm3, speed, t)
      ensures frame[worm0] == WormColorBySpeed(speed, t, 0)
      ensures output == old(output) + frame[..]
    {
      if speed > 4 && t % 60 == 0 {
        speed := speed - 1;
      }
      if t % 6 == 0 {
        DecayFrameBuffer();
      }
      ghost var decayed := frame[..];
      rest := draws;
      if t % speed == 0 {
        rest := Hop(draws);
      }
      PaintTrail(t);
      TrailPixels(decayed, worm0, worm1, worm2, worm3, speed, t, worm0 as int);
      PaintFrameBuffer();
    }
  }
}
