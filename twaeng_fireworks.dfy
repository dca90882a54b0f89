/** The fireworks of the twaeng_pop sign: four rockets climb their paths of
    LEDs one step every 140 ticks, then burst, either lighting their letter
    or (in fizzle mode) sparkling on two random LEDs of it. */
module TwaengFireworks {
  import opened Bits
  import opened Topology
  import opened Palette
  import opened TwaengColors
  import opened TwaengSign

  /** Ticks of one fireworks run, and the periods of its decay and its steps. */
  const RunTicks := 2200
  const DecayPeriod := 20
  const StepPeriod := 140
  /** The colour a rocket is reset to, COLOR_BRG(25, 5, 0). */
  const LaunchBase: u32 := 0x05_19_00
  /** A lit letter stays lit while its rocket's state counts up to 200. */
  const StateLimit := 200

  /** One `rand()`; an exhausted stream reads 0. */
  function Rand(draws: Draws): (r: (nat, Draws))
    ensures |draws| > 0 ==> r == (draws[0], draws[1..])
    ensures |draws| == 0 ==> r == (0, draws)
  {
    if |draws| == 0 then (0, draws) else (draws[0], draws[1..])
  }

  /** The climbing colour `COLOR_BRG(25 << e, 5 << e, 0)` for e = elapsed / 300,
      stored into the 32-bit `color` field. */
  function LaunchColor(elapsed: nat): u32
  {
    var e := elapsed / 300;
    ColorBrg(25 * Pow2(e), 5 * Pow2(e), 0) % 0x1_0000_0000
  }

  /** Within its first 1200 ticks the climbing colour keeps both channels
      inside their bytes and doubles every 300 ticks, starting at the reset
      colour. */
  lemma LaunchColorEarly(elapsed: nat)
    requires elapsed < 1200
    ensures var e := elapsed / 300;
            25 * Pow2(e) < 256 && 5 * Pow2(e) < 256
            && LaunchColor(elapsed) == (5 * Pow2(e)) * 65536 + (25 * Pow2(e)) * 256
    ensures elapsed < 300 ==> LaunchColor(elapsed) == LaunchBase
  {
    var e := elapsed / 300;
    var p := Pow2(e);
    assert p <= 8 by {
      assert e <= 3;
      assert Pow2(1) == 2 && Pow2(2) == 4 && Pow2(3) == 8;
    }
    LaunchChannels(25 * p, 5 * p);
    if elapsed < 300 {
      assert e == 0 && p == 1;
    }
  }

  /** A colour with two byte channels and no blue fits the 32-bit field. */
  lemma LaunchChannels(r: nat, g: nat)
    requires r < 256 && g < 256
    ensures ColorBrg(r, g, 0) % 0x1_0000_0000 == g * 65536 + r * 256
  {
    assert ColorBrg(r, g, 0) == g * 65536 + r * 256 + 0;
  }

  /** The number of step ticks a rocket with offset `o` has acted on by tick
      t: the multiples of 140 in [max(o, 1), t]. */
  function Advances(t: nat, o: nat): (n: nat)
  {
    Max(0, t / StepPeriod - (Max(o, 1) - 1) / StepPeriod)
  }

  /** One more tick adds one advance exactly when it is a step tick at or
      after the offset. */
  lemma AdvancesStep(t: nat, o: nat)
    requires t >= 1
    ensures Advances(t, o) == Advances(t - 1, o) + (if t % StepPeriod == 0 && t >= o then 1 else 0)
  {
    var m := Max(o, 1);
    var k := (m - 1) / StepPeriod;
    if t % StepPeriod == 0 {
      assert t / StepPeriod == (t - 1) / StepPeriod + 1;
      if t >= m {
        assert k * StepPeriod <= m - 1 < t == (t / StepPeriod) * StepPeriod;
        assert k < t / StepPeriod;
      } else {
        assert t <= m - 1;
        assert t / StepPeriod <= k;
      }
    } else {
      assert t / StepPeriod == (t - 1) / StepPeriod;
    }
  }

  /** A full run gives every rocket launched by tick 1400 at least six
      advances, enough for any path of up to six LEDs and the burst. */
  lemma RunIsLongEnough(o: nat)
    requires o <= 1400
    ensures Advances(RunTicks, o) >= 6
  {
    assert (Max(o, 1) - 1) / StepPeriod <= 9;
  }

  /** A rocket's position and state after n advances: one LED per advance
      along its path until it is at the last LED; the advance after that
      bursts it. */
  predicate OnSchedule(posIdx: int, state: int, pathLen: int, n: nat)
  {
    posIdx == Min(pathLen - 1, n) && (state != 0 <==> n >= pathLen)
  }

  /** A rocket with a three-LED path and offset 0 has not moved by tick 139;
      by tick 281 its two advances have put it on the last LED of its path,
      still travelling; it bursts with the third advance, at tick 420. */
  lemma ThreeLedPathSchedule(posIdx: int, state: int)
    ensures Advances(139, 0) == 0 && Advances(281, 0) == 2 && Advances(419, 0) == 2 && Advances(420, 0) == 3
    ensures OnSchedule(posIdx, state, 3, Advances(139, 0)) ==> posIdx == 0 && state == 0
    ensures OnSchedule(posIdx, state, 3, Advances(281, 0)) ==> posIdx == 2 && state == 0
    ensures OnSchedule(posIdx, state, 3, Advances(420, 0)) ==> posIdx == 2 && state != 0
  {
  }

  /** The fizzle selection loop: draw `rand() % num_leds` until two LEDs of
      the letter are picked, filling `fizzle_leds[i]` from i; the model stops
      when the stream is exhausted. */
  function SelectFizzle(mask: seq<int>, leds: seq<byte>, i: nat, draws: Draws): (r: (seq<byte>, Draws))
    requires |mask| == MaskLength && |leds| == 4 && i <= 2
    ensures |r.0| == 4 && |r.1| <= |draws|
    decreases |draws|
  {
    if i == 2 || |draws| == 0 then (leds, draws)
    else
      var cand := draws[0] % NumLeds;
      if mask[cand] != 0 then SelectFizzle(mask, leds[i := cand], i + 1, draws[1..])
      else SelectFizzle(mask, leds, i, draws[1..])
  }

  /** Given slots below i already holding LEDs of the letter, the selection
      only writes slots i to 1, each with an LED of the letter, leaves the
      slots past 1 alone, and consumes a prefix of the stream; unless the
      stream ran out, both slots 0 and 1 end up holding LEDs of the letter. */
  lemma {:induction false} SelectFizzleInLetter(mask: seq<int>, leds: seq<byte>, i: nat, draws: Draws)
    requires |mask| == MaskLength && |leds| == 4 && i <= 2
    requires forall k :: 0 <= k < i ==> leds[k] < NumLeds && mask[leds[k]] != 0
    ensures var (r, rest) := SelectFizzle(mask, leds, i, draws);
            && (forall k :: 0 <= k < 4 ==> r[k] == leds[k] || (i <= k < 2 && r[k] < NumLeds && mask[r[k]] != 0))
            && rest == draws[|draws| - |rest|..]
            && (|rest| == 0 || forall k :: 0 <= k < 2 ==> r[k] < NumLeds && mask[r[k]] != 0)
    decreases |draws|
  {
    if i < 2 && |draws| > 0 {
      var cand := draws[0] % NumLeds;
      if mask[cand] != 0 {
        SelectFizzleInLetter(mask, leds[i := cand], i + 1, draws[1..]);
      } else {
        SelectFizzleInLetter(mask, leds, i, draws[1..]);
      }
    }
  }

  /** Both sparkles may land on the same LED: nothing makes the two picks
      distinct. */
  lemma FizzlePicksMayRepeat()
    ensures SelectFizzle(P1Leds(), [0, 0, 0, 0], 0, [3, 3]) == ([3, 3, 0, 0], [])
  {
    assert P1Leds()[3] != 0;
    assert [0, 0, 0, 0][0 := 3] == [3, 0, 0, 0] && [3, 0, 0, 0][1 := 3] == [3, 3, 0, 0];
    assert [3, 3][1..] == [3] && [3][1..] == [];
    assert SelectFizzle(P1Leds(), [3, 3, 0, 0], 2, []) == ([3, 3, 0, 0], []);
    assert SelectFizzle(P1Leds(), [3, 0, 0, 0], 1, [3]) == ([3, 3, 0, 0], []);
  }

  /** The sparkle colour `COLOR_BRG(rand() % 255, rand() % 130, rand() % 80)`,
      its three draws taken in argument order. */
  function SparkleColor(draws: Draws): (r: (u32, Draws))
  {
    var (red, d1) := Rand(draws);
    var (green, d2) := Rand(d1);
    var (blue, d3) := Rand(d2);
    (ColorBrg(red % 255, green % 130, blue % 80), d3)
  }

  /** Every sparkle is dimmer than WHITE, COLOR_BRG(255, 130, 80), in every
      channel, and it uses up to three draws. */
  lemma SparkleBelowWhite(draws: Draws)
    ensures var (c, rest) := SparkleColor(draws);
            && ByteOf(c, 0) < 80 && ByteOf(c, 1) < 255 && ByteOf(c, 2) < 130 && ByteOf(c, 3) == 0
            && |draws| - 3 <= |rest| <= |draws|
  {
    var (red, d1) := Rand(draws);
    var (green, d2) := Rand(d1);
    var (blue, d3) := Rand(d2);
    var r, g, b := red % 255, green % 130, blue % 80;
    var c := ColorBrg(r, g, b);
    assert c == b + 256 * r + 65536 * g;
    assert Word(b, r, g, 0) == c;
    BytesOfWord(b, r, g, 0);
  }

  /** The first n sparkles of a fizzling rocket's paint, with the draws left. */
  function Sparkles(b: seq<byte>, leds: seq<byte>, draws: Draws, n: nat): (r: (seq<byte>, Draws))
    requires |b| == FrameBytes && |leds| == 4 && n <= 2
    ensures |r.0| == FrameBytes
  {
    if n == 0 then (b, draws)
    else
      var (prev, d) := Sparkles(b, leds, draws, n - 1);
      var (c, rest) := SparkleColor(d);
      (SetPixel(prev, leds[n - 1], c), rest)
  }

  /** The sparkles change at most the two picked LEDs, and use up to six draws. */
  lemma {:induction false} SparklesTouchPicks(b: seq<byte>, leds: seq<byte>, draws: Draws, n: nat, q: int)
    requires |b| == FrameBytes && |leds| == 4 && n <= 2 && 0 <= q < NumLeds
    requires forall k :: 0 <= k < n ==> leds[k] != q
    ensures PixelAt(Sparkles(b, leds, draws, n).0, q) == PixelAt(b, q)
    ensures |draws| - 3 * n <= |Sparkles(b, leds, draws, n).1| <= |draws|
  {
    if n > 0 {
      SparklesTouchPicks(b, leds, draws, n - 1, q);
      var (prev, d) := Sparkles(b, leds, draws, n - 1);
      var (c, rest) := SparkleColor(d);
      SetPixelEffect(prev, leds[n - 1], c);
      SparkleBelowWhite(d);
    }
  }

  /** The letter loop of `rocket_paint`: every LED of the mask among the first
      n, in order, gets the letter colour. */
  function PaintLetter(b: seq<byte>, mask: seq<int>, c: u32, n: nat): (r: seq<byte>)
    requires |b| == FrameBytes && |mask| == MaskLength && n <= NumLeds
    ensures |r| == FrameBytes
  {
    if n == 0 then b
    else
      var prev := PaintLetter(b, mask, c, n - 1);
      if mask[n - 1] != 0 then SetPixel(prev, (n - 1) as byte, c) else prev
  }

  /** After the letter loop, exactly the LEDs of the letter have its colour
      and every other pixel is as it was. */
  lemma {:induction false} PaintLetterPixels(b: seq<byte>, mask: seq<int>, c: u32, n: nat, q: int)
    requires |b| == FrameBytes && |mask| == MaskLength && n <= NumLeds && 0 <= q < NumLeds
    ensures PixelAt(PaintLetter(b, mask, c, n), q) == if q < n && mask[q] != 0 then c else PixelAt(b, q)
  {
    if n > 0 {
      PaintLetterPixels(b, mask, c, n - 1, q);
      var prev := PaintLetter(b, mask, c, n - 1);
      SetPixelEffect(prev, (n - 1) as byte, c);
    }
  }

  /** A `struct rocket_t`: its launch time and letter are fixed, its path of up
      to six LEDs is fixed, and it moves along it. */
  class Rocket {
    const offsetMs: u32
    var posIdx: byte
    var state: byte
    var color: u32
    const letterColor: u32
    const letterLeds: seq<int>
    const pathLen: byte
    const path: seq<byte>
    var fizzle: bool
    var fizzleLeds: seq<byte>

    ghost predicate Valid()
      reads this
    {
      && |letterLeds| == MaskLength && |path| == 6 && |fizzleLeds| == 4
      && 1 <= pathLen <= 6 && posIdx < pathLen && state <= StateLimit
    }

    /** A rocket as the static initialisers give it: at the start of its path,
        not burst, with the launch colour and zeroed fizzle picks. */
    constructor (offsetMs: u32, letterColor: u32, letterLeds: seq<int>, pathLen: byte, path: seq<byte>)
      requires |letterLeds| == MaskLength && |path| == 6 && 1 <= pathLen <= 6
      ensures Valid()
      ensures this.offsetMs == offsetMs && this.letterColor == letterColor && this.letterLeds == letterLeds
      ensures this.pathLen == pathLen && this.path == path
      ensures posIdx == 0 && state == 0 && color == LaunchBase && fizzle && fizzleLeds == [0, 0, 0, 0]
    {
      this.offsetMs := offsetMs;
      this.letterColor := letterColor;
      this.letterLeds := letterLeds;
      this.pathLen := pathLen;
      this.path := path;
      posIdx := 0;
      state := 0;
      color := LaunchBase;
      fizzle := true;
      fizzleLeds := [0, 0, 0, 0];
    }

    /** The position and state of the rocket after n advances. */
    ghost predicate Scheduled(n: nat)
      reads this
    {
      OnSchedule(posIdx, state, pathLen, n)
    }

    /** The reset at the start of `fireworks_run`. */
    method Reset(fizzleMode: bool)
      requires Valid()
      modifies this
      ensures Valid() && Scheduled(0)
      ensures posIdx == 0 && state == 0 && color == LaunchBase && fizzle == fizzleMode
      ensures fizzleLeds == old(fizzleLeds)
    {
      state := 0;
      posIdx := 0;
      color := LaunchBase;
      fizzle := fizzleMode;
    }

    /** `rocket_step(r, t)`: before its offset nothing happens; while on its
        path the rocket moves one LED and takes the climbing colour; at the
        end of the path it bursts: in fizzle mode with a fresh pick of two
        letter LEDs every time, otherwise once. */
    method Step(t: nat, draws: Draws) returns (rest: Draws)
      requires Valid()
      modifies this
      ensures Valid()
      ensures fizzle == old(fizzle)
      ensures t < offsetMs ==>
        posIdx == old(posIdx) && state == old(state) && color == old(color)
        && fizzleLeds == old(fizzleLeds) && rest == draws
      ensures t >= offsetMs && old(posIdx) < pathLen - 1 ==>
        posIdx == old(posIdx) + 1 && color == LaunchColor(t - offsetMs)
        && state == old(state) && fizzleLeds == old(fizzleLeds) && rest == draws
      ensures t >= offsetMs && old(posIdx) >= pathLen - 1 && fizzle ==>
        state == 1 && (fizzleLeds, rest) == SelectFizzle(letterLeds, old(fizzleLeds), 0, draws)
        && (|rest| == 0 || forall k :: 0 <= k < 2 ==> fizzleLeds[k] < NumLeds && letterLeds[fizzleLeds[k]] != 0)
        && posIdx == old(posIdx) && color == old(color)
      ensures t >= offsetMs && old(posIdx) >= pathLen - 1 && !fizzle ==>
        state == (if old(state) == 0 then 1 else old(state))
        && posIdx == old(posIdx) && color == old(color) && fizzleLeds == old(fizzleLeds) && rest == draws
    {
      rest := draws;
      if t < offsetMs {
        return;
      }
      if posIdx < pathLen - 1 {
        posIdx := posIdx + 1;
        color := LaunchColor(t - offsetMs);
      } else if fizzle {
        state := 1;
        var i := 0;
        while i < 2 && |rest| > 0
          invariant 0 <= i <= 2 && Valid() && state == 1 && fizzle == old(fizzle)
          invariant posIdx == old(posIdx) && color == old(color)
          invariant SelectFizzle(letterLeds, fizzleLeds, i, rest) == SelectFizzle(letterLeds, old(fizzleLeds), 0, draws)
          decreases |rest|
        {
          var cand := rest[0] % NumLeds;
          rest := rest[1..];
          if letterLeds[cand] != 0 {
            fizzleLeds := fizzleLeds[i := cand];
            i := i + 1;
          }
        }
        SelectFizzleInLetter(letterLeds, old(fizzleLeds), 0, draws);
      } else if state == 0 {
        state := 1;
      }
    }

    /** `rocket_paint(r, t)`: a travelling rocket lights its LED; a fizzling
        one raises the backlight and sparkles on its two picks; a burst one
        raises the backlight and lights its letter for 199 paints. */
    method Paint(sign: Sign, draws: Draws) returns (rest: Draws)
      requires Valid() && sign.Valid()
      modifies this`state, sign.frame, sign`pwmLedFade
      ensures Valid() && sign.Valid()
      ensures old(state) == 0 ==>
        sign.frame[..] == SetPixel(old(sign.frame[..]), path[posIdx], color)
        && state == old(state) && sign.pwmLedFade == old(sign.pwmLedFade) && rest == draws
      ensures old(state) != 0 && fizzle ==>
        (sign.frame[..], rest) == Sparkles(old(sign.frame[..]), fizzleLeds, draws, 2)
        && state == old(state) && sign.pwmLedFade == HighlightPwmLedFade
      ensures old(state) != 0 && !fizzle && old(state) < StateLimit ==>
        sign.frame[..] == PaintLetter(old(sign.frame[..]), letterLeds, letterColor, NumLeds)
        && state == old(state) + 1 && sign.pwmLedFade == HighlightPwmLedFade && rest == draws
      ensures old(state) != 0 && !fizzle && old(state) >= StateLimit ==>
        sign.frame[..] == old(sign.frame[..])
        && state == old(state) && sign.pwmLedFade == old(sign.pwmLedFade) && rest == draws
    {
      rest := draws;
      if state == 0 {
        sign.SetFbPixel(path[posIdx], color);
      } else if fizzle {
        sign.pwmLedFade := HighlightPwmLedFade;
        var i := 0;
        while i < 2
          invariant 0 <= i <= 2 && sign.Valid() && sign.pwmLedFade == HighlightPwmLedFade && state == old(state)
          invariant (sign.frame[..], rest) == Sparkles(old(sign.frame[..]), fizzleLeds, draws, i)
        {
          var red, green, blue;
          red, rest := Rand(rest).0, Rand(rest).1;
          green, rest := Rand(rest).0, Rand(rest).1;
          blue, rest := Rand(rest).0, Rand(rest).1;
          sign.SetFbPixel(fizzleLeds[i], ColorBrg(red % 255, green % 130, blue % 80));
          i := i + 1;
        }
      } else if state >= 1 && state < StateLimit {
        sign.pwmLedFade := HighlightPwmLedFade;
        var i := 0;
        while i < NumLeds
          invariant 0 <= i <= NumLeds && sign.Valid() && sign.pwmLedFade == HighlightPwmLedFade && state == old(state)
          invariant sign.frame[..] == PaintLetter(old(sign.frame[..]), letterLeds, letterColor, i)
        {
          if letterLeds[i] != 0 {
            sign.SetFbPixel(i as byte, letterColor);
          }
          i := i + 1;
        }
        state := state + 1;
      }
    }
  }

  /** Four distinct valid rockets. */
  ghost predicate Fleet(rockets: seq<Rocket>)
    reads set r | r in rockets
  {
    && |rockets| == 4
    && (forall i :: 0 <= i < 4 ==> rockets[i].Valid())
    && (forall i, j :: 0 <= i < j < 4 ==> rockets[i] != rockets[j])
  }

  /** Every rocket of the fleet is where n(o) advances put it, for n(o) the
      advances by tick t of a rocket with offset o. */
  ghost predicate FleetScheduled(rockets: seq<Rocket>, t: nat)
    reads set r | r in rockets
    requires |rockets| == 4
  {
    forall i :: 0 <= i < 4 ==> rockets[i].Scheduled(Advances(t, rockets[i].offsetMs))
  }

  /** The step phase of a tick: `rocket_step` on each rocket in turn. */
  method StepAll(rockets: seq<Rocket>, t: nat, draws: Draws) returns (rest: Draws)
    requires t >= 1 && t % StepPeriod == 0
    requires Fleet(rockets) && FleetScheduled(rockets, t - 1)
    modifies set r | r in rockets
    ensures Fleet(rockets) && FleetScheduled(rockets, t)
    ensures forall i :: 0 <= i < 4 ==> rockets[i].fizzle == old(rockets[i].fizzle)
  {
    rest := draws;
    var i := 0;
    while i < 4
      invariant 0 <= i <= 4 && Fleet(rockets)
      invariant forall j :: 0 <= j < i ==> rockets[j].Scheduled(Advances(t, rockets[j].offsetMs))
      invariant forall j :: i <= j < 4 ==> rockets[j].Scheduled(Advances(t - 1, rockets[j].offsetMs))
      invariant forall j :: 0 <= j < 4 ==> rockets[j].fizzle == old(rockets[j].fizzle)
    {
      AdvancesStep(t, rockets[i].offsetMs);
      rest := rockets[i].Step(t, rest);
      i := i + 1;
    }
  }

  /** The paint phase of a tick: `rocket_paint` on each rocket in turn. */
  method PaintAll(sign: Sign, rockets: seq<Rocket>, t: nat, draws: Draws) returns (rest: Draws)
    requires sign.Valid() && Fleet(rockets) && FleetScheduled(rockets, t)
    modifies (set r | r in rockets), sign.frame, sign`pwmLedFade
    ensures sign.Valid() && Fleet(rockets) && FleetScheduled(rockets, t)
    ensures forall i :: 0 <= i < 4 ==> rockets[i].fizzle == old(rockets[i].fizzle)
    ensures sign.output == old(sign.output)
  {
    rest := draws;
    var i := 0;
    while i < 4
      invariant 0 <= i <= 4 && sign.Valid() && Fleet(rockets) && FleetScheduled(rockets, t)
      invariant forall j :: 0 <= j < 4 ==> rockets[j].fizzle == old(rockets[j].fizzle)
      invariant sign.output == old(sign.output)
    {
      rest := rockets[i].Paint(sign, rest);
      i := i + 1;
    }
  }

  /** The reset loop at the start of `fireworks_run`. */
  method ResetAll(rockets: seq<Rocket>, fizzleMode: bool)
    requires Fleet(rockets)
    modifies set r | r in rockets
    ensures Fleet(rockets) && FleetScheduled(rockets, 0)
    ensures forall i :: 0 <= i < 4 ==> rockets[i].fizzle == fizzleMode
  {
    var i := 0;
    while i < 4
      invariant 0 <= i <= 4 && Fleet(rockets)
      invariant forall j :: 0 <= j < i ==> rockets[j].Scheduled(0) && rockets[j].fizzle == fizzleMode
    {
      rockets[i].Reset(fizzleMode);
      i := i + 1;
    }
    assert forall j :: 0 <= j < 4 ==> Advances(0, rockets[j].offsetMs) == 0;
  }

  /** One tick t of `fireworks_run`: the decay on every 20th tick, the step
      phase on every 140th, the paint phase, and one frame sent. */
  method Tick(sign: Sign, rockets: seq<Rocket>, t: nat, draws: Draws) returns (rest: Draws)
    requires t >= 1
    requires sign.Valid() && Fleet(rockets) && FleetScheduled(rockets, t - 1)
    modifies (set r | r in rockets), sign.frame, sign`pwmLedFade, sign`output
    ensures sign.Valid() && Fleet(rockets) && FleetScheduled(rockets, t)
    ensures forall i :: 0 <= i < 4 ==> rockets[i].fizzle == old(rockets[i].fizzle)
    ensures |sign.output| == |old(sign.output)| + NumLeds
  {
    if t % DecayPeriod == 0 {
      sign.DecayFrameBuffer();
    }
    rest := draws;
    if t % StepPeriod == 0 {
      rest := StepAll(rockets, t, rest);
    } else {
      forall j | 0 <= j < 4
        ensures Advances(t, rockets[j].offsetMs) == Advances(t - 1, rockets[j].offsetMs)
      {
        AdvancesStep(t, rockets[j].offsetMs);
      }
    }
    rest := PaintAll(sign, rockets, t, rest);
    sign.PaintFrameBuffer();
  }

  /** `fireworks_run(fizzle, rockets)`: reset the rockets, then ticks 1 to
      2200. Every rocket ends where its advances put it, so one launched by
      tick 1400 has reached the end of its path and burst; one frame is sent
      per tick. */
  method FireworksRun(sign: Sign, fizzleMode: bool, rockets: seq<Rocket>, draws: Draws) returns (rest: Draws)
    requires sign.Valid() && Fleet(rockets)
    modifies (set r | r in rockets), sign.frame, sign`pwmLedFade, sign`output
    ensures sign.Valid() && Fleet(rockets) && FleetScheduled(rockets, RunTicks)
    ensures forall i :: 0 <= i < 4 ==> rockets[i].fizzle == fizzleMode
    ensures forall i :: 0 <= i < 4 && rockets[i].offsetMs <= 1400 ==>
      rockets[i].posIdx == rockets[i].pathLen - 1 && rockets[i].state != 0
    ensures |sign.output| == |old(sign.output)| + RunTicks * NumLeds
  {
    ResetAll(rockets, fizzleMode);
    rest := draws;
    var t := 1;
    while t <= RunTicks
      invariant 1 <= t <= RunTicks + 1
      invariant sign.Valid() && Fleet(rockets) && FleetScheduled(rockets, t - 1)
      invariant forall j :: 0 <= j < 4 ==> rockets[j].fizzle == fizzleMode
      invariant |sign.output| == |old(sign.output)| + (t - 1) * NumLeds
    {
      rest := Tick(sign, rockets, t, rest);
      t := t + 1;
    }
    forall j | 0 <= j < 4 && rockets[j].offsetMs <= 1400
      ensures rockets[j].posIdx == rockets[j].pathLen - 1 && rockets[j].state != 0
    {
      RunIsLongEnough(rockets[j].offsetMs);
    }
  }

  /** Four distinct valid rockets make a fleet. */
  lemma FleetOf(a: Rocket, b: Rocket, c: Rocket, d: Rocket)
    requires a.Valid() && b.Valid() && c.Valid() && d.Valid()
    requires a != b && a != c && a != d && b != c && b != d && c != d
    ensures Fleet([a, b, c, d])
  {
    var rs := [a, b, c, d];
    assert rs[0] == a && rs[1] == b && rs[2] == c && rs[3] == d;
  }

  /** The rockets `r1` to `r4`: one per letter, launched at 0, 280, 560 and
      700, climbing from LED 0, LED 16, and twice from LED 24. The unused
      entries of each six-entry path are zero, as C's initialiser leaves them. */
  method PopRockets() returns (rockets: seq<Rocket>)
    ensures Fleet(rockets)
    ensures forall i :: 0 <= i < 4 ==> rockets[i].offsetMs <= 700
    ensures rockets[0].offsetMs == 0 && rockets[0].letterColor == P1Color && rockets[0].letterLeds == P1Leds()
      && rockets[0].pathLen == 5 && rockets[0].path == [0, 1, 2, 3, 4, 0]
    ensures rockets[1].offsetMs == 280 && rockets[1].letterColor == OColor && rockets[1].letterLeds == OLeds()
      && rockets[1].pathLen == 5 && rockets[1].path == [16, 15, 14, 13, 18, 0]
    ensures rockets[2].offsetMs == 560 && rockets[2].letterColor == P2Color && rockets[2].letterLeds == P2Leds()
      && rockets[2].pathLen == 4 && rockets[2].path == [24, 23, 22, 21, 0, 0]
    ensures rockets[3].offsetMs == 700 && rockets[3].letterColor == ExclColor && rockets[3].letterLeds == ExclLeds()
      && rockets[3].pathLen == 4 && rockets[3].path == [24, 23, 22, 21, 0, 0]
  {
    var r1 := new Rocket(0, P1Color, P1Leds(), 5, [0, 1, 2, 3, 4, 0]);
    var r2 := new Rocket(280, OColor, OLeds(), 5, [16, 15, 14, 13, 18, 0]);
    var r3 := new Rocket(560, P2Color, P2Leds(), 4, [24, 23, 22, 21, 0, 0]);
    var r4 := new Rocket(700, ExclColor, ExclLeds(), 4, [24, 23, 22, 21, 0, 0]);
    rockets := [r1, r2, r3, r4];
    FleetOf(r1, r2, r3, r4);
  }

  /** The rockets `r5` to `r8`: white letters, except the exclamation mark,
      launched at 0, 0, 210 and 210. */
  method WhiteRockets() returns (rockets: seq<Rocket>)
    ensures Fleet(rockets)
    ensures forall i :: 0 <= i < 4 ==> rockets[i].offsetMs <= 210
    ensures rockets[0].offsetMs == 0 && rockets[0].letterColor == White && rockets[0].letterLeds == P1Leds()
      && rockets[0].pathLen == 5 && rockets[0].path == [0, 1, 2, 3, 4, 0]
    ensures rockets[1].offsetMs == 0 && rockets[1].letterColor == White && rockets[1].letterLeds == OLeds()
      && rockets[1].pathLen == 5 && rockets[1].path == [16, 15, 14, 13, 18, 0]
    ensures rockets[2].offsetMs == 210 && rockets[2].letterColor == White && rockets[2].letterLeds == P2Leds()
      && rockets[2].pathLen == 4 && rockets[2].path == [24, 23, 22, 21, 0, 0]
    ensures rockets[3].offsetMs == 210 && rockets[3].letterColor == ExclColor && rockets[3].letterLeds == ExclLeds()
      && rockets[3].pathLen == 4 && rockets[3].path == [24, 23, 22, 21, 0, 0]
  {
    var r5 := new Rocket(0, White, P1Leds(), 5, [0, 1, 2, 3, 4, 0]);
    var r6 := new Rocket(0, White, OLeds(), 5, [16, 15, 14, 13, 18, 0]);
    var r7 := new Rocket(210, White, P2Leds(), 4, [24, 23, 22, 21, 0, 0]);
    var r8 := new Rocket(210, ExclColor, ExclLeds(), 4, [24, 23, 22, 21, 0, 0]);
    rockets := [r5, r6, r7, r8];
    FleetOf(r5, r6, r7, r8);
  }

  /** `fireworks()`: five runs, plain, fizzling, plain, white, plain. Each run
      sends 2200 frames; after the last one every rocket launched by tick 1400
      has burst at the end of its path, in plain mode. */
  method Fireworks(sign: Sign, rockets: seq<Rocket>, white: seq<Rocket>, draws: Draws) returns (rest: Draws)
    requires sign.Valid() && Fleet(rockets) && Fleet(white)
    requires forall i, j :: 0 <= i < 4 && 0 <= j < 4 ==> rockets[i] != white[j]
    modifies (set r | r in rockets), (set r | r in white), sign.frame, sign`pwmLedFade, sign`output
    ensures sign.Valid() && Fleet(rockets) && Fleet(white)
    ensures forall i :: 0 <= i < 4 ==> !rockets[i].fizzle && !white[i].fizzle
    ensures forall i :: 0 <= i < 4 && rockets[i].offsetMs <= 1400 ==>
      rockets[i].posIdx == rockets[i].pathLen - 1 && rockets[i].state != 0
    ensures |sign.output| == |old(sign.output)| + 5 * RunTicks * NumLeds
  {
    rest := FireworksRun(sign, false, rockets, draws);
    rest := FireworksRun(sign, true, rockets, rest);
    rest := FireworksRun(sign, false, rockets, rest);
    rest := FireworksRun(sign, false, white, rest);
    rest := FireworksRun(sign, false, rockets, rest);
  }
}
