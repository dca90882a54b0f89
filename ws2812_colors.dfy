/** The WS2812 test sign's letter masks, its letter colouring, and its
    variant of the worm's colour schedule `worm_color_by_speed`. */
module Ws2812Colors {
  import opened Bits
  import opened Ramp
  import opened Palette

  const NumLeds := 32

  /** `p_1_leds`: the first P, LEDs 0-11. */
  function P1Leds(): seq<int> { seq(NumLeds, i => if i < 12 then 1 else 0) }
  /** `o_leds`: the O, LED 9 (shared with the first P) and LEDs 12-18. */
  function OLeds(): seq<int> { seq(NumLeds, i => if i == 9 || 12 <= i < 19 then 1 else 0) }
  /** `o_p_2_leds`: the middle LED 15, shared by the O and the second P. */
  function OP2Leds(): seq<int> { seq(NumLeds, i => if i == 15 then 1 else 0) }
  /** `p_2_leds`: the second P, LEDs 15, 16, 19-23 and 25-28. */
  function P2Leds(): seq<int>
  {
    seq(NumLeds, i => if i == 15 || i == 16 || 19 <= i < 24 || 25 <= i < 29 then 1 else 0)
  }
  /** `excl_leds`: the exclamation mark, LEDs 24-26 and 29-31. */
  function ExclLeds(): seq<int> { seq(NumLeds, i => if 24 <= i < 27 || 29 <= i then 1 else 0) }

  /** The LED lies in at least one letter. */
  predicate InSomeLetter(i: int)
    requires 0 <= i < NumLeds
  {
    P1Leds()[i] != 0 || OP2Leds()[i] != 0 || OLeds()[i] != 0 || P2Leds()[i] != 0 || ExclLeds()[i] != 0
  }

  /** The colour of the first matching case of `show_all`'s priority chain,
      or 0 for an LED that no case matches. */
  function LetterColor(i: int): u32
    requires 0 <= i < NumLeds
  {
    if P1Leds()[i] != 0 && OLeds()[i] != 0 then P1OColor
    else if P1Leds()[i] != 0 then P1Color
    else if OP2Leds()[i] != 0 then OP2Color
    else if OLeds()[i] != 0 then OColor
    else if P2Leds()[i] != 0 && ExclLeds()[i] != 0 then P2ExclColor
    else if P2Leds()[i] != 0 then P2Color
    else if ExclLeds()[i] != 0 then ExclColor
    else 0
  }

  /** Every LED of this sign lies in some letter. */
  lemma LedsCovered(i: int)
    requires 0 <= i < NumLeds
    ensures InSomeLetter(i)
  {
  }

  /** The letters overlap: LED 9 gets the P/O blend, LED 15 the O/P blend and
      LEDs 25 and 26 the P/! blend; every other LED gets its own letter's
      colour. */
  lemma LetterColorByLed(i: int)
    requires 0 <= i < NumLeds
    ensures i == 9 ==> LetterColor(i) == P1OColor
    ensures i < 12 && i != 9 ==> LetterColor(i) == P1Color
    ensures i == 15 ==> LetterColor(i) == OP2Color
    ensures 12 <= i < 19 && i != 15 ==> LetterColor(i) == OColor
    ensures i == 25 || i == 26 ==> LetterColor(i) == P2ExclColor
    ensures 19 <= i < 24 || i == 27 || i == 28 ==> LetterColor(i) == P2Color
    ensures i == 24 || 29 <= i ==> LetterColor(i) == ExclColor
  {
  }

  /** The colours the ramps of the fastest worm start from at tick 3500. */
  const RampTailStart: u32 := 0x82_C8_50  // COLOR_BRG(200, 130, 80)
  const RampHeadStart: u32 := 0xC8_28_C8  // COLOR_BRG(40, 200, 200)
  /** The colours of the fastest worm from tick 4500 on. */
  const EndTailColor: u32 := 0x00_05_00   // COLOR_BRG(5, 0, 0)
  const EndHeadColor: u32 := 0x00_32_00   // COLOR_BRG(50, 0, 0)

  lemma RampColorsAreColorBrg()
    ensures RampTailStart == ColorBrg(200, 130, 80) && RampHeadStart == ColorBrg(40, 200, 200)
    ensures EndTailColor == ColorBrg(5, 0, 0) && EndHeadColor == ColorBrg(50, 0, 0)
  {
  }

  /** `worm_color_by_speed(speed, t, idx)` of this variant: at the fastest
      speeds the colours ramp over [3500, 4000) and then fade to dim red over
      [4000, 4500). Every channel stays a byte, so the top byte is always 0. */
  function WormColorBySpeed(speed: int, t: nat, idx: int): (c: u32)
    ensures c < 0x100_0000
  {
    if speed > 15 then
      if idx != 0 then WormTailColor else Worm0Color
    else if speed > 7 then
      if idx != 0 then MidTailColor else MidHeadColor
    else if t < 3500 then
      if idx != 0 then FastTailColor else FastHeadColor
    else if t < 4000 then
      if idx != 0 then
        ColorBrg(Interp(3500, 4000, 200, 50, t), Interp(3500, 4000, 130, 0, t), Interp(3500, 4000, 80, 0, t))
      else
        ColorBrg(Interp(3500, 4000, 40, 255, t), Interp(3500, 4000, 200, 0, t), Interp(3500, 4000, 200, 0, t))
    else
      if idx != 0 then ColorBrg(Interp(4000, 4500, 50, 5, t), 0, 0)
      else ColorBrg(Interp(4000, 4500, 255, 50, t), 0, 0)
  }

  /** Every tail index gets the same colour. */
  lemma TailIndicesAgree(speed: int, t: nat, idx: int, idx2: int)
    requires idx != 0 && idx2 != 0
    ensures WormColorBySpeed(speed, t, idx) == WormColorBySpeed(speed, t, idx2)
  {
  }

  /** At the fastest speeds the ramps of [3500, 4000) start away from the
      colours used before 3500, so both head and tail jump at 3500. */
  lemma RampStart(speed: int)
    requires speed <= 7
    ensures WormColorBySpeed(speed, 3500, 1) == RampTailStart != WormColorBySpeed(speed, 3499, 1)
    ensures WormColorBySpeed(speed, 3500, 0) == RampHeadStart != WormColorBySpeed(speed, 3499, 0)
  {
    assert Interp(3500, 4000, 200, 50, 3500) == 200 && Interp(3500, 4000, 130, 0, 3500) == 130;
    assert Interp(3500, 4000, 80, 0, 3500) == 80 && Interp(3500, 4000, 40, 255, 3500) == 40;
    assert Interp(3500, 4000, 200, 0, 3500) == 200;
  }

  /** The ramps of [3500, 4000) head for the colours the fade starts from
      at 4000. */
  lemma RampMeetsFade(speed: int)
    requires speed <= 7
    ensures WormColorBySpeed(speed, 4000, 1) ==
      ColorBrg(Interp(3500, 4000, 200, 50, 4000), Interp(3500, 4000, 130, 0, 4000), Interp(3500, 4000, 80, 0, 4000))
    ensures WormColorBySpeed(speed, 4000, 0) ==
      ColorBrg(Interp(3500, 4000, 40, 255, 4000), Interp(3500, 4000, 200, 0, 4000), Interp(3500, 4000, 200, 0, 4000))
  {
  }

  /** From 4000 on the fastest worm shows red only; from 4500 on the head
      is COLOR_BRG(50, 0, 0) and the tail COLOR_BRG(5, 0, 0). */
  lemma FadeEnds(speed: int, t: nat, idx: int)
    requires speed <= 7 && t >= 4000
    ensures WormColorBySpeed(speed, t, idx) % 256 == 0 && WormColorBySpeed(speed, t, idx) < 65536
    ensures t >= 4500 && idx == 0 ==> WormColorBySpeed(speed, t, idx) == EndHeadColor
    ensures t >= 4500 && idx != 0 ==> WormColorBySpeed(speed, t, idx) == EndTailColor
  {
    var r := if idx != 0 then Interp(4000, 4500, 50, 5, t) else Interp(4000, 4500, 255, 50, t);
    assert WormColorBySpeed(speed, t, idx) == r * 256;
  }
}
