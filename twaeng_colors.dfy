/** The twaeng_pop sign's letter masks, its palette, and the worm's colour
    schedule `worm_color_by_speed`. */
module TwaengColors {
  import opened Bits
  import opened Ramp
  import opened Palette

  const NumLeds := 25
  /** The letter masks are declared with 38 entries; only the first 25 are LEDs.
      Each mask is written as a function of the index it holds a 1 at. */
  const MaskLength := 38

  /** `p_1_leds`: the first P, LEDs 0-7. */
  function P1Leds(): seq<int> { seq(MaskLength, i => if i < 8 then 1 else 0) }
  /** `o_leds`: the O, LEDs 8-12. */
  function OLeds(): seq<int> { seq(MaskLength, i => if 8 <= i < 13 then 1 else 0) }
  /** `o_p_2_leds`: the LED shared by O and the second P; empty on this sign. */
  function OP2Leds(): seq<int> { seq(MaskLength, _ => 0) }
  /** `p_2_leds`: the second P, LEDs 13-20. */
  function P2Leds(): seq<int> { seq(MaskLength, i => if 13 <= i < 21 then 1 else 0) }
  /** `excl_leds`: the exclamation mark, LEDs 21-24. */
  function ExclLeds(): seq<int> { seq(MaskLength, i => if 21 <= i < 25 then 1 else 0) }

  /** The colours of the fastest worm from tick 4000 on. */
  const LateTailColor: u32 := 0x00_FF_FF  // COLOR_BRG(255, 0, 255)
  const LateHeadColor: u32 := 0xFF_00_00  // COLOR_BRG(0, 255, 0)

  lemma LateColorsAreColorBrg()
    ensures LateTailColor == ColorBrg(255, 0, 255) && LateHeadColor == ColorBrg(0, 255, 0)
  {
  }

  /** The colour `paint_letters_to_buffer` gives LED i: the first matching
      case of its priority chain over the masks, or 0. */
  function LetterColor(i: int): u32
    requires 0 <= i < MaskLength
  {
    if P1Leds()[i] != 0 && OLeds()[i] != 0 then P1OColor
    else if P1Leds()[i] != 0 then P1Color
    else if OP2Leds()[i] != 0 then OP2Color
    else if OLeds()[i] != 0 then OColor
    else if P2Leds()[i] != 0 && ExclLeds()[i] != 0 then P2ExclColor
    else if P2Leds()[i] != 0 then P2Color
    else if ExclLeds()[i] != 0 then ExclColor
    else 0
  }

  /** The four letters partition the sign: every LED lies in exactly one of
      them, the shared O/P mask is empty, and the entries past the last LED
      are in no letter. */
  lemma MasksPartition()
    ensures forall i :: 0 <= i < NumLeds ==>
      (if P1Leds()[i] != 0 then 1 else 0) + (if OLeds()[i] != 0 then 1 else 0)
      + (if P2Leds()[i] != 0 then 1 else 0) + (if ExclLeds()[i] != 0 then 1 else 0) == 1
    ensures forall i :: 0 <= i < MaskLength ==> OP2Leds()[i] == 0
    ensures forall i :: NumLeds <= i < MaskLength ==>
      P1Leds()[i] == 0 && OLeds()[i] == 0 && P2Leds()[i] == 0 && ExclLeds()[i] == 0
  {
  }

  /** Since the letters do not overlap, each LED gets the plain colour of its
      own letter; the blended colours of the priority chain are never used. */
  lemma LetterColorByLetter(i: int)
    requires 0 <= i < NumLeds
    ensures 0 <= i < 8 ==> LetterColor(i) == P1Color
    ensures 8 <= i < 13 ==> LetterColor(i) == OColor
    ensures 13 <= i < 21 ==> LetterColor(i) == P2Color
    ensures 21 <= i < 25 ==> LetterColor(i) == ExclColor
    ensures LetterColor(i) != 0
  {
  }

  /** `worm_color_by_speed(speed, t, idx)`: the head (idx 0) and the tail
      (any other idx) colours, by speed band and, at the fastest speeds, by
      time. Every channel stays a byte, so the top byte is always 0. */
  function WormColorBySpeed(speed: int, t: nat, idx: int): (c: u32)
    ensures c < 0x100_0000
  {
    if speed > 15 then
      if idx != 0 then WormTailColor else Worm0Color
    else if speed > 7 then
      if idx != 0 then MidTailColor else MidHeadColor
    else if t < 3500 then
      if idx != 0 then FastTailColor else FastHeadColor
    else if t < 4000 then
      if idx != 0 then
        ColorBrg(Interp(3500, 4000, 40, 255, t), Interp(3500, 4000, 20, 0, t), Interp(3500, 4000, 200, 255, t))
      else
        ColorBrg(Interp(3500, 4000, 255, 0, t), Interp(3500, 4000, 130, 255, t), Interp(3500, 4000, 80, 0, t))
    else
      if idx != 0 then LateTailColor else LateHeadColor
  }

  /** Every tail index gets the same colour. */
  lemma TailIndicesAgree(speed: int, t: nat, idx: int, idx2: int)
    requires idx != 0 && idx2 != 0
    ensures WormColorBySpeed(speed, t, idx) == WormColorBySpeed(speed, t, idx2)
  {
  }

  /** At the fastest speeds the ramps of [3500, 4000) start from the other
      part's colour, so at 3500 head and tail exchange colours. They head for
      the colours used from 4000 on but, in integer steps, have not reached
      them at 3999; from 4000 on the head is COLOR_BRG(0, 255, 0). */
  lemma RampEnds(speed: int)
    requires speed <= 7
    ensures WormColorBySpeed(speed, 3500, 1) == WormColorBySpeed(speed, 3499, 0)
    ensures WormColorBySpeed(speed, 3500, 0) == WormColorBySpeed(speed, 3499, 1)
    ensures WormColorBySpeed(speed, 3999, 1) != WormColorBySpeed(speed, 4000, 1)
    ensures forall t: nat :: t >= 4000 ==> WormColorBySpeed(speed, t, 0) == LateHeadColor
  {
    assert Interp(3500, 4000, 40, 255, 3999) == 254;
  }
}
