/** The pixel-stream patterns of the WS2812 test sign: each puts `len` (or
    `num_leds`) pixels to the LED string, here returned in the order they
    are put. */
module Ws2812Patterns {
  import opened Bits
  import opened Palette
  import opened Ws2812Colors

  /** `urgb_u32(0xff, 0, 0)`, `urgb_u32(0, 0xff, 0)` and `urgb_u32(0, 0, 0xff)`:
      the same packing as COLOR_BRG. */
  const SnakeRed: u32 := 0x00_FF_00
  const SnakeGreen: u32 := 0xFF_00_00
  const SnakeBlue: u32 := 0x00_00_FF

  lemma SnakeColorsArePacked()
    ensures SnakeRed == ColorBrg(0xff, 0, 0) && SnakeGreen == ColorBrg(0, 0xff, 0) && SnakeBlue == ColorBrg(0, 0, 0xff)
  {
  }

  /** The colour of a snake pixel at phase x of the 64-pixel cycle. */
  function SnakeColor(x: nat): u32
  {
    if x < 10 then SnakeRed
    else if 15 <= x < 25 then SnakeGreen
    else if 30 <= x < 40 then SnakeBlue
    else 0
  }

  /** The frame `pattern_snakes(len, t)` puts: pixel i is at phase
      (i + t / 2) mod 64. */
  function Snakes(len: nat, t: nat): (p: seq<u32>)
    ensures |p| == len
  {
    seq<u32>(len, i requires 0 <= i < len => SnakeColor((i + t / 2) % 64))
  }

  /** `uint` arithmetic wraps modulo 2^32, a multiple of 64, so the wrap
      never changes the phase. */
  lemma WrapKeepsPhase(a: nat)
    ensures (a % 0x1_0000_0000) % 64 == a % 64
  {
    var k := a / 0x1_0000_0000;
    assert a == 0x1_0000_0000 * k + a % 0x1_0000_0000;
    assert 0x1_0000_0000 * k == 64 * (0x400_0000 * k);
  }

  /** `pattern_snakes(len, t)`. */
  method PatternSnakes(len: u32, t: u32) returns (emitted: seq<u32>)
    ensures emitted == Snakes(len, t)
  {
    emitted := [];
    var i: u32 := 0;
    while i < len
      invariant 0 <= i <= len
      invariant emitted == Snakes(i, t)
    {
      WrapKeepsPhase(i + t / 2);
      var x := ((i + t / 2) % 0x1_0000_0000) % 64;
      if x < 10 {
        emitted := emitted + [SnakeRed];
      } else if x >= 15 && x < 25 {
        emitted := emitted + [SnakeGreen];
      } else if x >= 30 && x < 40 {
        emitted := emitted + [SnakeBlue];
      } else {
        emitted := emitted + [0];
      }
      i := i + 1;
    }
  }

  /** The snakes move one pixel towards the start of the string every two
      ticks, and the pattern repeats every 128 ticks. */
  lemma SnakesScroll(len: nat, t: nat)
    ensures forall i :: 1 <= i < len ==> Snakes(len, t + 2)[i - 1] == Snakes(len, t)[i]
    ensures Snakes(len, t + 128) == Snakes(len, t)
  {
    forall i | 0 <= i < len
      ensures Snakes(len, t + 128)[i] == Snakes(len, t)[i]
    {
      assert (t + 128) / 2 == t / 2 + 64;
      assert (i + t / 2 + 64) % 64 == (i + t / 2) % 64;
    }
    forall i | 1 <= i < len
      ensures Snakes(len, t + 2)[i - 1] == Snakes(len, t)[i]
    {
      assert (t + 2) / 2 == t / 2 + 1;
    }
  }

  /** The grey of level v: the same level on all three channels. */
  function Grey(v: nat): nat
  {
    v * 0x10101
  }

  /** A grey below 32 has v on each channel and a clear top byte. */
  lemma GreyBytes(v: nat)
    requires v < 32
    ensures Grey(v) < 0x1_0000_0000
    ensures ByteOf(Grey(v), 0) == v && ByteOf(Grey(v), 1) == v && ByteOf(Grey(v), 2) == v
    ensures ByteOf(Grey(v), 3) == 0
  {
    assert Grey(v) == Word(v, v, v, 0);
    BytesOfWord(v, v, v, 0);
  }

  /** The frame `pattern_greys(len, t)` puts: levels counting up from t mod 32
      along the string, wrapping at 32. */
  function Greys(len: nat, t: nat): (p: seq<u32>)
    ensures |p| == len
  {
    seq(len, i requires 0 <= i < len => GreyLevel(t, i))
  }

  function GreyLevel(t: nat, i: nat): u32
  {
    var v := (t % 32 + i) % 32;
    GreyBytes(v);
    Grey(v)
  }

  /** `pattern_greys(len, t)`: a level counter that starts at t mod 32 and
      wraps to 0 on reaching 32. */
  method PatternGreys(len: u32, t: u32) returns (emitted: seq<u32>)
    ensures emitted == Greys(len, t)
  {
    emitted := [];
    var level := t % 32;
    var i: u32 := 0;
    while i < len
      invariant 0 <= i <= len
      invariant level == (t % 32 + i) % 32
      invariant emitted == Greys(i, t)
    {
      GreyBytes(level);
      emitted := emitted + [level * 0x10101];
      level := level + 1;
      if level >= 32 {
        level := 0;
      }
      i := i + 1;
    }
  }

  /** Every grey pixel is dim: the same level, below 32 (the current cap
      the firmware chose), on each channel, and a clear top byte. */
  lemma GreysDim(len: nat, t: nat, i: nat)
    requires i < len
    ensures ByteOf(Greys(len, t)[i], 0) < 32
    ensures ByteOf(Greys(len, t)[i], 0) == ByteOf(Greys(len, t)[i], 1) == ByteOf(Greys(len, t)[i], 2)
    ensures ByteOf(Greys(len, t)[i], 3) == 0
  {
    GreyBytes((t % 32 + i) % 32);
  }

  /** The levels climb by one along the string and over time. */
  lemma GreysScroll(len: nat, t: nat)
    ensures forall i :: 1 <= i < len ==> Greys(len, t + 1)[i - 1] == Greys(len, t)[i]
  {
    forall i | 1 <= i < len
      ensures Greys(len, t + 1)[i - 1] == Greys(len, t)[i]
    {
      assert ((t + 1) % 32 + (i - 1)) % 32 == (t % 32 + i) % 32;
    }
  }

  /** The pattern repeats every 32 ticks. */
  lemma GreysPeriod(len: nat, t: nat)
    ensures Greys(len, t + 32) == Greys(len, t)
  {
    forall i | 0 <= i < len
      ensures Greys(len, t + 32)[i] == Greys(len, t)[i]
    {
      assert (t + 32) % 32 == t % 32;
    }
  }

  /** The frame `show_letter(letter, color, t)` puts: `color` on the LEDs of
      the letter, black elsewhere. */
  function LetterFrame(letter: seq<int>, color: u32): (p: seq<u32>)
    requires |letter| >= NumLeds
    ensures |p| == NumLeds
  {
    seq(NumLeds, i requires 0 <= i < NumLeds => if letter[i] != 0 then color else 0)
  }

  /** `show_letter(letter, color, t)`. */
  method ShowLetter(letter: seq<int>, color: u32, t: nat) returns (emitted: seq<u32>)
    requires |letter| >= NumLeds
    ensures |emitted| == NumLeds
    ensures forall i :: 0 <= i < NumLeds ==> emitted[i] == if letter[i] != 0 then color else 0
  {
    emitted := [];
    var i := 0;
    while i < NumLeds
      invariant 0 <= i <= NumLeds
      invariant emitted == LetterFrame(letter, color)[..i]
    {
      if letter[i] != 0 {
        emitted := emitted + [color];
      } else {
        emitted := emitted + [0];
      }
      i := i + 1;
    }
  }

  /** The four letter frames shown in turn light every LED of the sign, and
      the shared middle LED 15 is lit by both the O and the second P. */
  lemma LetterFramesCoverSign()
    ensures forall i :: 0 <= i < NumLeds ==>
      LetterFrame(P1Leds(), P1Color)[i] != 0 || LetterFrame(OLeds(), OColor)[i] != 0
      || LetterFrame(P2Leds(), P2Color)[i] != 0 || LetterFrame(ExclLeds(), ExclColor)[i] != 0
    ensures LetterFrame(OLeds(), OColor)[15] == OColor && LetterFrame(P2Leds(), P2Color)[15] == P2Color
  {
    forall i | 0 <= i < NumLeds
      ensures LetterFrame(P1Leds(), P1Color)[i] != 0 || LetterFrame(OLeds(), OColor)[i] != 0
        || LetterFrame(P2Leds(), P2Color)[i] != 0 || LetterFrame(ExclLeds(), ExclColor)[i] != 0
    {
      LedsCovered(i);
    }
  }

  /** What `show_all` has put after its first n LEDs: one pixel per LED that
      matches a case of its priority chain, nothing for an LED that matches
      none. */
  function ShowAllStream(n: nat): seq<u32>
    requires n <= NumLeds
  {
    if n == 0 then []
    else ShowAllStream(n - 1) + (if InSomeLetter(n - 1) then [LetterColor(n - 1)] else [])
  }

  /** Since every LED lies in some letter, `show_all` puts exactly one pixel
      per LED, each the colour of its case. */
  lemma {:induction false} ShowAllSendsEveryLed(n: nat)
    requires n <= NumLeds
    ensures |ShowAllStream(n)| == n
    ensures forall i :: 0 <= i < n ==> ShowAllStream(n)[i] == LetterColor(i)
  {
    if n > 0 {
      ShowAllSendsEveryLed(n - 1);
      LedsCovered(n - 1);
      assert ShowAllStream(n) == ShowAllStream(n - 1) + [LetterColor(n - 1)];
    }
  }

  /** `show_all(t)`: the priority chain over the masks, putting a pixel only
      when a case matches. */
  method ShowAll(t: nat) returns (emitted: seq<u32>)
    ensures emitted == ShowAllStream(NumLeds)
    ensures |emitted| == NumLeds && forall i :: 0 <= i < NumLeds ==> emitted[i] == LetterColor(i)
  {
    emitted := [];
    var i := 0;
    while i < NumLeds
      invariant 0 <= i <= NumLeds
      invariant emitted == ShowAllStream(i)
    {
      if P1Leds()[i] != 0 && OLeds()[i] != 0 {
        emitted := emitted + [P1OColor];
      } else if P1Leds()[i] != 0 {
        emitted := emitted + [P1Color];
      } else if OP2Leds()[i] != 0 {
        emitted := emitted + [OP2Color];
      } else if OLeds()[i] != 0 {
        emitted := emitted + [OColor];
      } else if P2Leds()[i] != 0 && ExclLeds()[i] != 0 {
        emitted := emitted + [P2ExclColor];
      } else if P2Leds()[i] != 0 {
        emitted := emitted + [P2Color];
      } else if ExclLeds()[i] != 0 {
        emitted := emitted + [ExclColor];
      }
      i := i + 1;
    }
    ShowAllSendsEveryLed(NumLeds);
  }
}
