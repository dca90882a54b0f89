/** The twaeng_pop sign: its pixel buffers, seen byte by byte as the firmware's
    loops see them, the background and compositing steps, and the worm that
    walks the topology and paints its trail. */
module TwaengSign {
  import opened Bits
  import opened Topology
  import opened WormSchedule
  import TwaengTopology
  import opened TwaengColors

  /** A pixel buffer of `num_leds` 32-bit words, as bytes: pixel i occupies
      bytes 4i .. 4i+3, least significant first (B, R, G, top byte). */
  const FrameBytes := 4 * NumLeds
  const DefaultPwmLedFade := 80
  const HighlightPwmLedFade := 150

  /** Pixel i of a byte buffer. */
  function PixelAt(b: seq<byte>, i: int): u32
    requires 0 <= i && 4 * i + 4 <= |b|
  {
    Word(b[4 * i], b[4 * i + 1], b[4 * i + 2], b[4 * i + 3])
  }

  /** The pixels of a byte buffer, in index order. */
  function Pixels(b: seq<byte>): (p: seq<u32>)
    ensures |p| == |b| / 4
  {
    seq(|b| / 4, i requires 0 <= i < |b| / 4 => PixelAt(b, i))
  }

  /** The byte buffer holding the given pixels. */
  function BytesOf(p: seq<u32>): (b: seq<byte>)
    ensures |b| == 4 * |p|
  {
    seq(4 * |p|, j requires 0 <= j < 4 * |p| => ByteOf(p[j / 4], j % 4))
  }

  lemma DivMod4(i: int, k: int)
    requires 0 <= i && 0 <= k < 4
    ensures (4 * i + k) / 4 == i && (4 * i + k) % 4 == k
  {
  }

  /** Byte k of pixel q sits at 4q + k. */
  lemma BytesOfAt(p: seq<u32>, q: int, k: int)
    requires 0 <= q < |p| && 0 <= k < 4
    ensures BytesOf(p)[4 * q + k] == ByteOf(p[q], k)
  {
    DivMod4(q, k);
  }

  /** A buffer holding byte k of pixel q at 4q + k is the buffer of those pixels. */
  lemma BytesOfUnique(s: seq<byte>, p: seq<u32>)
    requires |s| == 4 * |p|
    requires forall q, k :: 0 <= q < |p| && 0 <= k < 4 ==> s[4 * q + k] == ByteOf(p[q], k)
    ensures s == BytesOf(p)
  {
    forall j | 0 <= j < |s|
      ensures s[j] == BytesOf(p)[j]
    {
      var q, k := j / 4, j % 4;
      assert j == 4 * q + k;
      BytesOfAt(p, q, k);
    }
  }

  /** Pixel q read back from the bytes that store a sequence of pixels. */
  lemma PixelOfBytes(p: seq<u32>, q: int)
    requires 0 <= q < |p|
    ensures PixelAt(BytesOf(p), q) == p[q]
  {
    BytesOfAt(p, q, 0);
    BytesOfAt(p, q, 1);
    BytesOfAt(p, q, 2);
    BytesOfAt(p, q, 3);
    WordOfBytes(p[q]);
  }

  /** Reading pixels back from the bytes that store them gives the pixels. */
  lemma PixelsOfBytes(p: seq<u32>)
    ensures Pixels(BytesOf(p)) == p
  {
    forall q | 0 <= q < |p|
      ensures Pixels(BytesOf(p))[q] == p[q]
    {
      PixelOfBytes(p, q);
    }
  }

  /** The buffer with pixel i replaced by c, byte by byte. */
  function WritePixel(b: seq<byte>, i: int, c: u32): (r: seq<byte>)
    requires 0 <= i && 4 * i + 4 <= |b|
    ensures |r| == |b|
  {
    seq(|b|, j requires 0 <= j < |b| => StoredByte(b, i, c, j))
  }

  /** Byte j of the buffer after pixel i is set to c. */
  function StoredByte(b: seq<byte>, i: int, c: u32, j: int): byte
    requires 0 <= j < |b|
  {
    if 4 * i <= j < 4 * i + 4 then ByteOf(c, j - 4 * i) else b[j]
  }

  /** Writing a pixel is four byte stores. */
  lemma WritePixelStores(b: seq<byte>, i: int, c: u32)
    requires 0 <= i && 4 * i + 4 <= |b|
    ensures WritePixel(b, i, c) ==
      b[4 * i := ByteOf(c, 0)][4 * i + 1 := ByteOf(c, 1)][4 * i + 2 := ByteOf(c, 2)][4 * i + 3 := ByteOf(c, 3)]
  {
  }

  /** `set_fbpixel(pixel, color)` on a frame buffer: a store guarded by
      `pixel < num_leds`. */
  function SetPixel(b: seq<byte>, pixel: byte, c: u32): (r: seq<byte>)
    requires |b| == FrameBytes
    ensures |r| == FrameBytes
  {
    if pixel < NumLeds then WritePixel(b, pixel, c) else b
  }

  /** An out-of-range `set_fbpixel` changes nothing; an in-range one sets
      exactly its own pixel and leaves every other pixel as it was. */
  lemma SetPixelEffect(b: seq<byte>, pixel: byte, c: u32)
    requires |b| == FrameBytes
    ensures pixel >= NumLeds ==> SetPixel(b, pixel, c) == b
    ensures forall q :: 0 <= q < NumLeds ==>
      PixelAt(SetPixel(b, pixel, c), q) == if q == pixel then c else PixelAt(b, q)
  {
    var r := SetPixel(b, pixel, c);
    forall q | 0 <= q < NumLeds
      ensures PixelAt(r, q) == if q == pixel then c else PixelAt(b, q)
    {
      if q == pixel {
        WordOfBytes(c);
      }
    }
  }

  /** `(x * 14) >> 4`, the decay applied to every frame byte and to
      `pwm_led_fade`; the shift of a non-negative value is a floor division. */
  function Decay14(x: int): (r: int)
    ensures 0 <= x ==> 0 <= r <= x
    ensures 0 < x ==> r < x
  {
    (x * 14) / 16
  }

  /** `decay_frame_buffer` on the bytes of the frame buffer. */
  function Decay(b: seq<byte>): (r: seq<byte>)
    ensures |r| == |b|
    ensures forall i :: 0 <= i < |b| ==> r[i] <= b[i] && (b[i] > 0 ==> r[i] < b[i])
  {
    seq(|b|, i requires 0 <= i < |b| => Decay14(b[i]) as byte)
  }

  /** k successive decays. */
  function DecayTimes(b: seq<byte>, k: nat): (r: seq<byte>)
    ensures |r| == |b|
  {
    if k == 0 then b else Decay(DecayTimes(b, k - 1))
  }

  /** Each decay takes at least one unit off every nonzero byte. */
  lemma {:induction false} DecayTimesBound(b: seq<byte>, k: nat)
    ensures forall i :: 0 <= i < |b| ==> DecayTimes(b, k)[i] <= Max(0, b[i] - k)
  {
    if k > 0 {
      DecayTimesBound(b, k - 1);
    }
  }

  /** Repeated decay fades the whole buffer to black: after 255 decays every
      byte is 0. */
  lemma DecaysToBlack(b: seq<byte>)
    ensures DecayTimes(b, 255) == seq(|b|, _ => 0)
  {
    DecayTimesBound(b, 255);
  }

  /** The byte average `(f + b) >> 1` of `paint_mixed`. */
  function Average(f: byte, g: byte): (r: byte)
    ensures Min(f, g) <= r <= Max(f, g)
  {
    (f as int + g) / 2
  }

  /** `paint_mixed`'s composite of the frame and the background, byte by byte. */
  function Mix(a: seq<byte>, b: seq<byte>): (r: seq<byte>)
    requires |a| == |b|
    ensures |r| == |a|
    ensures forall i :: 0 <= i < |a| ==> Min(a[i], b[i]) <= r[i] <= Max(a[i], b[i])
  {
    seq(|a|, i requires 0 <= i < |a| => Average(a[i], b[i]))
  }

  /** The composite does not depend on the order of its layers, and a layer
      composited with itself is unchanged. */
  lemma MixSymmetricIdempotent(a: seq<byte>, b: seq<byte>)
    requires |a| == |b|
    ensures Mix(a, b) == Mix(b, a)
    ensures Mix(a, a) == a
  {
  }

  /** `max(1, b >> 3)`, the dimming of `init_background`. */
  function DimByte(b: byte): (r: byte)
    ensures 1 <= r <= Max(1, b)
    ensures r == 1 <==> b < 16
  {
    Max(1, b / 8)
  }

  function Dim(b: seq<byte>): (r: seq<byte>)
    ensures |r| == |b|
    ensures forall i :: 0 <= i < |b| ==> r[i] == DimByte(b[i]) && r[i] >= 1
  {
    seq(|b|, i requires 0 <= i < |b| => DimByte(b[i]))
  }

  /** The letter image `paint_letters_to_buffer` produces. */
  function LetterImage(): (b: seq<byte>)
    ensures |b| == FrameBytes
  {
    BytesOf(seq(NumLeds, i requires 0 <= i < NumLeds => LetterColor(i)))
  }

  /** Each pixel of the letter image is its letter's colour. */
  lemma LetterImagePixels(i: int)
    requires 0 <= i < NumLeds
    ensures PixelAt(LetterImage(), i) == LetterColor(i)
  {
    PixelsOfBytes(seq(NumLeds, i requires 0 <= i < NumLeds => LetterColor(i)));
    assert Pixels(LetterImage())[i] == PixelAt(LetterImage(), i);
  }

  /** `(b * fade) >> 6` stored back into a byte: the shift is a floor
      division, and the store keeps the low eight bits. */
  function FadeByte(b: byte, fade: int): byte
  {
    ((b as int * fade) / 64) % 256
  }

  /** The colour `put_faded_pixel(color, fade)` sends. */
  function Faded(c: u32, fade: int): u32
  {
    Word(FadeByte(ByteOf(c, 0), fade), FadeByte(ByteOf(c, 1), fade),
         FadeByte(ByteOf(c, 2), fade), FadeByte(ByteOf(c, 3), fade))
  }

  /** Byte k of the faded colour is byte k of the colour, faded. */
  lemma FadedByte(c: u32, fade: int, k: int)
    requires 0 <= k < 4
    ensures ByteOf(Faded(c, fade), k) == FadeByte(ByteOf(c, k), fade)
  {
    BytesOfWord(FadeByte(ByteOf(c, 0), fade), FadeByte(ByteOf(c, 1), fade),
                FadeByte(ByteOf(c, 2), fade), FadeByte(ByteOf(c, 3), fade));
  }

  /** A fade level in [0, 64] scales every byte down; 64 is the identity and
      0 is black. */
  lemma FadedBounds(c: u32, fade: int)
    requires 0 <= fade <= 64
    ensures forall k :: 0 <= k < 4 ==> ByteOf(Faded(c, fade), k) <= ByteOf(c, k)
    ensures fade == 64 ==> Faded(c, fade) == c
    ensures fade == 0 ==> Faded(c, fade) == 0
  {
    forall k | 0 <= k < 4
      ensures ByteOf(Faded(c, fade), k) <= ByteOf(c, k)
    {
      FadedByte(c, fade, k);
      ScaleDown(ByteOf(c, k), fade);
    }
    if fade == 64 {
      FadedFull(c);
    }
  }

  /** Fading at level 64 changes no byte. */
  lemma FadedFull(c: u32)
    ensures Faded(c, 64) == c
  {
    var b0, b1, b2, b3 := ByteOf(c, 0), ByteOf(c, 1), ByteOf(c, 2), ByteOf(c, 3);
    assert FadeByte(b0, 64) == b0 && FadeByte(b1, 64) == b1;
    assert FadeByte(b2, 64) == b2 && FadeByte(b3, 64) == b3;
    WordOfBytes(c);
  }

  lemma ScaleDown(b: byte, fade: int)
    requires 0 <= fade <= 64
    ensures FadeByte(b, fade) <= b
  {
    assert b * fade <= b * 64 by {
      assert b * 64 - b * fade == b * (64 - fade);
    }
  }

  /** The worm trail: the three tail positions, then the head, each through
      `set_fbpixel`. */
  function Trail(b: seq<byte>, w0: byte, w1: byte, w2: byte, w3: byte, speed: int, t: nat): (r: seq<byte>)
    requires |b| == FrameBytes
    ensures |r| == FrameBytes
  {
    var b1 := SetPixel(b, w1, WormColorBySpeed(speed, t, 1));
    var b2 := SetPixel(b1, w2, WormColorBySpeed(speed, t, 2));
    var b3 := SetPixel(b2, w3, WormColorBySpeed(speed, t, 3));
    SetPixel(b3, w0, WormColorBySpeed(speed, t, 0))
  }

  /** Since the head is painted last, it wins over any tail position it
      shares an LED with; the other tail positions get the tail colour; no
      other pixel changes. */
  lemma TrailPixels(b: seq<byte>, w0: byte, w1: byte, w2: byte, w3: byte, speed: int, t: nat, q: int)
    requires |b| == FrameBytes && 0 <= q < NumLeds
    ensures PixelAt(Trail(b, w0, w1, w2, w3, speed, t), q) ==
      if q == w0 then WormColorBySpeed(speed, t, 0)
      else if q == w1 || q == w2 || q == w3 then WormColorBySpeed(speed, t, 1)
      else PixelAt(b, q)
  {
    var b1 := SetPixel(b, w1, WormColorBySpeed(speed, t, 1));
    var b2 := SetPixel(b1, w2, WormColorBySpeed(speed, t, 2));
    var b3 := SetPixel(b2, w3, WormColorBySpeed(speed, t, 3));
    SetPixelEffect(b, w1, WormColorBySpeed(speed, t, 1));
    SetPixelEffect(b1, w2, WormColorBySpeed(speed, t, 2));
    SetPixelEffect(b2, w3, WormColorBySpeed(speed, t, 3));
    SetPixelEffect(b3, w0, WormColorBySpeed(speed, t, 0));
    TailIndicesAgree(speed, t, 1, 2);
    TailIndicesAgree(speed, t, 1, 3);
  }

  /** The first n pixels of p are stored in s. */
  ghost predicate Stored(s: seq<byte>, p: seq<u32>, n: int)
    requires 0 <= n <= |p| && |s| == 4 * |p|
  {
    forall q, k :: 0 <= q < n && 0 <= k < 4 ==> s[4 * q + k] == ByteOf(p[q], k)
  }

  /** Storing pixel n extends the stored prefix by one. */
  lemma StoreStep(s: seq<byte>, p: seq<u32>, n: int)
    requires 0 <= n < |p| && |s| == 4 * |p| && Stored(s, p, n)
    ensures Stored(WritePixel(s, n, p[n]), p, n + 1)
  {
    var r := WritePixel(s, n, p[n]);
    forall q, k | 0 <= q <= n && 0 <= k < 4
      ensures r[4 * q + k] == ByteOf(p[q], k)
    {
      if q < n {
        assert 4 * q + k < 4 * n;
      }
    }
  }

  /** `paint_letters_to_buffer(buffer)`: every pixel of the buffer gets the
      colour of its letter. */
  method PaintLettersToBuffer(buffer: array<byte>)
    requires buffer.Length == FrameBytes
    modifies buffer
    ensures buffer[..] == LetterImage()
  {
    ghost var letters := seq(NumLeds, i requires 0 <= i < NumLeds => LetterColor(i));
    var i := 0;
    while i < NumLeds
      invariant 0 <= i <= NumLeds
      invariant Stored(buffer[..], letters, i)
    {
      var c := LetterColor(i);
      ghost var before := buffer[..];
      WritePixelStores(before, i, c);
      StoreStep(before, letters, i);
      buffer[4 * i] := ByteOf(c, 0);
      buffer[4 * i + 1] := ByteOf(c, 1);
      buffer[4 * i + 2] := ByteOf(c, 2);
      buffer[4 * i + 3] := ByteOf(c, 3);
      assert buffer[..] == WritePixel(before, i, letters[i]);
      i := i + 1;
    }
    BytesOfUnique(buffer[..], letters);
  }

  /** The dimming loop of `init_background`: every byte to an eighth, and
      never below 1. */
  method DimBuffer(buffer: array<byte>)
    modifies buffer
    ensures buffer[..] == Dim(old(buffer[..]))
  {
    var i := 0;
    while i < buffer.Length
      invariant 0 <= i <= buffer.Length
      invariant forall j :: 0 <= j < i ==> buffer[j] == DimByte(old(buffer[j]))
      invariant forall j :: i <= j < buffer.Length ==> buffer[j] == old(buffer[j])
    {
      buffer[i] := Max(1, buffer[i] / 8);
      i := i + 1;
    }
  }

  /** The sign's global state: the frame buffer, the dim background, the
      composite that is sent, the backlight level, the worm, and the stream
      of pixels sent to the LED string. */
  class Sign {
    const frame: array<byte>
    const background: array<byte>
    const paint: array<byte>
    var pwmLedFade: int
    var speed: int
    var worm0: byte
    var worm1: byte
    var worm2: byte
    var worm3: byte
    var output: seq<u32>

    ghost predicate Valid()
      reads this
    {
      && frame.Length == FrameBytes && background.Length == FrameBytes && paint.Length == FrameBytes
      && frame != background && frame != paint && background != paint
      && speed >= Floor && worm0 < NumLeds
    }

    /** The state at power-up: zeroed buffers, the default backlight, and the
        worm at LED 6 with an off-sign history. */
    constructor ()
      ensures Valid()
      ensures frame[..] == seq(FrameBytes, _ => 0) && background[..] == seq(FrameBytes, _ => 0)
      ensures paint[..] == seq(FrameBytes, _ => 0)
      ensures pwmLedFade == DefaultPwmLedFade && speed == 60 && output == []
      ensures worm0 == 6 && worm1 == NumLeds && worm2 == NumLeds && worm3 == NumLeds
    {
      frame := new byte[FrameBytes](_ => 0);
      background := new byte[FrameBytes](_ => 0);
      paint := new byte[FrameBytes](_ => 0);
      pwmLedFade := DefaultPwmLedFade;
      speed := 60;
      worm0, worm1, worm2, worm3 := 6, NumLeds, NumLeds, NumLeds;
      output := [];
    }

    /** `set_fbpixel(pixel, color)`. */
    method SetFbPixel(pixel: byte, color: u32)
      requires Valid()
      ensures Valid()
      modifies frame
      ensures frame[..] == SetPixel(old(frame[..]), pixel, color)
    {
      if pixel < NumLeds {
        var i: int := pixel;
        WritePixelStores(frame[..], i, color);
        frame[4 * i] := ByteOf(color, 0);
        frame[4 * i + 1] := ByteOf(color, 1);
        frame[4 * i + 2] := ByteOf(color, 2);
        frame[4 * i + 3] := ByteOf(color, 3);
      }
    }

    /** `decay_frame_buffer`: every byte, and the backlight level, scaled by 14/16. */
    method DecayFrameBuffer()
      requires Valid()
      ensures Valid()
      modifies frame, this`pwmLedFade
      ensures frame[..] == Decay(old(frame[..]))
      ensures pwmLedFade == Decay14(old(pwmLedFade))
    {
      var i := 0;
      while i < FrameBytes
        invariant 0 <= i <= FrameBytes
        invariant forall j :: 0 <= j < i ==> frame[j] == Decay14(old(frame[j]))
        invariant forall j :: i <= j < FrameBytes ==> frame[j] == old(frame[j])
        invariant pwmLedFade == old(pwmLedFade)
      {
        frame[i] := Decay14(frame[i]) as byte;
        i := i + 1;
      }
      pwmLedFade := (pwmLedFade * 14) / 16;
    }

    /** `init_background`: the letter image, dimmed to an eighth and never
        below 1. */
    method InitBackground()
      requires Valid()
      modifies background
      ensures background[..] == Dim(LetterImage())
    {
      PaintLettersToBuffer(background);
      DimBuffer(background);
    }

    /** `paint_mixed`: composite the frame over the background, then send
        the composite. */
    method PaintMixed()
      requires Valid()
      ensures Valid()
      modifies paint, this`output
      ensures paint[..] == Mix(frame[..], background[..])
      ensures output == old(output) + Pixels(paint[..])
    {
      var i := 0;
      while i < FrameBytes
        invariant 0 <= i <= FrameBytes
        invariant forall j :: 0 <= j < i ==> paint[j] == Average(frame[j], background[j])
        invariant output == old(output)
      {
        paint[i] := (frame[i] as int + background[i]) / 2;
        i := i + 1;
      }
      Send(paint);
    }

    /** `paint_frame_buffer`: send the frame buffer as it is. */
    method PaintFrameBuffer()
      requires Valid()
      modifies this`output
      ensures output == old(output) + Pixels(frame[..])
    {
      Send(frame);
    }

    /** The sending loop shared by `paint_mixed` and `paint_frame_buffer`:
        every pixel of the buffer, in index order, through `put_pixel`. */
    method Send(b: array<byte>)
      requires b.Length == FrameBytes
      modifies this`output
      ensures output == old(output) + Pixels(b[..])
    {
      ghost var sent := Pixels(b[..]);
      var i := 0;
      while i < NumLeds
        invariant 0 <= i <= NumLeds
        invariant output == old(output) + sent[..i]
      {
        assert sent[i] == PixelAt(b[..], i);
        assert sent[..i + 1] == sent[..i] + [sent[i]];
        output := output + [PixelAt(b[..], i)];
        i := i + 1;
      }
      assert sent[..NumLeds] == sent;
    }

    /** `put_faded_pixel(color, fade)`: scale the four bytes of a copy of the
        colour, then send it. */
    method PutFadedPixel(color: u32, fade: int)
      modifies this`output
      ensures output == old(output) + [Faded(color, fade)]
    {
      var bytes := new byte[4];
      bytes[0], bytes[1], bytes[2], bytes[3] := ByteOf(color, 0), ByteOf(color, 1), ByteOf(color, 2), ByteOf(color, 3);
      ghost var original := bytes[..];
      var i := 0;
      while i < 4
        invariant 0 <= i <= 4
        invariant forall k :: 0 <= k < i ==> bytes[k] == FadeByte(original[k], fade)
        invariant forall k :: i <= k < 4 ==> bytes[k] == original[k]
        invariant output == old(output)
      {
        bytes[i] := FadeByte(bytes[i], fade);
        i := i + 1;
      }
      output := output + [Word(bytes[0], bytes[1], bytes[2], bytes[3])];
    }

    /** The hop of `worm_moves`: the history shifts by one and the new head
        is `random_next_pos(worm0, worm1, worm2)`. The neighbour buffer used
        here holds five entries, enough for every list of this sign (see
        TwaengTopology.Node14OverflowsBuffer). */
    method Hop(draws: Draws) returns (rest: Draws)
      requires Valid() && |draws| >= MaxTries
      modifies this`worm0, this`worm1, this`worm2, this`worm3
      ensures Valid() && WellFormed(TwaengTopology.Table)
      ensures (worm0 as int, rest) == NextPos(TwaengTopology.Table, old(worm0), old(worm1), old(worm2), draws)
      ensures worm1 == old(worm0) && worm2 == old(worm1) && worm3 == old(worm2)
      ensures |draws| - MaxTries <= |rest| <= |draws|
    {
      TwaengTopology.TableWellFormed();
      NextPosExclusion(TwaengTopology.Table, worm0, worm1, worm2, draws);
      var newPos;
      newPos, rest := RandomNextPos(TwaengTopology.Table, worm0, worm1, worm2, draws, TwaengTopology.WalkBufferSize);
      worm3 := worm2;
      worm2 := worm1;
      worm1 := worm0;
      worm0 := newPos;
    }

    /** The painting of `worm_moves`: the three tail positions, then the head. */
    method PaintTrail(t: nat)
      requires Valid()
      ensures Valid()
      modifies frame
      ensures frame[..] == Trail(old(frame[..]), worm0, worm1, worm2, worm3, speed, t)
    {
      SetFbPixel(worm1, WormColorBySpeed(speed, t, 1));
      SetFbPixel(worm2, WormColorBySpeed(speed, t, 2));
      SetFbPixel(worm3, WormColorBySpeed(speed, t, 3));
      SetFbPixel(worm0, WormColorBySpeed(speed, t, 0));
    }

    /** `worm_moves(t)`: one tick of the worm. The speed schedule runs first;
        every sixth tick the frame decays; on a hop tick the history shifts
        and the new head is drawn; then the trail is painted, head last, and
        the composite is sent. */
    method WormMoves(t: nat, draws: Draws) returns (rest: Draws)
      requires Valid() && |draws| >= MaxTries
      modifies this, frame, paint
      ensures Valid()
      ensures speed == NextSpeed(old(speed), t)
      ensures IsHop(speed, t) ==>
        && WellFormed(TwaengTopology.Table)
        && (worm0 as int, rest) == NextPos(TwaengTopology.Table, old(worm0), old(worm1), old(worm2), draws)
        && worm1 == old(worm0) && worm2 == old(worm1) && worm3 == old(worm2)
      ensures !IsHop(speed, t) ==>
        worm0 == old(worm0) && worm1 == old(worm1) && worm2 == old(worm2) && worm3 == old(worm3) && rest == draws
      ensures |draws| - MaxTries <= |rest| <= |draws|
      ensures frame[..] == Trail(if t % 6 == 0 then Decay(old(frame[..])) else old(frame[..]),
                                 worm0, worm1, worm2, worm3, speed, t)
      ensures pwmLedFade == if t % 6 == 0 then Decay14(old(pwmLedFade)) else old(pwmLedFade)
      ensures background[..] == old(background[..])
      ensures paint[..] == Mix(frame[..], background[..])
      ensures output == old(output) + Pixels(paint[..])
    {
      if speed > 4 && t % 60 == 0 {
        speed := speed - 1;
      }
      if t % 6 == 0 {
        DecayFrameBuffer();
      }
      ghost var decayed := frame[..];
      assert decayed == if t % 6 == 0 then Decay(old(frame[..])) else old(frame[..]);
      rest := draws;
      if t % speed == 0 {
        rest := Hop(draws);
      }
      PaintTrail(t);
      assert frame[..] == Trail(decayed, worm0, worm1, worm2, worm3, speed, t);
      PaintMixed();
    }

    /** `worm()`: reset the speed to 60 and run 4800 ticks of the worm. The
        walk ends at the floor speed, having sent one frame per tick. */
    method Worm(draws: Draws) returns (rest: Draws)
      requires Valid() && |draws| >= 4800 * MaxTries
      modifies this, frame, paint
      ensures Valid()
      ensures speed == Floor
      ensures |output| == |old(output)| + 4800 * NumLeds
    {
      speed := 60;
      rest := draws;
      var i := 0;
      while i < 4800
        invariant 0 <= i <= 4800
        invariant Valid()
        invariant speed == SpeedAfter(60, i)
        invariant |rest| >= (4800 - i) * MaxTries
        invariant |output| == |old(output)| + i * NumLeds
      {
        SpeedAfterStep(60, i);
        rest := WormMoves(i, rest);
        i := i + 1;
      }
      WalkEndsAtFloor();
    }
  }
}
