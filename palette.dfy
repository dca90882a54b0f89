/** The colours both firmware variants share: the letter palette and the
    worm's colours up to its fastest phase. Each is written as the word its
    COLOR_BRG(R, G, B) packs to, 0xGGRRBB. */
module Palette {
  import opened Bits

  const P1Color: u32 := 0x05_F0_02        // COLOR_BRG(240, 5, 2)
  const P1OColor: u32 := 0x00_14_28       // COLOR_BRG(20, 0, 40)
  const OColor: u32 := 0x23_0C_78         // COLOR_BRG(12, 35, 120)
  const OP2Color: u32 := 0x46_1C_06       // COLOR_BRG(28, 70, 6)
  const P2Color: u32 := 0x28_C8_00        // COLOR_BRG(200, 40, 0)
  const P2ExclColor: u32 := 0x08_96_01    // COLOR_BRG(150, 8, 1)
  const ExclColor: u32 := 0x0C_96_08      // COLOR_BRG(150, 12, 8)
  const White: u32 := 0x82_FF_50          // COLOR_BRG(255, 130, 80)
  /** The worm's head and tail colours at speeds above 15. */
  const Worm0Color: u32 := 0x46_1C_06     // COLOR_BRG(28, 70, 6)
  const WormTailColor: u32 := 0x28_64_00  // COLOR_BRG(100, 40, 0)
  /** The worm's colours at speeds 8 to 15. */
  const MidTailColor: u32 := 0x3C_96_0A   // COLOR_BRG(150, 60, 10)
  const MidHeadColor: u32 := 0x8C_46_14   // COLOR_BRG(70, 140, 20)
  /** The worm's colours at speeds 7 and below, before tick 3500. */
  const FastTailColor: u32 := 0x82_FF_50  // COLOR_BRG(255, 130, 80)
  const FastHeadColor: u32 := 0x14_28_C8  // COLOR_BRG(40, 20, 200)

  /** Every palette entry is the packing of its channels. */
  lemma PaletteIsColorBrg()
    ensures P1Color == ColorBrg(240, 5, 2) && P1OColor == ColorBrg(20, 0, 40)
    ensures OColor == ColorBrg(12, 35, 120) && OP2Color == ColorBrg(28, 70, 6)
    ensures P2Color == ColorBrg(200, 40, 0) && P2ExclColor == ColorBrg(150, 8, 1)
    ensures ExclColor == ColorBrg(150, 12, 8) && White == ColorBrg(255, 130, 80)
    ensures Worm0Color == ColorBrg(28, 70, 6) && WormTailColor == ColorBrg(100, 40, 0)
    ensures MidTailColor == ColorBrg(150, 60, 10) && MidHeadColor == ColorBrg(70, 140, 20)
    ensures FastTailColor == ColorBrg(255, 130, 80) && FastHeadColor == ColorBrg(40, 20, 200)
  {
  }
}
