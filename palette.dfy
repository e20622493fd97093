/** The background colour of the simple example's cells: a VGA-style
    palette in which the three low bits of the cell index switch the red,
    green and blue channels fully on, and indices above 7 lift the channels
    that are off to half intensity. */
module Palette {

  /** A cell index (`usize`). */
  type Index = bv64

  /** A colour packed as `0xRRGGBB` in the low 24 bits. */
  type Packed = bv32

  /** The red, green and blue channels of a packed `0xRRGGBB` colour:
      shift the channel down to the low byte, then mask. */
  function Red(rgb: Packed): bv32 { (rgb >> 16) & 0xFF }
  function Green(rgb: Packed): bv32 { (rgb >> 8) & 0xFF }
  function Blue(rgb: Packed): bv32 { rgb & 0xFF }

  /** `bg_color`: a channel is `0xFF` when its bit of `i` is set (bit 2 red,
      bit 1 green, bit 0 blue); a channel that is off takes the intensity,
      `0x80` for indices above 7 and `0x00` otherwise. */
  function BgColor(i: Index): (rgb: Packed)
    ensures rgb < 0x100_0000
    ensures Red(rgb) == 0xFF || Red(rgb) == 0x80 || Red(rgb) == 0x00
    ensures Green(rgb) == 0xFF || Green(rgb) == 0x80 || Green(rgb) == 0x00
    ensures Blue(rgb) == 0xFF || Blue(rgb) == 0x80 || Blue(rgb) == 0x00
  {
    var r: bv32 := if (i & 0x4) != 0 then 0xFF else 0x00;
    var g: bv32 := if (i & 0x2) != 0 then 0xFF else 0x00;
    var b: bv32 := if (i & 0x1) != 0 then 0xFF else 0x00;
    var intensity: bv32 := if i > 7 then 0x80 else 0x00;
    var r := if r == 0 then intensity else r;
    var g := if g == 0 then intensity else g;
    var b := if b == 0 then intensity else b;
    (r << 16) | (g << 8) | b
  }

  /** A channel is fully on exactly when its bit of the index is set. */
  lemma ChannelOnIffBitSet(i: Index)
    ensures Red(BgColor(i)) == 0xFF <==> (i & 0x4) != 0
    ensures Green(BgColor(i)) == 0xFF <==> (i & 0x2) != 0
    ensures Blue(BgColor(i)) == 0xFF <==> (i & 0x1) != 0
  {
  }

  /** A channel whose bit is clear shows the intensity: `0x80` above index
      7, `0x00` up to it. */
  lemma ChannelOffIsIntensity(i: Index)
    ensures (i & 0x4) == 0 ==> Red(BgColor(i)) == (if i > 7 then 0x80 else 0x00)
    ensures (i & 0x2) == 0 ==> Green(BgColor(i)) == (if i > 7 then 0x80 else 0x00)
    ensures (i & 0x1) == 0 ==> Blue(BgColor(i)) == (if i > 7 then 0x80 else 0x00)
  {
  }

  /** Up to index 7 every channel is off or fully on; above it every
      channel is at least half on. */
  lemma ChannelRanges(i: Index)
    ensures i <= 7 ==> Red(BgColor(i)) == 0x00 || Red(BgColor(i)) == 0xFF
    ensures i <= 7 ==> Green(BgColor(i)) == 0x00 || Green(BgColor(i)) == 0xFF
    ensures i <= 7 ==> Blue(BgColor(i)) == 0x00 || Blue(BgColor(i)) == 0xFF
    ensures i > 7 ==> Red(BgColor(i)) == 0x80 || Red(BgColor(i)) == 0xFF
    ensures i > 7 ==> Green(BgColor(i)) == 0x80 || Green(BgColor(i)) == 0xFF
    ensures i > 7 ==> Blue(BgColor(i)) == 0x80 || Blue(BgColor(i)) == 0xFF
  {
  }

  /** The packed value is the channels weighted by 2^16, 2^8 and 1: the
      shifts and the `|` never overlap, so unpacking gives each channel
      back. */
  lemma PackedIsWeightedSum(i: Index)
    ensures BgColor(i) as int == Red(BgColor(i)) as int * 0x1_0000 + Green(BgColor(i)) as int * 0x100
                                 + Blue(BgColor(i)) as int
  {
  }

  /** Only the three low bits and whether the index is above 7 matter. */
  lemma DependsOnLowBitsAndIntensity(i: Index)
    ensures BgColor(i) == BgColor((i & 0x7) | (if i > 7 then 0x8 else 0))
  {
  }

  /** The sixteen indices `0 ..= 15` are sixteen different colours, except
      that 7 and 15 are both white. */
  lemma FirstSixteenDistinct(i: Index, j: Index)
    requires i < j <= 15
    ensures BgColor(i) == BgColor(j) <==> i == 7 && j == 15
  {
  }
}
