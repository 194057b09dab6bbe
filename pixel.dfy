/** The 16-bit pixel code the testbench writes to video.rgb for every captured,
    video-enabled cycle: a vertical-sync sentinel, a horizontal-sync sentinel,
    or the three colour channels packed as red, green, blue nibbles. */
module Pixel {

  /** Written while the ULA holds VSync. */
  const VSyncCode: nat := 0x00f0
  /** Written while the ULA holds HSync (and not VSync). */
  const HSyncCode: nat := 0x0f00
  /** The code is stored in an `unsigned short`, i.e. modulo 2^16. */
  const ShortModulus: nat := 0x1_0000
  /** Channel values are meant to be 4-bit intensities. */
  const ChannelLimit: nat := 16

  /** Assignment of a non-negative `int` to an `unsigned short`. */
  function ToUnsignedShort(x: nat): (r: nat)
    ensures r < ShortModulus
    ensures x < ShortModulus ==> r == x
    ensures (x - r) % ShortModulus == 0
  {
    x % ShortModulus
  }

  /** Splits a colour code back into (red, green, blue) nibbles. */
  function DecodeColour(code: nat): (nat, nat, nat)
  {
    (code / 256, code / 16 % 16, code % 16)
  }

  /** The pixel code for one cycle's video outputs. Sync takes precedence over
      colour, vertical over horizontal; with 4-bit channels the colour code is
      below 0x1000 and decodes back to the channels. */
  function Encode(vSync: bool, hSync: bool, r: nat, g: nat, b: nat): (code: nat)
    ensures code < ShortModulus
    ensures vSync ==> code == VSyncCode
    ensures !vSync && hSync ==> code == HSyncCode
    ensures !vSync && !hSync && r < ChannelLimit && g < ChannelLimit && b < ChannelLimit ==>
              code < 0x1000 && DecodeColour(code) == (r, g, b)
  {
    if vSync then VSyncCode
    else if hSync then HSyncCode
    else
      var packed := r * 256 + g * 16 + b;
      assert r < ChannelLimit && g < ChannelLimit && b < ChannelLimit ==>
        packed < 0x1000 && DecodeColour(packed) == (r, g, b) by {
        if r < ChannelLimit && g < ChannelLimit && b < ChannelLimit {
          ColourFields(r, g, b);
        }
      }
      ToUnsignedShort(packed)
  }

  /** Packing three nibbles and dividing again recovers each of them. */
  lemma ColourFields(r: nat, g: nat, b: nat)
    requires r < ChannelLimit && g < ChannelLimit && b < ChannelLimit
    ensures r * 256 + g * 16 + b < 0x1000
    ensures DecodeColour(r * 256 + g * 16 + b) == (r, g, b)
  {
    var low := g * 16 + b;
    assert low < 256;
    assert (r * 256 + low) / 256 == r;
    assert (g * 16 + b) / 16 == g;
    assert (r * 256 + low) / 16 == r * 16 + g;
    assert (r * 16 + g) % 16 == g;
    assert (r * 256 + low) % 16 == b;
  }

  /** The sentinels are not reserved values: a pure green and a pure red
      colour produce the same codes as VSync and HSync. */
  lemma SentinelsCollideWithColours()
    ensures Encode(false, false, 0, 15, 0) == VSyncCode
    ensures Encode(false, false, 15, 0, 0) == HSyncCode
  {
  }
}
