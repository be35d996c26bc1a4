/** The sizes the emulated device takes for a dumb buffer, every step of them in 32-bit words that would wrap. */
module DumbBuffer {
  const WORD: nat := 0x1_0000_0000
  const MAX: nat := 0xFFFF_FFFF

  type u32 = x: int | 0 <= x < WORD

  function Wrap(x: int): u32 { x % WORD }

  datatype Answer = Invalid | NoMemory | Created(pitch: u32, size: nat)

  function Times(x: nat, y: nat): nat { x * y }

  /** How often `y` goes into the largest word. */
  function Most(y: nat): nat
    requires y > 0
  {
    MAX / y
  }

  function BytesPerPixel(bpp: nat): nat { (bpp + 7) / 8 }

  /** The sizes there are buffers for: at least a pixel, and all of it, rounded up to a page, within 32 bits. */
  predicate Fits(width: u32, height: u32, bpp: u32) {
    && width > 0 && height > 0 && 0 < bpp <= MAX - 8
    && Times(height, Times(width, BytesPerPixel(bpp))) <= MAX - 4095
  }

  /** A pitch rows of this many bytes can have. */
  predicate HoldsRow(pitch: nat, row: nat) {
    pitch % 256 == 0 && row <= pitch
  }

  lemma MostIs(x: nat, y: nat)
    requires y > 0
    ensures x <= Most(y) <==> Times(x, y) <= MAX
  {
    if x <= MAX / y {
      assert x * y <= (MAX / y) * y <= MAX;
    } else {
      assert (MAX / y + 1) * y > MAX;
      assert x * y >= (MAX / y + 1) * y;
    }
  }

  lemma AtLeastFactor(x: nat, y: nat)
    requires x > 0
    ensures y <= Times(x, y) && (y > 0 ==> Times(x, y) > 0)
  {
  }

  lemma TimesTurns(x: nat, y: nat, z: nat)
    ensures Times(x, y) == Times(y, x)
    ensures Times(Times(x, y), z) == Times(x, Times(z, y))
  {
  }

  /** A product may be truncated before its last factor. */
  lemma WrapTimes(x: nat, y: nat)
    ensures Wrap(Times(Wrap(x), y)) == Wrap(Times(x, y))
  {
    var q := x / WORD;
    assert x * y == Wrap(x) * y + (q * y) * WORD;
    LapsVanish(Wrap(x) * y, q * y);
  }

  lemma LapsVanish(x: nat, laps: nat)
    ensures (x + laps * WORD) % WORD == x % WORD
  {
  }

  /** What the device's checks of a row and of the whole, in wrapping words, come to. */
  lemma ChecksAreExact(width: u32, height: u32, cpp: u32)
    requires width > 0 && height > 0 && cpp > 0
    ensures var row := Times(width, cpp);
      && (cpp > Most(width) ==> Times(height, row) > MAX)
      && (cpp <= Most(width) ==> Wrap(Times(cpp, width)) == Wrap(Times(width, cpp)) == row > 0)
      && (cpp <= Most(width) && height > Most(row) ==> Times(height, row) > MAX)
      && (cpp <= Most(width) && height <= Most(row) ==>
           Wrap(Times(Wrap(Times(height, cpp)), width)) == Times(height, row))
      && row <= Times(height, row)
  {
    var row := Times(width, cpp);
    hide Times, Most;
    TimesTurns(width, cpp, 0);
    MostIs(cpp, width);
    AtLeastFactor(height, row);
    AtLeastFactor(width, cpp);
    MostIs(height, row);
    WrapTimes(Times(height, cpp), width);
    TimesTurns(height, cpp, width);
  }

  /** `failing` says that an armed failure of the emulator takes this request. */
  method CreateDumb(width: u32, height: u32, bpp: u32, failing: bool) returns (a: Answer)
    ensures a.Invalid? <==> !Fits(width, height, bpp)
    ensures a.NoMemory? <==> Fits(width, height, bpp) && failing
    ensures a.Created? ==>
      && HoldsRow(a.pitch, Times(width, BytesPerPixel(bpp))) && a.size == Times(a.pitch, height)
      && forall other: nat :: HoldsRow(other, Times(width, BytesPerPixel(bpp))) ==> a.pitch <= other
  {
    hide Times, Most;
    if width == 0 || height == 0 || bpp == 0 || bpp > MAX - 8 {
      return Invalid;
    }
    var cpp := Wrap(bpp + 7) / 8;
    ChecksAreExact(width, height, cpp);
    if cpp > Most(width) || height > Most(Wrap(Times(cpp, width)))
       || Wrap(Times(Wrap(Times(height, cpp)), width)) > MAX - 4095 {
      return Invalid;
    }
    if failing {
      return NoMemory;
    }
    var padded := Wrap(Wrap(Times(width, cpp)) + 255);
    var pitch := padded - padded % 256;
    return Created(pitch, Times(pitch, height));
  }
}
