/** The `AsciiArt` object of the draft: its configuration fields, the
    target-size arithmetic of `scale_image` and the glyph lookup of
    `get_ascii_char`. */
module AsciiArtDraft {
  import Brightness

  /** The glyph ramp `get_ascii_char` indexes, from sparse to dense: 65
      characters from a backtick to a dollar sign. It is spelt in pieces of
      eight so that the verifier can look up any position. */
  const AsciiChars: string :=
    "`^\",:;Il" + "!i~+_-?]" + "[}{1)(|\\" + "/tfjrxnu" +
    "vczXYUJC" + "LQ0OZmwq" + "pdbkhao*" + "#MW&8%B@" + "$"

  /** The ramp's length and its two ends. */
  lemma AsciiCharsShape()
    ensures |AsciiChars| == 65
    ensures AsciiChars[0] == '`' && AsciiChars[64] == '$'
  {
  }

  /** Python's `a // b`: the quotient rounded toward negative infinity. */
  function FloorDiv(a: int, b: int): (q: int)
    requires b != 0
    ensures b > 0 ==> q * b <= a < q * b + b
    ensures b < 0 ==> q * b + b < a <= q * b
  {
    if b > 0 then a / b else (-a) / (-b)
  }

  /** A sequence read back to front, as the list comprehension over
      `range(len(s) - 1, -1, -1)` builds it. */
  function Reversed(s: string): (r: string)
    ensures |r| == |s|
    ensures forall i :: 0 <= i < |s| ==> r[i] == s[|s| - 1 - i]
  {
    seq(|s|, i requires 0 <= i < |s| => s[|s| - 1 - i])
  }

  /** Reversing twice gives back the ramp one started from. */
  lemma {:induction false} ReversedTwice(s: string)
    ensures Reversed(Reversed(s)) == s
  {
    var rr := Reversed(Reversed(s));
    assert |rr| == |s|;
    forall i | 0 <= i < |s|
      ensures rr[i] == s[i]
    {
      assert rr[i] == Reversed(s)[|s| - 1 - i];
    }
  }

  /** The image as far as this object uses it: its size. Pixel data and
      the resampling of `resize` belong to the image library. */
  datatype Image = Image(width: int, height: int)

  /** The exception `scale_image` can raise by itself. */
  datatype ScaleError = ZeroDivisionError

  datatype Outcome = Pass | Fail(error: ScaleError)

  class AsciiArt {
    var image: Image
    var xScale: int
    var yScale: int
    var brightnessType: Brightness.Mode
    var inverse: bool

    /** A fresh object keeps the image and starts from the default
        configuration: no horizontal or vertical calibration, the average
        formula, no inversion. */
    constructor (image: Image)
      ensures this.image == image
      ensures xScale == 1 && yScale == 1
      ensures brightnessType == Brightness.Average
      ensures !inverse
    {
      this.image := image;
      xScale := 1;
      yScale := 1;
      brightnessType := Brightness.Average;
      inverse := false;
    }

    /** Replaces the image by one resized to its width and height
        floor-divided by the given factors. A zero factor raises
        ZeroDivisionError before anything is replaced. Only the image
        changes; the configuration fields keep their values. */
    method ScaleImage(xScale: int, yScale: int) returns (outcome: Outcome)
      modifies this
      ensures xScale == 0 || yScale == 0 ==>
        outcome == Fail(ZeroDivisionError) && image == old(image)
      ensures xScale != 0 && yScale != 0 ==>
        outcome == Pass &&
        image == Image(FloorDiv(old(image.width), xScale), FloorDiv(old(image.height), yScale))
      ensures this.xScale == old(this.xScale) && this.yScale == old(this.yScale)
      ensures brightnessType == old(brightnessType) && inverse == old(inverse)
    {
      if xScale == 0 || yScale == 0 {
        return Fail(ZeroDivisionError);
      }
      var width, height := FloorDiv(image.width, xScale), FloorDiv(image.height, yScale);
      image := Image(width, height);
      return Pass;
    }

    /** The configured formula applied to one pixel. */
    function GetPixelBrightness(pixel: Brightness.Rgb): (v: int)
      reads this
      ensures 0 <= v <= 255
      ensures v == Brightness.Calc(brightnessType, pixel)
    {
      Brightness.Calc(brightnessType, pixel)
    }

    /** The glyph for a brightness, as the draft computes it: the reversed
        ramp built under `inverse` is bound to a name nobody reads, so the
        lookup always goes to the stored ramp. */
    function GetAsciiChar(pixelBrightness: int): (c: char)
      reads this
      ensures c == GlyphFor(pixelBrightness, false)
    {
      var asciiArt := if inverse then Reversed(AsciiChars) else [];
      AsciiChars[pixelBrightness % |AsciiChars|]
    }
  }

  /** The glyph lookup as the `inverse` flag means it: index the reversed
      ramp when the flag is set. */
  function GlyphFor(pixelBrightness: int, inverse: bool): (c: char)
    ensures !inverse ==> c == AsciiChars[pixelBrightness % |AsciiChars|]
    ensures inverse ==> c == AsciiChars[|AsciiChars| - 1 - pixelBrightness % |AsciiChars|]
  {
    var ramp := if inverse then Reversed(AsciiChars) else AsciiChars;
    ramp[pixelBrightness % |ramp|]
  }

  /** Whatever the brightness and the flag, the glyph is one of the ramp's. */
  lemma GlyphInRamp(a: AsciiArt, pixelBrightness: int)
    ensures a.GetAsciiChar(pixelBrightness) in AsciiChars
    ensures GlyphFor(pixelBrightness, true) in AsciiChars
  {
    var i := pixelBrightness % |AsciiChars|;
    assert a.GetAsciiChar(pixelBrightness) == AsciiChars[i];
    assert GlyphFor(pixelBrightness, true) == AsciiChars[|AsciiChars| - 1 - i];
  }

  /** Brightness 0 gets the ramp's first glyph, a backtick. */
  lemma ZeroIsFirstGlyph(a: AsciiArt)
    ensures a.GetAsciiChar(0) == AsciiChars[0] == '`'
  {
  }

  /** The witness for that: with `inverse` set, brightness 0 still yields the
      ramp's first glyph, where the reversed ramp starts with its last. */
  lemma InverseIgnoredAtZero(a: AsciiArt)
    requires a.inverse
    ensures a.GetAsciiChar(0) == '`'
    ensures GlyphFor(0, true) == '$'
    ensures a.GetAsciiChar(0) != GlyphFor(0, a.inverse)
  {
  }

  /** Brightness values that differ by a multiple of the ramp's length get
      the same glyph. */
  lemma SameGlyphModuloRamp(a: AsciiArt, pixelBrightness: int, k: int)
    ensures a.GetAsciiChar(pixelBrightness + k * |AsciiChars|) == a.GetAsciiChar(pixelBrightness)
  {
    assert |AsciiChars| == 65;
    ShiftedRemainder(pixelBrightness, k);
  }

  /** Adding k times 65 leaves the remainder modulo the ramp's length alone. */
  lemma ShiftedRemainder(b: int, k: int)
    ensures (b + k * 65) % 65 == b % 65
  {
    assert b + k * 65 == (b / 65 + k) * 65 + b % 65;
  }

  /** The inverted lookup mirrors the plain one: brightness b inverted reads
      the glyph of len - 1 - b. */
  lemma InvertedMirrorsPlain(pixelBrightness: int)
    ensures GlyphFor(pixelBrightness, true) == GlyphFor(|AsciiChars| - 1 - pixelBrightness, false)
  {
    assert |AsciiChars| == 65;
    MirroredRemainder(pixelBrightness);
  }

  /** Counting down from 64 mirrors the remainder modulo the ramp's length. */
  lemma MirroredRemainder(b: int)
    ensures (64 - b) % 65 == 64 - b % 65
  {
    var q := b / 65;
    assert 64 - b == (-q) * 65 + (64 - b % 65);
  }

  /** Inverting is an involution: looking up in the reverse of the reversed
      ramp is the plain lookup. */
  lemma InversionInvolutive(pixelBrightness: int)
    ensures Reversed(Reversed(AsciiChars))[pixelBrightness % |AsciiChars|] == GlyphFor(pixelBrightness, false)
  {
    ReversedTwice(AsciiChars);
  }

  /** With factors of at least one, the target size never exceeds the
      original and stays non-negative. */
  lemma ScaledSizeFits(width: int, height: int, xScale: int, yScale: int)
    requires width >= 0 && height >= 0
    requires xScale >= 1 && yScale >= 1
    ensures 0 <= FloorDiv(width, xScale) <= width
    ensures 0 <= FloorDiv(height, yScale) <= height
  {
    DivShrinks(width, xScale);
    DivShrinks(height, yScale);
  }

  lemma DivShrinks(a: int, b: int)
    requires a >= 0 && b >= 1
    ensures 0 <= FloorDiv(a, b) <= a
  {
    assert FloorDiv(a, b) == a / b;
  }
}
