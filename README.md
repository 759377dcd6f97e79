# ascii_art, modelled in Dafny

This project models the pixel-level core of `ascii_art`, a program that turns a
raster image into ASCII art:

- **Brightness** (`brightness.dfy`, from `ascii_art/brightness.py`): a mode
  name selects one of three formulas (`average`, `lightness`, `luminosity`)
  that turn an RGB pixel into one brightness value. Any name that is not
  registered falls back to `average`. The formulas are pure integer functions.
  Python's `//` with a positive divisor rounds toward negative infinity. Dafny's
  `/` does the same for a positive divisor, so the formulas use it directly.
- **AsciiArtDraft** (`ascii_art_object.dfy`, from `ascii_art/temp.py`): the
  `AsciiArt` object. It is a class with the fields `image`, `xScale`, `yScale`,
  `brightnessType` and `inverse`. Its constructor sets the defaults.
  `ScaleImage` replaces the image by one whose size is the old size
  floor-divided by the two factors, and it changes nothing else.
  `GetAsciiChar` looks up a glyph in a fixed 65-character ramp at index
  `brightness mod 65`. The image is represented by its size only.
- **PixelMatrix** and **AppPixelMatrix** (`pixel_matrix.dfy`,
  `app_pixel_matrix.dfy`, from `ascii_art/ascii_art.py` and
  `app/ascii_art.py`): `image_to_pixels` copies the image's pixels into a list of
  columns with two nested loops. The two source files hold copies of this
  function that are identical apart from the `print` on line 23 of the first,
  so the model has one method per file. The image's pixel access
  object is an `array2` indexed `[x, y]`. The methods have no `modifies`
  clause, so they only read the pixels.

`ascii_art/temp.py` does not parse as written: it has an empty method body, a
stray parenthesis in the header of `scale_image`, and a text banner after the
last method. The model follows what the two modelled methods evidently
compute. Its constructor assigns `brightness_type` from a name that the file
never defines. The model takes the evidently intended `average` formula.

Points of the code that a reader might not expect:

- The glyph index is `brightness mod len(ramp)` (`ascii_art/temp.py:59`).
- The `inverse` flag has no effect (`ascii_art/temp.py:56-59`; see Findings).
- A fresh `AsciiArt` has `x_scale = 1` and `y_scale = 1`
  (`ascii_art/temp.py:25-26`).
- The mode given to the calculator may be missing (`None`), and then it
  falls back to `average` like an unregistered name
  (`ascii_art/brightness.py:13-14,22-25`).

## Model

| member | source | states |
|---|---|---|
| `Brightness.ParseMode` | ascii_art/brightness.py:9-25 | `lightness` and `luminosity` select their own formula, in both directions of the iff. Every other string, including `""` and `"ave"`, and a missing mode (`None`) select Average. |
| `Brightness.ParseModeName` | ascii_art/brightness.py:17-21 | Each registered key of the dispatch table (given by the helper `ModeName`) leads back to the formula registered under it. |
| `Brightness.FallbackAgreesWithAverage` | ascii_art/brightness.py:22-25 | A missing mode or an unregistered mode string computes exactly what `"average"` computes, which is `(r+g+b) div 3`. |
| `Brightness.Max3` | ascii_art/brightness.py:33 | Python's `max` of three values: the result is one of them and is at least each of them. |
| `Brightness.Min3` | ascii_art/brightness.py:33 | Python's `min` of three values: the result is one of them and is at most each of them. |
| `Brightness.AverageBrightness` | ascii_art/brightness.py:28-29 | The result is the floor of the channel sum over three (`3v <= r+g+b < 3v+3`). It lies between the smallest and the largest channel. |
| `Brightness.LightnessBrightness` | ascii_art/brightness.py:32-33 | The result is the floor of `(max+min)/2`. It lies between the smallest and the largest channel. |
| `Brightness.LuminosityBrightness` | ascii_art/brightness.py:36-37 | The result is the floor of `(21r+72g+7b)/100`. It lies between the smallest and the largest channel. |
| `Brightness.Calc` | ascii_art/brightness.py:22-37 | `calc` applies the formula that the mode selected. The result lies between the smallest and largest channel, and so in [0,255]. |
| `Brightness.MonochromeInvariance` | ascii_art/brightness.py:28-37 | A grey pixel `(v,v,v)` has brightness `v` under every mode. |
| `Brightness.SamplePixel` | tests/test_ascii_art.py:70-86 | For `(123,34,211)`: `average`, `ave` and `""` give 122, `lightness` gives 122 and `luminosity` gives 65. |
| `AsciiArtDraft.AsciiCharsShape` | ascii_art/temp.py:55 | The ramp has 65 characters. The first is a backtick and the last is `$`. |
| `AsciiArtDraft.FloorDiv` | ascii_art/temp.py:46 | Python's `//`: the quotient is rounded toward negative infinity for either sign of the divisor. |
| `AsciiArtDraft.Reversed` | ascii_art/temp.py:57 | The comprehension over `range(len-1, -1, -1)` has the same length as the ramp, and position `i` holds the ramp's `len-1-i`. |
| `AsciiArtDraft.ReversedTwice` | ascii_art/temp.py:57 | Reversing twice gives back the original sequence. |
| `AsciiArtDraft.AsciiArt.constructor` | ascii_art/temp.py:23-28 | A fresh object keeps the given image and has `x_scale = 1`, `y_scale = 1`, the average formula and `inverse = False`. |
| `AsciiArtDraft.AsciiArt.ScaleImage` | ascii_art/temp.py:44-47 | The new image size is `(width // x_scale, height // y_scale)`. A zero factor raises ZeroDivisionError and leaves the image as it was. `x_scale`, `y_scale`, `brightness_type` and `inverse` are unchanged. |
| `AsciiArtDraft.ScaledSizeFits` | ascii_art/temp.py:46 | With factors of at least 1, the target width and height stay between 0 and the original ones. |
| `AsciiArtDraft.AsciiArt.GetPixelBrightness` | ascii_art/temp.py:49-50 | The configured formula is applied to the pixel, and the result is in [0,255]. |
| `AsciiArtDraft.AsciiArt.GetAsciiChar` | ascii_art/temp.py:54-59 | As written: the glyph equals the non-inverted lookup whatever `inverse` holds, because the reversed list is bound to an unused name. |
| `AsciiArtDraft.GlyphInRamp` | ascii_art/temp.py:55-59 | The glyph is always a character of the ramp, because the index `brightness mod 65` is in range. |
| `AsciiArtDraft.ZeroIsFirstGlyph` | ascii_art/temp.py:55-59 | Brightness 0 gives the ramp's first character, a backtick. |
| `AsciiArtDraft.SameGlyphModuloRamp` | ascii_art/temp.py:59 | Brightness values that differ by a multiple of the ramp's length give the same glyph. |
| `AsciiArtDraft.InverseIgnoredAtZero` | ascii_art/temp.py:56-59 | With `inverse` set, brightness 0 still gives a backtick, while the reversed ramp starts with `$`. |
| `AsciiArtDraft.GlyphFor` | ascii_art/temp.py:56-59 | Corrected lookup: without the flag it reads ramp position `b mod 65`. With the flag it reads position `64 - b mod 65`, the same position counted from the other end. |
| `AsciiArtDraft.InvertedMirrorsPlain` | ascii_art/temp.py:56-59 | The inverted glyph of `b` is the plain glyph of `64 - b`. |
| `AsciiArtDraft.InversionInvolutive` | ascii_art/temp.py:56-59 | Looking up in the reverse of the reversed ramp is the plain lookup. |
| `PixelMatrix.ImageToPixels` | ascii_art/ascii_art.py:19-32 | The result has `width` inner lists of `height` entries each. Entry `[x][y]` is the pixel at `(x, y)`, which makes it column-major in ascending x and then y. Width 0 gives `[]`, and height 0 gives `width` empty lists. The pixels are only read. |
| `AppPixelMatrix.ImageToPixels` | app/ascii_art.py:17-29 | The result has `width` inner lists of `height` entries each. Entry `[x][y]` is the pixel at `(x, y)`, which makes it column-major. Width 0 gives `[]`, and height 0 gives `width` empty lists. The pixels are only read. |

## Findings

| source | as written | input that shows it | evidently intended | confidence | as-written member | corrected member |
|---|---|---|---|---|---|---|
| ascii_art/temp.py:56-59 | The reversed ramp is bound to `ascii_art`, and the lookup still indexes `ascii_chars`, so `inverse` changes nothing. | `inverse = True` with brightness 0 gives a backtick | The reversed ramp's first glyph, `$` | high, not executed | `AsciiArtDraft.AsciiArt.GetAsciiChar`, `AsciiArtDraft.InverseIgnoredAtZero` | `AsciiArtDraft.GlyphFor` with `AsciiArtDraft.InvertedMirrorsPlain` |

## Left out

- `Brightness.LuminosityBrightness` (and `Brightness.Calc` for `luminosity`) is not modelled bit for bit. It uses exact integer hundredths, `(21r+72g+7b) div 100`, in place of truncating the floating-point sum `0.21r+0.72g+0.07b`. When the exact value is an integer, the floating-point sum can fall just below it and truncate one lower. The model's bounds and monochrome property hold for the exact form only.
- `AsciiArtDraft.AsciiArt.GetAsciiChar` takes an integer brightness. A float brightness, which the source would truncate with `int()` after the modulo, is not modelled.
- `AsciiArtDraft.AsciiArt.ScaleImage` models only the target size that is handed to the image library's `resize`. Resampling the pixels is the library's job. Whether the library accepts a zero or negative target size is not modelled.
- Image loading, `image_info`, `pixel_matrix` and the `__main__` blocks of both scripts are left out. The same goes for `AsciiArt.load_image` and the `print` on line 23 of `ascii_art/ascii_art.py`. They are file I/O and console output.
- The stubs `load_ascii_image`, `print_to_terminal` and `save_as_txt_file` are left out, and so is the `ascii_image` field they would fill. They have empty bodies.
- The `Pixel` class at the top of `ascii_art/temp.py` is left out. It uses true division and reads an undefined global.
- The brightness drafts at lines 39-46 of `ascii_art/ascii_art.py` are left out. One has an operator-precedence error, and another raises a TypeError. The calculator in `ascii_art/brightness.py` replaces them.
- `Brightness.ParseMode` models the mode argument as a string or a missing value. Other hashable values, which the dictionary lookup also sends to `average`, are not modelled.
- Pixels are RGB triples with channels in [0,255]. Other image modes of the library are not modelled.
- `tests/test_monkeypatch.py`, the JPEG-writing test fixture and `setup.py` are test and packaging plumbing. They are not part of this model.
