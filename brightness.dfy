/** The brightness calculator: a mode name picks one of three formulas that
    turn an RGB pixel into a single brightness value. */
module Brightness {

  /** A colour channel as the image library hands it out. */
  type Channel = c: int | 0 <= c <= 255

  /** An RGB pixel, the (r, g, b) tuple of the source. */
  datatype Rgb = Rgb(r: Channel, g: Channel, b: Channel)

  /** The mode argument of the calculator's constructor: a string, or none
      at all. */
  datatype Option<T> = None | Some(value: T)

  /** The three formulas the calculator knows. */
  datatype Mode = Average | Lightness | Luminosity

  /** The key under which each formula is registered in the calculator's table. */
  function ModeName(m: Mode): string
  {
    match m
    case Average => "average"
    case Lightness => "lightness"
    case Luminosity => "luminosity"
  }

  /** The constructor's dispatch: a registered name selects its formula,
      and every other string (including "") and a missing mode fall back
      to Average. */
  function ParseMode(requested: Option<string>): (m: Mode)
    ensures m == Lightness <==> requested == Some("lightness")
    ensures m == Luminosity <==> requested == Some("luminosity")
    ensures m == Average <==> requested != Some("lightness") && requested != Some("luminosity")
    ensures requested == None ==> m == Average
  {
    match requested
    case None => Average
    case Some(name) =>
      if name == ModeName(Lightness) then Lightness
      else if name == ModeName(Luminosity) then Luminosity
      else Average
  }

  /** Parsing a registered name gives back the formula it was registered for. */
  lemma ParseModeName(m: Mode)
    ensures ParseMode(Some(ModeName(m))) == m
  {
    match m
    case Average =>
      assert ModeName(Average)[0] == 'a';
    case Lightness =>
    case Luminosity =>
  }

  /** Python's three-argument max. */
  function Max3(a: int, b: int, c: int): (m: int)
    ensures m == a || m == b || m == c
    ensures a <= m && b <= m && c <= m
  {
    if a >= b && a >= c then a else if b >= c then b else c
  }

  /** Python's three-argument min. */
  function Min3(a: int, b: int, c: int): (m: int)
    ensures m == a || m == b || m == c
    ensures m <= a && m <= b && m <= c
  {
    if a <= b && a <= c then a else if b <= c then b else c
  }

  /** `average`: the channel sum divided by three, rounded down. */
  function AverageBrightness(p: Rgb): (v: int)
    ensures 3 * v <= p.r + p.g + p.b < 3 * v + 3
    ensures Min3(p.r, p.g, p.b) <= v <= Max3(p.r, p.g, p.b)
  {
    (p.r + p.g + p.b) / 3
  }

  /** `lightness`: the mean of the brightest and the darkest channel, rounded down. */
  function LightnessBrightness(p: Rgb): (v: int)
    ensures 2 * v <= Max3(p.r, p.g, p.b) + Min3(p.r, p.g, p.b) < 2 * v + 2
    ensures Min3(p.r, p.g, p.b) <= v <= Max3(p.r, p.g, p.b)
  {
    (Max3(p.r, p.g, p.b) + Min3(p.r, p.g, p.b)) / 2
  }

  /** `luminosity`: 0.21 r + 0.72 g + 0.07 b, truncated; computed here in
      exact integer arithmetic as hundredths. */
  function LuminosityBrightness(p: Rgb): (v: int)
    ensures 100 * v <= 21 * p.r + 72 * p.g + 7 * p.b < 100 * v + 100
    ensures Min3(p.r, p.g, p.b) <= v <= Max3(p.r, p.g, p.b)
  {
    (21 * p.r + 72 * p.g + 7 * p.b) / 100
  }

  /** The calculator's `calc`: the formula the mode selected, applied to a pixel. */
  function Calc(mode: Mode, p: Rgb): (v: int)
    ensures Min3(p.r, p.g, p.b) <= v <= Max3(p.r, p.g, p.b)
    ensures 0 <= v <= 255
    ensures mode == Average ==> v == AverageBrightness(p)
    ensures mode == Lightness ==> v == LightnessBrightness(p)
    ensures mode == Luminosity ==> v == LuminosityBrightness(p)
  {
    match mode
    case Average => AverageBrightness(p)
    case Lightness => LightnessBrightness(p)
    case Luminosity => LuminosityBrightness(p)
  }

  /** A grey pixel has its own channel value as brightness under every formula. */
  lemma MonochromeInvariance(mode: Mode, v: Channel)
    ensures Calc(mode, Rgb(v, v, v)) == v
  {
  }

  /** A mode that is missing or not registered computes exactly what
      "average" computes. */
  lemma FallbackAgreesWithAverage(requested: Option<string>, p: Rgb)
    requires requested != Some("average") && requested != Some("lightness") && requested != Some("luminosity")
    ensures Calc(ParseMode(requested), p) == Calc(ParseMode(Some("average")), p)
    ensures Calc(ParseMode(requested), p) == (p.r + p.g + p.b) / 3
  {
  }

  /** The pixel (123, 34, 211) under each mode string of the parametrised test cases. */
  lemma SamplePixel()
    ensures Calc(ParseMode(Some("average")), Rgb(123, 34, 211)) == 122
    ensures Calc(ParseMode(Some("ave")), Rgb(123, 34, 211)) == 122
    ensures Calc(ParseMode(Some("")), Rgb(123, 34, 211)) == 122
    ensures Calc(ParseMode(Some("lightness")), Rgb(123, 34, 211)) == 122
    ensures Calc(ParseMode(Some("luminosity")), Rgb(123, 34, 211)) == 65
  {
  }
}
