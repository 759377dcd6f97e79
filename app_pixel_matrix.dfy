/** `image_to_pixels` of the app script, a copy of the first script's:
    the image's pixels copied into a list of columns. */
module AppPixelMatrix {

  /** Builds one inner list per x (left to right), each holding that
      column's pixels from top to bottom, so `m[x][y]` is the pixel at
      (x, y). `pixels` is the pixel-access object of the image, indexed
      `[x, y]`; its two lengths are the image's width and height. The
      method has no modifies clause: it only reads the pixels. */
  method ImageToPixels<P>(pixels: array2<P>) returns (pixelMatrix: seq<seq<P>>)
    ensures |pixelMatrix| == pixels.Length0
    ensures forall x :: 0 <= x < |pixelMatrix| ==> |pixelMatrix[x]| == pixels.Length1
    ensures forall x, y :: 0 <= x < pixels.Length0 && 0 <= y < pixels.Length1 ==>
      pixelMatrix[x][y] == pixels[x, y]
    ensures pixels.Length0 == 0 ==> pixelMatrix == []
    ensures pixels.Length1 == 0 ==> forall x :: 0 <= x < |pixelMatrix| ==> pixelMatrix[x] == []
  {
    pixelMatrix := [];
    var width, height := pixels.Length0, pixels.Length1;
    for i := 0 to width
      invariant |pixelMatrix| == i
      invariant forall x :: 0 <= x < i ==> |pixelMatrix[x]| == height
      invariant forall x, y :: 0 <= x < i && 0 <= y < height ==> pixelMatrix[x][y] == pixels[x, y]
    {
      var pixelRow := [];
      for j := 0 to height
        invariant |pixelRow| == j
        invariant forall y :: 0 <= y < j ==> pixelRow[y] == pixels[i, y]
      {
        pixelRow := pixelRow + [pixels[i, j]];
      }
      pixelMatrix := pixelMatrix + [pixelRow];
    }
  }
}
