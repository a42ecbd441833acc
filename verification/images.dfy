/**
 * The image processor: grayscale conversion, binarization at a threshold,
 * cropping a list of regions and outlining a list of regions.
 *
 * An image is a value: its mode ("L" for 8-bit grayscale), its size and its
 * pixel data. For a grayscale image the data holds one intensity per pixel.
 * The image library itself is not modelled. Its colour-to-grayscale weighting,
 * its crop and its rectangle rasterisation are parameters (oracles) of the
 * operations that call them.
 */
module Images {

  /** The mode string of a single-channel 8-bit grayscale image. */
  const GrayMode: string := "L"

  const White: int := 255
  const Black: int := 0

  datatype Image = Image(mode: string, width: nat, height: nat, pixels: seq<int>)

  /** An 8-bit image with one intensity from 0 to 255 per pixel, row by row. */
  predicate WellFormed(image: Image) {
    && |image.pixels| == image.width * image.height
    && forall i :: 0 <= i < |image.pixels| ==> 0 <= image.pixels[i] <= 255
  }

  /** A region as the face detector reports it: top-left corner, width and height. */
  datatype Region = Region(x: int, y: int, width: nat, height: nat)

  /** A crop or drawing box: left, upper, right, lower edges. */
  datatype Box = Box(left: int, upper: int, right: int, lower: int)

  /** `image.size`: (width, height), neither negative. */
  function GetImageDimensions(image: Image): (dims: (int, int))
    ensures dims.0 == image.width && dims.1 == image.height
    ensures dims.0 >= 0 && dims.1 >= 0
  {
    (image.width, image.height)
  }

  /**
   * `image.convert("L")`. The library's luminance weighting is the oracle
   * `luma`; the conversion always yields a grayscale image of the same size,
   * and an image already in mode "L" comes back as a copy of itself.
   */
  function GrayscaleImage(image: Image, luma: Image -> seq<int>): (gray: Image)
    ensures gray.mode == GrayMode
    ensures GetImageDimensions(gray) == GetImageDimensions(image)
    ensures image.mode == GrayMode ==> gray == image
    ensures image.mode != GrayMode ==> gray.pixels == luma(image)
  {
    if image.mode == GrayMode then image
    else Image(GrayMode, image.width, image.height, luma(image))
  }

  /** The pixel map of binarization: intensities at or above the threshold become white, the rest black. */
  function Threshold(pixels: seq<int>, threshold: int): (out: seq<int>)
    ensures |out| == |pixels|
    ensures forall i :: 0 <= i < |out| ==> out[i] == White || out[i] == Black
    ensures forall i :: 0 <= i < |out| ==> (out[i] == White <==> pixels[i] >= threshold)
  {
    seq(|pixels|, i requires 0 <= i < |pixels| => if pixels[i] >= threshold then White else Black)
  }

  /**
   * `binarize_image`: an image that is not grayscale is converted first; a
   * grayscale image is thresholded as it is.
   */
  function BinarizeImage(image: Image, threshold: int, luma: Image -> seq<int>): (binary: Image)
    ensures binary.mode == GrayMode
    ensures GetImageDimensions(binary) == GetImageDimensions(image)
    ensures forall i :: 0 <= i < |binary.pixels| ==> binary.pixels[i] == White || binary.pixels[i] == Black
    ensures image.mode == GrayMode ==>
      |binary.pixels| == |image.pixels| &&
      forall i :: 0 <= i < |image.pixels| ==> (binary.pixels[i] == White <==> image.pixels[i] >= threshold)
    ensures image.mode != GrayMode ==> binary.pixels == Threshold(luma(image), threshold)
  {
    var grayscale := if image.mode != GrayMode then GrayscaleImage(image, luma) else image;
    Image(grayscale.mode, grayscale.width, grayscale.height, Threshold(grayscale.pixels, threshold))
  }

  /** The box of a region: from (x, y) to (x + width, y + height). */
  function BoxOf(region: Region): (box: Box)
    ensures box.left == region.x && box.upper == region.y
    ensures box.right - box.left == region.width && box.lower - box.upper == region.height
  {
    Box(region.x, region.y, region.x + region.width, region.y + region.height)
  }

  /**
   * `image.crop(box)`: an image of the same mode whose size is the box's; the
   * library computes the pixel data (the oracle `cropPixels`).
   */
  function Crop(image: Image, box: Box, cropPixels: (Image, Box) -> seq<int>): (cropped: Image)
    requires box.left <= box.right && box.upper <= box.lower
    ensures cropped.mode == image.mode
    ensures GetImageDimensions(cropped) == (box.right - box.left, box.lower - box.upper)
  {
    Image(image.mode, box.right - box.left, box.lower - box.upper, cropPixels(image, box))
  }

  /** `get_images_from_regions`: one crop per region, in region order. */
  method GetImagesFromRegions(regions: seq<Region>, image: Image, cropPixels: (Image, Box) -> seq<int>)
    returns (croppedImages: seq<Image>)
    ensures |croppedImages| == |regions|
    ensures forall i :: 0 <= i < |regions| ==> croppedImages[i] == Crop(image, BoxOf(regions[i]), cropPixels)
    ensures forall i :: 0 <= i < |regions| ==>
      GetImageDimensions(croppedImages[i]) == (regions[i].width, regions[i].height)
  {
    croppedImages := [];
    for i := 0 to |regions|
      invariant |croppedImages| == i
      invariant forall k :: 0 <= k < i ==> croppedImages[k] == Crop(image, BoxOf(regions[k]), cropPixels)
    {
      var region := regions[i];
      var left := region.x;
      var upper := region.y;
      var right := region.x + region.width;
      var lower := region.y + region.height;
      var croppedImage := Crop(image, Box(left, upper, right, lower), cropPixels);
      croppedImages := croppedImages + [croppedImage];
    }
  }

  /**
   * The picture after outlining the boxes of `regions` one after another,
   * each with the library's rectangle drawing (the oracle `outline`), which
   * the source calls with a red outline 2 pixels wide.
   */
  function Outlined(picture: Image, regions: seq<Region>, outline: (Image, Box) -> Image): Image
    decreases |regions|
  {
    if regions == [] then picture
    else outline(Outlined(picture, regions[..|regions| - 1], outline), BoxOf(regions[|regions| - 1]))
  }

  /** A library image object, which drawing changes in place. */
  class PilImage {
    var content: Image

    constructor (content: Image)
      ensures this.content == content
    {
      this.content := content;
    }
  }

  /** `draw_rectangles_on_image`: outlines every region on the image itself and returns that same object. */
  method DrawRectanglesOnImage(image: PilImage, regions: seq<Region>, outline: (Image, Box) -> Image)
    returns (drawn: PilImage)
    modifies image
    ensures drawn == image
    ensures image.content == Outlined(old(image.content), regions, outline)
  {
    for i := 0 to |regions|
      invariant image.content == Outlined(old(image.content), regions[..i], outline)
    {
      var region := regions[i];
      var right, lower := region.x + region.width, region.y + region.height;
      image.content := outline(image.content, Box(region.x, region.y, right, lower));
      assert regions[..i + 1][..i] == regions[..i];
    }
    assert regions[..|regions|] == regions;
    drawn := image;
  }

  /** Raising the threshold never turns a black output pixel white. */
  lemma BinarizeMonotone(image: Image, low: int, high: int, luma: Image -> seq<int>)
    requires low <= high
    ensures var darker := BinarizeImage(image, high, luma).pixels;
            var lighter := BinarizeImage(image, low, luma).pixels;
            |darker| == |lighter| &&
            forall i :: 0 <= i < |darker| ==> (darker[i] == White ==> lighter[i] == White)
  {
  }

  /** Binarizing a binarized image again, at any threshold from 1 to 255, changes nothing. */
  lemma BinarizeIdempotent(image: Image, threshold: int, again: int, luma: Image -> seq<int>)
    requires 1 <= again <= 255
    ensures var once := BinarizeImage(image, threshold, luma);
            BinarizeImage(once, again, luma) == once
  {
  }

  /**
   * Binarization keeps an image well formed: a well-formed grayscale input,
   * or a colour input whose conversion yields one intensity per pixel, gives
   * a well-formed result.
   */
  lemma BinarizeKeepsWellFormed(image: Image, threshold: int, luma: Image -> seq<int>)
    requires image.mode == GrayMode ==> WellFormed(image)
    requires image.mode != GrayMode ==> |luma(image)| == image.width * image.height
    ensures WellFormed(BinarizeImage(image, threshold, luma))
  {
  }

  /** A grayscale image is thresholded directly: the converter is never consulted. */
  lemma BinarizeSkipsConversionOfGray(image: Image, threshold: int, luma: Image -> seq<int>, other: Image -> seq<int>)
    requires image.mode == GrayMode
    ensures BinarizeImage(image, threshold, luma) == BinarizeImage(image, threshold, other)
    ensures BinarizeImage(image, threshold, luma).pixels == Threshold(image.pixels, threshold)
  {
  }

  /** Outlining in two calls leaves the same picture as outlining all regions in one call. */
  lemma {:induction false} OutlinedAppend(picture: Image, first: seq<Region>, second: seq<Region>, outline: (Image, Box) -> Image)
    ensures Outlined(Outlined(picture, first, outline), second, outline) == Outlined(picture, first + second, outline)
    decreases |second|
  {
    if second == [] {
      assert first + second == first;
    } else {
      var n := |second| - 1;
      OutlinedAppend(picture, first, second[..n], outline);
      assert (first + second)[..|first + second| - 1] == first + second[..n];
      assert (first + second)[|first + second| - 1] == second[n];
    }
  }

  /** When the drawing routine keeps an image's mode and size, outlining any number of regions keeps them too. */
  lemma {:induction false} OutlinedKeepsShape(picture: Image, regions: seq<Region>, outline: (Image, Box) -> Image)
    requires forall im: Image, b: Box :: outline(im, b).mode == im.mode && GetImageDimensions(outline(im, b)) == GetImageDimensions(im)
    ensures Outlined(picture, regions, outline).mode == picture.mode
    ensures GetImageDimensions(Outlined(picture, regions, outline)) == GetImageDimensions(picture)
    decreases |regions|
  {
    if regions != [] {
      OutlinedKeepsShape(picture, regions[..|regions| - 1], outline);
    }
  }
}
