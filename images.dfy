/**
 * The uploaded images and the crop applied before recognition
 * (js/image-manager.js): a list of images with at most one selected, two crop
 * ratios set from sliders, and the rectangle a crop keeps, the part right of
 * `cropX` and above `cropH`. File reading, previews and rendering are left
 * out; image ids and sizes are inputs.
 */
module ImageManager {
  import opened Wrappers
  import opened Text
  import JsRuntime

  datatype ImageEntry = ImageEntry(id: string, fileName: string, originalWidth: nat, originalHeight: nat)

  /** The crop rectangle, in source pixels: it starts at (x, 0) and is `w` by `h`. */
  datatype CropRect = CropRect(x: int, w: int, h: int)

  /** `cropImage`: the right part from `round(W * (1 - cropRight))`, the top `round(H * (1 - cropBottom))`. */
  function Crop(width: nat, height: nat, cropRight: real, cropBottom: real): (c: CropRect)
    ensures c.x + c.w == width
  {
    var x := JsRuntime.Round(width as real * (1.0 - cropRight));
    CropRect(x, width - x, JsRuntime.Round(height as real * (1.0 - cropBottom)))
  }

  /**
   * With ratios between 0 and 1 the rectangle lies inside the image; a zero
   * bottom ratio keeps the full height, and a zero right ratio keeps nothing
   * of the width.
   */
  lemma CropInside(width: nat, height: nat, cropRight: real, cropBottom: real)
    requires 0.0 <= cropRight <= 1.0 && 0.0 <= cropBottom <= 1.0
    ensures var c := Crop(width, height, cropRight, cropBottom);
      && 0 <= c.x <= width && 0 <= c.w <= width
      && 0 <= c.h <= height
      && (cropBottom == 0.0 ==> c.h == height)
      && (cropRight == 0.0 ==> c.x == width && c.w == 0)
      && (cropRight == 1.0 ==> c.x == 0 && c.w == width)
  {
    Kept(width, cropRight);
    Kept(height, cropBottom);
  }

  /** `round(n * (1 - ratio))` lies between 0 and `n`, and is `n` for ratio 0 and 0 for ratio 1. */
  lemma Kept(n: nat, ratio: real)
    requires 0.0 <= ratio <= 1.0
    ensures var k := JsRuntime.Round(n as real * (1.0 - ratio));
      && 0 <= k <= n
      && (ratio == 0.0 ==> k == n)
      && (ratio == 1.0 ==> k == 0)
  {
    ScaleDown(n as real, 1.0 - ratio);
    RoundBetween(n as real * (1.0 - ratio), n);
    if ratio == 0.0 {
      assert n as real * (1.0 - ratio) == n as real;
      RoundWhole(n);
    } else if ratio == 1.0 {
      assert n as real * (1.0 - ratio) == 0.0;
      RoundWhole(n);
    }
  }

  lemma ScaleDown(a: real, t: real)
    requires a >= 0.0 && 0.0 <= t <= 1.0
    ensures 0.0 <= a * t <= a
  {
    assert a * (1.0 - t) >= 0.0;
  }

  lemma RoundBetween(x: real, n: nat)
    requires 0.0 <= x <= n as real
    ensures 0 <= JsRuntime.Round(x) <= n
  {
  }

  lemma RoundWhole(n: nat)
    ensures JsRuntime.Round(n as real) == n
    ensures JsRuntime.Round(0.0) == 0
  {
  }

  // ------------------------------------------------- crop_image (run-test.py)

  /** `CROP_RIGHT` and `CROP_BOTTOM` of the Python test runner. */
  const PyCropRight: real := 0.33
  const PyCropBottom: real := 0.0

  /**
   * Python's `round(x)` on a number: the nearest integer, a half going to the
   * even neighbour. Away from halves it agrees with `Math.round`.
   */
  function PyRound(x: real): (n: int)
    ensures n as real - 0.5 <= x <= n as real + 0.5
    ensures x - x.Floor as real == 0.5 ==> n % 2 == 0
    ensures x - x.Floor as real != 0.5 ==> n == JsRuntime.Round(x)
  {
    var f := x.Floor;
    var d := x - f as real;
    if d < 0.5 then f
    else if d > 0.5 then f + 1
    else if f % 2 == 0 then f
    else f + 1
  }

  /** A PIL crop box `(left, upper, right, lower)`. */
  datatype Box = Box(left: int, upper: int, right: int, lower: int)

  /** `crop_image`: the box `(0, 0, round(w * (1 - CROP_RIGHT)), round(h * (1 - CROP_BOTTOM)))`. */
  function PyCrop(width: nat, height: nat): (b: Box)
    ensures b.left == 0 && b.upper == 0
  {
    Box(0, 0, PyRound(width as real * (1.0 - PyCropRight)), PyRound(height as real * (1.0 - PyCropBottom)))
  }

  /**
   * The Python crop keeps the left part of the image, from x = 0 to the
   * nearest integer to 67% of the width, over the full height.
   */
  lemma PyCropKeepsLeft(width: nat, height: nat)
    ensures var b := PyCrop(width, height);
      && b.left == 0 && b.upper == 0
      && 0 <= b.right <= width && b.lower == height
      && 100 * b.right - 50 <= 67 * width <= 100 * b.right + 50
  {
    var x := width as real * (1.0 - PyCropRight);
    assert x == (67 * width) as real / 100.0;
    ScaleDown(width as real, 1.0 - PyCropRight);
    assert height as real * (1.0 - PyCropBottom) == height as real;
  }

  /** `w * 0.67` falls exactly on a half only for widths that are 50 more than a multiple of 100. */
  lemma PyCropHalf(width: nat)
    requires var x := width as real * (1.0 - PyCropRight); x - x.Floor as real == 0.5
    ensures width % 100 == 50
  {
    var x := width as real * (1.0 - PyCropRight);
    var f := x.Floor;
    assert x == f as real + 0.5;
    assert 100.0 * x == (67 * width) as real;
    assert 67 * width == 100 * f + 50;
    assert width == 100 * (3 * f - 2 * width + 1) + 50;
  }

  /**
   * Against `cropImage` with the same ratios: the Python box ends where the
   * JavaScript rectangle starts, and both keep the full height. So the Python
   * runner reads the columns `[0, x)` while the browser reads `[x, width)`.
   */
  lemma PyCropAgainstJs(width: nat, height: nat)
    requires width % 100 != 50
    ensures var b := PyCrop(width, height);
      var c := Crop(width, height, PyCropRight, PyCropBottom);
      && b.right == c.x && b.right + c.w == width
      && b.lower == c.h == height
  {
    var x := width as real * (1.0 - PyCropRight);
    if x - x.Floor as real == 0.5 {
      PyCropHalf(width);
    }
    assert height as real * (1.0 - PyCropBottom) == height as real;
    RoundWhole(height);
  }

  /** `parseInt(value) / 100`: the slider's percentage as a ratio. */
  function SliderRatio(value: string): (r: real)
    requires ParseInt(value).Some?
  {
    ParseInt(value).value as real / 100.0
  }

  /** A percentage written as decimal text is that many hundredths. */
  lemma SliderRatioDecimal(n: nat)
    ensures ParseInt(NatToString(n)).Some?
    ensures SliderRatio(NatToString(n)) * 100.0 == n as real
  {
    ParseIntNatToString(n);
  }

  /** `images.filter(i => i.id !== id)`. */
  function Without(images: seq<ImageEntry>, id: string): (r: seq<ImageEntry>)
    ensures |r| <= |images|
    ensures forall k :: 0 <= k < |r| ==> r[k].id != id && r[k] in images
    ensures forall e :: e in images && e.id != id ==> e in r
  {
    if images == [] then []
    else (if images[0].id == id then [] else [images[0]]) + Without(images[1..], id)
  }

  /** Filtering distributes over concatenation, so the kept images stay in their order. */
  lemma {:induction false} WithoutAppend(xs: seq<ImageEntry>, ys: seq<ImageEntry>, id: string)
    ensures Without(xs + ys, id) == Without(xs, id) + Without(ys, id)
    decreases |xs|
  {
    if xs != [] {
      var x, rest := xs[0], xs[1..];
      assert xs == [x] + rest;
      assert xs + ys == [x] + (rest + ys);
      WithoutCons(x, rest + ys, id);
      WithoutCons(x, rest, id);
      WithoutAppend(rest, ys, id);
    } else {
      assert xs + ys == ys;
    }
  }

  lemma WithoutCons(x: ImageEntry, ys: seq<ImageEntry>, id: string)
    ensures Without([x] + ys, id) == (if x.id == id then [] else [x]) + Without(ys, id)
  {
    assert ([x] + ys)[1..] == ys;
  }

  /** An image whose id is not the removed one is still there afterwards. */
  lemma WithoutKeepsId(images: seq<ImageEntry>, id: string, s: string)
    requires s != id
    requires exists k :: 0 <= k < |images| && images[k].id == s
    ensures exists j :: 0 <= j < |Without(images, id)| && Without(images, id)[j].id == s
  {
    var k :| 0 <= k < |images| && images[k].id == s;
    var r := Without(images, id);
    assert images[k] in images;
    var j :| 0 <= j < |r| && r[j] == images[k];
  }

  /** Removing an id that no image has changes nothing. */
  lemma {:induction false} WithoutAbsent(images: seq<ImageEntry>, id: string)
    requires forall k :: 0 <= k < |images| ==> images[k].id != id
    ensures Without(images, id) == images
    decreases |images|
  {
    if images != [] {
      WithoutAbsent(images[1..], id);
    }
  }

  /** Removing twice is removing once. */
  lemma WithoutIdempotent(images: seq<ImageEntry>, id: string)
    ensures Without(Without(images, id), id) == Without(images, id)
  {
    WithoutAbsent(Without(images, id), id);
  }

  /** `images.find(i => i.id === id)`: the first image with that id. */
  function Find(images: seq<ImageEntry>, id: string): (r: Option<ImageEntry>)
    ensures r.Some? <==> exists k :: 0 <= k < |images| && images[k].id == id
    ensures r.Some? ==> r.value.id == id && r.value in images
    ensures r.Some? ==> exists k :: 0 <= k < |images| && images[k] == r.value && forall j :: 0 <= j < k ==> images[j].id != id
  {
    if images == [] then None
    else if images[0].id == id then Some(images[0])
    else
      var tail := images[1..];
      var r := Find(tail, id);
      assert forall k :: 1 <= k < |images| ==> images[k] == tail[k - 1];
      assert r.Some? ==> exists k :: 0 <= k < |images| && images[k] == r.value && forall j :: 0 <= j < k ==> images[j].id != id by {
        if r.Some? {
          var k :| 0 <= k < |tail| && tail[k] == r.value && forall j :: 0 <= j < k ==> tail[j].id != id;
          assert images[k + 1] == r.value;
        }
      }
      r
  }

  class Manager {
    var images: seq<ImageEntry>
    var selectedId: Option<string>
    var cropRight: real
    var cropBottom: real

    /** The selection always names an image in the list. */
    predicate Valid()
      reads this
    {
      selectedId.Some? ==> exists k :: 0 <= k < |images| && images[k].id == selectedId.value
    }

    /** The images loaded so far, nothing selected, and the initial ratios 0.33 and 0. */
    constructor (loaded: seq<ImageEntry>)
      ensures Valid()
      ensures images == loaded && selectedId == None
      ensures cropRight == 0.33 && cropBottom == 0.0
    {
      images := loaded;
      selectedId := None;
      cropRight := 0.33;
      cropBottom := 0.0;
    }

    /** `selectImage`: an id that names no image is ignored. */
    method SelectImage(id: string)
      requires Valid()
      modifies this
      ensures Valid()
      ensures images == old(images) && cropRight == old(cropRight) && cropBottom == old(cropBottom)
      ensures Find(images, id).Some? ==> selectedId == Some(id)
      ensures Find(images, id).None? ==> selectedId == old(selectedId)
    {
      var found := Find(images, id);
      if found.None? {
        return;
      }
      selectedId := Some(id);
    }

    /** `removeImage`: drops every image with the id; a removed selection moves to the first image left. */
    method RemoveImage(id: string)
      requires Valid()
      modifies this
      ensures Valid()
      ensures images == Without(old(images), id)
      ensures cropRight == old(cropRight) && cropBottom == old(cropBottom)
      ensures old(selectedId) != Some(id) ==> selectedId == old(selectedId)
      ensures old(selectedId) == Some(id) && images != [] ==> selectedId == Some(images[0].id)
      ensures old(selectedId) == Some(id) && images == [] ==> selectedId == None
    {
      images := Without(images, id);
      if selectedId == Some(id) {
        selectedId := None;
        if |images| > 0 {
          SelectImage(images[0].id);
        }
      } else if selectedId.Some? {
        WithoutKeepsId(old(images), id, selectedId.value);
      }
    }

    /** `getSelected`: the selected image, or nothing. */
    method GetSelected() returns (r: Option<ImageEntry>)
      requires Valid()
      ensures r.Some? <==> selectedId.Some?
      ensures r.Some? ==> r.value.id == selectedId.value && r.value in images
    {
      if selectedId.None? {
        return None;
      }
      r := Find(images, selectedId.value);
    }

    /** The right-hand slider: `cropRight = parseInt(value) / 100`. */
    method SetCropRight(value: string)
      requires ParseInt(value).Some?
      modifies this
      ensures cropRight == SliderRatio(value)
      ensures images == old(images) && selectedId == old(selectedId) && cropBottom == old(cropBottom)
    {
      cropRight := SliderRatio(value);
    }

    /** The bottom slider: `cropBottom = parseInt(value) / 100`. */
    method SetCropBottom(value: string)
      requires ParseInt(value).Some?
      modifies this
      ensures cropBottom == SliderRatio(value)
      ensures images == old(images) && selectedId == old(selectedId) && cropRight == old(cropRight)
    {
      cropBottom := SliderRatio(value);
    }

    /** `cropImage` of an image of the given size under the current ratios. */
    method CropImage(width: nat, height: nat) returns (c: CropRect)
      ensures c == Crop(width, height, cropRight, cropBottom)
    {
      c := Crop(width, height, cropRight, cropBottom);
    }
  }
}
