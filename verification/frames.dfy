/** Frame selection and the region selector: which frame `last_frame` asks
    the decoder for, and the crop `preprocess_first_frame` applies. */
module Frames {

  datatype Rgb = Rgb(red: nat, green: nat, blue: nat)

  /** A decoded frame after `.convert("RGB")`: its size and the colour at
      each position. */
  datatype Image = Image(width: nat, height: nat, pixel: (nat, nat) -> Rgb)

  /** A crop box in PIL's order: left, upper, right, lower. */
  datatype Box = Box(left: int, upper: int, right: int, lower: int)

  /** The frame number `last_frame` selects, given the packet count the probe
      printed. No check is made that the count is positive. */
  function LastFrameIndex(packets: int): (i: int)
    ensures i < packets && packets <= i + 1
    ensures packets > 0 ==> 0 <= i
  {
    packets - 1
  }

  /** The crop box of the first frame: the left third of the frame, and of
      that the top two thirds (each third rounded down). */
  function FirstFrameBox(width: nat, height: nat): (b: Box)
    ensures b.left == 0 && b.upper == 0
    ensures 0 <= b.right <= width && 0 <= b.lower <= height
    ensures 3 * b.right <= width < 3 * b.right + 3
    ensures b.lower % 2 == 0 && 3 * (b.lower / 2) <= height < 3 * (b.lower / 2) + 3
  {
    Box(0, 0, width / 3, (height / 3) * 2)
  }

  /** `preprocess_first_frame`: the image cropped to `FirstFrameBox`; the kept
      pixels are those at the same positions in the frame, and nothing of the
      frame outside the box remains. */
  function PreprocessFirstFrame(img: Image): (r: Image)
    ensures var b := FirstFrameBox(img.width, img.height);
            r.width == b.right && r.height == b.lower
    ensures r.width <= img.width && r.height <= img.height
    ensures forall x: nat, y: nat :: x < r.width && y < r.height ==> r.pixel(x, y) == img.pixel(x, y)
    ensures forall x: nat, y: nat :: !(x < r.width && y < r.height) ==> r.pixel(x, y) == Rgb(0, 0, 0)
  {
    var b := FirstFrameBox(img.width, img.height);
    Image(b.right, b.lower,
          (x: nat, y: nat) => if x < b.right && y < b.lower then img.pixel(x, y) else Rgb(0, 0, 0))
  }

  /** `preprocess_last_frame`: the end card is used as decoded. */
  function PreprocessLastFrame(img: Image): (r: Image)
    ensures r.width == img.width && r.height == img.height
    ensures forall x: nat, y: nat :: r.pixel(x, y) == img.pixel(x, y)
  {
    img
  }
}
