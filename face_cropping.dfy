/** The per-frame step of the vertical-video cropper: a window of the output width around the
    detected face, cut out of the frame and resized, and the last cropped frame kept for the
    frames in which no face is found. */
module FaceCropping {
  import opened PyText

  /** One unsigned 8-bit colour channel. */
  newtype Channel = x: int | 0 <= x < 256

  datatype Pixel = Pixel(b: Channel, g: Channel, r: Channel)

  /** A frame of `width` columns: its rows of pixels, top to bottom. */
  datatype Frame = Frame(width: nat, rows: seq<seq<Pixel>>)

  /** Every row of the frame is `width` pixels long, as for a NumPy image. */
  predicate Shaped(f: Frame)
  {
    forall r :: 0 <= r < |f.rows| ==> |f.rows[r]| == f.width
  }

  /** The first detected face as pixels: its left edge x = int(xmin * width) and its width
      w = int(width * width of the frame), which the detector may put partly outside the frame. */
  datatype Face = Face(x: int, w: int)

  /** center_x = x + w // 2, with Python's floor division. */
  function Center(face: Face): (c: int)
    ensures 2 * (c - face.x) <= face.w < 2 * (c - face.x) + 2
  {
    face.x + face.w / 2
  }

  /** The column range [left, right) of the crop. */
  datatype Window = Window(left: int, right: int)

  /** The crop bounds as the frame step computes them: a window of outWidth columns centred on
      the face, clipped to the frame, and, when clipping made it narrower, moved left until it
      is outWidth wide or reaches column 0. */
  function CropWindowAsWritten(center: int, frameWidth: nat, outWidth: nat): (win: Window)
    ensures win.left >= 0
    ensures win.right <= frameWidth
    ensures win.right - win.left <= outWidth
    ensures win.right - win.left == outWidth || win.left == 0
  {
    var left := Max(center - outWidth / 2, 0);
    var right := Min(center + outWidth / 2, frameWidth);
    var left := if right - left < outWidth then Max(0, right - outWidth) else left;
    Window(left, right)
  }

  /** A face near the left edge of a wide frame yields a window narrower than the output,
      which the resize then stretches: the adjustment only ever moves the left bound. */
  lemma CropWindowAsWrittenNarrow()
    ensures var win := CropWindowAsWritten(Center(Face(0, 100)), 1920, 720);
      win == Window(0, 410) && win.right - win.left < 720 <= 1920
  {
  }

  /** The crop bounds with the adjustment made on both sides: a window that stopped at column 0
      short of outWidth is widened to the right as far as the frame allows. */
  function CropWindow(center: int, frameWidth: nat, outWidth: nat): (win: Window)
    ensures 0 <= win.left <= win.right <= frameWidth
    ensures win.right - win.left == Min(outWidth, frameWidth)
    ensures outWidth > 0 && 0 <= center < frameWidth ==> win.left <= center <= win.right
    ensures var w := CropWindowAsWritten(center, frameWidth, outWidth);
      w.right - w.left == outWidth ==> win == w
  {
    var w := CropWindowAsWritten(center, frameWidth, outWidth);
    if w.right - w.left < outWidth then Window(w.left, Min(frameWidth, w.left + outWidth)) else w
  }

  /** frame[:, left:right]: the same rows, each cut to the window's columns. */
  function Crop(frame: Frame, win: Window): Frame
  {
    var lo := SliceBound(win.left, frame.width);
    var hi := SliceBound(win.right, frame.width);
    Frame(if lo < hi then hi - lo else 0,
          seq(|frame.rows|, r requires 0 <= r < |frame.rows| => Slice(frame.rows[r], win.left, win.right)))
  }

  /** Cropping a well-shaped frame to a window inside it keeps every row and, in each, exactly
      the columns from left up to right. */
  lemma CropColumns(frame: Frame, win: Window)
    requires Shaped(frame) && 0 <= win.left <= win.right <= frame.width
    ensures var c := Crop(frame, win);
      && Shaped(c) && c.width == win.right - win.left && |c.rows| == |frame.rows|
      && forall r, j :: 0 <= r < |c.rows| && 0 <= j < c.width ==>
           c.rows[r][j] == frame.rows[r][win.left + j]
  {
  }

  /** np.zeros((height, width, 3), dtype=np.uint8). */
  function Black(height: nat, width: nat): (f: Frame)
    ensures Shaped(f) && f.width == width && |f.rows| == height
    ensures forall r, j :: 0 <= r < height && 0 <= j < width ==> f.rows[r][j] == Pixel(0, 0, 0)
  {
    Frame(width, seq(height, _ => seq(width, _ => Pixel(0, 0, 0))))
  }

  /** The output resolution (width, height) when the caller gives none. */
  const DEFAULT_SIZE: (nat, nat) := (720, 1280)

  /** The state crop_video_frame keeps across the frames of one video: the output resolution
      (width, height) and the last frame it cropped around a face. */
  class FrameCropper {
    const outWidth: nat
    const outHeight: nat
    var lastFrame: Option<Frame>

    /** Before the first frame nothing has been cropped. */
    constructor(size: (nat, nat))
      ensures outWidth == size.0 && outHeight == size.1 && lastFrame == None
    {
      outWidth, outHeight := size.0, size.1;
      lastFrame := None;
    }

    /** One frame: with a face, the crop around it resized to the output resolution, which is
        also kept; without one, the kept frame, or a black frame before any face was seen.
        `resize` stands for cv2.resize. */
    method CropFrame(frame: Frame, face: Option<Face>, resize: (Frame, nat, nat) -> Frame)
      returns (out: Frame)
      modifies this
      ensures face.Some? ==>
        && out == resize(Crop(frame, CropWindow(Center(face.value), frame.width, outWidth)),
                         outWidth, outHeight)
        && lastFrame == Some(out)
      ensures face.Some? ==>
        var w := CropWindowAsWritten(Center(face.value), frame.width, outWidth);
        w.right - w.left == outWidth ==> out == resize(Crop(frame, w), outWidth, outHeight)
      ensures face.None? ==> lastFrame == old(lastFrame)
      ensures face.None? && old(lastFrame).Some? ==> out == old(lastFrame).value
      ensures face.None? && old(lastFrame).None? ==> out == Black(outHeight, outWidth)
    {
      if face.Some? {
        var centerX := Center(face.value);
        var win := CropWindow(centerX, frame.width, outWidth);
        var croppedFrame := Crop(frame, win);
        var resizedFrame := resize(croppedFrame, outWidth, outHeight);
        lastFrame := Some(resizedFrame);
        return resizedFrame;
      }
      if lastFrame.Some? {
        return lastFrame.value;
      } else {
        return Black(outHeight, outWidth);
      }
    }
  }
}
