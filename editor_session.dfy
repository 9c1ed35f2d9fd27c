/**
 * The editing session of the photo editor component: the seven filter parameters,
 * the crop gesture and the size of the drawing surface, as fields that the toolbar
 * actions and the pointer handlers update in place. Each method is specified by the
 * pure update it performs (module Filters or Crop); `Valid()` is the invariant they
 * all preserve.
 */
module Session {
  import opened Wrappers
  import opened Filters
  import opened Crop
  import FilterExpression

  class EditorSession {
    var brightness: int
    var contrast: int
    var blur: int
    var invert: int
    var hueRotate: int
    var saturate: int
    var opacity: int

    var cropping: bool
    var cropStart: Option<Point>
    var cropEnd: Option<Point>

    /** The drawing surface's width and height, which a committed crop replaces. */
    var width: int
    var height: int

    /** The filter parameter set held in the fields. */
    function Settings(): Params
      reads this
    {
      Params(brightness, contrast, blur, invert, hueRotate, saturate, opacity)
    }

    /** The crop gesture held in the fields. */
    function CropGesture(): Gesture
      reads this
    {
      Gesture(cropping, cropStart, cropEnd)
    }

    function Surface(): Size
      reads this
    {
      Size(width, height)
    }

    /**
     * Every parameter within its range, invert (which has no button) still at its
     * initial 0, and a well-formed gesture.
     */
    ghost predicate Valid()
      reads this
    {
      AllInRange(Settings()) && invert == 0 && WellFormed(CropGesture())
    }

    /** A fresh session on a surface of the given size. */
    constructor (width: int, height: int)
      ensures Valid()
      ensures Settings() == Initial && CropGesture() == Idle
      ensures Surface() == Size(width, height)
    {
      brightness, contrast, blur, invert := 100, 100, 0, 0;
      hueRotate, saturate, opacity := 0, 100, 100;
      cropping, cropStart, cropEnd := false, None, None;
      this.width, this.height := width, height;
    }

    // -------------------------------------------------------------------------
    // Toolbar buttons.
    // -------------------------------------------------------------------------

    method IncreaseBrightness()
      modifies this`brightness
      ensures Settings() == Press(old(Settings()), Brightness, Up)
      ensures old(Valid()) ==> Valid()
    {
      brightness := Step(Brightness, Up, brightness);
    }

    method DecreaseBrightness()
      modifies this`brightness
      ensures Settings() == Press(old(Settings()), Brightness, Down)
      ensures old(Valid()) ==> Valid()
    {
      brightness := Step(Brightness, Down, brightness);
    }

    method IncreaseContrast()
      modifies this`contrast
      ensures Settings() == Press(old(Settings()), Contrast, Up)
      ensures old(Valid()) ==> Valid()
    {
      contrast := Step(Contrast, Up, contrast);
    }

    method DecreaseContrast()
      modifies this`contrast
      ensures Settings() == Press(old(Settings()), Contrast, Down)
      ensures old(Valid()) ==> Valid()
    {
      contrast := Step(Contrast, Down, contrast);
    }

    method IncreaseBlur()
      modifies this`blur
      ensures Settings() == Press(old(Settings()), Blur, Up)
      ensures old(Valid()) ==> Valid()
    {
      blur := Step(Blur, Up, blur);
    }

    method DecreaseBlur()
      modifies this`blur
      ensures Settings() == Press(old(Settings()), Blur, Down)
      ensures old(Valid()) ==> Valid()
    {
      blur := Step(Blur, Down, blur);
    }

    method IncreaseHueRotate()
      modifies this`hueRotate
      ensures Settings() == Press(old(Settings()), HueRotate, Up)
      ensures old(Valid()) ==> Valid()
    {
      hueRotate := Step(HueRotate, Up, hueRotate);
    }

    method DecreaseHueRotate()
      modifies this`hueRotate
      ensures Settings() == Press(old(Settings()), HueRotate, Down)
      ensures old(Valid()) ==> Valid()
    {
      hueRotate := Step(HueRotate, Down, hueRotate);
    }

    method IncreaseSaturate()
      modifies this`saturate
      ensures Settings() == Press(old(Settings()), Saturate, Up)
      ensures old(Valid()) ==> Valid()
    {
      saturate := Step(Saturate, Up, saturate);
    }

    method DecreaseSaturate()
      modifies this`saturate
      ensures Settings() == Press(old(Settings()), Saturate, Down)
      ensures old(Valid()) ==> Valid()
    {
      saturate := Step(Saturate, Down, saturate);
    }

    method IncreaseOpacity()
      modifies this`opacity
      ensures Settings() == Press(old(Settings()), Opacity, Up)
      ensures old(Valid()) ==> Valid()
    {
      opacity := Step(Opacity, Up, opacity);
    }

    method DecreaseOpacity()
      modifies this`opacity
      ensures Settings() == Press(old(Settings()), Opacity, Down)
      ensures old(Valid()) ==> Valid()
    {
      opacity := Step(Opacity, Down, opacity);
    }

    /** The reset button of one parameter, selected by its state name. */
    method ResetFilter(filter: string)
      modifies this`brightness, this`contrast, this`blur, this`invert,
               this`hueRotate, this`saturate, this`opacity
      ensures Settings() == ResetOne(old(Settings()), filter)
      ensures old(Valid()) ==> Valid()
    {
      if filter == "brightness" {
        brightness := 100;
      } else if filter == "contrast" {
        contrast := 100;
      } else if filter == "blur" {
        blur := 0;
      } else if filter == "invert" {
        invert := 0;
      } else if filter == "hueRotate" {
        hueRotate := 0;
      } else if filter == "saturate" {
        saturate := 100;
      } else if filter == "opacity" {
        opacity := 100;
      }
    }

    /** The reset-all button. */
    method ResetAllFilters()
      modifies this`brightness, this`contrast, this`blur, this`invert,
               this`hueRotate, this`saturate, this`opacity
      ensures Settings() == ResetAll(old(Settings()))
      ensures Settings() == Initial
      ensures old(Valid()) ==> Valid()
    {
      brightness := 100;
      contrast := 100;
      blur := 0;
      invert := 0;
      hueRotate := 0;
      saturate := 100;
      opacity := 100;
    }

    /** The expression assigned to the drawing context's filter when the image is redrawn. */
    method ContextFilter() returns (text: string)
      ensures FilterExpression.ParseFilterText(text, 8) == Some(Settings())
      ensures text == FilterExpression.FilterText(Settings(), 8)
    {
      text := FilterExpression.FilterText(Settings(), 8);
      FilterExpression.FilterTextRoundTrip(Settings(), 8);
    }

    // -------------------------------------------------------------------------
    // The crop gesture.
    // -------------------------------------------------------------------------

    /** The crop button arms the gesture. */
    method StartCropping()
      modifies this`cropping
      ensures CropGesture() == Arm(old(CropGesture()))
      ensures old(Valid()) ==> Valid()
    {
      cropping := true;
    }

    /** Pointer-down at `p` (surface-local coordinates). */
    method HandleMouseDown(p: Point)
      modifies this`cropStart, this`cropEnd
      ensures CropGesture() == PointerDown(old(CropGesture()), p)
      ensures old(Valid()) ==> Valid()
    {
      if cropping {
        cropStart := Some(p);
        cropEnd := None;
      }
    }

    /** Pointer-move to `p` (surface-local coordinates). */
    method HandleMouseMove(p: Point)
      modifies this`cropEnd
      ensures CropGesture() == PointerMove(old(CropGesture()), p)
      ensures old(Valid()) ==> Valid()
    {
      if cropping && cropStart.Some? {
        cropEnd := Some(p);
      }
    }

    /**
     * Pointer-up: with the flag and both points present, the surface takes the size
     * end minus start and the gesture is cleared; otherwise nothing changes. A zero
     * width or height makes the image-data read throw before the surface is resized,
     * so then nothing changes either.
     */
    method HandleMouseUp()
      modifies this`cropping, this`cropStart, this`cropEnd, this`width, this`height
      ensures CropGesture() == PointerUp(old(CropGesture()))
      ensures Surface() == match Committed(old(CropGesture()))
                           case Some(size) => size
                           case None => old(Surface())
      ensures old(Valid()) ==> Valid()
    {
      if cropping && cropStart.Some? && cropEnd.Some? {
        var startX, startY := cropStart.value.x, cropStart.value.y;
        var endX, endY := cropEnd.value.x, cropEnd.value.y;
        var newWidth, newHeight := endX - startX, endY - startY;
        if ImageDataAccepts(Size(newWidth, newHeight)) {
          width := newWidth;
          height := newHeight;
          cropping := false;
          cropStart := None;
          cropEnd := None;
        }
      }
    }
  }
}
