/** The game's configuration (code/settings.py): the three screen-size presets,
    the current size and the fixed game constants. */
module ScreenSettings {

  /** Width of the "medium" preset; every scale factor is relative to it. */
  const MediumWidth: int := 600

  /** The game constants that the core reads. Times are in milliseconds. */
  const Fps: int := 80
  const Speed: int := 5
  const Gravity: real := 0.25
  const PipeSpawnTimeMs: int := 1300
  const BirdFlapTimeMs: int := 200
  const DoubleClickIntervalMs: int := 400

  /** The preset table `SCREEN_SIZES`. The medium height is the display
      height less 85 pixels, so it is a parameter here. */
  function PresetTable(mediumHeight: int): (t: map<string, (int, int)>)
    ensures t.Keys == {"small", "medium", "large"}
    ensures t["small"] == (480, 720) && t["large"] == (720, 1200)
    ensures t["medium"] == (MediumWidth, mediumHeight)
  {
    map["small" := (480, 720), "medium" := (MediumWidth, mediumHeight), "large" := (720, 1200)]
  }

  /** `width / SCREEN_SIZES["medium"][0]`. */
  function ScaleFactor(width: int): real
  {
    width as real / MediumWidth as real
  }

  /** The three presets scale by 0.8, 1 and 1.2. */
  lemma PresetScaleFactors(mediumHeight: int)
    ensures ScaleFactor(PresetTable(mediumHeight)["small"].0) == 0.8
    ensures ScaleFactor(PresetTable(mediumHeight)["medium"].0) == 1.0
    ensures ScaleFactor(PresetTable(mediumHeight)["large"].0) == 1.2
  {
  }

  class Settings {
    const mediumHeight: int
    const screenSizes: map<string, (int, int)>
    var currentSize: string
    var width: int
    var height: int
    var scaleFactor: real

    /** `current_size` names a preset, (`width`, `height`) is that preset's
        entry and `scale_factor` is derived from the width. */
    ghost predicate Valid()
      reads this
    {
      && screenSizes == PresetTable(mediumHeight)
      && currentSize in screenSizes
      && (width, height) == screenSizes[currentSize]
      && scaleFactor == ScaleFactor(width)
    }

    /** What every other component relies on: the width is one of the three
        preset widths, so it is positive and the scale factor is 0.8, 1 or 1.2. */
    lemma ValidWidth()
      requires Valid()
      ensures width == 480 || width == 600 || width == 720
      ensures width > 0 && scaleFactor >= 0.0
      ensures scaleFactor == 0.8 || scaleFactor == 1.0 || scaleFactor == 1.2
    {
    }

    /** The initial state: medium, 600 wide, as tall as the display allows. */
    constructor (displayHeight: int)
      ensures Valid()
      ensures mediumHeight == displayHeight - 85
      ensures currentSize == "medium" && width == MediumWidth && height == mediumHeight
      ensures scaleFactor == 1.0
    {
      mediumHeight := displayHeight - 85;
      screenSizes := PresetTable(displayHeight - 85);
      width := MediumWidth;
      height := displayHeight - 85;
      currentSize := "medium";
      scaleFactor := ScaleFactor(MediumWidth);
    }

    /** `update_screen_size`: a known preset name switches the size, the
        dimensions and the scale factor together and answers true; any other
        name changes nothing and answers false. */
    method UpdateScreenSize(size: string) returns (ok: bool)
      requires Valid()
      modifies this
      ensures Valid()
      ensures ok <==> size in screenSizes
      ensures ok ==> currentSize == size && (width, height) == screenSizes[size]
      ensures ok ==> scaleFactor == width as real / MediumWidth as real
      ensures !ok ==> unchanged(this)
    {
      if size in screenSizes {
        currentSize := size;
        width, height := screenSizes[size].0, screenSizes[size].1;
        scaleFactor := ScaleFactor(width);
        return true;
      }
      return false;
    }
  }
}
