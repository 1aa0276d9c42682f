/** The render configuration: the colour and biome map files, the height
    window the compositor draws, the altitude shading parameters, and the
    title and scales of the generated tiles. */
module RenderSettings {
  import opened Common

  /** A file is named by its path; None stands for Java's null. The fields
      are in the order the record declares them. */
  datatype Settings = Settings(
    debug: bool,
    colorMapFile: Option<string>,
    biomeMapFile: Option<string>,
    minHeight: int,
    maxHeight: int,
    shadingReferenceAltitude: int,
    altitudeShadingFactor: int,
    minAltitudeShading: int,
    maxAltitudeShading: int,
    mapTitle: string,
    mapScales: seq<int>)

  /** The field initialisers: no map files, an unbounded height window,
      shading around altitude 64 with factor 36 clamped to -20..+20, the
      title "Regions" and the single scale 1. */
  function Default(): (s: Settings)
    ensures !s.debug && s.colorMapFile.None? && s.biomeMapFile.None?
    ensures s.minHeight == INT_MIN && s.maxHeight == INT_MAX
    ensures s.shadingReferenceAltitude == 64 && s.altitudeShadingFactor == 36
    ensures s.minAltitudeShading == -20 && s.maxAltitudeShading == 20
    ensures s.mapTitle == "Regions" && s.mapScales == [1]
  {
    Settings(false, None, None, INT_MIN, INT_MAX, 64, 36, -20, 20, "Regions", [1])
  }

  /** The full constructor. Its parameters come in a different order from
      the fields, and the shading ones are named differently: each argument
      lands in its own field and nothing else is set. */
  function New(colorMapFile: Option<string>, biomeMapFile: Option<string>, debug: bool,
               minHeight: int, maxHeight: int,
               shadingRefAlt: int, minAltShading: int, maxAltShading: int, altShadingFactor: int,
               mapTitle: string, mapScales: seq<int>): (s: Settings)
    ensures s.colorMapFile == colorMapFile && s.biomeMapFile == biomeMapFile && s.debug == debug
    ensures s.minHeight == minHeight && s.maxHeight == maxHeight
    ensures s.shadingReferenceAltitude == shadingRefAlt && s.altitudeShadingFactor == altShadingFactor
    ensures s.minAltitudeShading == minAltShading && s.maxAltitudeShading == maxAltShading
    ensures s.mapTitle == mapTitle && s.mapScales == mapScales
  {
    Settings(debug, colorMapFile, biomeMapFile, minHeight, maxHeight,
             shadingRefAlt, altShadingFactor, minAltShading, maxAltShading, mapTitle, mapScales)
  }

  /** The full constructor can rebuild any settings from their own fields,
      so no field is lost or swapped with another. */
  lemma NewRebuilds(s: Settings)
    ensures New(s.colorMapFile, s.biomeMapFile, s.debug, s.minHeight, s.maxHeight,
                s.shadingReferenceAltitude, s.minAltitudeShading, s.maxAltitudeShading,
                s.altitudeShadingFactor, s.mapTitle, s.mapScales) == s
  {
  }

  /** The heights the compositor draws: at or above minHeight, below maxHeight. */
  predicate InHeightWindow(s: Settings, absY: int) {
    s.minHeight <= absY < s.maxHeight
  }

  /** The default window draws every Java `int` height but the largest one,
      and lets every 16-high section below INT_MAX through the section test. */
  lemma DefaultWindowUnbounded(absY: int)
    requires IsInt32(absY) && absY < INT_MAX
    ensures InHeightWindow(Default(), absY)
    ensures absY + 16 > Default().minHeight
  {
  }
}
