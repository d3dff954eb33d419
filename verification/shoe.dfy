/**
 The state of the shoe configurator: the parts of the loaded model with their
 materials, the hovered and selected parts, and the few page controls the
 event handlers read or reset.
 */
module Shoe {
  import opened Wrappers

  /** A 24-bit RGB value, the range `Color.setHex` keeps. */
  type Hex = x: int | 0 <= x < 0x100_0000

  /** Emissive values the handlers write: no glow, hover glow, selection glow. */
  const Dark: Hex := 0x000000
  const HoverGlow: Hex := 0x555555
  const SelectGlow: Hex := 0x999999

  /** The value the texture picker is reset to, and the key meaning "no texture". */
  const NoTexture := "none"

  /** The keys of the preset texture table. */
  const PresetKeys: set<string> := {"leather", "rubber", "denim"}

  /** The text shown when the selected part has an empty name. */
  const UnnamedLabel := "Unnamed part"

  /** The warning raised when an image is picked before any part is selected. */
  const SelectFirstWarning := "Please select a part of the shoe first."

  /** The raw contents of a file chosen in the image picker. */
  type ImageFile = seq<bv8>

  /** The surface map of a material (its `map` property). */
  datatype SurfaceMap =
    | Unmapped                  // `map` is null (or undefined)
    | AssetMap(index: nat)      // the map the loaded model came with
    | Preset(key: string)       // an entry of the preset texture table
    | Uploaded(image: ImageFile) // a texture decoded from an uploaded file

  datatype Material = Material(color: Hex, emissive: Hex, surface: SurfaceMap)

  datatype Part = Part(name: string, material: Material)

  /** The page controls: texture picker value, chosen image file, the
      selected-part label and the visibility of the two option panels. */
  datatype Ui = Ui(
    texturePicker: string,
    imageFile: Option<ImageFile>,
    partLabel: Option<string>,
    configShown: bool,
    uploadShown: bool)

  datatype State = State(parts: seq<Part>, hovered: Option<nat>, selected: Option<nat>, ui: Ui)
  {
    /** The hovered and selected parts, when present, are parts of the model. */
    predicate Valid() {
      && (hovered.Some? ==> hovered.value < |parts|)
      && (selected.Some? ==> selected.value < |parts|)
    }

    /** The emissive value of part `i`. */
    function Glow(i: nat): Hex
      requires i < |parts|
    {
      parts[i].material.emissive
    }
  }

  /** The state right after loading: nothing hovered or selected. */
  function Init(parts: seq<Part>, ui: Ui): (s: State)
    ensures s.Valid() && s.hovered.None? && s.selected.None?
    ensures s.parts == parts && s.ui == ui
  {
    State(parts, None, None, ui)
  }

  /** The part an optional reference points at, as a set of at most one index. */
  function Ids(o: Option<nat>): (s: set<nat>)
    ensures o.None? <==> s == {}
    ensures forall x :: x in s <==> o == Some(x)
  {
    match o
    case None => {}
    case Some(v) => {v}
  }

  /** Two parts look the same apart from their emissive glow. */
  predicate SameLook(a: Part, b: Part) {
    a.name == b.name && a.material.color == b.material.color && a.material.surface == b.material.surface
  }

  /** `b` has the parts of `a`, each looking the same apart from its glow. */
  predicate LooksKept(a: seq<Part>, b: seq<Part>) {
    |a| == |b| && forall i :: 0 <= i < |a| ==> SameLook(a[i], b[i])
  }

  /** `b` has the parts of `a`, identical outside the indices in `touched`. */
  predicate KeptOutside(a: seq<Part>, b: seq<Part>, touched: set<nat>) {
    |a| == |b| && forall i :: 0 <= i < |a| && i !in touched ==> b[i] == a[i]
  }

  /** Sets the emissive value of part `i`, as `material.emissive.setHex` does. */
  function WithGlow(parts: seq<Part>, i: nat, e: Hex): (r: seq<Part>)
    requires i < |parts|
    ensures |r| == |parts| && r[i].material.emissive == e
    ensures LooksKept(parts, r)
    ensures KeptOutside(parts, r, {i})
  {
    parts[i := parts[i].(material := parts[i].material.(emissive := e))]
  }
}
