/**
 The event handlers of the configurator page, one pure transition each.
 Every handler leaves the set of parts alone. The pointer handlers change the
 hover and selection, the glows of at most two parts and the page controls,
 but no part's colour, map or name. The colour and texture handlers change
 only the selected part's material (and, for textures, the picker value).
 The image handler changes no material; the decode it starts later sets the
 map of the part selected at completion time.
 */
module Handlers {
  import opened Wrappers
  import opened Shoe

  /** The label published for the selected part: its name, or a fixed text
      when the name is empty. */
  function DisplayName(name: string): (shown: string)
    ensures shown != ""
    ensures name != "" ==> shown == name
    ensures name == "" ==> shown == UnnamedLabel
  {
    if name == "" then UnnamedLabel else name
  }

  /** The pointer moved; `pick` is the part nearest under the pointer, if any.
      Hovering never touches the selected part's glow, and a part that stops
      being hovered loses its hover glow. */
  function PointerMove(s: State, pick: Option<nat>): (r: State)
    requires s.Valid()
    requires pick.Some? ==> pick.value < |s.parts|
    ensures r.Valid() && |r.parts| == |s.parts|
    ensures r.selected == s.selected
    ensures LooksKept(s.parts, r.parts)
    ensures s.selected.Some? ==> r.parts[s.selected.value] == s.parts[s.selected.value]
    // onto the part already hovered, or nowhere while the hovered part is selected
    ensures pick == s.hovered ==> r == s
    ensures pick.None? && s.hovered == s.selected ==> r == s
    // onto a different part
    ensures pick.Some? && pick != s.hovered ==>
      && r.hovered == pick
      && r.ui == s.ui.(texturePicker := NoTexture)
      && (pick != s.selected ==> r.Glow(pick.value) == HoverGlow)
      && (s.hovered.Some? && s.hovered != s.selected ==> r.Glow(s.hovered.value) == Dark)
      && KeptOutside(s.parts, r.parts, {pick.value} + Ids(s.hovered))
    // onto nothing, leaving a hovered part that is not selected
    ensures pick.None? && s.hovered.Some? && s.hovered != s.selected ==>
      && r.hovered.None?
      && r.ui == s.ui
      && r.Glow(s.hovered.value) == Dark
      && KeptOutside(s.parts, r.parts, {s.hovered.value})
  {
    match pick
    case Some(p) =>
      if s.hovered == Some(p) then s
      else
        var cleared := if s.hovered.Some? && s.hovered != s.selected
          then WithGlow(s.parts, s.hovered.value, Dark) else s.parts;
        var lit := if Some(p) != s.selected then WithGlow(cleared, p, HoverGlow) else cleared;
        State(lit, Some(p), s.selected, s.ui.(texturePicker := NoTexture))
    case None =>
      if s.hovered.Some? && s.hovered != s.selected
      then s.(parts := WithGlow(s.parts, s.hovered.value, Dark), hovered := None)
      else s
  }

  /** A click selects the hovered part: the previous selection loses its glow,
      the new one gets the selection glow, both pickers are reset and the
      part's label is published with the option panels shown. */
  function Click(s: State): (r: State)
    requires s.Valid()
    ensures r.Valid() && |r.parts| == |s.parts|
    ensures s.hovered.None? ==> r == s
    ensures s.hovered.Some? ==>
      && r.hovered == s.hovered
      && r.selected == s.hovered
      && r.Glow(s.hovered.value) == SelectGlow
      && (s.selected.Some? && s.selected != s.hovered ==> r.Glow(s.selected.value) == Dark)
      && KeptOutside(s.parts, r.parts, {s.hovered.value} + Ids(s.selected))
      && LooksKept(s.parts, r.parts)
      && r.ui.texturePicker == NoTexture
      && r.ui.imageFile.None?
      && r.ui.partLabel.Some? && r.ui.partLabel.value != ""
      && (s.parts[s.hovered.value].name != "" ==> r.ui.partLabel.value == s.parts[s.hovered.value].name)
      && r.ui.configShown && r.ui.uploadShown
  {
    match s.hovered
    case None => s
    case Some(h) =>
      var cleared := if s.selected.Some? then WithGlow(s.parts, s.selected.value, Dark) else s.parts;
      var lit := WithGlow(cleared, h, SelectGlow);
      var ui := Ui(NoTexture, None, Some(DisplayName(lit[h].name)), true, true);
      State(lit, Some(h), Some(h), ui)
  }

  /** The colour picker changed: the selected part takes the colour and loses
      its glow; without a selection nothing changes. */
  function ColorInput(s: State, color: Hex): (r: State)
    requires s.Valid()
    ensures r.Valid() && |r.parts| == |s.parts|
    ensures r.hovered == s.hovered && r.selected == s.selected && r.ui == s.ui
    ensures s.selected.None? ==> r == s
    ensures s.selected.Some? ==>
      var k := s.selected.value;
      && r.parts[k].material.color == color
      && r.Glow(k) == Dark
      && r.parts[k].name == s.parts[k].name
      && r.parts[k].material.surface == s.parts[k].material.surface
      && KeptOutside(s.parts, r.parts, {k})
  {
    match s.selected
    case None => s
    case Some(k) =>
      var m := s.parts[k].material.(color := color, emissive := Dark);
      s.(parts := s.parts[k := s.parts[k].(material := m)])
  }

  /** The map `textures[key]` of the preset table; a key outside the table
      yields `undefined`, which renders as no map. */
  function TextureFor(key: string): (m: SurfaceMap)
    ensures key in PresetKeys ==> m == Preset(key)
    ensures key !in PresetKeys ==> m == Unmapped
  {
    if key in PresetKeys then Preset(key) else Unmapped
  }

  /** The texture picker changed to `key`: the selected part's map becomes
      the preset for `key`, or none for the "none" key; without a selection
      no part changes. */
  function TextureChange(s: State, key: string): (r: State)
    requires s.Valid()
    ensures r.Valid() && |r.parts| == |s.parts|
    ensures r.hovered == s.hovered && r.selected == s.selected
    ensures r.ui == s.ui.(texturePicker := key)
    ensures s.selected.None? ==> r.parts == s.parts
    ensures s.selected.Some? ==>
      var k := s.selected.value;
      && (key == NoTexture ==> r.parts[k].material.surface == Unmapped)
      && (key in PresetKeys ==> r.parts[k].material.surface == Preset(key))
      && (key != NoTexture && key !in PresetKeys ==> r.parts[k].material.surface == Unmapped)
      && r.parts[k].name == s.parts[k].name
      && r.parts[k].material.color == s.parts[k].material.color
      && r.Glow(k) == s.Glow(k)
      && KeptOutside(s.parts, r.parts, {k})
  {
    var picked := s.(ui := s.ui.(texturePicker := key));
    match s.selected
    case None => picked
    case Some(k) =>
      var surface := if key == NoTexture then Unmapped else TextureFor(key);
      var m := s.parts[k].material.(surface := surface);
      picked.(parts := s.parts[k := s.parts[k].(material := m)])
  }

  /** What the image picker handler does besides updating the control. */
  datatype UploadOutcome =
    | Warned(message: string)       // no part selected: an alert is raised
    | DecodeStarted(image: ImageFile) // the file is handed to the asynchronous decoder
    | NothingChosen                 // a part is selected but no file was chosen

  datatype Upload = Upload(state: State, outcome: UploadOutcome)

  /** The image picker changed to `file`. No part changes synchronously:
      with a selection and a file the decode is started, with a selection and
      no file nothing happens, and without a selection a warning is raised. */
  function ImageChange(s: State, file: Option<ImageFile>): (r: Upload)
    requires s.Valid()
    ensures r.state.Valid()
    ensures r.state.parts == s.parts
    ensures r.state.hovered == s.hovered && r.state.selected == s.selected
    ensures r.state.ui == s.ui.(imageFile := file)
    ensures r.outcome.Warned? <==> s.selected.None?
    ensures r.outcome.Warned? ==> r.outcome.message == SelectFirstWarning
    ensures forall f :: r.outcome == DecodeStarted(f) <==> s.selected.Some? && file == Some(f)
    ensures r.outcome == NothingChosen <==> s.selected.Some? && file.None?
  {
    var picked := s.(ui := s.ui.(imageFile := file));
    if s.selected.None? then Upload(picked, Warned(SelectFirstWarning))
    else match file
      case None => Upload(picked, NothingChosen)
      case Some(f) => Upload(picked, DecodeStarted(f))
  }

  /** The decoder finished with `image`: the texture goes onto the part that
      is selected NOW, which is re-read at completion time rather than
      captured when the decode was started. */
  function DecodeCompleted(s: State, image: ImageFile): (r: State)
    requires s.Valid()
    requires s.selected.Some?
    ensures r.Valid() && |r.parts| == |s.parts|
    ensures r.hovered == s.hovered && r.selected == s.selected && r.ui == s.ui
    ensures r.parts[s.selected.value].material.surface == Uploaded(image)
    ensures r.parts[s.selected.value].name == s.parts[s.selected.value].name
    ensures r.parts[s.selected.value].material.color == s.parts[s.selected.value].material.color
    ensures r.Glow(s.selected.value) == s.Glow(s.selected.value)
    ensures KeptOutside(s.parts, r.parts, {s.selected.value})
  {
    var k := s.selected.value;
    var m := s.parts[k].material.(surface := Uploaded(image));
    s.(parts := s.parts[k := s.parts[k].(material := m)])
  }

  /** Moving onto the same spot twice is the same as moving there once. */
  lemma PointerMoveIdempotent(s: State, pick: Option<nat>)
    requires s.Valid()
    requires pick.Some? ==> pick.value < |s.parts|
    ensures PointerMove(PointerMove(s, pick), pick) == PointerMove(s, pick)
  {
  }

  /** Clicking the same hovered part again changes nothing more. */
  lemma ClickIdempotent(s: State)
    requires s.Valid()
    ensures Click(Click(s)) == Click(s)
  {
  }

  /** Applying the same colour twice leaves the state of the first application. */
  lemma ColorInputIdempotent(s: State, color: Hex)
    requires s.Valid()
    ensures ColorInput(ColorInput(s, color), color) == ColorInput(s, color)
  {
  }

  /** Only the last texture choice matters: a preset chosen after an uploaded
      image replaces it, and "none" afterwards clears whatever was there. */
  lemma TextureChangeLastWins(s: State, first: string, second: string)
    requires s.Valid()
    ensures TextureChange(TextureChange(s, first), second) == TextureChange(s, second)
  {
  }
}
