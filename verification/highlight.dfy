/**
 The highlight invariant: the hover glow sits exactly on the hovered part
 when it is not the selected one, the selection glow only on the selected
 part, and every other part is dark. Every handler preserves it.
 */
module Highlight {
  import opened Wrappers
  import opened Shoe
  import opened Handlers

  /** The glow `e` is the one part `i` may carry in state `s`. */
  predicate GlowFits(s: State, i: nat, e: Hex) {
    if s.hovered == Some(i) && s.selected != Some(i) then e == HoverGlow
    else if s.selected == Some(i) then e == Dark || e == SelectGlow
    else e == Dark
  }

  predicate WellHighlighted(s: State) {
    s.Valid() && forall i :: 0 <= i < |s.parts| ==> GlowFits(s, i, s.parts[i].material.emissive)
  }

  /** A freshly loaded model whose parts are all dark is well highlighted. */
  lemma InitWellHighlighted(parts: seq<Part>, ui: Ui)
    requires forall i :: 0 <= i < |parts| ==> parts[i].material.emissive == Dark
    ensures WellHighlighted(Init(parts, ui))
  {
  }

  /** The hover glow marks exactly the hovered part, and only when it is not selected. */
  lemma HoverGlowExactlyHovered(s: State, i: nat)
    requires WellHighlighted(s) && i < |s.parts|
    ensures s.Glow(i) == HoverGlow <==> s.hovered == Some(i) && s.selected != Some(i)
  {
    assert GlowFits(s, i, s.Glow(i));
  }

  /** Only the selected part can carry the selection glow. */
  lemma SelectGlowOnlySelected(s: State, i: nat)
    requires WellHighlighted(s) && i < |s.parts|
    requires s.Glow(i) == SelectGlow
    ensures s.selected == Some(i)
  {
    assert GlowFits(s, i, s.Glow(i));
  }

  /** No stale glow: a part neither hovered nor selected is dark. */
  lemma NoStaleGlow(s: State, i: nat)
    requires WellHighlighted(s) && i < |s.parts|
    requires s.hovered != Some(i) && s.selected != Some(i)
    ensures s.Glow(i) == Dark
  {
    assert GlowFits(s, i, s.Glow(i));
  }

  /** At most one part carries each highlight. */
  lemma AtMostOneOfEachGlow(s: State, i: nat, j: nat)
    requires WellHighlighted(s) && i < |s.parts| && j < |s.parts|
    ensures s.Glow(i) == HoverGlow && s.Glow(j) == HoverGlow ==> i == j
    ensures s.Glow(i) == SelectGlow && s.Glow(j) == SelectGlow ==> i == j
  {
    assert GlowFits(s, i, s.Glow(i));
    assert GlowFits(s, j, s.Glow(j));
  }

  lemma PointerMoveWellHighlighted(s: State, pick: Option<nat>)
    requires WellHighlighted(s)
    requires pick.Some? ==> pick.value < |s.parts|
    ensures WellHighlighted(PointerMove(s, pick))
  {
    var r := PointerMove(s, pick);
    forall i | 0 <= i < |r.parts|
      ensures GlowFits(r, i, r.parts[i].material.emissive)
    {
      assert GlowFits(s, i, s.parts[i].material.emissive);
    }
  }

  lemma ClickWellHighlighted(s: State)
    requires WellHighlighted(s)
    ensures WellHighlighted(Click(s))
  {
    var r := Click(s);
    forall i | 0 <= i < |r.parts|
      ensures GlowFits(r, i, r.parts[i].material.emissive)
    {
      assert GlowFits(s, i, s.parts[i].material.emissive);
    }
  }

  lemma ColorInputWellHighlighted(s: State, color: Hex)
    requires WellHighlighted(s)
    ensures WellHighlighted(ColorInput(s, color))
  {
    var r := ColorInput(s, color);
    forall i | 0 <= i < |r.parts|
      ensures GlowFits(r, i, r.parts[i].material.emissive)
    {
      assert GlowFits(s, i, s.parts[i].material.emissive);
    }
  }

  lemma TextureChangeWellHighlighted(s: State, key: string)
    requires WellHighlighted(s)
    ensures WellHighlighted(TextureChange(s, key))
  {
    var r := TextureChange(s, key);
    forall i | 0 <= i < |r.parts|
      ensures GlowFits(r, i, r.parts[i].material.emissive)
    {
      assert GlowFits(s, i, s.parts[i].material.emissive);
    }
  }

  lemma ImageChangeWellHighlighted(s: State, file: Option<ImageFile>)
    requires WellHighlighted(s)
    ensures WellHighlighted(ImageChange(s, file).state)
  {
  }

  lemma DecodeCompletedWellHighlighted(s: State, image: ImageFile)
    requires WellHighlighted(s) && s.selected.Some?
    ensures WellHighlighted(DecodeCompleted(s, image))
  {
    var r := DecodeCompleted(s, image);
    forall i | 0 <= i < |r.parts|
      ensures GlowFits(r, i, r.parts[i].material.emissive)
    {
      assert GlowFits(s, i, s.parts[i].material.emissive);
    }
  }
}
