/**
 A session: the page state together with the image decodes still in flight,
 driven by a sequence of browser events. Decodes may complete in any order;
 each completion applies to whatever part is selected at that moment.
 */
module Session {
  import opened Wrappers
  import opened Shoe
  import opened Handlers
  import opened Highlight

  datatype Event =
    | Moved(pick: Option<nat>)
    | Clicked
    | ColorPicked(color: Hex)
    | TexturePicked(key: string)
    | ImagePicked(file: Option<ImageFile>)
    | ImageDecoded(request: nat)   // the decode at this position of the pending list completed

  datatype Session = Session(state: State, pending: seq<ImageFile>)

  /** Indices are in range, and a decode can only be pending once a part is selected. */
  predicate SessionOk(ss: Session) {
    ss.state.Valid() && (|ss.pending| > 0 ==> ss.state.selected.Some?)
  }

  /** The events the environment can deliver: a pick names a part of the
      model, and a completion names a decode that is in flight. */
  predicate Allowed(ss: Session, e: Event) {
    match e
    case Moved(pick) => pick.Some? ==> pick.value < |ss.state.parts|
    case ImageDecoded(i) => i < |ss.pending|
    case _ => true
  }

  function Step(ss: Session, e: Event): (r: Session)
    requires SessionOk(ss) && Allowed(ss, e)
    ensures SessionOk(r)
    ensures |r.state.parts| == |ss.state.parts|
    ensures ss.state.selected.Some? ==> r.state.selected.Some?
    ensures WellHighlighted(ss.state) ==> WellHighlighted(r.state)
  {
    var s := ss.state;
    match e
    case Moved(pick) =>
      assert WellHighlighted(s) ==> WellHighlighted(PointerMove(s, pick)) by {
        if WellHighlighted(s) { PointerMoveWellHighlighted(s, pick); }
      }
      Session(PointerMove(s, pick), ss.pending)
    case Clicked =>
      assert WellHighlighted(s) ==> WellHighlighted(Click(s)) by {
        if WellHighlighted(s) { ClickWellHighlighted(s); }
      }
      Session(Click(s), ss.pending)
    case ColorPicked(c) =>
      assert WellHighlighted(s) ==> WellHighlighted(ColorInput(s, c)) by {
        if WellHighlighted(s) { ColorInputWellHighlighted(s, c); }
      }
      Session(ColorInput(s, c), ss.pending)
    case TexturePicked(key) =>
      assert WellHighlighted(s) ==> WellHighlighted(TextureChange(s, key)) by {
        if WellHighlighted(s) { TextureChangeWellHighlighted(s, key); }
      }
      Session(TextureChange(s, key), ss.pending)
    case ImagePicked(file) =>
      var u := ImageChange(s, file);
      Session(u.state, if u.outcome.DecodeStarted? then ss.pending + [u.outcome.image] else ss.pending)
    case ImageDecoded(i) =>
      assert WellHighlighted(s) ==> WellHighlighted(DecodeCompleted(s, ss.pending[i])) by {
        if WellHighlighted(s) { DecodeCompletedWellHighlighted(s, ss.pending[i]); }
      }
      Session(DecodeCompleted(s, ss.pending[i]), ss.pending[..i] + ss.pending[i + 1..])
  }

  /** Runs the events in order; None when one of them is not `Allowed`. */
  function Run(ss: Session, events: seq<Event>): (r: Option<Session>)
    requires SessionOk(ss)
    ensures r.Some? ==> SessionOk(r.value)
    ensures r.Some? ==> |r.value.state.parts| == |ss.state.parts|
    ensures r.Some? && ss.state.selected.Some? ==> r.value.state.selected.Some?
    ensures r.Some? && WellHighlighted(ss.state) ==> WellHighlighted(r.value.state)
    decreases |events|
  {
    if events == [] then Some(ss)
    else if !Allowed(ss, events[0]) then None
    else Run(Step(ss, events[0]), events[1..])
  }

  /** The session right after loading a model whose parts are all dark. */
  function Start(parts: seq<Part>, ui: Ui): (ss: Session)
    requires forall i :: 0 <= i < |parts| ==> parts[i].material.emissive == Dark
    ensures SessionOk(ss) && WellHighlighted(ss.state)
    ensures ss.state.parts == parts && ss.pending == []
  {
    InitWellHighlighted(parts, ui);
    Session(Init(parts, ui), [])
  }

  /** Whatever events arrive, no hover glow ever clobbers the selection and
      no stale glow is left behind. */
  lemma EveryRunWellHighlighted(parts: seq<Part>, ui: Ui, events: seq<Event>)
    requires forall i :: 0 <= i < |parts| ==> parts[i].material.emissive == Dark
    requires Run(Start(parts, ui), events).Some?
    ensures WellHighlighted(Run(Start(parts, ui), events).value.state)
  {
  }

  /** One event other than a click, with nothing selected, selects nothing,
      starts no decode and changes no part's colour, map or name. */
  lemma StepWithoutClick(ss: Session, e: Event)
    requires SessionOk(ss) && Allowed(ss, e) && !e.Clicked?
    requires ss.state.selected.None? && ss.pending == []
    ensures Step(ss, e).state.selected.None? && Step(ss, e).pending == []
    ensures LooksKept(ss.state.parts, Step(ss, e).state.parts)
  {
    var s := ss.state;
    match e
    case Moved(pick) =>
    case ColorPicked(c) =>
    case TexturePicked(key) =>
    case ImagePicked(file) =>
      assert ImageChange(s, file).outcome.Warned?;
  }

  /** Without a click nothing is ever selected: no selection glow appears,
      every image pick only raises the warning, no decode is started and no
      part's colour, map or name changes. */
  lemma {:induction false} NoClickNoSelection(ss: Session, events: seq<Event>)
    requires SessionOk(ss)
    requires ss.state.selected.None? && ss.pending == []
    requires forall k :: 0 <= k < |events| ==> !events[k].Clicked?
    requires Run(ss, events).Some?
    ensures Run(ss, events).value.state.selected.None?
    ensures Run(ss, events).value.pending == []
    ensures LooksKept(ss.state.parts, Run(ss, events).value.state.parts)
    decreases |events|
  {
    if events != [] {
      assert Allowed(ss, events[0]);
      var next := Step(ss, events[0]);
      assert Run(ss, events) == Run(next, events[1..]);
      StepWithoutClick(ss, events[0]);
      assert forall k :: 0 <= k < |events[1..]| ==> !events[1..][k].Clicked? by {
        forall k | 0 <= k < |events[1..]| ensures !events[1..][k].Clicked? {
          assert events[1..][k] == events[k + 1];
        }
      }
      NoClickNoSelection(next, events[1..]);
      var last := Run(ss, events).value.state.parts;
      assert LooksKept(ss.state.parts, last) by {
        forall i | 0 <= i < |ss.state.parts| ensures SameLook(ss.state.parts[i], last[i]) {
          assert SameLook(ss.state.parts[i], next.state.parts[i]);
          assert SameLook(next.state.parts[i], last[i]);
        }
      }
    }
  }

  /** The completion of a decode re-reads the selection: an image picked
      while part `a` was selected lands on part `b` when the user hovers and
      clicks `b` before the decode completes, and part `a` keeps its map. */
  lemma DecodeFollowsCurrentSelection(s: State, a: nat, b: nat, image: ImageFile)
    requires s.Valid() && s.selected == Some(a)
    requires b < |s.parts| && a != b
    ensures ImageChange(s, Some(image)).outcome == DecodeStarted(image)
    ensures
      var picked := ImageChange(s, Some(image)).state;
      var reselected := Click(PointerMove(picked, Some(b)));
      && reselected.selected == Some(b)
      && DecodeCompleted(reselected, image).parts[b].material.surface == Uploaded(image)
      && DecodeCompleted(reselected, image).parts[a].material.surface == s.parts[a].material.surface
  {
    var picked := ImageChange(s, Some(image)).state;
    var moved := PointerMove(picked, Some(b));
    assert moved.hovered == Some(b);
    var reselected := Click(moved);
    assert reselected.parts[a].material.surface == s.parts[a].material.surface by {
      assert SameLook(moved.parts[a], reselected.parts[a]);
      assert SameLook(picked.parts[a], moved.parts[a]);
    }
  }
}
