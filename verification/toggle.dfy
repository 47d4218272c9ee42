/** The toggle buttons of the overlay panel: pressing the button of an
    operation turns the overlay on with it, switches to it, or switches it off. */
module Toggle {
  import opened Settings

  /** The settings after a toggle, and whether the overlay operator is started. */
  datatype ToggleOutcome = ToggleOutcome(settings: ObjectSettings, invokesOverlay: bool)

  /** Toggling `op` on one object; an object without an active UV map is skipped. */
  function ToggleOperation(s: ObjectSettings, hasUvLayer: bool, op: Operation): (r: ToggleOutcome)
    ensures !hasUvLayer ==> r == ToggleOutcome(s, false)
    ensures hasUvLayer ==> r.settings.operation == (if s.enabled && s.operation == op then NoOperation else op)
    ensures hasUvLayer ==> (r.invokesOverlay <==> !s.enabled)
    ensures hasUvLayer ==> Consistent(r.settings) && r.settings.recalculate == r.settings.enabled
    ensures r.settings.checkerTexture == s.checkerTexture
  {
    if !hasUvLayer then ToggleOutcome(s, false)
    else if !s.enabled then ToggleOutcome(SetOperation(s, op), true)
    else if s.operation != op then ToggleOutcome(SetOperation(s, op), false)
    else ToggleOutcome(SetOperation(s, NoOperation), false)
  }

  /** Toggling never breaks the agreement between `enabled` and the settings. */
  lemma ToggleKeepsConsistent(s: ObjectSettings, hasUvLayer: bool, op: Operation)
    requires Consistent(s)
    ensures Consistent(ToggleOperation(s, hasUvLayer, op).settings)
  {
  }

  /** Pressing the button of the shown operation twice brings it back, and the
      overlay is on again afterwards. */
  lemma {:induction false} ToggleTwiceRestores(s: ObjectSettings, op: Operation)
    requires Consistent(s) && s.operation == op && op != NoOperation
    ensures ToggleOperation(ToggleOperation(s, true, op).settings, true, op).settings.operation == op
    ensures ToggleOperation(ToggleOperation(s, true, op).settings, true, op).settings.enabled
  {
    var once := ToggleOperation(s, true, op).settings;
    assert once.operation == NoOperation;
    var twice := ToggleOperation(once, true, op).settings;
    assert twice.operation == op;
  }

  /** Pressing the button of another operation while the overlay shows something
      else switches to it and leaves the overlay on; no operator is started. */
  lemma SwitchKeepsOverlayOn(s: ObjectSettings, op: Operation)
    requires Consistent(s) && s.enabled && s.operation != op && op != NoOperation
    ensures ToggleOperation(s, true, op).settings.operation == op
    ensures ToggleOperation(s, true, op).settings.enabled
    ensures !ToggleOperation(s, true, op).invokesOverlay
  {
  }

  /** The button acts on every selected object independently. */
  function ToggleSelected(objects: seq<ObjectSettings>, hasUvLayers: seq<bool>, op: Operation): (r: seq<ToggleOutcome>)
    requires |objects| == |hasUvLayers|
    ensures |r| == |objects|
    ensures forall i :: 0 <= i < |r| ==> r[i] == ToggleOperation(objects[i], hasUvLayers[i], op)
  {
    if |objects| == 0 then []
    else [ToggleOperation(objects[0], hasUvLayers[0], op)] + ToggleSelected(objects[1..], hasUvLayers[1..], op)
  }
}
