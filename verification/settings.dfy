/** The per-object overlay settings and the rule that ties `enabled` and
    `recalculate` to the chosen operation and the checker texture. */
module Settings {
  import opened Wrappers

  /** The overlay an object shows; the host enum numbers them 1 to 5. */
  datatype Operation = NoOperation | UvStretching | UvIslands | UvNormals | UvOverlap

  /** How stretching is measured; the host enum numbers them 1 to 3. */
  datatype StretchType = Angles | Area | EdgeLength

  const DefaultOperation: Operation := NoOperation
  const DefaultStretchType: StretchType := Angles

  /** The lowest stretching sensitivity the property accepts, and its default. */
  const MaxDivisionMin: real := 1.01
  const MaxDivisionDefault: real := 2.0

  type MaxDivision = m: real | m >= MaxDivisionMin witness MaxDivisionDefault

  const AllOperations: seq<Operation> := [NoOperation, UvStretching, UvIslands, UvNormals, UvOverlap]

  function OperationNumber(op: Operation): int {
    match op
    case NoOperation => 1
    case UvStretching => 2
    case UvIslands => 3
    case UvNormals => 4
    case UvOverlap => 5
  }

  function OperationFromNumber(n: int): (r: Option<Operation>)
    ensures r.Some? <==> 1 <= n <= 5
    ensures r.Some? ==> OperationNumber(r.value) == n
  {
    if 1 <= n <= 5 then Some(AllOperations[n - 1]) else None
  }

  /** The operation enum has exactly five members, numbered 1..5 without gaps or
      repeats, and the numbering round-trips. */
  lemma OperationEnumIsFive(op: Operation)
    ensures op in AllOperations
    ensures |AllOperations| == 5
    ensures forall i, j :: 0 <= i < j < 5 ==> AllOperations[i] != AllOperations[j]
    ensures 1 <= OperationNumber(op) <= 5
    ensures OperationFromNumber(OperationNumber(op)) == Some(op)
  {
  }

  datatype ObjectSettings = ObjectSettings(
    enabled: bool,
    recalculate: bool,
    overlapRecalculate: bool,
    operation: Operation,
    stretchType: StretchType,
    checkerTexture: bool,
    explosion: bool,
    showWire: bool,
    maxDivision: MaxDivision
  )

  /** The state of a freshly created object: every property at its default. */
  const DefaultSettings: ObjectSettings :=
    ObjectSettings(false, false, false, DefaultOperation, DefaultStretchType, false, false, true, MaxDivisionDefault)

  /** The overlay is on exactly when it has something to draw. */
  predicate WantsOverlay(s: ObjectSettings) {
    s.operation != NoOperation || s.checkerTexture
  }

  /** `enabled` agrees with what the settings ask for. */
  predicate Consistent(s: ObjectSettings) {
    s.enabled == WantsOverlay(s)
  }

  /** The update hook run after a watched property is written. */
  function UpdateFunc(s: ObjectSettings): (r: ObjectSettings)
    ensures r.recalculate == r.enabled
    ensures r.enabled <==> (s.operation != NoOperation || s.checkerTexture)
    ensures Consistent(r)
    ensures r.(enabled := s.enabled, recalculate := s.recalculate) == s
  {
    var value := WantsOverlay(s);
    s.(recalculate := value, enabled := value)
  }

  /** A second run of the hook changes nothing. */
  lemma UpdateFuncIdempotent(s: ObjectSettings)
    ensures UpdateFunc(UpdateFunc(s)) == UpdateFunc(s)
  {
  }

  /** Writing the `operation` property, which runs the update hook. */
  function SetOperation(s: ObjectSettings, op: Operation): (r: ObjectSettings)
    ensures r.operation == op
    ensures Consistent(r) && r.recalculate == r.enabled
    ensures r.checkerTexture == s.checkerTexture
  {
    UpdateFunc(s.(operation := op))
  }
}
