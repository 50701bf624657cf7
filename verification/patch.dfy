/**
  The top-level reconciler of `src/patch.js`: `patch` visits a fixed list of
  top-level keys inside one `cy.batch` callback, dispatching `elements`,
  `stylesheet` and every other key to their handlers, then decides whether
  to rerun the layout. `Patch` returns the calls made inside that callback.
 */
module Reconciler {
  import opened JsonValues
  import opened DeepEquality
  import opened Host
  import opened Operations
  import opened ElementPatch

  /** `isDiffAtKey`: whether `diff` reports the values at `key` as changed. */
  function IsDiffAtKey(acc: Accessors, j1: Json, j2: Json, key: string): bool
  {
    acc.diff(acc.atKey(j1, key), acc.atKey(j2, key))
  }

  /** `patchJson`: the instance-wide setter `cy[key]` gets the materialised
      next value; the previous value is not consulted. */
  function PatchJson(acc: Accessors, key: TopKey, v1: Json, v2: Json): (ops: seq<Op>)
    ensures |ops| == 1 && ops[0].Setter? && ops[0].key == key
    ensures ops[0].value == acc.toJson(v2)
  {
    [Setter(key, acc.toJson(v2))]
  }

  /** `patchLayout`: run the layout with the materialised options unless they
      are null or undefined. */
  function PatchLayout(acc: Accessors, l1: Json, l2: Json): (ops: seq<Op>)
    ensures |ops| <= 1 && forall op <- ops :: op.LayoutRun? && !op.options.IsNullish()
    ensures ops == [LayoutRun(acc.toJson(l2))] <==> !acc.toJson(l2).IsNullish()
    ensures ops == [] <==> acc.toJson(l2).IsNullish()
  {
    var layoutOpts := acc.toJson(l2);
    if !layoutOpts.IsNullish() then [LayoutRun(layoutOpts)] else []
  }

  /** `patchStyle`: replace the stylesheet unless the equality oracle finds the
      two deep-equal, or the instance has no style object. */
  function PatchStyle(acc: Accessors, cy: Instance, s1: Json, s2: Json): (ops: seq<Op>)
    ensures |ops| <= 1 && forall op <- ops :: op == StyleFromJson(acc.toJson(s2))
    ensures ops != [] <==> !DeepEqual(s1, s2) && cy.hasStyle
  {
    if DeepEqual(s1, s2) then []
    else if !cy.hasStyle then []
    else [StyleFromJson(acc.toJson(s2))]
  }

  /** The keys whose change is applied through their instance setter by
      `patchJson`: all but `elements` and `stylesheet`. */
  predicate IsSetterKey(k: TopKey)
  {
    k != Elements && k != Stylesheet
  }

  /** What the visit of the previous keys has left: the calls made so far and
      `elementsChanged`. */
  datatype Progress = Progress(ops: seq<Op>, elementsChanged: bool)

  /** The elements handler's result for this pair of descriptions. */
  function ElementsPatch(acc: Accessors, cy: Instance, j1: Json, j2: Json): ElementsResult
  {
    PatchElements(acc, cy, acc.atKey(j1, "elements"), acc.atKey(j2, "elements"))
  }

  /** The calls the visit of one key makes: none when `diff` reports no
      change, otherwise those of the handler the key dispatches to. The
      elements handler's result `er` is computed once by `Patch` and is
      consulted only at the `elements` key, where `patch` calls the handler. */
  function StepOps(acc: Accessors, cy: Instance, j1: Json, j2: Json, er: ElementsResult, key: TopKey): seq<Op>
  {
    var name := Name(key);
    if !IsDiffAtKey(acc, j1, j2, name) then []
    else if key == Elements then er.ops
    else if key == Stylesheet then PatchStyle(acc, cy, acc.atKey(j1, name), acc.atKey(j2, name))
    else PatchJson(acc, key, acc.atKey(j1, name), acc.atKey(j2, name))
  }

  /** The visit of one key: its calls are appended, and `elementsChanged`
      takes the elements handler's `isEdit` when the elements are patched. */
  function PatchKey(acc: Accessors, cy: Instance, j1: Json, j2: Json, er: ElementsResult, key: TopKey, st: Progress): Progress
  {
    var changed :=
      if key == Elements && IsDiffAtKey(acc, j1, j2, Name(key)) then er.isEdit
      else st.elementsChanged;
    Progress(st.ops + StepOps(acc, cy, j1, j2, er, key), changed)
  }

  /** The progress after visiting the first `n` keys of `KeysToPatch`, in order. */
  function PatchKeys(acc: Accessors, cy: Instance, j1: Json, j2: Json, er: ElementsResult, n: nat): Progress
    requires n <= |KeysToPatch|
  {
    if n == 0 then Progress([], false)
    else PatchKey(acc, cy, j1, j2, er, KeysToPatch[n - 1], PatchKeys(acc, cy, j1, j2, er, n - 1))
  }

  /** The layout step after the key loop: `patchLayout` runs only when `diff`
      reports the layout as changed and the elements step added or removed
      something. */
  function LayoutStep(acc: Accessors, j1: Json, j2: Json, elementsChanged: bool): seq<Op>
  {
    if IsDiffAtKey(acc, j1, j2, "layout") && elementsChanged then
      PatchLayout(acc, acc.atKey(j1, "layout"), acc.atKey(j2, "layout"))
    else []
  }

  /** `patch(cy, json1, json2, diff, toJson, get, forEach)`: the calls made
      inside its single `cy.batch` callback, in order. */
  function Patch(acc: Accessors, cy: Instance, j1: Json, j2: Json): seq<Op>
  {
    var st := PatchKeys(acc, cy, j1, j2, ElementsPatch(acc, cy, j1, j2), |KeysToPatch|);
    st.ops + LayoutStep(acc, j1, j2, st.elementsChanged)
  }
}
