# react-cytoscapejs reconciler, modelled in Dafny

This project models the part of react-cytoscapejs that brings a live
Cytoscape instance from one graph description (the previous component props)
to the next: `patch` and its handlers in `src/patch.js`, and the structural
equality oracle `deepEqual` in `src/deepEqual.js`.

- `JsonValues` (json.dfy): JavaScript values as the reconciler sees them.
  `Json` covers undefined, null, booleans, numbers, strings, arrays, plain
  objects and functions. An array's own keys are the decimal index strings,
  which `Object.keys` and `obj[key]` work on.
- `DeepEquality` (deep_equal.dfy): `deepEqual` and what it decides.
- `Host` (host.dfy): the caller-supplied accessors `get`, `toJson`, `diff`
  and `forEach` as one datatype, `Accessors`. `Plain` is the bundle for plain
  JavaScript values. `Instance` is the part of the live instance that the
  reconciler's decisions read: whether an id names a live element, and whether
  the instance has a style object.
- `Operations` (operations.dfy): the mutating calls on the instance as a
  trace of `Op` values, the top-level keys in visiting order, and the fixed
  step order those calls follow.
- `ElementPatch` (patch_elements.dfy): `patchElements` and `patchElement`.
  Elements are matched by `data.id` into removals, additions and matched
  pairs, and each matched pair is patched field by field.
- `Reconciler` (patch.dfy): `isDiffAtKey`, `patchJson`, `patchLayout`,
  `patchStyle` and `patch`. `Patch` returns the calls made inside its one
  `cy.batch` callback, in order. `IsDiffAtKey` and `Patch` only compute;
  what they promise is stated by the lemmas of `PatchProperties`.
- `PatchProperties` (patch_properties.dfy): what one `patch` call promises.
  This covers call order, one setter call per changed key, the stylesheet and
  layout gates, and no call when nothing changed.
- `Scenarios` (scenarios.dfy): the element edits of the component tests in
  `test/component.js` (adding `d` to the three default elements, removing
  `b`, relabelling `a`), worked through `patchElements`, and one constructed
  call that removes, adds and patches at once.

## Model

| member | source | states |
|---|---|---|
| JsonValues.ParseIndexKey | src/deepEqual.js:10-11 | the key JavaScript gives an array index reads back as that index |
| JsonValues.IndexKeyInjective | src/deepEqual.js:10-11 | distinct array indices have distinct keys |
| JsonValues.IndexKeysCount | src/deepEqual.js:10-16 | an array of n elements has exactly n own keys, so the key-count check compares lengths |
| JsonValues.IndexKeysMember | src/deepEqual.js:10-11 | a key belongs to an n-element array iff it is a canonical decimal index below n |
| JsonValues.ArrayObjectView | src/deepEqual.js:10-25 | an array's `Object.keys` are exactly its index keys, and reading an index key yields the element at that index |
| DeepEquality.FunctionOperandEqual | src/deepEqual.js:3 | a function on either side makes `deepEqual` true, whatever the other operand is |
| DeepEquality.NonObjectIsStrictEquality | src/deepEqual.js:5-7 | with no function operand and a non-object or null operand, `deepEqual` is strict equality; null equals only null |
| DeepEquality.ObjectsEqualIff | src/deepEqual.js:10-31 | two objects are deep-equal iff they have the same key set and deep-equal values at every key |
| DeepEquality.KeyMismatchUnequal | src/deepEqual.js:13-22 | differing key counts, or a key of the first operand that the second lacks, make two objects unequal |
| DeepEquality.DeepEqualReflexive | src/deepEqual.js:1-32 | every value is deep-equal to itself |
| DeepEquality.DeepEqualSymmetric | src/deepEqual.js:1-32 | swapping the operands never changes the answer, although the loop only walks the first operand's keys |
| DeepEquality.ArraysEqualIff | src/deepEqual.js:5-31 | two arrays are deep-equal iff they have the same length and pairwise deep-equal elements |
| DeepEquality.ArrayEqualsIndexedObject | src/deepEqual.js:10-27 | an array and the plain object with the same index keys and values are deep-equal, in either order |
| DeepEquality.NotTransitive | src/deepEqual.js:3 | because of the function short-circuit, `1 ~ f` and `f ~ 2` hold while `1 ~ 2` does not |
| Host.PlainDiffIrreflexive | src/types.js:195-199 | with `diff` as "not deep-equal", no value differs from itself |
| ElementPatch.IdlessElementsCollide | src/patch.js:44-57 | `getId` reads `data.id`; two elements without one both get the undefined id, and the later one overwrites the earlier in the id map |
| ElementPatch.IndexByDistinctIds | src/patch.js:48-57 | when the ids are distinct, every element is found in the id map under its own id |
| ElementPatch.IndexById | src/patch.js:48-57 | the id map has exactly the ids of the list as keys, and each id maps to a list element carrying that id |
| ElementPatch.IndexByIdLastWins | src/patch.js:48-57 | when ids repeat, the map keeps the last element carrying the id |
| ElementPatch.Removals | src/patch.js:54-63 | `toRm` holds the previous ids that the next map lacks and that name a live element |
| ElementPatch.Additions | src/patch.js:66-75 | every next element whose id the previous map lacks is added, materialised, and the list is never longer than the next list |
| ElementPatch.NewPositions | src/patch.js:66-75 | the positions of the next elements whose id is new, strictly increasing, holding a position iff its element's id is new |
| ElementPatch.AdditionsInOrder | src/patch.js:66-75 | for any previous map, the k-th added entry is the materialised next element at the k-th new position, so additions keep next-list order |
| ElementPatch.AdditionsAreNew | src/patch.js:66-75 | every added entry is the materialisation of a next element whose id is new |
| ElementPatch.Matches | src/patch.js:66-75 | every queued pair holds a next element with a known id and the previous element of that id, and every such next element is queued |
| ElementPatch.MatchesAllKnown | src/patch.js:66-75 | when every next id is known, the queued pairs follow the next list one to one, each with the previous element of its id |
| ElementPatch.AdditionsMatchesPartition | src/patch.js:66-75 | each next element is either added or queued for patching, never both |
| ElementPatch.NoAdditionsIff | src/patch.js:66-86 | nothing is added iff every next id is a previous id |
| ElementPatch.AdditionsWithoutPrevious | src/patch.js:54-75 | with no previous elements, the added list is the whole next list materialised, in order |
| ElementPatch.FieldPatch | src/patch.js:113-118 | a field is in the patch iff `diff` reports it changed, and its value is the materialised next value |
| ElementPatch.FieldPatchShape | src/patch.js:113-118 | the patch is non-empty iff some compared field changed |
| ElementPatch.FieldPatchNoScratch | src/patch.js:102-110 | the scratch namespace is never part of the field patch |
| ElementPatch.ScratchCall | src/patch.js:121-124 | one scratch call, with the materialised next scratch, iff `diff` reports the scratch changed |
| ElementPatch.JsonCall | src/patch.js:127-129 | one `json` call, with the field patch, iff some compared field changed |
| ElementPatch.PatchElement | src/patch.js:98-130 | at most two calls, both on the next element's id: the scratch call first, then the field patch, which never holds scratch |
| ElementPatch.PatchElementCalls | src/patch.js:113-129 | the scratch call happens once iff the scratch changed; the field call happens once iff some field changed |
| ElementPatch.UnchangedElementUntouched | src/patch.js:98-130 | an element with no changed field and unchanged scratch gets no call |
| ElementPatch.PatchElementSelf | src/patch.js:98-130 | with a `diff` that finds no value changed from itself, an element patched against itself gets no call |
| ElementPatch.PatchElementSound | src/patch.js:113-129 | a scratch call is made only when the scratch changed, and a field call only when some field changed |
| ElementPatch.PatchElementComplete | src/patch.js:113-129 | a changed scratch gets the scratch call with the materialised next scratch; a changed field gets the field call carrying the field patch |
| ElementPatch.FieldCallOnly | src/patch.js:98-130 | when fields changed and the scratch did not, the element gets exactly one call, the field patch on its id |
| ElementPatch.PatchAll | src/patch.js:88-91 | matched pairs produce only scratch and field calls, at most two per pair |
| ElementPatch.PatchAllSound | src/patch.js:88-91 | every call of the pair loop is one that `patchElement` makes for one of the queued pairs |
| ElementPatch.PatchAllComplete | src/patch.js:88-91 | every call that `patchElement` makes for a queued pair is among the loop's calls |
| ElementPatch.PatchAllIdentical | src/patch.js:88-91 | with a `diff` that finds no value changed from itself, pairs of identical elements produce no call |
| ElementPatch.PatchAllSinglePair | src/patch.js:88-91 | when all pairs but one hold identical elements, the loop's calls are exactly that pair's |
| ElementPatch.RemoveCall | src/patch.js:78-81 | `cy.remove` is called once, with the removed ids, iff that set is non-empty |
| ElementPatch.AddCall | src/patch.js:83-86 | `cy.add` is called once, with the additions, iff some next id is not a previous id |
| ElementPatch.PatchElements | src/patch.js:38-95 | calls come as removal, then addition, then element patches, with the removal and addition payloads stated; `isEdit` holds iff something was removed or a new id appeared |
| ElementPatch.ElementCallsSound | src/patch.js:66-91 | every field call of a `patchElements` trace is the field patch of `eles1Map[id]` against a next element `ele2` with a known id whose fields changed; every scratch call is the materialised scratch of such an `ele2` whose scratch changed |
| ElementPatch.ElementCallsComplete | src/patch.js:66-91 | every next element with a known id gets the field call when a field changed against `eles1Map[id]`, and the scratch call when its scratch changed |
| ElementPatch.UnchangedMatchesUntouched | src/patch.js:66-91 | when no next element with a known id differs from `eles1Map[id]` in a field or the scratch, the trace holds only removals and additions |
| ElementPatch.KeptElementsUntouched | src/patch.js:66-91 | when every next element with a known id is the previous element of that id, no element patch is made |
| ElementPatch.SublistUntouched | src/patch.js:66-91 | when the next list reuses elements of a previous list with distinct ids unchanged, no element patch is made |
| ElementPatch.AppendedElementAdded | src/patch.js:38-95 | appending an element with a new id to a list with distinct ids adds just that element, removes and patches nothing, and is an edit |
| ElementPatch.SplicedElementRemoved | src/patch.js:38-95 | taking a live element out of a list with distinct ids removes just its id, adds and patches nothing, and is an edit |
| ElementPatch.ReplacedElementPatched | src/patch.js:38-95 | replacing one element of a list with distinct ids by another with the same id makes exactly that pair's element patch and is not an edit |
| ElementPatch.PatchElementsCalls | src/patch.js:78-86 | at most one removal and at most one addition, each made exactly when its set is non-empty |
| ElementPatch.RemovalIsSetDifference | src/patch.js:54-63 | when every previous id names a live element, the removed ids are the previous ids minus the next ids |
| ElementPatch.WithoutPreviousAddsAll | src/patch.js:54-86 | a null or undefined previous list removes nothing, adds every next element in order, and is an edit iff the next list is non-empty |
| ElementPatch.SameIdsIsNotEdit | src/patch.js:78-94 | when the previous and next lists carry the same ids, the call is not an edit |
| Reconciler.PatchJson | src/patch.js:11-13 | one setter call for the key, carrying the materialised next value |
| Reconciler.PatchLayout | src/patch.js:16-23 | the layout runs once, with the materialised options, iff those options are not nullish; otherwise no call is made |
| Reconciler.PatchStyle | src/patch.js:26-35 | at most one stylesheet replacement, with the materialised next stylesheet, made iff the stylesheets are not deep-equal and the instance has a style object |
| PatchProperties.PlainDiffAtKey | src/patch.js:7-8 | with the plain bundle, a key differs iff the values read at it are not deep-equal; the answer is symmetric, and a description never differs from itself |
| PatchProperties.HandlerShaped | src/patch.js:38-95 | the elements handler's calls are ordered and are removals, additions and element patches only |
| PatchProperties.StepShape | src/patch.js:156-188 | the calls made for one key are ordered; the elements key's calls rank as element steps, and every other key's calls rank at that key's position |
| PatchProperties.PrefixOrdered | src/patch.js:135-188 | the calls made for the first n keys are in step order and rank below key n |
| PatchProperties.PatchOrdered | src/patch.js:133-195 | the calls of `patch` follow the fixed order: removal, addition, element patches, stylesheet, setters in key order, layout run |
| PatchProperties.StepSetters | src/patch.js:158-186 | the visit of a key makes a setter call only for itself, only when it is a setter key reported changed, and then with the materialised next value |
| PatchProperties.PrefixSetterCount | src/patch.js:135-188 | after the first n keys, each setter key among them that changed has exactly one setter call, and no other key has any |
| PatchProperties.PrefixSetterValues | src/patch.js:156-188 | each setter call in the key loop is for a changed setter key and carries its materialised next value |
| PatchProperties.PatchSetters | src/patch.js:133-195 | every setter key reported changed gets exactly one setter call with its next value; `elements`, `stylesheet` and unchanged keys get none |
| PatchProperties.PrefixElementsChanged | src/patch.js:152-173 | `elementsChanged` becomes true only through the elements key, and then equals the handler's `isEdit` |
| PatchProperties.PrefixElementsFirst | src/patch.js:156-188 | the elements key's calls come first in the loop, and every later call belongs to a later step |
| PatchProperties.PatchElementsFirst | src/patch.js:133-195 | a `patch` trace starts with exactly the elements handler's calls when the elements changed, and nothing after them is an element call |
| PatchProperties.StepStyle | src/patch.js:174-182 | only the stylesheet key replaces the stylesheet, once, when the swap conditions hold, with the next stylesheet |
| PatchProperties.PrefixStyle | src/patch.js:156-188 | after the first n keys, there is one stylesheet replacement iff the stylesheet key is among them and the swap conditions hold |
| PatchProperties.PatchStyleGate | src/patch.js:26-35 | `patch` replaces the stylesheet at most once: exactly when `diff` reports a change, `deepEqual` disagrees and the instance has a style object |
| PatchProperties.NoLayoutInKeyLoop | src/patch.js:156-188 | the key loop never runs the layout |
| PatchProperties.LayoutStepCount | src/patch.js:16-23 | the layout step runs the layout once iff the layout changed, the elements were edited and the options are not nullish |
| PatchProperties.PatchLayoutGate | src/patch.js:191-193 | `patch` runs the layout at most once: exactly when the layout changed, the elements handler reported an edit, and the options are not nullish |
| PatchProperties.PatchLayoutOptions | src/patch.js:16-23 | the layout, when run, gets the materialised next options |
| PatchProperties.PrefixNoChange | src/patch.js:156-188 | with no key reported changed, the key loop makes no call and leaves `elementsChanged` false |
| PatchProperties.NothingChangedNoCalls | src/patch.js:133-195 | when no visited key is reported changed, `patch` makes no call, whatever `diff` says about the layout |
| PatchProperties.PatchIdempotent | src/patch.js:133-195 | with a `diff` that finds no value changed from itself, patching a description onto itself makes no call |
| PatchProperties.PlainPatchIdempotent | src/patch.js:133-195 | with the plain bundle, patching a description onto itself makes no call |
| PatchProperties.PrefixSingleSetter | src/patch.js:156-188 | when only one setter key changed, the key loop makes just that key's setter call, once the key is reached |
| PatchProperties.OnlySetterKeyChanged | src/patch.js:133-195 | when only one setter key changed, `patch` makes exactly one call: that key's setter with its next value |
| PatchProperties.ZoomChangeSetsZoomOnly | test/component.js:143-149 | going from `{zoom: 1}` to `{zoom: 2}` calls the zoom setter once, with 2, and nothing else |
| Scenarios.AddsAnElement | test/component.js:113-127 | pushing `d: date` onto the three default elements makes one call, adding just `d`, and reports an edit |
| Scenarios.RemovesAnElement | test/component.js:129-141 | splicing `b` out of the default elements makes one call, removing just id `b`, and reports an edit |
| Scenarios.ModifiesElementData | test/component.js:285-296 | relabelling `a` as apricot makes one call, the field patch of `a` holding only its new `data`, and is not an edit |
| Scenarios.RelabelPatch | test/component.js:285-296 | a default element whose label changes gets only a field patch of its `data`, with no scratch call |
| Scenarios.SplitNext | src/patch.js:66-75 | of `[a: apricot, c: cherry]` against `[a: apple, b: banana]`, only the cherry is added and the apricot is paired with the apple |
| Scenarios.RelabelledFieldPatch | src/patch.js:113-118 | relabelling a node yields a field patch holding only its new `data` |
| Scenarios.ApricotPatch | src/patch.js:98-130 | the relabelled node gets only its field patch, with no scratch call |
| Scenarios.BananaRemoved | src/patch.js:54-63 | only the banana's id is removed |
| Scenarios.ApricotCherry | src/patch.js:38-95 | the whole element step is: remove `b`, add the cherry, patch `a`'s data; it reports an edit |

## Left out

- Cytoscape's own behaviour (`cy.add`, `cy.remove`, `merge`, `json`, `scratch`, the setters and `layout().run()`) is not modelled. `patch` is modelled as the trace of calls it makes, so no property says that the instance ends up matching the next description.
- The live instance appears only through `has(id)` (whether `cy.getElementById(id)` is non-empty) and `hasStyle` (whether `cy.style()` is non-null). The instance mutations made earlier in the same batch do not feed back into these reads.
- `cy.batch` and exceptions are left out. A handler that throws would end the batch early; here every call succeeds.
- Numbers are integers. Floating point, NaN (where `NaN === NaN` is false) and cyclic values are not modelled; `deepEqual` on a cyclic value does not terminate in the source.
- JavaScript turns every element id into a property-key string when it indexes `eles1Map` and `eles2Map`. The model keys the maps by the id value itself, so ids that only collide after that conversion (the number 1 and the string "1") are treated as distinct.
- `get`, `toJson`, `diff` and `forEach` are parameters, as in the source. Only the plain bundle is instantiated; the Immutable.js bundle that the component can be given is not part of this model.
- `atKey` (from `src/json.js`, which is not part of this model) is a parameter of the bundle.
- `styleChanged` in `patch` is assigned but never read, so it is not modelled.
- `Patch` computes the elements handler's result before the key loop and uses it only when the elements key is visited. That is the same result, because the handler is a pure function of its inputs here.
- Component lifecycle (`src/component.js`), prop types and the element normalisation done before `patch` are left out.
- A missing previous description gets no special case: `diff` on the values read from it decides whether a key changed.
- The top-level keys are compared with `diff(old, new)`, and element fields with `diff(new, old)`, as the code does. For a symmetric `diff`, such as the plain one (see `DeepEquality.DeepEqualSymmetric`), the order makes no difference.
