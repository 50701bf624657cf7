/**
  What the reconciler is handed from outside: the injected accessor bundle,
  the `./json` key lookup, and the few facts it reads off the live Cytoscape
  instance. Every accessor is a total, pure function; thrown exceptions are
  not part of the model.
 */
module Host {
  import opened JsonValues
  import opened DeepEquality

  /** The accessor bundle `get`, `toJson`, `diff`, `forEach`, plus `atKey`,
      the top-level lookup `patch.js` imports from `./json`. `forEach(c, fn)`
      applies `fn` to the items of `c` in order, so it is given here as the
      sequence of those items. */
  datatype Accessors = Accessors(
    get: (Json, string) -> Json,
    toJson: Json -> Json,
    diff: (Json, Json) -> bool,
    forEach: Json -> seq<Json>,
    atKey: (Json, string) -> Json)

  /** The live instance as the reconciler's decisions see it, before it
      mutates anything: `has(id)` says `cy.getElementById(id)` is non-empty,
      `hasStyle` says `cy.style()` is not null (it is null when headless). */
  datatype Instance = Instance(has: Json -> bool, hasStyle: bool)

  /** The bundle for plain values: property lookup, identity materialisation,
      the equality oracle as change detector, and array iteration. */
  const Plain: Accessors := Accessors(Child, v => v, DiffPlain, ItemsOf, Child)

  /** With the plain bundle no value differs from itself, because the
      equality oracle is reflexive. */
  lemma PlainDiffIrreflexive()
    ensures forall v :: !Plain.diff(v, v)
  {
    forall v
      ensures !Plain.diff(v, v)
    {
      DeepEqualReflexive(v);
    }
  }

  /** The default change predicate: not deep-equal. */
  function DiffPlain(a: Json, b: Json): bool
  {
    !DeepEqual(a, b)
  }

  /** The items a plain array iterates over; other values have none. */
  function ItemsOf(v: Json): seq<Json>
  {
    if v.JArr? then v.items else []
  }
}
