/**
  The calls the reconciler makes on the live Cytoscape instance, recorded as
  a trace, and the fixed order `patch.js` promises for them.
 */
module Operations {
  import opened JsonValues

  /** One mutating call on the instance.
      - `Remove(ids)`: `cy.remove(toRm)`, the collection of live elements with these ids;
      - `Add(eles)`: `cy.add(toAdd)`;
      - `Scratch(id, v)`: `cy.getElementById(id).scratch(v)`;
      - `EleJson(id, p)`: `cy.getElementById(id).json(p)`, a partial element patch;
      - `Setter(k, v)`: `cy[Name(k)](v)`, the instance-wide setter for key `k`;
      - `StyleFromJson(v)`: `cy.style().fromJson(v).update()`;
      - `LayoutRun(v)`: `cy.layout(v).run()`. */
  datatype Op =
    | Remove(ids: set<Json>)
    | Add(eles: seq<Json>)
    | Scratch(id: Json, value: Json)
    | EleJson(id: Json, patch: map<string, Json>)
    | Setter(key: TopKey, value: Json)
    | StyleFromJson(style: Json)
    | LayoutRun(options: Json)

  /** The kind of an operation, forgetting its payload (a setter keeps its key). */
  datatype Tag = TRemove | TAdd | TScratch | TEleJson | TSetter(key: TopKey) | TStyle | TLayout

  function TagOf(op: Op): Tag
  {
    match op
    case Remove(_) => TRemove
    case Add(_) => TAdd
    case Scratch(_, _) => TScratch
    case EleJson(_, _) => TEleJson
    case Setter(k, _) => TSetter(k)
    case StyleFromJson(_) => TStyle
    case LayoutRun(_) => TLayout
  }

  /** How many operations of kind `t` a trace holds. */
  function Count(ops: seq<Op>, t: Tag): nat
    decreases |ops|
  {
    if ops == [] then 0
    else Count(ops[..|ops| - 1], t) + (if TagOf(ops[|ops| - 1]) == t then 1 else 0)
  }

  lemma {:induction false} CountAppend(a: seq<Op>, b: seq<Op>, t: Tag)
    ensures Count(a + b, t) == Count(a, t) + Count(b, t)
    decreases |b|
  {
    if b == [] {
      assert a + b == a;
    } else {
      CountAppend(a, b[..|b| - 1], t);
      assert (a + b)[..|a + b| - 1] == a + b[..|b| - 1];
    }
  }

  /** A trace holds an operation of kind `t` iff its count is positive. */
  lemma {:induction false} CountPositive(ops: seq<Op>, t: Tag)
    ensures Count(ops, t) > 0 <==> exists i :: 0 <= i < |ops| && TagOf(ops[i]) == t
    decreases |ops|
  {
    if ops != [] {
      var p := ops[..|ops| - 1];
      CountPositive(p, t);
      if exists i :: 0 <= i < |p| && TagOf(p[i]) == t {
        var i :| 0 <= i < |p| && TagOf(p[i]) == t;
        assert ops[i] == p[i];
      }
      if exists i :: 0 <= i < |ops| && TagOf(ops[i]) == t {
        var i :| 0 <= i < |ops| && TagOf(ops[i]) == t;
        if i < |p| {
          assert p[i] == ops[i];
        }
      }
    }
  }

  /** A trace without operations of kind `t` counts none of them. */
  lemma CountNone(ops: seq<Op>, t: Tag)
    requires forall op <- ops :: TagOf(op) != t
    ensures Count(ops, t) == 0
  {
    CountPositive(ops, t);
  }

  /** A one-call trace counts its call's kind once. */
  lemma CountSingle(op: Op, t: Tag)
    ensures Count([op], t) == if TagOf(op) == t then 1 else 0
  {
    assert [op][..0] == [];
  }

  /** The top-level keys `patch` visits. */
  datatype TopKey =
    | Elements | Stylesheet | Zoom | MinZoom | MaxZoom
    | ZoomingEnabled | UserZoomingEnabled | Pan | PanningEnabled
    | UserPanningEnabled | BoxSelectionEnabled | Autoungrabify
    | Autolock | Autounselectify

  /** The property name of a top-level key, which is also the name of its
      setter on the instance. */
  function Name(k: TopKey): string
  {
    match k
    case Elements => "elements"
    case Stylesheet => "stylesheet"
    case Zoom => "zoom"
    case MinZoom => "minZoom"
    case MaxZoom => "maxZoom"
    case ZoomingEnabled => "zoomingEnabled"
    case UserZoomingEnabled => "userZoomingEnabled"
    case Pan => "pan"
    case PanningEnabled => "panningEnabled"
    case UserPanningEnabled => "userPanningEnabled"
    case BoxSelectionEnabled => "boxSelectionEnabled"
    case Autoungrabify => "autoungrabify"
    case Autolock => "autolock"
    case Autounselectify => "autounselectify"
  }

  /** The order in which `patch` visits the top-level keys. */
  const KeysToPatch: seq<TopKey> := [
    Elements, Stylesheet, Zoom, MinZoom, MaxZoom,
    ZoomingEnabled, UserZoomingEnabled, Pan, PanningEnabled,
    UserPanningEnabled, BoxSelectionEnabled, Autoungrabify,
    Autolock, Autounselectify
  ]

  /** The position of a key in the visiting order, written out key by key. */
  function Position(k: TopKey): (p: nat)
    ensures p < |KeysToPatch| && KeysToPatch[p] == k
  {
    match k
    case Elements => 0
    case Stylesheet => 1
    case Zoom => 2
    case MinZoom => 3
    case MaxZoom => 4
    case ZoomingEnabled => 5
    case UserZoomingEnabled => 6
    case Pan => 7
    case PanningEnabled => 8
    case UserPanningEnabled => 9
    case BoxSelectionEnabled => 10
    case Autoungrabify => 11
    case Autolock => 12
    case Autounselectify => 13
  }

  /** The visiting order lists every key once: the key at index `i` has
      position `i`. */
  lemma PositionOfIndex(i: nat)
    requires i < |KeysToPatch|
    ensures Position(KeysToPatch[i]) == i
  {
  }

  /** Distinct keys have distinct property names. */
  lemma NameInjective(a: TopKey, b: TopKey)
    requires Name(a) == Name(b)
    ensures a == b
  {
  }

  /** The step of one `patch` call an operation belongs to: removal, addition,
      then per-element patches (all under the `elements` key), the stylesheet,
      each setter at its key's position, and the layout run last. */
  function Rank(t: Tag): nat
  {
    match t
    case TRemove => 0
    case TAdd => 1
    case TScratch => 2
    case TEleJson => 2
    case TStyle => 3
    case TSetter(k) => Position(k) + 2
    case TLayout => 16
  }

  /** The trace follows the fixed step order. */
  predicate Ordered(ops: seq<Op>)
  {
    forall i, j | 0 <= i < j < |ops| :: Rank(TagOf(ops[i])) <= Rank(TagOf(ops[j]))
  }

  /** Every operation of the trace is of a step ranked within `[lo, hi]`. */
  predicate RanksWithin(ops: seq<Op>, lo: nat, hi: nat)
  {
    forall i | 0 <= i < |ops| :: lo <= Rank(TagOf(ops[i])) <= hi
  }

  /** Two ordered traces whose steps do not interleave concatenate to an ordered trace. */
  lemma OrderedAppend(a: seq<Op>, b: seq<Op>, mid: nat)
    requires Ordered(a) && Ordered(b)
    requires RanksWithin(a, 0, mid) && RanksWithin(b, mid, 16)
    ensures Ordered(a + b)
  {
    forall i, j | 0 <= i < j < |a + b|
      ensures Rank(TagOf((a + b)[i])) <= Rank(TagOf((a + b)[j]))
    {
      if j < |a| {
        assert (a + b)[i] == a[i] && (a + b)[j] == a[j];
      } else if i >= |a| {
        assert (a + b)[i] == b[i - |a|] && (a + b)[j] == b[j - |a|];
      } else {
        assert (a + b)[i] == a[i] && (a + b)[j] == b[j - |a|];
      }
    }
  }

  /** Rank bounds survive concatenation and widening. */
  lemma RanksAppend(a: seq<Op>, b: seq<Op>, lo: nat, hi: nat, lo': nat, hi': nat)
    requires RanksWithin(a, lo, hi) && RanksWithin(b, lo', hi')
    ensures RanksWithin(a + b, if lo < lo' then lo else lo', if hi < hi' then hi' else hi)
  {
    forall i | 0 <= i < |a + b|
      ensures (if lo < lo' then lo else lo') <= Rank(TagOf((a + b)[i])) <= (if hi < hi' then hi' else hi)
    {
      if i < |a| {
        assert (a + b)[i] == a[i];
      } else {
        assert (a + b)[i] == b[i - |a|];
      }
    }
  }

  /** Appending to a trace keeps its prefix; the suffix after it grows by the appended calls. */
  lemma PrefixKept(a: seq<Op>, b: seq<Op>, e: seq<Op>)
    requires |e| <= |a| && a[..|e|] == e
    ensures |e| <= |a + b| && (a + b)[..|e|] == e && (a + b)[|e|..] == a[|e|..] + b
  {
    assert (a + b)[..|e|] == a[..|e|];
  }
}
