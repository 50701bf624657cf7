/**
  What one `patch` call promises about the calls it makes: the fixed order of
  the steps, exactly one setter call per changed key, the gates in front of
  the stylesheet swap and the layout run, and no call at all when nothing
  changed.

  The key loop is reasoned about for an arbitrary elements result `er` that
  keeps the elements handler's contract (`ElementsShaped`); the lemmas about
  `Patch` itself plug in the handler's actual result.
 */
module PatchProperties {
  import opened JsonValues
  import opened DeepEquality
  import opened Host
  import opened Operations
  import opened ElementPatch
  import opened Reconciler

  /** What the elements handler's contract promises about its calls: they are
      in step order and are removals, additions and per-element patches only. */
  predicate ElementsShaped(er: ElementsResult)
  {
    && Ordered(er.ops)
    && forall op <- er.ops :: op.Remove? || op.Add? || op.Scratch? || op.EleJson?
  }

  /** The result of `patchElements` keeps that contract. */
  lemma HandlerShaped(acc: Accessors, cy: Instance, j1: Json, j2: Json)
    ensures ElementsShaped(ElementsPatch(acc, cy, j1, j2))
  {
  }

  /** Visiting key `n - 1` appends its step's calls to those made before. */
  lemma PatchKeysStep(acc: Accessors, cy: Instance, j1: Json, j2: Json, er: ElementsResult, n: nat)
    requires 0 < n <= |KeysToPatch|
    ensures PatchKeys(acc, cy, j1, j2, er, n).ops
         == PatchKeys(acc, cy, j1, j2, er, n - 1).ops + StepOps(acc, cy, j1, j2, er, KeysToPatch[n - 1])
  {
  }

  /** The `patch` trace is the key loop's calls followed by the layout step's. */
  lemma PatchSplit(acc: Accessors, cy: Instance, j1: Json, j2: Json)
    ensures var st := PatchKeys(acc, cy, j1, j2, ElementsPatch(acc, cy, j1, j2), |KeysToPatch|);
            Patch(acc, cy, j1, j2) == st.ops + LayoutStep(acc, j1, j2, st.elementsChanged)
  {
  }

  // ---------------------------------------------------------------- order

  /** The calls of the visit of key `k` sit at rank `Position(k) + 2`, except
      that the elements step spans removal, addition and per-element ranks. */
  lemma StepShape(acc: Accessors, cy: Instance, j1: Json, j2: Json, er: ElementsResult, k: TopKey)
    requires ElementsShaped(er)
    ensures Ordered(StepOps(acc, cy, j1, j2, er, k))
    ensures k == Elements ==> RanksWithin(StepOps(acc, cy, j1, j2, er, k), 0, 2)
    ensures k != Elements ==> RanksWithin(StepOps(acc, cy, j1, j2, er, k), Position(k) + 2, Position(k) + 2)
  {
    var ops := StepOps(acc, cy, j1, j2, er, k);
    if k == Elements {
      assert ops == [] || ops == er.ops;
      ElementRanks(ops);
    } else {
      assert |ops| <= 1 && forall op <- ops :: Rank(TagOf(op)) == Position(k) + 2;
      SingleCallRanks(ops, Position(k) + 2);
    }
  }

  /** Removals, additions and per-element patches rank within `[0, 2]`. */
  lemma ElementRanks(ops: seq<Op>)
    requires forall op <- ops :: op.Remove? || op.Add? || op.Scratch? || op.EleJson?
    ensures RanksWithin(ops, 0, 2)
  {
    assert forall j | 0 <= j < |ops| :: ops[j] in ops;
  }

  /** A trace of at most one call, of rank `r`, is ordered and ranks at `r`. */
  lemma SingleCallRanks(ops: seq<Op>, r: nat)
    requires |ops| <= 1 && forall op <- ops :: Rank(TagOf(op)) == r
    ensures Ordered(ops) && RanksWithin(ops, r, r)
  {
    assert forall j | 0 <= j < |ops| :: ops[j] in ops;
  }

  /** The calls made while visiting the first `n` keys are in step order and
      below the rank of key `n`. */
  lemma {:induction false} PrefixOrdered(acc: Accessors, cy: Instance, j1: Json, j2: Json, er: ElementsResult, n: nat)
    requires ElementsShaped(er)
    requires n <= |KeysToPatch|
    ensures Ordered(PatchKeys(acc, cy, j1, j2, er, n).ops)
    ensures RanksWithin(PatchKeys(acc, cy, j1, j2, er, n).ops, 0, n + 1)
  {
    if n > 0 {
      var k := KeysToPatch[n - 1];
      PrefixOrdered(acc, cy, j1, j2, er, n - 1);
      StepShape(acc, cy, j1, j2, er, k);
      PatchKeysStep(acc, cy, j1, j2, er, n);
      var before := PatchKeys(acc, cy, j1, j2, er, n - 1).ops;
      var step := StepOps(acc, cy, j1, j2, er, k);
      if n == 1 {
        assert before == [] && before + step == step;
      } else {
        PositionOfIndex(n - 1);
        OrderedAppend(before, step, n + 1);
        RanksAppend(before, step, 0, n, n + 1, n + 1);
      }
    }
  }

  /** The layout step only runs the layout, the last step. */
  lemma LayoutStepRank(acc: Accessors, j1: Json, j2: Json, changed: bool)
    ensures RanksWithin(LayoutStep(acc, j1, j2, changed), 16, 16)
  {
    var layout := LayoutStep(acc, j1, j2, changed);
    assert forall j | 0 <= j < |layout| :: layout[j] in layout;
  }

  /** The calls of `patch` follow the fixed step order: removal, addition,
      per-element patches, the stylesheet, the setters in key order, and the
      layout run last. */
  lemma PatchOrdered(acc: Accessors, cy: Instance, j1: Json, j2: Json)
    ensures Ordered(Patch(acc, cy, j1, j2))
  {
    var er := ElementsPatch(acc, cy, j1, j2);
    var st := PatchKeys(acc, cy, j1, j2, er, |KeysToPatch|);
    var layout := LayoutStep(acc, j1, j2, st.elementsChanged);
    PatchSplit(acc, cy, j1, j2);
    HandlerShaped(acc, cy, j1, j2);
    PrefixOrdered(acc, cy, j1, j2, er, |KeysToPatch|);
    LayoutStepRank(acc, j1, j2, st.elementsChanged);
    OrderedAppend(st.ops, layout, 16);
  }

  // -------------------------------------------------------------- setters

  /** The visit of a setter key reported as changed makes exactly that key's
      setter call, with the materialised next value. */
  lemma StepSetterCall(acc: Accessors, cy: Instance, j1: Json, j2: Json, er: ElementsResult, k: TopKey)
    requires IsSetterKey(k) && IsDiffAtKey(acc, j1, j2, Name(k))
    ensures StepOps(acc, cy, j1, j2, er, k) == [Setter(k, acc.toJson(acc.atKey(j2, Name(k))))]
  {
  }

  /** The visit of `elements`, of `stylesheet` or of an unchanged key makes
      no setter call. */
  lemma StepNoSetter(acc: Accessors, cy: Instance, j1: Json, j2: Json, er: ElementsResult, k: TopKey)
    requires ElementsShaped(er)
    requires !(IsSetterKey(k) && IsDiffAtKey(acc, j1, j2, Name(k)))
    ensures forall op <- StepOps(acc, cy, j1, j2, er, k) :: !op.Setter?
  {
  }

  /** The setter calls the visit of key `k` makes: one, for `k` itself, when
      it is a setter key reported as changed; none otherwise. */
  lemma StepSetters(acc: Accessors, cy: Instance, j1: Json, j2: Json, er: ElementsResult, k: TopKey, s: TopKey)
    requires ElementsShaped(er)
    ensures Count(StepOps(acc, cy, j1, j2, er, k), TSetter(s))
         == if k == s && IsSetterKey(s) && IsDiffAtKey(acc, j1, j2, Name(s)) then 1 else 0
    ensures forall op <- StepOps(acc, cy, j1, j2, er, k) :: op.Setter? ==>
              && op.key == k && IsSetterKey(k) && IsDiffAtKey(acc, j1, j2, Name(k))
              && op.value == acc.toJson(acc.atKey(j2, Name(k)))
  {
    var ops := StepOps(acc, cy, j1, j2, er, k);
    if IsSetterKey(k) && IsDiffAtKey(acc, j1, j2, Name(k)) {
      var call := Setter(k, acc.toJson(acc.atKey(j2, Name(k))));
      StepSetterCall(acc, cy, j1, j2, er, k);
      CountSingle(call, TSetter(s));
    } else {
      StepNoSetter(acc, cy, j1, j2, er, k);
      CountNone(ops, TSetter(s));
    }
  }

  /** One step of `PrefixSetterCount`: visiting the key at position `n - 1`
      adds a setter call for `s` iff that key is `s`. */
  lemma SetterCountStep(acc: Accessors, cy: Instance, j1: Json, j2: Json, er: ElementsResult, o: TopKey, n: nat, s: TopKey, before: seq<Op>)
    requires ElementsShaped(er)
    requires Position(o) == n - 1
    requires Count(before, TSetter(s))
          == if Position(s) < n - 1 && IsSetterKey(s) && IsDiffAtKey(acc, j1, j2, Name(s)) then 1 else 0
    ensures Count(before + StepOps(acc, cy, j1, j2, er, o), TSetter(s))
         == if Position(s) < n && IsSetterKey(s) && IsDiffAtKey(acc, j1, j2, Name(s)) then 1 else 0
  {
    StepSetters(acc, cy, j1, j2, er, o, s);
    CountAppend(before, StepOps(acc, cy, j1, j2, er, o), TSetter(s));
  }

  /** Setter calls after visiting the first `n` keys: one per changed setter
      key among them, none for any other key. */
  lemma {:induction false} PrefixSetterCount(acc: Accessors, cy: Instance, j1: Json, j2: Json, er: ElementsResult, n: nat, s: TopKey)
    requires ElementsShaped(er)
    requires n <= |KeysToPatch|
    ensures Count(PatchKeys(acc, cy, j1, j2, er, n).ops, TSetter(s))
         == if Position(s) < n && IsSetterKey(s) && IsDiffAtKey(acc, j1, j2, Name(s)) then 1 else 0
  {
    if n > 0 {
      PrefixSetterCount(acc, cy, j1, j2, er, n - 1, s);
      PositionOfIndex(n - 1);
      PatchKeysStep(acc, cy, j1, j2, er, n);
      SetterCountStep(acc, cy, j1, j2, er, KeysToPatch[n - 1], n, s, PatchKeys(acc, cy, j1, j2, er, n - 1).ops);
    }
  }

  /** Each setter call made while visiting the first `n` keys is for one of
      them and carries the materialised next value. */
  lemma {:induction false} PrefixSetterValues(acc: Accessors, cy: Instance, j1: Json, j2: Json, er: ElementsResult, n: nat)
    requires ElementsShaped(er)
    requires n <= |KeysToPatch|
    ensures forall op <- PatchKeys(acc, cy, j1, j2, er, n).ops :: op.Setter? ==>
              && IsSetterKey(op.key) && IsDiffAtKey(acc, j1, j2, Name(op.key))
              && op.value == acc.toJson(acc.atKey(j2, Name(op.key)))
  {
    if n > 0 {
      var k := KeysToPatch[n - 1];
      PrefixSetterValues(acc, cy, j1, j2, er, n - 1);
      StepSetters(acc, cy, j1, j2, er, k, k);
      PatchKeysStep(acc, cy, j1, j2, er, n);
      var before := PatchKeys(acc, cy, j1, j2, er, n - 1).ops;
      var step := StepOps(acc, cy, j1, j2, er, k);
      assert forall op <- before + step :: op in before || op in step;
    }
  }

  /** The layout step makes no call but the layout run. */
  lemma LayoutStepOnlyLayout(acc: Accessors, j1: Json, j2: Json, changed: bool, t: Tag)
    requires t != TLayout
    ensures forall op <- LayoutStep(acc, j1, j2, changed) :: op.LayoutRun?
    ensures Count(LayoutStep(acc, j1, j2, changed), t) == 0
  {
    CountNone(LayoutStep(acc, j1, j2, changed), t);
  }

  /** Every setter key reported as changed gets exactly one setter call, with
      the materialised next value; `elements`, `stylesheet` and unchanged
      keys get none. */
  lemma PatchSetters(acc: Accessors, cy: Instance, j1: Json, j2: Json, k: TopKey)
    ensures Count(Patch(acc, cy, j1, j2), TSetter(k))
         == if IsSetterKey(k) && IsDiffAtKey(acc, j1, j2, Name(k)) then 1 else 0
    ensures forall op <- Patch(acc, cy, j1, j2) :: op.Setter? ==>
              && IsSetterKey(op.key) && IsDiffAtKey(acc, j1, j2, Name(op.key))
              && op.value == acc.toJson(acc.atKey(j2, Name(op.key)))
  {
    var er := ElementsPatch(acc, cy, j1, j2);
    var st := PatchKeys(acc, cy, j1, j2, er, |KeysToPatch|);
    var layout := LayoutStep(acc, j1, j2, st.elementsChanged);
    PatchSplit(acc, cy, j1, j2);
    assert Count(st.ops, TSetter(k)) == if IsSetterKey(k) && IsDiffAtKey(acc, j1, j2, Name(k)) then 1 else 0 by {
      HandlerShaped(acc, cy, j1, j2);
      PrefixSetterCount(acc, cy, j1, j2, er, |KeysToPatch|, k);
    }
    assert forall op <- st.ops :: op.Setter? ==>
             && IsSetterKey(op.key) && IsDiffAtKey(acc, j1, j2, Name(op.key))
             && op.value == acc.toJson(acc.atKey(j2, Name(op.key))) by {
      HandlerShaped(acc, cy, j1, j2);
      PrefixSetterValues(acc, cy, j1, j2, er, |KeysToPatch|);
    }
    LayoutStepOnlyLayout(acc, j1, j2, st.elementsChanged, TSetter(k));
    SettersBeforeLayout(st.ops, layout, k);
  }

  /** Appending layout runs adds no setter call. */
  lemma SettersBeforeLayout(ops: seq<Op>, layout: seq<Op>, k: TopKey)
    requires forall op <- layout :: op.LayoutRun?
    ensures Count(ops + layout, TSetter(k)) == Count(ops, TSetter(k))
    ensures forall op <- ops + layout :: op.Setter? ==> op in ops
  {
    CountAppend(ops, layout, TSetter(k));
    CountNone(layout, TSetter(k));
    assert forall op <- ops + layout :: op in ops || op in layout;
  }

  // ------------------------------------------------------------- elements

  /** Only the elements step sets `elementsChanged`, to its handler's `isEdit`. */
  lemma {:induction false} PrefixElementsChanged(acc: Accessors, cy: Instance, j1: Json, j2: Json, er: ElementsResult, n: nat)
    requires n <= |KeysToPatch|
    ensures PatchKeys(acc, cy, j1, j2, er, n).elementsChanged
        <==> n > 0 && IsDiffAtKey(acc, j1, j2, "elements") && er.isEdit
  {
    if n > 1 {
      PrefixElementsChanged(acc, cy, j1, j2, er, n - 1);
      PositionOfIndex(n - 1);
    }
  }

  /** The calls of the first `n` steps: those of the elements step, then calls
      ranked after it. */
  lemma {:induction false} PrefixElementsFirst(acc: Accessors, cy: Instance, j1: Json, j2: Json, er: ElementsResult, n: nat, e: seq<Op>)
    requires ElementsShaped(er)
    requires 0 < n <= |KeysToPatch|
    requires e == StepOps(acc, cy, j1, j2, er, Elements)
    ensures |e| <= |PatchKeys(acc, cy, j1, j2, er, n).ops|
    ensures PatchKeys(acc, cy, j1, j2, er, n).ops[..|e|] == e
    ensures RanksWithin(PatchKeys(acc, cy, j1, j2, er, n).ops[|e|..], 3, n + 1)
  {
    PatchKeysStep(acc, cy, j1, j2, er, n);
    if n == 1 {
      assert PatchKeys(acc, cy, j1, j2, er, 0).ops == [];
      assert PatchKeys(acc, cy, j1, j2, er, 1).ops == e;
    } else {
      var k := KeysToPatch[n - 1];
      PositionOfIndex(n - 1);
      PrefixElementsFirst(acc, cy, j1, j2, er, n - 1, e);
      StepShape(acc, cy, j1, j2, er, k);
      var before := PatchKeys(acc, cy, j1, j2, er, n - 1).ops;
      var step := StepOps(acc, cy, j1, j2, er, k);
      PrefixKept(before, step, e);
      RanksAppend(before[|e|..], step, 3, n, n + 1, n + 1);
    }
  }

  /** The element calls come first: the trace starts with exactly the calls of
      `patchElements` when `diff` reports the elements as changed (none
      otherwise), and every later call belongs to a later step (rank 3 and
      up: no removal, addition or element patch). */
  lemma PatchElementsFirst(acc: Accessors, cy: Instance, j1: Json, j2: Json)
    ensures var e := if IsDiffAtKey(acc, j1, j2, "elements") then ElementsPatch(acc, cy, j1, j2).ops else [];
            var ops := Patch(acc, cy, j1, j2);
            |e| <= |ops| && ops[..|e|] == e && RanksWithin(ops[|e|..], 3, 16)
  {
    var er := ElementsPatch(acc, cy, j1, j2);
    var e := StepOps(acc, cy, j1, j2, er, Elements);
    var st := PatchKeys(acc, cy, j1, j2, er, |KeysToPatch|);
    var layout := LayoutStep(acc, j1, j2, st.elementsChanged);
    PatchSplit(acc, cy, j1, j2);
    HandlerShaped(acc, cy, j1, j2);
    PrefixElementsFirst(acc, cy, j1, j2, er, |KeysToPatch|, e);
    LayoutStepRank(acc, j1, j2, st.elementsChanged);
    PrefixKept(st.ops, layout, e);
    RanksAppend(st.ops[|e|..], layout, 3, |KeysToPatch| + 1, 16, 16);
  }

  // ----------------------------------------------------------- stylesheet

  /** Whether the stylesheet step replaces the stylesheet. */
  predicate StyleSwapped(acc: Accessors, cy: Instance, j1: Json, j2: Json)
  {
    && IsDiffAtKey(acc, j1, j2, "stylesheet")
    && !DeepEqual(acc.atKey(j1, "stylesheet"), acc.atKey(j2, "stylesheet"))
    && cy.hasStyle
  }

  /** The stylesheet calls of the visit of key `k`: only the stylesheet step
      makes one, once, when `StyleSwapped` holds. */
  lemma StepStyle(acc: Accessors, cy: Instance, j1: Json, j2: Json, er: ElementsResult, k: TopKey)
    requires ElementsShaped(er)
    ensures Count(StepOps(acc, cy, j1, j2, er, k), TStyle)
         == if k == Stylesheet && StyleSwapped(acc, cy, j1, j2) then 1 else 0
    ensures forall op <- StepOps(acc, cy, j1, j2, er, k) :: op.StyleFromJson? ==>
              op.style == acc.toJson(acc.atKey(j2, "stylesheet"))
  {
    var ops := StepOps(acc, cy, j1, j2, er, k);
    if k == Stylesheet && ops != [] {
      assert ops == [StyleFromJson(acc.toJson(acc.atKey(j2, "stylesheet")))];
      CountSingle(ops[0], TStyle);
    } else if k != Stylesheet {
      CountNone(ops, TStyle);
    }
  }

  /** One step of `PrefixStyle`: visiting the key `o` at position `n - 1`. */
  lemma StyleStep(acc: Accessors, cy: Instance, j1: Json, j2: Json, er: ElementsResult, o: TopKey, n: nat, before: seq<Op>)
    requires ElementsShaped(er)
    requires Position(o) == n - 1
    requires Count(before, TStyle) == if n - 1 > 1 && StyleSwapped(acc, cy, j1, j2) then 1 else 0
    requires forall op <- before :: op.StyleFromJson? ==> op.style == acc.toJson(acc.atKey(j2, "stylesheet"))
    ensures Count(before + StepOps(acc, cy, j1, j2, er, o), TStyle)
         == if n > 1 && StyleSwapped(acc, cy, j1, j2) then 1 else 0
    ensures forall op <- before + StepOps(acc, cy, j1, j2, er, o) :: op.StyleFromJson? ==>
              op.style == acc.toJson(acc.atKey(j2, "stylesheet"))
  {
    var step := StepOps(acc, cy, j1, j2, er, o);
    StepStyle(acc, cy, j1, j2, er, o);
    CountAppend(before, step, TStyle);
    assert forall op <- before + step :: op in before || op in step;
  }

  /** The stylesheet calls after visiting the first `n` keys: one, once the
      stylesheet key is among them and `StyleSwapped` holds. */
  lemma {:induction false} PrefixStyle(acc: Accessors, cy: Instance, j1: Json, j2: Json, er: ElementsResult, n: nat)
    requires ElementsShaped(er)
    requires n <= |KeysToPatch|
    ensures Count(PatchKeys(acc, cy, j1, j2, er, n).ops, TStyle)
         == if n > 1 && StyleSwapped(acc, cy, j1, j2) then 1 else 0
    ensures forall op <- PatchKeys(acc, cy, j1, j2, er, n).ops :: op.StyleFromJson? ==>
              op.style == acc.toJson(acc.atKey(j2, "stylesheet"))
  {
    if n > 0 {
      PrefixStyle(acc, cy, j1, j2, er, n - 1);
      PositionOfIndex(n - 1);
      PatchKeysStep(acc, cy, j1, j2, er, n);
      StyleStep(acc, cy, j1, j2, er, KeysToPatch[n - 1], n, PatchKeys(acc, cy, j1, j2, er, n - 1).ops);
    }
  }

  /** The stylesheet is replaced at most once per `patch`: exactly when `diff`
      reports it changed, the equality oracle finds the old and new
      stylesheets unequal, and the instance has a style object; the
      replacement is the materialised new stylesheet. */
  lemma PatchStyleGate(acc: Accessors, cy: Instance, j1: Json, j2: Json)
    ensures Count(Patch(acc, cy, j1, j2), TStyle)
         == if && IsDiffAtKey(acc, j1, j2, "stylesheet")
               && !DeepEqual(acc.atKey(j1, "stylesheet"), acc.atKey(j2, "stylesheet"))
               && cy.hasStyle
            then 1 else 0
    ensures forall op <- Patch(acc, cy, j1, j2) :: op.StyleFromJson? ==>
              op.style == acc.toJson(acc.atKey(j2, "stylesheet"))
  {
    var er := ElementsPatch(acc, cy, j1, j2);
    var st := PatchKeys(acc, cy, j1, j2, er, |KeysToPatch|);
    var layout := LayoutStep(acc, j1, j2, st.elementsChanged);
    PatchSplit(acc, cy, j1, j2);
    HandlerShaped(acc, cy, j1, j2);
    PrefixStyle(acc, cy, j1, j2, er, |KeysToPatch|);
    LayoutStepOnlyLayout(acc, j1, j2, st.elementsChanged, TStyle);
    CountAppend(st.ops, layout, TStyle);
    assert forall op <- st.ops + layout :: op in st.ops || op in layout;
  }

  // --------------------------------------------------------------- layout

  /** The key loop never runs the layout. */
  lemma NoLayoutInKeyLoop(acc: Accessors, cy: Instance, j1: Json, j2: Json, er: ElementsResult)
    requires ElementsShaped(er)
    ensures forall op <- PatchKeys(acc, cy, j1, j2, er, |KeysToPatch|).ops :: !op.LayoutRun?
    ensures Count(PatchKeys(acc, cy, j1, j2, er, |KeysToPatch|).ops, TLayout) == 0
  {
    PrefixOrdered(acc, cy, j1, j2, er, |KeysToPatch|);
    RankedBelowLayout(PatchKeys(acc, cy, j1, j2, er, |KeysToPatch|).ops);
  }

  /** A trace ranked below the layout step holds no layout run. */
  lemma RankedBelowLayout(ops: seq<Op>)
    requires RanksWithin(ops, 0, 15)
    ensures forall op <- ops :: !op.LayoutRun?
    ensures Count(ops, TLayout) == 0
  {
    forall op <- ops
      ensures !op.LayoutRun?
    {
      var i :| 0 <= i < |ops| && ops[i] == op;
      assert Rank(TagOf(ops[i])) <= 15;
    }
    CountNone(ops, TLayout);
  }

  /** The layout step runs the layout once, with the materialised options,
      when its three conditions hold, and makes no call otherwise. */
  lemma LayoutStepCount(acc: Accessors, j1: Json, j2: Json, changed: bool)
    ensures Count(LayoutStep(acc, j1, j2, changed), TLayout)
         == if IsDiffAtKey(acc, j1, j2, "layout") && changed && !acc.toJson(acc.atKey(j2, "layout")).IsNullish()
            then 1 else 0
    ensures forall op <- LayoutStep(acc, j1, j2, changed) :: op == LayoutRun(acc.toJson(acc.atKey(j2, "layout")))
  {
    var layout := LayoutStep(acc, j1, j2, changed);
    if layout != [] {
      assert layout == [LayoutRun(acc.toJson(acc.atKey(j2, "layout")))];
      CountSingle(layout[0], TLayout);
    }
  }

  /** The layout runs at most once per `patch`: exactly when `diff` reports the
      layout changed, the elements step ran and added or removed something,
      and the materialised layout options are not null or undefined. */
  lemma PatchLayoutGate(acc: Accessors, cy: Instance, j1: Json, j2: Json)
    ensures Count(Patch(acc, cy, j1, j2), TLayout)
         == if && IsDiffAtKey(acc, j1, j2, "layout")
               && IsDiffAtKey(acc, j1, j2, "elements") && ElementsPatch(acc, cy, j1, j2).isEdit
               && !acc.toJson(acc.atKey(j2, "layout")).IsNullish()
            then 1 else 0
  {
    var er := ElementsPatch(acc, cy, j1, j2);
    var st := PatchKeys(acc, cy, j1, j2, er, |KeysToPatch|);
    var layout := LayoutStep(acc, j1, j2, st.elementsChanged);
    assert Count(st.ops, TLayout) == 0 by {
      HandlerShaped(acc, cy, j1, j2);
      NoLayoutInKeyLoop(acc, cy, j1, j2, er);
    }
    assert st.elementsChanged <==> IsDiffAtKey(acc, j1, j2, "elements") && er.isEdit by {
      PrefixElementsChanged(acc, cy, j1, j2, er, |KeysToPatch|);
    }
    LayoutStepCount(acc, j1, j2, st.elementsChanged);
    CountAppend(st.ops, layout, TLayout);
    PatchSplit(acc, cy, j1, j2);
  }

  /** The layout, when run, is run with the materialised next options. */
  lemma PatchLayoutOptions(acc: Accessors, cy: Instance, j1: Json, j2: Json)
    ensures forall op <- Patch(acc, cy, j1, j2) :: op.LayoutRun? ==>
              op.options == acc.toJson(acc.atKey(j2, "layout"))
  {
    var er := ElementsPatch(acc, cy, j1, j2);
    var st := PatchKeys(acc, cy, j1, j2, er, |KeysToPatch|);
    var layout := LayoutStep(acc, j1, j2, st.elementsChanged);
    PatchSplit(acc, cy, j1, j2);
    HandlerShaped(acc, cy, j1, j2);
    NoLayoutInKeyLoop(acc, cy, j1, j2, er);
    LayoutStepCount(acc, j1, j2, st.elementsChanged);
    assert forall op <- st.ops + layout :: op in st.ops || op in layout;
  }

  // ------------------------------------------------------------ no change

  /** With no key reported changed, visiting any prefix of the keys makes no
      call and leaves `elementsChanged` false. */
  lemma {:induction false} PrefixNoChange(acc: Accessors, cy: Instance, j1: Json, j2: Json, er: ElementsResult, n: nat)
    requires n <= |KeysToPatch|
    requires forall k: TopKey :: !IsDiffAtKey(acc, j1, j2, Name(k))
    ensures PatchKeys(acc, cy, j1, j2, er, n) == Progress([], false)
  {
    if n > 0 {
      PrefixNoChange(acc, cy, j1, j2, er, n - 1);
      StepUnchanged(acc, cy, j1, j2, er, KeysToPatch[n - 1], PatchKeys(acc, cy, j1, j2, er, n - 1));
    }
  }

  /** When `diff` reports none of the visited keys as changed, `patch` makes
      no call at all, whatever it says about the layout. */
  lemma NothingChangedNoCalls(acc: Accessors, cy: Instance, j1: Json, j2: Json)
    requires forall k: TopKey :: !IsDiffAtKey(acc, j1, j2, Name(k))
    ensures Patch(acc, cy, j1, j2) == []
  {
    PatchSplit(acc, cy, j1, j2);
    PrefixNoChange(acc, cy, j1, j2, ElementsPatch(acc, cy, j1, j2), |KeysToPatch|);
  }

  /** Idempotence: with a `diff` that finds no value changed from itself,
      patching a description onto itself makes no call. */
  lemma PatchIdempotent(acc: Accessors, cy: Instance, j: Json)
    requires forall v :: !acc.diff(v, v)
    ensures Patch(acc, cy, j, j) == []
  {
    NothingChangedNoCalls(acc, cy, j, j);
  }

  /** With the plain bundle, whose `diff` is the equality oracle, patching a
      description onto itself makes no call. */
  lemma PlainPatchIdempotent(cy: Instance, j: Json)
    ensures Patch(Plain, cy, j, j) == []
  {
    PlainDiffIrreflexive();
    PatchIdempotent(Plain, cy, j);
  }

  // -------------------------------------------------------- single setter

  /** Visiting a key that `diff` reports unchanged changes nothing. */
  lemma StepUnchanged(acc: Accessors, cy: Instance, j1: Json, j2: Json, er: ElementsResult, k: TopKey, st: Progress)
    requires !IsDiffAtKey(acc, j1, j2, Name(k))
    ensures PatchKey(acc, cy, j1, j2, er, k, st) == st
  {
    assert st.ops + [] == st.ops;
  }

  /** The visit of key `o` when only the setter key `k` is reported changed:
      `k` appends its setter call, any other key appends nothing. */
  lemma SingleSetterStep(acc: Accessors, cy: Instance, j1: Json, j2: Json, er: ElementsResult, k: TopKey, o: TopKey, ops: seq<Op>)
    requires IsSetterKey(k) && IsDiffAtKey(acc, j1, j2, Name(k))
    requires o != k ==> !IsDiffAtKey(acc, j1, j2, Name(o))
    ensures PatchKey(acc, cy, j1, j2, er, o, Progress(ops, false))
         == Progress(ops + if o == k then [Setter(k, acc.toJson(acc.atKey(j2, Name(k))))] else [], false)
  {
    if o == k {
      StepSetterCall(acc, cy, j1, j2, er, k);
    } else {
      StepUnchanged(acc, cy, j1, j2, er, o, Progress(ops, false));
      assert ops + [] == ops;
    }
  }

  /** One step of `PrefixSingleSetter`: visiting the key `o` at position
      `n - 1`. */
  lemma SinglePrefixStep(acc: Accessors, cy: Instance, j1: Json, j2: Json, er: ElementsResult, k: TopKey, o: TopKey, n: nat, st: Progress)
    requires IsSetterKey(k) && IsDiffAtKey(acc, j1, j2, Name(k))
    requires o != k ==> !IsDiffAtKey(acc, j1, j2, Name(o))
    requires Position(o) == n - 1
    requires st == Progress(if Position(k) < n - 1 then [Setter(k, acc.toJson(acc.atKey(j2, Name(k))))] else [], false)
    ensures PatchKey(acc, cy, j1, j2, er, o, st)
         == Progress(if Position(k) < n then [Setter(k, acc.toJson(acc.atKey(j2, Name(k))))] else [], false)
  {
    var call := [Setter(k, acc.toJson(acc.atKey(j2, Name(k))))];
    SingleSetterStep(acc, cy, j1, j2, er, k, o, st.ops);
    if o == k {
      assert st.ops == [] && [] + call == call;
    } else {
      assert st.ops + [] == st.ops;
    }
  }

  /** When only the setter key `k` is reported changed, visiting the first
      `n` keys makes `k`'s setter call if `k` is among them, and nothing else. */
  lemma {:induction false} PrefixSingleSetter(acc: Accessors, cy: Instance, j1: Json, j2: Json, er: ElementsResult, k: TopKey, n: nat)
    requires n <= |KeysToPatch|
    requires IsSetterKey(k) && IsDiffAtKey(acc, j1, j2, Name(k))
    requires forall o: TopKey | o != k :: !IsDiffAtKey(acc, j1, j2, Name(o))
    ensures PatchKeys(acc, cy, j1, j2, er, n)
         == Progress(if Position(k) < n then [Setter(k, acc.toJson(acc.atKey(j2, Name(k))))] else [], false)
  {
    if n > 0 {
      PrefixSingleSetter(acc, cy, j1, j2, er, k, n - 1);
      PositionOfIndex(n - 1);
      SinglePrefixStep(acc, cy, j1, j2, er, k, KeysToPatch[n - 1], n, PatchKeys(acc, cy, j1, j2, er, n - 1));
    }
  }

  /** When a single setter key is reported changed, `patch` makes exactly one
      call: that key's setter with the materialised next value. */
  lemma OnlySetterKeyChanged(acc: Accessors, cy: Instance, j1: Json, j2: Json, k: TopKey)
    requires IsSetterKey(k) && IsDiffAtKey(acc, j1, j2, Name(k))
    requires forall o: TopKey | o != k :: !IsDiffAtKey(acc, j1, j2, Name(o))
    ensures Patch(acc, cy, j1, j2) == [Setter(k, acc.toJson(acc.atKey(j2, Name(k))))]
  {
    PatchSplit(acc, cy, j1, j2);
    PrefixSingleSetter(acc, cy, j1, j2, ElementsPatch(acc, cy, j1, j2), k, |KeysToPatch|);
  }

  /** Patching `{zoom: 1}` to `{zoom: 2}` with the plain bundle calls the zoom
      setter once, with 2, and makes no other call. */
  lemma ZoomChangeSetsZoomOnly(cy: Instance)
    ensures Patch(Plain, cy, JObj(map["zoom" := JNum(1)]), JObj(map["zoom" := JNum(2)]))
         == [Setter(Zoom, JNum(2))]
  {
    var j1 := JObj(map["zoom" := JNum(1)]);
    var j2 := JObj(map["zoom" := JNum(2)]);
    forall o: TopKey | o != Zoom
      ensures !IsDiffAtKey(Plain, j1, j2, Name(o))
    {
      if Name(o) == Name(Zoom) {
        NameInjective(o, Zoom);
      }
      PlainAbsentUnchanged(j1, j2, Name(o));
    }
    OnlySetterKeyChanged(Plain, cy, j1, j2, Zoom);
  }

  /** With the plain bundle, a key counts as changed iff the values read at
      it are not deep-equal; the answer does not depend on which description
      comes first, and no description differs from itself. */
  lemma PlainDiffAtKey(j1: Json, j2: Json, key: string)
    ensures IsDiffAtKey(Plain, j1, j2, key) <==> !DeepEqual(Child(j1, key), Child(j2, key))
    ensures IsDiffAtKey(Plain, j1, j2, key) == IsDiffAtKey(Plain, j2, j1, key)
    ensures !IsDiffAtKey(Plain, j1, j1, key)
  {
    DeepEqualSymmetric(Child(j1, key), Child(j2, key));
    DeepEqualReflexive(Child(j1, key));
  }

  /** With the plain bundle a key absent from both descriptions is unchanged. */
  lemma PlainAbsentUnchanged(j1: Json, j2: Json, key: string)
    requires j1.JObj? && j2.JObj? && key !in j1.fields && key !in j2.fields
    ensures !IsDiffAtKey(Plain, j1, j2, key)
  {
    assert Plain.atKey(j1, key) == JUndef == Plain.atKey(j2, key);
    assert DeepEqual(JUndef, JUndef);
  }
}
