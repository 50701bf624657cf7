/**
  The element half of `src/patch.js`: `patchElements` matches the previous
  and next element lists by `data.id` into a removal set, an addition list and
  matched pairs; `patchElement` patches one matched pair field by field.
 */
module ElementPatch {
  import opened JsonValues
  import opened Host
  import opened Operations

  /** `getId`: `get(get(ele, 'data'), 'id')`. */
  function IdOf(acc: Accessors, ele: Json): Json
  {
    acc.get(acc.get(ele, "data"), "id")
  }

  /** With the plain bundle, an element whose `data` owns no `id` key is
      keyed by undefined, so two such elements share one key and the id map
      keeps only the later. */
  lemma IdlessElementsCollide(e1: Json, e2: Json)
    requires "id" !in Keys(Child(e1, "data")) && "id" !in Keys(Child(e2, "data"))
    ensures IdOf(Plain, e1) == JUndef && IdOf(Plain, e2) == JUndef
    ensures IndexById(Plain, [e1, e2]) == map[JUndef := e2]
  {
    MissingKeyUndefined(Child(e1, "data"), "id");
    MissingKeyUndefined(Child(e2, "data"), "id");
    assert [e1, e2][..1] == [e1];
    assert [e1][..0] == [];
  }

  /** The ids the elements of a list carry. */
  function Ids(acc: Accessors, eles: seq<Json>): set<Json>
  {
    set e <- eles :: IdOf(acc, e)
  }

  lemma IdsAppend(acc: Accessors, eles: seq<Json>, e: Json)
    ensures Ids(acc, eles + [e]) == Ids(acc, eles) + {IdOf(acc, e)}
  {
    assert forall x <- eles + [e] :: x in eles || x == e;
  }

  /** The id-keyed map `forEach` builds (`eles1Map`, `eles2Map`): every id of
      the list is a key, mapped to an element carrying that id. */
  function IndexById(acc: Accessors, eles: seq<Json>): (m: map<Json, Json>)
    ensures m.Keys == Ids(acc, eles)
    ensures forall id <- m.Keys :: m[id] in eles && IdOf(acc, m[id]) == id
    decreases |eles|
  {
    if eles == [] then map[]
    else
      var e := eles[|eles| - 1];
      IdsAppend(acc, eles[..|eles| - 1], e);
      assert eles == eles[..|eles| - 1] + [e];
      IndexById(acc, eles[..|eles| - 1])[IdOf(acc, e) := e]
  }

  /** On duplicate ids the last element of the list wins. */
  lemma {:induction false} IndexByIdLastWins(acc: Accessors, eles: seq<Json>, i: nat)
    requires i < |eles|
    requires forall j | i < j < |eles| :: IdOf(acc, eles[j]) != IdOf(acc, eles[i])
    ensures IndexById(acc, eles)[IdOf(acc, eles[i])] == eles[i]
    decreases |eles|
  {
    if i < |eles| - 1 {
      var p := eles[..|eles| - 1];
      assert forall j | i < j < |p| :: p[j] == eles[j];
      IndexByIdLastWins(acc, p, i);
    }
  }

  /** The ids merged into `toRm`: ids of previous elements that the next map
      lacks and that name a live element (`cy.getElementById` of an id the
      instance lacks is empty and adds nothing). */
  function Removals(acc: Accessors, cy: Instance, eles1: seq<Json>, next: map<Json, Json>): (r: set<Json>)
    ensures r == set id | id in Ids(acc, eles1) && id !in next && cy.has(id)
    decreases |eles1|
  {
    if eles1 == [] then {}
    else
      var e := eles1[|eles1| - 1];
      var id := IdOf(acc, e);
      var rest := Removals(acc, cy, eles1[..|eles1| - 1], next);
      IdsAppend(acc, eles1[..|eles1| - 1], e);
      assert eles1 == eles1[..|eles1| - 1] + [e];
      if id !in next && cy.has(id) then rest + {id} else rest
  }

  /** The materialised next elements whose id the previous map lacks, in
      next-list order (`toAdd`). */
  function Additions(acc: Accessors, eles2: seq<Json>, prev: map<Json, Json>): (r: seq<Json>)
    ensures |r| <= |eles2|
    ensures forall e <- eles2 :: IdOf(acc, e) !in prev ==> acc.toJson(e) in r
    decreases |eles2|
  {
    if eles2 == [] then []
    else
      var p := eles2[..|eles2| - 1];
      var e := eles2[|eles2| - 1];
      assert eles2 == p + [e];
      var rest := Additions(acc, p, prev);
      if IdOf(acc, e) in prev then rest else rest + [acc.toJson(e)]
  }

  /** Every added element is the materialisation of a next element whose id
      the previous map lacks. */
  lemma {:induction false} AdditionsAreNew(acc: Accessors, eles2: seq<Json>, prev: map<Json, Json>)
    ensures forall x <- Additions(acc, eles2, prev) :: exists e <- eles2 :: IdOf(acc, e) !in prev && x == acc.toJson(e)
    decreases |eles2|
  {
    if eles2 != [] {
      var p := eles2[..|eles2| - 1];
      var e := eles2[|eles2| - 1];
      AdditionsAreNew(acc, p, prev);
      forall x <- Additions(acc, eles2, prev)
        ensures exists e' <- eles2 :: IdOf(acc, e') !in prev && x == acc.toJson(e')
      {
        if x in Additions(acc, p, prev) {
          var e' :| e' in p && IdOf(acc, e') !in prev && x == acc.toJson(e');
          assert e' in eles2;
        } else {
          assert e in eles2;
        }
      }
    }
  }

  /** The positions of the next list whose element carries an id the
      previous map lacks, in ascending order. */
  function NewPositions(acc: Accessors, eles2: seq<Json>, prev: map<Json, Json>): (idx: seq<nat>)
    ensures forall k | 0 <= k < |idx| :: idx[k] < |eles2|
    ensures forall k, l | 0 <= k < l < |idx| :: idx[k] < idx[l]
    ensures forall i | 0 <= i < |eles2| :: i in idx <==> IdOf(acc, eles2[i]) !in prev
    decreases |eles2|
  {
    if eles2 == [] then []
    else
      var p := eles2[..|eles2| - 1];
      var rest := NewPositions(acc, p, prev);
      assert forall i | 0 <= i < |p| :: p[i] == eles2[i];
      if IdOf(acc, eles2[|eles2| - 1]) in prev then rest else rest + [|eles2| - 1]
  }

  /** The added elements are exactly the materialised next elements at the
      new positions, in next-list order. */
  lemma {:induction false} AdditionsInOrder(acc: Accessors, eles2: seq<Json>, prev: map<Json, Json>)
    ensures |Additions(acc, eles2, prev)| == |NewPositions(acc, eles2, prev)|
    ensures forall k | 0 <= k < |Additions(acc, eles2, prev)| ::
              Additions(acc, eles2, prev)[k] == acc.toJson(eles2[NewPositions(acc, eles2, prev)[k]])
    decreases |eles2|
  {
    if eles2 != [] {
      var p, e := eles2[..|eles2| - 1], eles2[|eles2| - 1];
      AdditionsInOrder(acc, p, prev);
      var rest, restIdx := Additions(acc, p, prev), NewPositions(acc, p, prev);
      var tail, tailIdx := if IdOf(acc, e) in prev then [] else [acc.toJson(e)], if IdOf(acc, e) in prev then [] else [|eles2| - 1];
      assert Additions(acc, eles2, prev) == rest + tail;
      assert NewPositions(acc, eles2, prev) == restIdx + tailIdx;
      assert eles2 == p + [e];
      IndexedSnoc(acc.toJson, p, e, rest, restIdx, tail, tailIdx);
    }
  }

  /** Extending an indexed selection of `p` by nothing, or by `e` at its
      own index, indexes `p + [e]` the same way. */
  lemma IndexedSnoc(f: Json -> Json, p: seq<Json>, e: Json, rest: seq<Json>, restIdx: seq<nat>, tail: seq<Json>, tailIdx: seq<nat>)
    requires |rest| == |restIdx|
    requires forall k | 0 <= k < |restIdx| :: restIdx[k] < |p| && rest[k] == f(p[restIdx[k]])
    requires (tail == [] && tailIdx == []) || (tail == [f(e)] && tailIdx == [|p|])
    ensures |rest + tail| == |restIdx + tailIdx|
    ensures forall k | 0 <= k < |rest + tail| :: (restIdx + tailIdx)[k] < |p + [e]| && (rest + tail)[k] == f((p + [e])[(restIdx + tailIdx)[k]])
  {
    forall k | 0 <= k < |rest + tail|
      ensures (restIdx + tailIdx)[k] < |p + [e]| && (rest + tail)[k] == f((p + [e])[(restIdx + tailIdx)[k]])
    {
      if k < |rest| {
        assert (p + [e])[restIdx[k]] == p[restIdx[k]];
      }
    }
  }

  /** A matched pair `{ ele1, ele2 }` queued for field patching. */
  datatype Pair = Pair(prev: Json, next: Json)

  /** `eles1Map[id]`: the previous element, or undefined for an unknown id. */
  function Lookup(m: map<Json, Json>, id: Json): Json
  {
    if id in m then m[id] else JUndef
  }

  /** The next elements whose id the previous map has, each paired with the
      previous element of that id, in next-list order (`toPatch`). */
  function Matches(acc: Accessors, eles2: seq<Json>, prev: map<Json, Json>): (r: seq<Pair>)
    ensures forall q <- r :: q.next in eles2 && IdOf(acc, q.next) in prev && q.prev == prev[IdOf(acc, q.next)]
    ensures forall e <- eles2 :: IdOf(acc, e) in prev ==> Pair(prev[IdOf(acc, e)], e) in r
    decreases |eles2|
  {
    if eles2 == [] then []
    else
      var p := eles2[..|eles2| - 1];
      var e := eles2[|eles2| - 1];
      assert eles2 == p + [e];
      var rest := Matches(acc, p, prev);
      var id := IdOf(acc, e);
      if id in prev then rest + [Pair(Lookup(prev, id), e)] else rest
  }

  /** Every next element is either added or matched, never both. */
  lemma {:induction false} AdditionsMatchesPartition(acc: Accessors, eles2: seq<Json>, prev: map<Json, Json>)
    ensures |Additions(acc, eles2, prev)| + |Matches(acc, eles2, prev)| == |eles2|
    decreases |eles2|
  {
    if eles2 != [] {
      AdditionsMatchesPartition(acc, eles2[..|eles2| - 1], prev);
    }
  }

  /** Nothing is added iff every next id is already in the previous map. */
  lemma NoAdditionsIff(acc: Accessors, eles2: seq<Json>, prev: map<Json, Json>)
    ensures Additions(acc, eles2, prev) == [] <==> Ids(acc, eles2) <= prev.Keys
  {
    var r := Additions(acc, eles2, prev);
    if r != [] {
      AdditionsAreNew(acc, eles2, prev);
      assert r[0] in r;
    }
    if !(Ids(acc, eles2) <= prev.Keys) {
      var id :| id in Ids(acc, eles2) && id !in prev;
      var e :| e in eles2 && IdOf(acc, e) == id;
      assert acc.toJson(e) in r;
    }
  }

  /** With no previous elements every next element is added, in order. */
  lemma {:induction false} AdditionsWithoutPrevious(acc: Accessors, eles2: seq<Json>)
    ensures |Additions(acc, eles2, map[])| == |eles2|
    ensures forall i | 0 <= i < |eles2| :: Additions(acc, eles2, map[])[i] == acc.toJson(eles2[i])
    decreases |eles2|
  {
    if eles2 != [] {
      var p := eles2[..|eles2| - 1];
      AdditionsWithoutPrevious(acc, p);
      var r := Additions(acc, eles2, map[]);
      assert r == Additions(acc, p, map[]) + [acc.toJson(eles2[|eles2| - 1])];
      forall i | 0 <= i < |eles2|
        ensures r[i] == acc.toJson(eles2[i])
      {
        if i < |p| {
          assert eles2[i] == p[i];
        }
      }
    }
  }

  /** The element fields `patchElement` compares and copies into the patch. */
  const JsonKeys: seq<string> := ["data", "position", "selected", "selectable", "locked", "grabbable", "classes"]

  /** The partial patch object built over `keys`: a key is in it iff `diff`
      reports the next value as changed from the previous one, and its value
      is the materialised next value. */
  function FieldPatch(acc: Accessors, e1: Json, e2: Json, keys: seq<string>): (p: map<string, Json>)
    ensures forall k :: k in p <==> k in keys && acc.diff(acc.get(e2, k), acc.get(e1, k))
    ensures forall k <- p.Keys :: p[k] == acc.toJson(acc.get(e2, k))
    decreases |keys|
  {
    if keys == [] then map[]
    else
      var k := keys[|keys| - 1];
      var p := FieldPatch(acc, e1, e2, keys[..|keys| - 1]);
      assert keys == keys[..|keys| - 1] + [k];
      var data2 := acc.get(e2, k);
      if acc.diff(data2, acc.get(e1, k)) then p[k := acc.toJson(data2)] else p
  }

  /** Whether `diff` reports some field of `JsonKeys` of the next element as
      changed from the previous one. */
  predicate FieldChanged(acc: Accessors, e1: Json, e2: Json)
  {
    exists k <- JsonKeys :: acc.diff(acc.get(e2, k), acc.get(e1, k))
  }

  /** Whether `diff` reports the scratch namespace of the next element as
      changed from the previous one. */
  predicate ScratchChanged(acc: Accessors, e1: Json, e2: Json)
  {
    acc.diff(acc.get(e2, "scratch"), acc.get(e1, "scratch"))
  }

  /** The field patch is non-empty iff some field changed, and it never
      carries the scratch namespace. */
  lemma FieldPatchShape(acc: Accessors, e1: Json, e2: Json)
    ensures |FieldPatch(acc, e1, e2, JsonKeys)| > 0 <==> FieldChanged(acc, e1, e2)
  {
    var patch := FieldPatch(acc, e1, e2, JsonKeys);
    if |patch| > 0 {
      var k :| k in patch;
    }
  }

  /** The scratch namespace is not among the compared fields, so it never
      enters the field patch. */
  lemma FieldPatchNoScratch(acc: Accessors, e1: Json, e2: Json)
    ensures "scratch" !in FieldPatch(acc, e1, e2, JsonKeys)
  {
    assert "scratch" !in JsonKeys;
  }

  /** The scratch call of `patchElement`: the materialised next scratch
      namespace, set when `diff` reports it changed. */
  function ScratchCall(acc: Accessors, e1: Json, e2: Json): (ops: seq<Op>)
    ensures |ops| <= 1 && forall op <- ops :: op == Scratch(IdOf(acc, e2), acc.toJson(acc.get(e2, "scratch")))
    ensures |ops| == 1 <==> ScratchChanged(acc, e1, e2)
  {
    var scratch2 := acc.get(e2, "scratch");
    if acc.diff(scratch2, acc.get(e1, "scratch")) then [Scratch(IdOf(acc, e2), acc.toJson(scratch2))] else []
  }

  /** The field call of `patchElement`: the field patch, applied when it is
      non-empty. */
  function JsonCall(acc: Accessors, e1: Json, e2: Json): (ops: seq<Op>)
    ensures |ops| <= 1 && forall op <- ops :: op == EleJson(IdOf(acc, e2), FieldPatch(acc, e1, e2, JsonKeys))
    ensures |ops| == 1 <==> FieldChanged(acc, e1, e2)
  {
    var patch := FieldPatch(acc, e1, e2, JsonKeys);
    FieldPatchShape(acc, e1, e2);
    if |patch| > 0 then [EleJson(IdOf(acc, e2), patch)] else []
  }

  /** `patchElement`: the calls made on the live element with the next
      element's id. The scratch namespace is set by its own call, made first,
      and never enters the field patch; the field patch is applied only when
      some field changed. */
  function PatchElement(acc: Accessors, e1: Json, e2: Json): (ops: seq<Op>)
    ensures |ops| <= 2
    ensures forall op <- ops :: (op.Scratch? || op.EleJson?) && op.id == IdOf(acc, e2)
    ensures forall op <- ops :: op.Scratch? ==> op.value == acc.toJson(acc.get(e2, "scratch"))
    ensures forall op <- ops :: op.EleJson? ==> op.patch == FieldPatch(acc, e1, e2, JsonKeys) && "scratch" !in op.patch
    ensures |ops| == 2 ==> ops[0].Scratch? && ops[1].EleJson?
  {
    var scratchOps := ScratchCall(acc, e1, e2);
    var jsonOps := JsonCall(acc, e1, e2);
    FieldPatchNoScratch(acc, e1, e2);
    ElementCallsJoin(scratchOps, jsonOps, IdOf(acc, e2), acc.toJson(acc.get(e2, "scratch")), FieldPatch(acc, e1, e2, JsonKeys));
    scratchOps + jsonOps
  }

  /** At most one scratch call followed by at most one field call, both on
      the element `id`. */
  lemma ElementCallsJoin(scratchOps: seq<Op>, jsonOps: seq<Op>, id: Json, scratch: Json, patch: map<string, Json>)
    requires |scratchOps| <= 1 && forall op <- scratchOps :: op == Scratch(id, scratch)
    requires |jsonOps| <= 1 && forall op <- jsonOps :: op == EleJson(id, patch)
    ensures |scratchOps + jsonOps| <= 2
    ensures forall op <- scratchOps + jsonOps :: op == Scratch(id, scratch) || op == EleJson(id, patch)
    ensures |scratchOps + jsonOps| == 2 ==> (scratchOps + jsonOps)[0].Scratch? && (scratchOps + jsonOps)[1].EleJson?
  {
    assert forall op <- scratchOps + jsonOps :: op in scratchOps || op in jsonOps;
    if |scratchOps + jsonOps| == 2 {
      assert (scratchOps + jsonOps)[0] == scratchOps[0] && (scratchOps + jsonOps)[1] == jsonOps[0];
      assert scratchOps[0] in scratchOps && jsonOps[0] in jsonOps;
    }
  }

  /** `patchElement` makes one scratch call iff `diff` reports the scratch
      namespace changed, and one field call iff it reports some field of
      `JsonKeys` changed. */
  lemma PatchElementCalls(acc: Accessors, e1: Json, e2: Json)
    ensures Count(PatchElement(acc, e1, e2), TScratch)
         == if ScratchChanged(acc, e1, e2) then 1 else 0
    ensures Count(PatchElement(acc, e1, e2), TEleJson)
         == if FieldChanged(acc, e1, e2) then 1 else 0
  {
    PatchElementCounts(ScratchCall(acc, e1, e2), JsonCall(acc, e1, e2));
  }

  /** Counting the calls of a scratch part followed by a field part. */
  lemma PatchElementCounts(scratchOps: seq<Op>, jsonOps: seq<Op>)
    requires |scratchOps| <= 1 && forall op <- scratchOps :: op.Scratch?
    requires |jsonOps| <= 1 && forall op <- jsonOps :: op.EleJson?
    ensures Count(scratchOps + jsonOps, TScratch) == |scratchOps|
    ensures Count(scratchOps + jsonOps, TEleJson) == |jsonOps|
  {
    CountAppend(scratchOps, jsonOps, TScratch);
    CountAppend(scratchOps, jsonOps, TEleJson);
    if |scratchOps| == 1 {
      assert scratchOps == [scratchOps[0]];
      CountSingle(scratchOps[0], TScratch);
      CountSingle(scratchOps[0], TEleJson);
    }
    if |jsonOps| == 1 {
      assert jsonOps == [jsonOps[0]];
      CountSingle(jsonOps[0], TScratch);
      CountSingle(jsonOps[0], TEleJson);
    }
  }

  /** An element none of whose fields, scratch included, changed gets no call. */
  lemma UnchangedElementUntouched(acc: Accessors, e1: Json, e2: Json)
    requires !ScratchChanged(acc, e1, e2) && !FieldChanged(acc, e1, e2)
    ensures PatchElement(acc, e1, e2) == []
  {
  }

  /** Every call `patchElement` makes is called for: the scratch call only
      when the scratch namespace changed, the field call only when some field
      of `JsonKeys` changed. */
  lemma PatchElementSound(acc: Accessors, e1: Json, e2: Json)
    ensures forall op <- PatchElement(acc, e1, e2) :: op.Scratch? ==> ScratchChanged(acc, e1, e2)
    ensures forall op <- PatchElement(acc, e1, e2) :: op.EleJson? ==> FieldChanged(acc, e1, e2)
  {
    var scratchOps, jsonOps := ScratchCall(acc, e1, e2), JsonCall(acc, e1, e2);
    assert forall op <- scratchOps + jsonOps :: op in scratchOps || op in jsonOps;
  }

  /** Every change is acted on: a changed scratch namespace gets its scratch
      call and a changed field the field call carrying the field patch. */
  lemma PatchElementComplete(acc: Accessors, e1: Json, e2: Json)
    ensures ScratchChanged(acc, e1, e2) ==>
              Scratch(IdOf(acc, e2), acc.toJson(acc.get(e2, "scratch"))) in PatchElement(acc, e1, e2)
    ensures FieldChanged(acc, e1, e2) ==>
              EleJson(IdOf(acc, e2), FieldPatch(acc, e1, e2, JsonKeys)) in PatchElement(acc, e1, e2)
  {
    var scratchOps, jsonOps := ScratchCall(acc, e1, e2), JsonCall(acc, e1, e2);
    if ScratchChanged(acc, e1, e2) {
      assert (scratchOps + jsonOps)[0] == scratchOps[0];
    }
    if FieldChanged(acc, e1, e2) {
      assert (scratchOps + jsonOps)[|scratchOps|] == jsonOps[0];
    }
  }

  /** An element whose scratch namespace is unchanged but some field changed
      gets just the field call. */
  lemma FieldCallOnly(acc: Accessors, e1: Json, e2: Json)
    requires !ScratchChanged(acc, e1, e2) && FieldChanged(acc, e1, e2)
    ensures PatchElement(acc, e1, e2) == [EleJson(IdOf(acc, e2), FieldPatch(acc, e1, e2, JsonKeys))]
  {
    var jsonOps := JsonCall(acc, e1, e2);
    assert jsonOps == [jsonOps[0]];
  }

  /** The per-pair patches, one pair after the other (`toPatch.forEach`). */
  function PatchAll(acc: Accessors, pairs: seq<Pair>): (ops: seq<Op>)
    ensures forall op <- ops :: op.Scratch? || op.EleJson?
    ensures |ops| <= 2 * |pairs|
    decreases |pairs|
  {
    if pairs == [] then []
    else
      var q := pairs[|pairs| - 1];
      PatchAll(acc, pairs[..|pairs| - 1]) + PatchElement(acc, q.prev, q.next)
  }

  /** Every call of the pair loop is one that `patchElement` makes for one of
      the pairs. */
  lemma {:induction false} PatchAllSound(acc: Accessors, pairs: seq<Pair>)
    ensures forall op <- PatchAll(acc, pairs) :: exists q <- pairs :: op in PatchElement(acc, q.prev, q.next)
    decreases |pairs|
  {
    if pairs != [] {
      var p, q := pairs[..|pairs| - 1], pairs[|pairs| - 1];
      PatchAllSound(acc, p);
      forall op <- PatchAll(acc, pairs)
        ensures exists q' <- pairs :: op in PatchElement(acc, q'.prev, q'.next)
      {
        if op in PatchAll(acc, p) {
          var q' :| q' in p && op in PatchElement(acc, q'.prev, q'.next);
          assert q' in pairs;
        } else {
          assert q in pairs;
        }
      }
    }
  }

  /** Every call `patchElement` makes for one of the pairs is made by the pair
      loop. */
  lemma {:induction false} PatchAllComplete(acc: Accessors, pairs: seq<Pair>)
    ensures forall q <- pairs, op <- PatchElement(acc, q.prev, q.next) :: op in PatchAll(acc, pairs)
    decreases |pairs|
  {
    if pairs != [] {
      var p := pairs[..|pairs| - 1];
      PatchAllComplete(acc, p);
      assert pairs == p + [pairs[|pairs| - 1]];
    }
  }

  /** What `patchElements` reports back: whether it added or removed anything. */
  datatype ElementsResult = ElementsResult(ops: seq<Op>, isEdit: bool)

  /** The previous list as iterated: nothing when it is null or undefined. */
  function PreviousList(acc: Accessors, eles1: Json): seq<Json>
  {
    if eles1.IsNullish() then [] else acc.forEach(eles1)
  }

  /** `eles1Map`: the previous elements keyed by id. */
  function PreviousMap(acc: Accessors, eles1: Json): map<Json, Json>
  {
    IndexById(acc, PreviousList(acc, eles1))
  }

  /** The ids a `patchElements` call removes: those of the previous list
      that the next list lacks and that name a live element. */
  function RemovedIds(acc: Accessors, cy: Instance, eles1: Json, eles2: Json): set<Json>
  {
    set id | id in Ids(acc, PreviousList(acc, eles1)) && id !in Ids(acc, acc.forEach(eles2)) && cy.has(id)
  }

  /** The removal call: `cy.remove(toRm)` when some previous id is gone from
      the next list and still names a live element. */
  function RemoveCall(acc: Accessors, cy: Instance, eles1: Json, eles2: Json): (ops: seq<Op>)
    ensures |ops| <= 1 && forall op <- ops :: op == Remove(RemovedIds(acc, cy, eles1, eles2))
    ensures |ops| == 1 <==> RemovedIds(acc, cy, eles1, eles2) != {}
  {
    var toRm := Removals(acc, cy, PreviousList(acc, eles1), IndexById(acc, acc.forEach(eles2)));
    assert toRm == RemovedIds(acc, cy, eles1, eles2);
    if |toRm| > 0 then [Remove(toRm)] else []
  }

  /** The addition call: `cy.add(toAdd)` when some next id is not a previous id. */
  function AddCall(acc: Accessors, eles1: Json, eles2: Json): (ops: seq<Op>)
    ensures |ops| <= 1
    ensures forall op <- ops :: op == Add(Additions(acc, acc.forEach(eles2), PreviousMap(acc, eles1)))
    ensures |ops| == 1 <==> !(Ids(acc, acc.forEach(eles2)) <= Ids(acc, PreviousList(acc, eles1)))
  {
    var toAdd := Additions(acc, acc.forEach(eles2), PreviousMap(acc, eles1));
    NoAdditionsIff(acc, acc.forEach(eles2), PreviousMap(acc, eles1));
    if |toAdd| > 0 then [Add(toAdd)] else []
  }

  /** The per-element calls for the matched pairs, in next-list order. */
  function MatchedCalls(acc: Accessors, eles1: Json, eles2: Json): (ops: seq<Op>)
    ensures forall op <- ops :: op.Scratch? || op.EleJson?
  {
    PatchAll(acc, Matches(acc, acc.forEach(eles2), PreviousMap(acc, eles1)))
  }

  /** `patchElements`: remove, then add, then patch matched pairs; it reports
      an edit iff something was removed or added. */
  function PatchElements(acc: Accessors, cy: Instance, eles1: Json, eles2: Json): (r: ElementsResult)
    ensures Ordered(r.ops) && RanksWithin(r.ops, 0, 2)
    ensures forall op <- r.ops :: op.Remove? || op.Add? || op.Scratch? || op.EleJson?
    ensures forall op <- r.ops :: op.Remove? ==> op.ids == RemovedIds(acc, cy, eles1, eles2)
    ensures forall op <- r.ops :: op.Add? ==>
              op.eles == Additions(acc, acc.forEach(eles2), PreviousMap(acc, eles1))
    ensures r.isEdit <==>
              || RemovedIds(acc, cy, eles1, eles2) != {}
              || !(Ids(acc, acc.forEach(eles2)) <= Ids(acc, PreviousList(acc, eles1)))
  {
    var rmOps := RemoveCall(acc, cy, eles1, eles2);
    var addOps := AddCall(acc, eles1, eles2);
    var patchOps := MatchedCalls(acc, eles1, eles2);
    ElementsOpsOrdered(rmOps, addOps, patchOps);
    ElementsOpsParts(rmOps, addOps, patchOps);
    ElementsResult(rmOps + addOps + patchOps, |rmOps| > 0 || |addOps| > 0)
  }

  /** A `patchElements` trace holds one removal iff some id is removed and one
      addition iff some next id is new. */
  lemma PatchElementsCalls(acc: Accessors, cy: Instance, eles1: Json, eles2: Json)
    ensures Count(PatchElements(acc, cy, eles1, eles2).ops, TRemove)
         == if RemovedIds(acc, cy, eles1, eles2) == {} then 0 else 1
    ensures Count(PatchElements(acc, cy, eles1, eles2).ops, TAdd)
         == if Ids(acc, acc.forEach(eles2)) <= Ids(acc, PreviousList(acc, eles1)) then 0 else 1
  {
    ElementsOpsCounts(RemoveCall(acc, cy, eles1, eles2), AddCall(acc, eles1, eles2), MatchedCalls(acc, eles1, eles2));
  }

  /** Every per-element call of a `patchElements` trace is on a next element
      whose id the previous map has: a field call carries the field patch of
      that element against the previous element of its id, and is made only
      when some field changed; a scratch call carries its scratch namespace,
      and is made only when that changed. */
  lemma ElementCallsSound(acc: Accessors, cy: Instance, eles1: Json, eles2: Json)
    ensures var prev := PreviousMap(acc, eles1);
            forall op <- PatchElements(acc, cy, eles1, eles2).ops | op.EleJson? ::
              exists e <- acc.forEach(eles2) ::
                && IdOf(acc, e) in prev
                && FieldChanged(acc, prev[IdOf(acc, e)], e)
                && op == EleJson(IdOf(acc, e), FieldPatch(acc, prev[IdOf(acc, e)], e, JsonKeys))
    ensures var prev := PreviousMap(acc, eles1);
            forall op <- PatchElements(acc, cy, eles1, eles2).ops | op.Scratch? ::
              exists e <- acc.forEach(eles2) ::
                && IdOf(acc, e) in prev
                && ScratchChanged(acc, prev[IdOf(acc, e)], e)
                && op == Scratch(IdOf(acc, e), acc.toJson(acc.get(e, "scratch")))
  {
    var prev := PreviousMap(acc, eles1);
    var pairs := Matches(acc, acc.forEach(eles2), prev);
    MatchedCallsInTrace(acc, cy, eles1, eles2);
    PatchAllSound(acc, pairs);
    forall op | op in PatchElements(acc, cy, eles1, eles2).ops && op.EleJson?
      ensures exists e <- acc.forEach(eles2) ::
                && IdOf(acc, e) in prev
                && FieldChanged(acc, prev[IdOf(acc, e)], e)
                && op == EleJson(IdOf(acc, e), FieldPatch(acc, prev[IdOf(acc, e)], e, JsonKeys))
    {
      var q :| q in pairs && op in PatchElement(acc, q.prev, q.next);
      PatchElementSound(acc, q.prev, q.next);
      assert q.next in acc.forEach(eles2) && IdOf(acc, q.next) in prev && q.prev == prev[IdOf(acc, q.next)];
    }
    forall op | op in PatchElements(acc, cy, eles1, eles2).ops && op.Scratch?
      ensures exists e <- acc.forEach(eles2) ::
                && IdOf(acc, e) in prev
                && ScratchChanged(acc, prev[IdOf(acc, e)], e)
                && op == Scratch(IdOf(acc, e), acc.toJson(acc.get(e, "scratch")))
    {
      var q :| q in pairs && op in PatchElement(acc, q.prev, q.next);
      PatchElementSound(acc, q.prev, q.next);
      assert q.next in acc.forEach(eles2) && IdOf(acc, q.next) in prev && q.prev == prev[IdOf(acc, q.next)];
    }
  }

  /** The per-element calls of a `patchElements` trace are exactly those of
      the pair loop. */
  lemma MatchedCallsInTrace(acc: Accessors, cy: Instance, eles1: Json, eles2: Json)
    ensures forall op <- PatchElements(acc, cy, eles1, eles2).ops | op.Scratch? || op.EleJson? ::
              op in MatchedCalls(acc, eles1, eles2)
    ensures forall op <- MatchedCalls(acc, eles1, eles2) :: op in PatchElements(acc, cy, eles1, eles2).ops
  {
    ElementsFromCalls(acc, cy, eles1, eles2);
    TraceParts(RemoveCall(acc, cy, eles1, eles2), AddCall(acc, eles1, eles2), MatchedCalls(acc, eles1, eles2));
  }

  /** Behind a removal part and an addition part, the scratch and field
      calls of a trace are exactly those of its last part. */
  lemma TraceParts(rmOps: seq<Op>, addOps: seq<Op>, patchOps: seq<Op>)
    requires forall op <- rmOps :: op.Remove?
    requires forall op <- addOps :: op.Add?
    ensures forall op <- rmOps + addOps + patchOps | op.Scratch? || op.EleJson? :: op in patchOps
    ensures forall op <- patchOps :: op in rmOps + addOps + patchOps
  {
    assert forall op <- rmOps + addOps + patchOps :: op in rmOps || op in addOps || op in patchOps;
  }

  /** Every matched next element with a changed field gets the field call
      carrying its field patch, and every one with a changed scratch
      namespace gets the scratch call. */
  lemma ElementCallsComplete(acc: Accessors, cy: Instance, eles1: Json, eles2: Json)
    ensures var prev := PreviousMap(acc, eles1);
            forall e <- acc.forEach(eles2) | IdOf(acc, e) in prev && FieldChanged(acc, prev[IdOf(acc, e)], e) ::
              EleJson(IdOf(acc, e), FieldPatch(acc, prev[IdOf(acc, e)], e, JsonKeys)) in PatchElements(acc, cy, eles1, eles2).ops
    ensures var prev := PreviousMap(acc, eles1);
            forall e <- acc.forEach(eles2) | IdOf(acc, e) in prev && ScratchChanged(acc, prev[IdOf(acc, e)], e) ::
              Scratch(IdOf(acc, e), acc.toJson(acc.get(e, "scratch"))) in PatchElements(acc, cy, eles1, eles2).ops
  {
    var prev := PreviousMap(acc, eles1);
    var pairs := Matches(acc, acc.forEach(eles2), prev);
    MatchedCallsInTrace(acc, cy, eles1, eles2);
    PatchAllComplete(acc, pairs);
    forall e <- acc.forEach(eles2) | IdOf(acc, e) in prev
      ensures FieldChanged(acc, prev[IdOf(acc, e)], e) ==>
                EleJson(IdOf(acc, e), FieldPatch(acc, prev[IdOf(acc, e)], e, JsonKeys)) in MatchedCalls(acc, eles1, eles2)
      ensures ScratchChanged(acc, prev[IdOf(acc, e)], e) ==>
                Scratch(IdOf(acc, e), acc.toJson(acc.get(e, "scratch"))) in MatchedCalls(acc, eles1, eles2)
    {
      assert Pair(prev[IdOf(acc, e)], e) in pairs;
      PatchElementComplete(acc, prev[IdOf(acc, e)], e);
    }
  }

  /** When no matched next element has a changed field or scratch namespace,
      the trace holds only the removal and the addition. */
  lemma UnchangedMatchesUntouched(acc: Accessors, cy: Instance, eles1: Json, eles2: Json)
    requires var prev := PreviousMap(acc, eles1);
             forall e <- acc.forEach(eles2) | IdOf(acc, e) in prev ::
               !FieldChanged(acc, prev[IdOf(acc, e)], e) && !ScratchChanged(acc, prev[IdOf(acc, e)], e)
    ensures forall op <- PatchElements(acc, cy, eles1, eles2).ops :: op.Remove? || op.Add?
  {
    ElementCallsSound(acc, cy, eles1, eles2);
  }

  /** When every previous id still names a live element, the removal set is
      exactly the previous ids minus the next ids. */
  lemma RemovalIsSetDifference(acc: Accessors, cy: Instance, eles1: Json, eles2: Json)
    requires forall id <- Ids(acc, PreviousList(acc, eles1)) :: cy.has(id)
    ensures RemovedIds(acc, cy, eles1, eles2) == Ids(acc, PreviousList(acc, eles1)) - Ids(acc, acc.forEach(eles2))
  {
  }

  /** With no previous list (null or undefined) nothing is removed, every next
      element is added in list order, and the call is an edit iff the next
      list is non-empty. */
  lemma WithoutPreviousAddsAll(acc: Accessors, cy: Instance, eles1: Json, eles2: Json)
    requires eles1.IsNullish()
    ensures Count(PatchElements(acc, cy, eles1, eles2).ops, TRemove) == 0
    ensures forall op <- PatchElements(acc, cy, eles1, eles2).ops :: op.Add? ==>
              && |op.eles| == |acc.forEach(eles2)|
              && forall i | 0 <= i < |op.eles| :: op.eles[i] == acc.toJson(acc.forEach(eles2)[i])
    ensures PatchElements(acc, cy, eles1, eles2).isEdit <==> |acc.forEach(eles2)| > 0
  {
    var nextList := acc.forEach(eles2);
    assert PreviousList(acc, eles1) == [];
    assert Ids(acc, []) == {};
    assert RemovedIds(acc, cy, eles1, eles2) == {};
    PatchElementsCalls(acc, cy, eles1, eles2);
    assert IndexById(acc, []) == map[];
    AdditionsWithoutPrevious(acc, nextList);
    if |nextList| > 0 {
      assert IdOf(acc, nextList[0]) in Ids(acc, nextList);
    }
  }

  /** Same ids before and after: only matched pairs are patched, so the call
      is not an edit. */
  lemma SameIdsIsNotEdit(acc: Accessors, cy: Instance, eles1: Json, eles2: Json)
    requires !eles1.IsNullish()
    requires Ids(acc, acc.forEach(eles1)) == Ids(acc, acc.forEach(eles2))
    ensures !PatchElements(acc, cy, eles1, eles2).isEdit
  {
    assert RemovedIds(acc, cy, eles1, eles2) == {};
  }

  /** In a removal part, then an addition part, then per-element calls, the
      removals and additions come from their parts. */
  lemma ElementsOpsParts(rmOps: seq<Op>, addOps: seq<Op>, patchOps: seq<Op>)
    requires forall op <- rmOps :: op.Remove?
    requires forall op <- addOps :: op.Add?
    requires forall op <- patchOps :: op.Scratch? || op.EleJson?
    ensures forall op <- rmOps + addOps + patchOps :: op.Remove? || op.Add? || op.Scratch? || op.EleJson?
    ensures forall op <- rmOps + addOps + patchOps :: (op.Remove? ==> op in rmOps) && (op.Add? ==> op in addOps)
  {
    assert forall op <- rmOps + addOps + patchOps :: op in rmOps || op in addOps || op in patchOps;
  }

  lemma ElementsOpsOrdered(rmOps: seq<Op>, addOps: seq<Op>, patchOps: seq<Op>)
    requires |rmOps| <= 1 && forall op <- rmOps :: op.Remove?
    requires |addOps| <= 1 && forall op <- addOps :: op.Add?
    requires forall op <- patchOps :: op.Scratch? || op.EleJson?
    ensures Ordered(rmOps + addOps + patchOps) && RanksWithin(rmOps + addOps + patchOps, 0, 2)
  {
    var head := rmOps + addOps;
    assert RanksWithin(rmOps, 0, 0) && RanksWithin(addOps, 1, 1) by {
      assert forall i | 0 <= i < |rmOps| :: rmOps[i] in rmOps;
      assert forall i | 0 <= i < |addOps| :: addOps[i] in addOps;
    }
    assert RanksWithin(patchOps, 2, 2) by {
      assert forall i | 0 <= i < |patchOps| :: patchOps[i] in patchOps;
    }
    OrderedAppend(rmOps, addOps, 1);
    assert RanksWithin(head, 0, 1);
    OrderedAppend(head, patchOps, 2);
    assert RanksWithin(head + patchOps, 0, 2);
  }

  lemma ElementsOpsCounts(rmOps: seq<Op>, addOps: seq<Op>, patchOps: seq<Op>)
    requires |rmOps| <= 1 && forall op <- rmOps :: op.Remove?
    requires |addOps| <= 1 && forall op <- addOps :: op.Add?
    requires forall op <- patchOps :: op.Scratch? || op.EleJson?
    ensures Count(rmOps + addOps + patchOps, TRemove) == |rmOps|
    ensures Count(rmOps + addOps + patchOps, TAdd) == |addOps|
  {
    HeadCounts(rmOps, addOps);
    CountAppend(rmOps + addOps, patchOps, TRemove);
    CountAppend(rmOps + addOps, patchOps, TAdd);
    CountNone(patchOps, TRemove);
    CountNone(patchOps, TAdd);
  }

  lemma HeadCounts(rmOps: seq<Op>, addOps: seq<Op>)
    requires |rmOps| <= 1 && forall op <- rmOps :: op.Remove?
    requires |addOps| <= 1 && forall op <- addOps :: op.Add?
    ensures Count(rmOps + addOps, TRemove) == |rmOps|
    ensures Count(rmOps + addOps, TAdd) == |addOps|
  {
    CountAppend(rmOps, addOps, TRemove);
    CountAppend(rmOps, addOps, TAdd);
    if |rmOps| == 1 {
      assert rmOps == [rmOps[0]];
      CountSingle(rmOps[0], TRemove);
      CountSingle(rmOps[0], TAdd);
    }
    if |addOps| == 1 {
      assert addOps == [addOps[0]];
      CountSingle(addOps[0], TRemove);
      CountSingle(addOps[0], TAdd);
    }
  }

  // ------------------------------------------------------ list edits

  /** No two elements of the list carry the same id. */
  predicate DistinctIds(acc: Accessors, eles: seq<Json>)
  {
    forall i, j | 0 <= i < j < |eles| :: IdOf(acc, eles[i]) != IdOf(acc, eles[j])
  }

  /** With distinct ids, the id map sends each element's id to that element. */
  lemma IndexByDistinctIds(acc: Accessors, eles: seq<Json>)
    requires DistinctIds(acc, eles)
    ensures forall e <- eles :: IdOf(acc, e) in IndexById(acc, eles) && IndexById(acc, eles)[IdOf(acc, e)] == e
  {
    forall e <- eles
      ensures IdOf(acc, e) in IndexById(acc, eles) && IndexById(acc, eles)[IdOf(acc, e)] == e
    {
      var i :| 0 <= i < |eles| && eles[i] == e;
      IndexByIdLastWins(acc, eles, i);
    }
  }

  /** When every next id is a previous id, the queued pairs follow the next
      list one to one. */
  lemma {:induction false} MatchesAllKnown(acc: Accessors, eles2: seq<Json>, prev: map<Json, Json>)
    requires forall e <- eles2 :: IdOf(acc, e) in prev
    ensures |Matches(acc, eles2, prev)| == |eles2|
    ensures forall k | 0 <= k < |eles2| :: Matches(acc, eles2, prev)[k] == Pair(prev[IdOf(acc, eles2[k])], eles2[k])
    decreases |eles2|
  {
    if eles2 != [] {
      var p, e := eles2[..|eles2| - 1], eles2[|eles2| - 1];
      assert forall x <- p :: x in eles2;
      MatchesAllKnown(acc, p, prev);
      var rest := Matches(acc, p, prev);
      assert Matches(acc, eles2, prev) == rest + [Pair(prev[IdOf(acc, e)], e)];
      forall k | 0 <= k < |p|
        ensures (rest + [Pair(prev[IdOf(acc, e)], e)])[k] == Pair(prev[IdOf(acc, eles2[k])], eles2[k])
      {
        assert p[k] == eles2[k];
      }
    }
  }

  /** With a `diff` that finds no value changed from itself, pairs of an
      element with itself produce no call. */
  lemma PatchAllIdentical(acc: Accessors, pairs: seq<Pair>)
    requires forall v :: !acc.diff(v, v)
    requires forall q <- pairs :: q.prev == q.next
    ensures PatchAll(acc, pairs) == []
  {
    PatchAllSound(acc, pairs);
    forall q <- pairs
      ensures PatchElement(acc, q.prev, q.next) == []
    {
      PatchElementSelf(acc, q.next);
    }
    var ops := PatchAll(acc, pairs);
    if ops != [] {
      assert ops[0] in ops;
    }
  }

  /** When every pair but one holds an element and itself, the pair loop makes
      exactly the calls of that one pair. */
  lemma {:induction false} PatchAllSinglePair(acc: Accessors, pairs: seq<Pair>, j: nat)
    requires forall v :: !acc.diff(v, v)
    requires j < |pairs| && forall k | 0 <= k < |pairs| && k != j :: pairs[k].prev == pairs[k].next
    ensures PatchAll(acc, pairs) == PatchElement(acc, pairs[j].prev, pairs[j].next)
    decreases |pairs|
  {
    var p, q := pairs[..|pairs| - 1], pairs[|pairs| - 1];
    assert PatchAll(acc, pairs) == PatchAll(acc, p) + PatchElement(acc, q.prev, q.next);
    assert forall k | 0 <= k < |p| :: p[k] == pairs[k];
    if j == |pairs| - 1 {
      assert forall x <- p :: x.prev == x.next;
      PatchAllIdentical(acc, p);
    } else {
      PatchAllSinglePair(acc, p, j);
      PatchElementSelf(acc, q.next);
    }
  }

  /** With a `diff` that finds no value changed from itself, an element
      patched against itself gets no call. */
  lemma PatchElementSelf(acc: Accessors, e: Json)
    requires forall v :: !acc.diff(v, v)
    ensures PatchElement(acc, e, e) == []
  {
    UnchangedElementUntouched(acc, e, e);
  }

  /** When every matched next element is the very previous element of its
      id and `diff` finds no value changed from itself, no element is patched. */
  lemma KeptElementsUntouched(acc: Accessors, eles1: Json, eles2: Json)
    requires forall v :: !acc.diff(v, v)
    requires var prev := PreviousMap(acc, eles1);
             forall e <- acc.forEach(eles2) | IdOf(acc, e) in prev :: prev[IdOf(acc, e)] == e
    ensures MatchedCalls(acc, eles1, eles2) == []
  {
    PatchAllIdentical(acc, Matches(acc, acc.forEach(eles2), PreviousMap(acc, eles1)));
  }

  /** A list with distinct ids, patched against a next list drawn from its
      own elements, patches no element. */
  lemma SublistUntouched(acc: Accessors, eles1: Json, eles2: Json, xs: seq<Json>)
    requires forall v :: !acc.diff(v, v)
    requires !eles1.IsNullish() && acc.forEach(eles1) == xs && DistinctIds(acc, xs)
    requires forall e <- acc.forEach(eles2) | IdOf(acc, e) in Ids(acc, xs) :: e in xs
    ensures MatchedCalls(acc, eles1, eles2) == []
  {
    IndexByDistinctIds(acc, xs);
    KeptElementsUntouched(acc, eles1, eles2);
  }

  /** Additions for a next list extended by one element. */
  lemma AdditionsSnoc(acc: Accessors, eles2: seq<Json>, e: Json, prev: map<Json, Json>)
    ensures Additions(acc, eles2 + [e], prev)
         == Additions(acc, eles2, prev) + (if IdOf(acc, e) in prev then [] else [acc.toJson(e)])
  {
    assert (eles2 + [e])[..|eles2|] == eles2;
  }

  /** Appending an element with a new id to a list with distinct ids adds
      just that element, and the call is an edit. */
  lemma AppendedElementAdded(acc: Accessors, cy: Instance, eles1: Json, eles2: Json, xs: seq<Json>, d: Json)
    requires forall v :: !acc.diff(v, v)
    requires !eles1.IsNullish() && acc.forEach(eles1) == xs && acc.forEach(eles2) == xs + [d]
    requires DistinctIds(acc, xs) && IdOf(acc, d) !in Ids(acc, xs)
    ensures PatchElements(acc, cy, eles1, eles2) == ElementsResult([Add([acc.toJson(d)])], true)
  {
    assert MatchedCalls(acc, eles1, eles2) == [] by {
      assert forall e <- xs + [d] :: e in xs || e == d;
      SublistUntouched(acc, eles1, eles2, xs);
    }
    AppendCalls(acc, cy, eles1, eles2, xs, d);
    ElementsFromCalls(acc, cy, eles1, eles2);
  }

  /** Appending an element with a new id removes nothing and adds just it. */
  lemma AppendCalls(acc: Accessors, cy: Instance, eles1: Json, eles2: Json, xs: seq<Json>, d: Json)
    requires !eles1.IsNullish() && acc.forEach(eles1) == xs && acc.forEach(eles2) == xs + [d]
    requires IdOf(acc, d) !in Ids(acc, xs)
    ensures RemoveCall(acc, cy, eles1, eles2) == []
    ensures AddCall(acc, eles1, eles2) == [Add([acc.toJson(d)])]
  {
    assert RemovedIds(acc, cy, eles1, eles2) == {} by {
      IdsAppend(acc, xs, d);
    }
    var prev := PreviousMap(acc, eles1);
    assert Additions(acc, xs + [d], prev) == [acc.toJson(d)] by {
      NoAdditionsIff(acc, xs, prev);
      AdditionsSnoc(acc, xs, d, prev);
    }
  }

  /** `patchElements` puts its three parts together. */
  lemma ElementsFromCalls(acc: Accessors, cy: Instance, eles1: Json, eles2: Json)
    ensures PatchElements(acc, cy, eles1, eles2).ops
         == RemoveCall(acc, cy, eles1, eles2) + AddCall(acc, eles1, eles2) + MatchedCalls(acc, eles1, eles2)
    ensures PatchElements(acc, cy, eles1, eles2).isEdit
        <==> |RemoveCall(acc, cy, eles1, eles2)| > 0 || |AddCall(acc, eles1, eles2)| > 0
  {
  }

  /** The list with its element at `i` taken out holds every other element
      and none carrying that element's id. */
  lemma SpliceIds(acc: Accessors, xs: seq<Json>, i: nat)
    requires i < |xs| && DistinctIds(acc, xs)
    ensures Ids(acc, xs[..i] + xs[i + 1..]) == Ids(acc, xs) - {IdOf(acc, xs[i])}
    ensures forall e <- xs[..i] + xs[i + 1..] :: e in xs
  {
    var next := xs[..i] + xs[i + 1..];
    forall k | 0 <= k < |next|
      ensures next[k] == xs[if k < i then k else k + 1]
    {
    }
    forall j | 0 <= j < |xs| && j != i
      ensures xs[j] in next
    {
      assert next[if j < i then j else j - 1] == xs[j];
    }
  }

  /** Taking out one element of a list with distinct ids removes just its id,
      when it names a live element, and the call is an edit. */
  lemma SplicedElementRemoved(acc: Accessors, cy: Instance, eles1: Json, eles2: Json, xs: seq<Json>, i: nat)
    requires forall v :: !acc.diff(v, v)
    requires i < |xs| && cy.has(IdOf(acc, xs[i]))
    requires !eles1.IsNullish() && acc.forEach(eles1) == xs && acc.forEach(eles2) == xs[..i] + xs[i + 1..]
    requires DistinctIds(acc, xs)
    ensures PatchElements(acc, cy, eles1, eles2) == ElementsResult([Remove({IdOf(acc, xs[i])})], true)
  {
    assert MatchedCalls(acc, eles1, eles2) == [] by {
      SpliceIds(acc, xs, i);
      SublistUntouched(acc, eles1, eles2, xs);
    }
    SpliceCalls(acc, cy, eles1, eles2, xs, i);
    ElementsFromCalls(acc, cy, eles1, eles2);
  }

  /** Taking out one element with a live id removes just that id and adds
      nothing. */
  lemma SpliceCalls(acc: Accessors, cy: Instance, eles1: Json, eles2: Json, xs: seq<Json>, i: nat)
    requires i < |xs| && cy.has(IdOf(acc, xs[i]))
    requires !eles1.IsNullish() && acc.forEach(eles1) == xs && acc.forEach(eles2) == xs[..i] + xs[i + 1..]
    requires DistinctIds(acc, xs)
    ensures RemoveCall(acc, cy, eles1, eles2) == [Remove({IdOf(acc, xs[i])})]
    ensures AddCall(acc, eles1, eles2) == []
  {
    SpliceIds(acc, xs, i);
    assert RemovedIds(acc, cy, eles1, eles2) == {IdOf(acc, xs[i])};
  }

  /** Replacing one element of a list with distinct ids by an element with
      the same id makes exactly the calls `patchElement` makes for the pair,
      and the call is not an edit. */
  lemma ReplacedElementPatched(acc: Accessors, cy: Instance, eles1: Json, eles2: Json, xs: seq<Json>, i: nat, x: Json)
    requires forall v :: !acc.diff(v, v)
    requires i < |xs| && IdOf(acc, x) == IdOf(acc, xs[i])
    requires !eles1.IsNullish() && acc.forEach(eles1) == xs && acc.forEach(eles2) == xs[i := x]
    requires DistinctIds(acc, xs)
    ensures PatchElements(acc, cy, eles1, eles2) == ElementsResult(PatchElement(acc, xs[i], x), false)
  {
    assert RemoveCall(acc, cy, eles1, eles2) == [] && AddCall(acc, eles1, eles2) == [] by {
      ReplaceIds(acc, xs, i, x);
      assert RemovedIds(acc, cy, eles1, eles2) == {};
    }
    assert MatchedCalls(acc, eles1, eles2) == PatchElement(acc, xs[i], x) by {
      ReplacedPairs(acc, xs, i, x);
    }
    ElementsFromCalls(acc, cy, eles1, eles2);
  }

  /** Replacing an element by one with the same id keeps the list's ids. */
  lemma ReplaceIds(acc: Accessors, xs: seq<Json>, i: nat, x: Json)
    requires i < |xs| && IdOf(acc, x) == IdOf(acc, xs[i])
    ensures Ids(acc, xs[i := x]) == Ids(acc, xs)
  {
    var next := xs[i := x];
    assert forall j | 0 <= j < |xs| :: IdOf(acc, next[j]) == IdOf(acc, xs[j]);
    assert forall e <- next :: exists j | 0 <= j < |xs| :: e == next[j];
    assert forall e <- xs :: exists j | 0 <= j < |xs| :: e == xs[j];
  }

  /** The pairs queued for a replaced element: every element is paired with
      itself except the replacement, which is paired with the element it
      replaces. */
  lemma ReplacedPairs(acc: Accessors, xs: seq<Json>, i: nat, x: Json)
    requires forall v :: !acc.diff(v, v)
    requires i < |xs| && IdOf(acc, x) == IdOf(acc, xs[i]) && DistinctIds(acc, xs)
    ensures PatchAll(acc, Matches(acc, xs[i := x], IndexById(acc, xs))) == PatchElement(acc, xs[i], x)
  {
    var prev, next := IndexById(acc, xs), xs[i := x];
    IndexByDistinctIds(acc, xs);
    ReplaceIds(acc, xs, i, x);
    var pairs := Matches(acc, next, prev);
    MatchesAllKnown(acc, next, prev);
    forall k | 0 <= k < |pairs| && k != i
      ensures pairs[k].prev == pairs[k].next
    {
      assert next[k] == xs[k] && xs[k] in xs;
    }
    assert pairs[i] == Pair(xs[i], x) by {
      assert xs[i] in xs;
    }
    PatchAllSinglePair(acc, pairs, i);
  }
}
