/**
  Worked `patchElements` calls with the plain accessor bundle: the element
  edits of the component tests (adding, removing and relabelling one of the
  three default elements), and one constructed call that removes, adds and
  patches at once.
 */
module Scenarios {
  import opened JsonValues
  import opened DeepEquality
  import opened Host
  import opened Operations
  import opened ElementPatch

  /** `{data: {id, label}}` */
  function Node(id: string, name: string): Json
  {
    JObj(map["data" := NodeData(id, name)])
  }

  function NodeData(id: string, name: string): Json
  {
    JObj(map["id" := JStr(id), "label" := JStr(name)])
  }

  /** An instance holding every element it is asked about. */
  const Everything: Instance := Instance(_ => true, true)

  // ------------------------------------------------- a constructed call

  /** The nodes of a constructed call from `[a: apple, b: banana]` to
      `[a: apricot, c: cherry]`, which removes, adds and patches at once. */
  const Apple: Json := Node("a", "apple")
  const Banana: Json := Node("b", "banana")
  const Apricot: Json := Node("a", "apricot")
  const Cherry: Json := Node("c", "cherry")

  lemma NodeId(id: string, name: string)
    ensures IdOf(Plain, Node(id, name)) == JStr(id)
  {
    assert Plain.get(Node(id, name), "data") == NodeData(id, name);
  }

  lemma NodeIds()
    ensures IdOf(Plain, Apple) == JStr("a") && IdOf(Plain, Banana) == JStr("b")
    ensures IdOf(Plain, Apricot) == JStr("a") && IdOf(Plain, Cherry) == JStr("c")
  {
    NodeId("a", "apple");
    NodeId("b", "banana");
    NodeId("a", "apricot");
    NodeId("c", "cherry");
  }

  /** A two-element list is indexed by its two ids, the second winning a clash. */
  lemma IndexTwo(acc: Accessors, x: Json, y: Json)
    ensures IndexById(acc, [x, y]) == map[IdOf(acc, x) := x][IdOf(acc, y) := y]
  {
    assert [x, y][..1] == [x];
    assert [x][..0] == [];
  }

  /** Additions and matches of a two-element next list, element by element. */
  lemma SplitTwo(acc: Accessors, x: Json, y: Json, prev: map<Json, Json>)
    ensures Additions(acc, [x, y], prev)
         == (if IdOf(acc, x) in prev then [] else [acc.toJson(x)]) + (if IdOf(acc, y) in prev then [] else [acc.toJson(y)])
    ensures Matches(acc, [x, y], prev)
         == (if IdOf(acc, x) in prev then [Pair(prev[IdOf(acc, x)], x)] else [])
          + (if IdOf(acc, y) in prev then [Pair(prev[IdOf(acc, y)], y)] else [])
  {
    assert [x, y][..1] == [x];
    assert [x][..0] == [];
    assert Matches(acc, [x], prev) == (if IdOf(acc, x) in prev then [Pair(prev[IdOf(acc, x)], x)] else []);
  }

  /** Of the two next elements only the cherry has an id the previous list lacks. */
  lemma SplitNext()
    ensures Additions(Plain, [Apricot, Cherry], IndexById(Plain, [Apple, Banana])) == [Cherry]
    ensures Matches(Plain, [Apricot, Cherry], IndexById(Plain, [Apple, Banana])) == [Pair(Apple, Apricot)]
  {
    NodeIds();
    IndexTwo(Plain, Apple, Banana);
    var prev := IndexById(Plain, [Apple, Banana]);
    assert prev == map[JStr("a") := Apple, JStr("b") := Banana];
    SplitTwo(Plain, Apricot, Cherry, prev);
  }

  /** Only `data` differs between the apple and the apricot. */
  lemma ApricotFieldPatch()
    ensures FieldPatch(Plain, Apple, Apricot, JsonKeys) == map["data" := NodeData("a", "apricot")]
  {
    RelabelledFieldPatch("a", "apple", "apricot");
  }

  /** Relabelling a node patches just its `data`. */
  lemma RelabelledFieldPatch(id: string, l1: string, l2: string)
    requires l1 != l2
    ensures FieldPatch(Plain, Node(id, l1), Node(id, l2), JsonKeys) == map["data" := NodeData(id, l2)]
  {
    RelabelledDataDiffers(id, l1, l2);
    DataOnlyFieldPatch(map[], NodeData(id, l1), NodeData(id, l2));
  }

  /** Replacing only `data` by an object that is not deep-equal to it
      yields a field patch holding just the new `data`. */
  lemma DataOnlyFieldPatch(f: map<string, Json>, d1: Json, d2: Json)
    requires !DeepEqual(d2, d1)
    ensures FieldPatch(Plain, JObj(f["data" := d1]), JObj(f["data" := d2]), JsonKeys) == map["data" := d2]
  {
    var e1, e2 := JObj(f["data" := d1]), JObj(f["data" := d2]);
    DataOnlyChanged(f, d1, d2, e1, e2);
    PlainDiffIrreflexive();
    assert "data" in JsonKeys;
    SingleFieldPatch(Plain, e1, e2, JsonKeys, "data");
    assert Plain.toJson(Plain.get(e2, "data")) == d2;
  }

  /** A field patch over keys of which only `key` differs holds just that key. */
  lemma SingleFieldPatch(acc: Accessors, e1: Json, e2: Json, keys: seq<string>, key: string)
    requires key in keys && acc.diff(acc.get(e2, key), acc.get(e1, key))
    requires forall k | k != key :: !acc.diff(acc.get(e2, k), acc.get(e1, k))
    ensures FieldPatch(acc, e1, e2, keys) == map[key := acc.toJson(acc.get(e2, key))]
  {
    var patch := FieldPatch(acc, e1, e2, keys);
    assert patch.Keys == {key};
  }

  /** The kept element gets only its field patch: its scratch is unchanged. */
  lemma ApricotPatch()
    ensures PatchElement(Plain, Apple, Apricot) == [EleJson(JStr("a"), map["data" := NodeData("a", "apricot")])]
  {
    NodeIds();
    ApricotFieldPatch();
    assert !ScratchChanged(Plain, Apple, Apricot) by {
      assert Plain.get(Apricot, "scratch") == JUndef == Plain.get(Apple, "scratch");
      assert !DiffPlain(JUndef, JUndef);
    }
    assert FieldChanged(Plain, Apple, Apricot) by {
      RelabelledDataDiffers("a", "apple", "apricot");
      assert "data" in JsonKeys;
    }
    FieldCallOnly(Plain, Apple, Apricot);
  }

  lemma IdsOfTwo(x: Json, y: Json)
    ensures Ids(Plain, [x, y]) == {IdOf(Plain, x), IdOf(Plain, y)}
  {
    IdsAppend(Plain, [x], y);
    assert [x] + [y] == [x, y];
    assert Ids(Plain, [x]) == {IdOf(Plain, x)};
  }

  /** Only the banana's id is missing from the next list. */
  lemma BananaRemoved()
    ensures RemovedIds(Plain, Everything, JArr([Apple, Banana]), JArr([Apricot, Cherry])) == {JStr("b")}
  {
    var eles1, eles2 := JArr([Apple, Banana]), JArr([Apricot, Cherry]);
    NodeIds();
    IdsOfTwo(Apple, Banana);
    IdsOfTwo(Apricot, Cherry);
    assert PreviousList(Plain, eles1) == [Apple, Banana];
    assert Plain.forEach(eles2) == [Apricot, Cherry];
    RemovalIsSetDifference(Plain, Everything, eles1, eles2);
    KeptRemovedAdded(JStr("a"), JStr("b"), JStr("c"));
  }

  lemma KeptRemovedAdded(kept: Json, removed: Json, added: Json)
    requires removed != kept && removed != added
    ensures {kept, removed} - {kept, added} == {removed}
  {
  }

  /** The three calls of the example, one per part of the trace. */
  lemma ApricotCherryParts()
    ensures RemoveCall(Plain, Everything, JArr([Apple, Banana]), JArr([Apricot, Cherry])) == [Remove({JStr("b")})]
    ensures AddCall(Plain, JArr([Apple, Banana]), JArr([Apricot, Cherry])) == [Add([Cherry])]
    ensures MatchedCalls(Plain, JArr([Apple, Banana]), JArr([Apricot, Cherry]))
         == [EleJson(JStr("a"), map["data" := NodeData("a", "apricot")])]
  {
    var eles1, eles2 := JArr([Apple, Banana]), JArr([Apricot, Cherry]);
    assert PreviousList(Plain, eles1) == [Apple, Banana];
    assert Plain.forEach(eles2) == [Apricot, Cherry];
    BananaRemoved();
    var rm := RemoveCall(Plain, Everything, eles1, eles2);
    assert rm == [rm[0]];
    NodeIds();
    IdsOfTwo(Apple, Banana);
    IdsOfTwo(Apricot, Cherry);
    SplitNext();
    var add := AddCall(Plain, eles1, eles2);
    assert JStr("c") in Ids(Plain, [Apricot, Cherry]);
    assert add == [add[0]];
    ApricotPatch();
    assert PatchAll(Plain, [Pair(Apple, Apricot)]) == PatchAll(Plain, []) + PatchElement(Plain, Apple, Apricot);
  }

  /** From `[a: apple, b: banana]` to `[a: apricot, c: cherry]`: `b` is
      removed, `c` is added, and `a` gets a patch holding only its new
      `data`; the call reports an edit. */
  lemma ApricotCherry()
    ensures PatchElements(Plain, Everything, JArr([Apple, Banana]), JArr([Apricot, Cherry])).ops
         == [Remove({JStr("b")}), Add([Cherry]), EleJson(JStr("a"), map["data" := NodeData("a", "apricot")])]
    ensures PatchElements(Plain, Everything, JArr([Apple, Banana]), JArr([Apricot, Cherry])).isEdit
  {
    ApricotCherryParts();
    var eles1, eles2 := JArr([Apple, Banana]), JArr([Apricot, Cherry]);
    assert PatchElements(Plain, Everything, eles1, eles2).ops
        == RemoveCall(Plain, Everything, eles1, eles2) + AddCall(Plain, eles1, eles2) + MatchedCalls(Plain, eles1, eles2);
    Singletons(RemoveCall(Plain, Everything, eles1, eles2), AddCall(Plain, eles1, eles2), MatchedCalls(Plain, eles1, eles2));
  }

  lemma Singletons(a: seq<Op>, b: seq<Op>, c: seq<Op>)
    requires |a| == |b| == |c| == 1
    ensures a + b + c == [a[0], b[0], c[0]]
  {
  }

  // ------------------------------------------------ the component tests

  /** An element of the tests' default description:
      `{data: {id, label}, position: {x: 0, y: 0}, scratch: {_test: n}, classes: 'foo bar'}`. */
  function TestElement(id: string, name: string, n: int): Json
  {
    JObj(TestFields(n)["data" := NodeData(id, name)])
  }

  /** The fields of a default element besides `data`. */
  function TestFields(n: int): map<string, Json>
  {
    map["position" := JObj(map["x" := JNum(0), "y" := JNum(0)]),
        "scratch" := JObj(map["_test" := JNum(n)]),
        "classes" := JStr("foo bar")]
  }

  /** The tests' default elements: apple, banana and cherry. */
  const Defaults: seq<Json> := [TestElement("a", "apple", 1), TestElement("b", "banana", 2), TestElement("c", "cherry", 3)]

  lemma TestElementId(id: string, name: string, n: int)
    ensures IdOf(Plain, TestElement(id, name, n)) == JStr(id)
  {
    assert Plain.get(TestElement(id, name, n), "data") == NodeData(id, name);
  }

  /** Three elements with pairwise different ids. */
  lemma ThreeDistinct(acc: Accessors, x: Json, y: Json, z: Json)
    requires IdOf(acc, x) != IdOf(acc, y) && IdOf(acc, x) != IdOf(acc, z) && IdOf(acc, y) != IdOf(acc, z)
    ensures DistinctIds(acc, [x, y, z])
    ensures Ids(acc, [x, y, z]) == {IdOf(acc, x), IdOf(acc, y), IdOf(acc, z)}
  {
    assert forall e <- [x, y, z] :: e == x || e == y || e == z;
  }

  /** Appending a fourth element with a new id to three with distinct ids
      adds just that element. */
  lemma AddToThree(acc: Accessors, cy: Instance, eles1: Json, eles2: Json, x: Json, y: Json, z: Json, d: Json)
    requires forall v :: !acc.diff(v, v)
    requires !eles1.IsNullish() && acc.forEach(eles1) == [x, y, z] && acc.forEach(eles2) == [x, y, z, d]
    requires IdOf(acc, x) != IdOf(acc, y) && IdOf(acc, x) != IdOf(acc, z) && IdOf(acc, y) != IdOf(acc, z)
    requires IdOf(acc, d) !in {IdOf(acc, x), IdOf(acc, y), IdOf(acc, z)}
    ensures PatchElements(acc, cy, eles1, eles2) == ElementsResult([Add([acc.toJson(d)])], true)
  {
    ThreeDistinct(acc, x, y, z);
    assert [x, y, z, d] == [x, y, z] + [d];
    AppendedElementAdded(acc, cy, eles1, eles2, [x, y, z], d);
  }

  /** "adds an element": pushing `{data: {id: 'd', label: 'date'}}` onto the
      defaults adds just that element and is an edit. */
  lemma AddsAnElement()
    ensures PatchElements(Plain, Everything, JArr(Defaults), JArr(Defaults + [Node("d", "date")]))
         == ElementsResult([Add([Node("d", "date")])], true)
  {
    TestElementId("a", "apple", 1);
    TestElementId("b", "banana", 2);
    TestElementId("c", "cherry", 3);
    NodeId("d", "date");
    PlainDiffIrreflexive();
    assert Defaults + [Node("d", "date")] == [Defaults[0], Defaults[1], Defaults[2], Node("d", "date")];
    AddToThree(Plain, Everything, JArr(Defaults), JArr(Defaults + [Node("d", "date")]),
               Defaults[0], Defaults[1], Defaults[2], Node("d", "date"));
  }

  /** Taking the middle one out of three elements with distinct ids removes
      just its id, when it names a live element. */
  lemma RemoveFromThree(acc: Accessors, cy: Instance, eles1: Json, eles2: Json, x: Json, y: Json, z: Json)
    requires forall v :: !acc.diff(v, v)
    requires !eles1.IsNullish() && acc.forEach(eles1) == [x, y, z] && acc.forEach(eles2) == [x, z]
    requires IdOf(acc, x) != IdOf(acc, y) && IdOf(acc, x) != IdOf(acc, z) && IdOf(acc, y) != IdOf(acc, z)
    requires cy.has(IdOf(acc, y))
    ensures PatchElements(acc, cy, eles1, eles2) == ElementsResult([Remove({IdOf(acc, y)})], true)
  {
    ThreeDistinct(acc, x, y, z);
    assert [x, z] == [x, y, z][..1] + [x, y, z][2..];
    SplicedElementRemoved(acc, cy, eles1, eles2, [x, y, z], 1);
  }

  /** "removes an element": splicing out the banana at index 1 removes just
      `b` and is an edit. */
  lemma RemovesAnElement()
    ensures PatchElements(Plain, Everything, JArr(Defaults), JArr([Defaults[0], Defaults[2]]))
         == ElementsResult([Remove({JStr("b")})], true)
  {
    TestElementId("a", "apple", 1);
    TestElementId("b", "banana", 2);
    TestElementId("c", "cherry", 3);
    PlainDiffIrreflexive();
    RemoveFromThree(Plain, Everything, JArr(Defaults), JArr([Defaults[0], Defaults[2]]), Defaults[0], Defaults[1], Defaults[2]);
  }

  /** Replacing the first of three elements with distinct ids by one with
      the same id makes just the calls of that pair. */
  lemma ReplaceInThree(acc: Accessors, cy: Instance, eles1: Json, eles2: Json, x: Json, y: Json, z: Json, x': Json)
    requires forall v :: !acc.diff(v, v)
    requires !eles1.IsNullish() && acc.forEach(eles1) == [x, y, z] && acc.forEach(eles2) == [x', y, z]
    requires IdOf(acc, x) != IdOf(acc, y) && IdOf(acc, x) != IdOf(acc, z) && IdOf(acc, y) != IdOf(acc, z)
    requires IdOf(acc, x') == IdOf(acc, x)
    ensures PatchElements(acc, cy, eles1, eles2) == ElementsResult(PatchElement(acc, x, x'), false)
  {
    ThreeDistinct(acc, x, y, z);
    assert [x', y, z] == [x, y, z][0 := x'];
    ReplacedElementPatched(acc, cy, eles1, eles2, [x, y, z], 0, x');
  }

  /** Two `data` objects with the same id and different labels differ. */
  lemma RelabelledDataDiffers(id: string, l1: string, l2: string)
    requires l1 != l2
    ensures Plain.diff(NodeData(id, l2), NodeData(id, l1))
  {
    var d2, d1 := NodeData(id, l2), NodeData(id, l1);
    assert Child(d1, "label") == JStr(l1);
    assert !DeepEqual(JStr(l2), JStr(l1));
    assert "label" in d2.fields;
  }

  /** Replacing an element's `data` object by one that is not deep-equal to
      it changes that field and no other. */
  lemma DataOnlyChanged(f: map<string, Json>, d1: Json, d2: Json, e1: Json, e2: Json)
    requires !DeepEqual(d2, d1)
    requires e1 == JObj(f["data" := d1]) && e2 == JObj(f["data" := d2])
    ensures Plain.diff(Plain.get(e2, "data"), Plain.get(e1, "data"))
    ensures forall k | k != "data" :: Child(e2, k) == Child(e1, k)
  {
  }

  /** An element with exactly one changed field, and that one compared, gets
      one field call holding just that field. */
  lemma SingleFieldCall(acc: Accessors, e1: Json, e2: Json, key: string)
    requires key in JsonKeys && acc.diff(acc.get(e2, key), acc.get(e1, key))
    requires forall k | k != key :: !acc.diff(acc.get(e2, k), acc.get(e1, k))
    ensures PatchElement(acc, e1, e2) == [EleJson(IdOf(acc, e2), map[key := acc.toJson(acc.get(e2, key))])]
  {
    SingleFieldPatch(acc, e1, e2, JsonKeys, key);
    assert "scratch" != key;
    FieldCallOnly(acc, e1, e2);
  }

  /** Replacing an element's `data` object by one that is not deep-equal to
      it patches just `data`, on the id the new object carries. */
  lemma DataOnlyPatch(f: map<string, Json>, d1: Json, d2: Json)
    requires !DeepEqual(d2, d1)
    ensures PatchElement(Plain, JObj(f["data" := d1]), JObj(f["data" := d2]))
         == [EleJson(Child(d2, "id"), map["data" := d2])]
  {
    var e1, e2 := JObj(f["data" := d1]), JObj(f["data" := d2]);
    assert IdOf(Plain, e2) == Child(d2, "id");
    assert Plain.toJson(Plain.get(e2, "data")) == d2;
    DataOnlyChanged(f, d1, d2, e1, e2);
    PlainDiffIrreflexive();
    SingleFieldCall(Plain, e1, e2, "data");
  }

  /** Relabelling a test element patches just its `data`. */
  lemma RelabelPatch(id: string, l1: string, l2: string, n: int)
    requires l1 != l2
    ensures PatchElement(Plain, TestElement(id, l1, n), TestElement(id, l2, n))
         == [EleJson(JStr(id), map["data" := NodeData(id, l2)])]
  {
    assert Child(NodeData(id, l2), "id") == JStr(id);
    RelabelledDataDiffers(id, l1, l2);
    DataOnlyPatch(TestFields(n), NodeData(id, l1), NodeData(id, l2));
  }

  /** "modifies element data": relabelling `a` as apricot patches only its
      `data` and is not an edit. */
  lemma ModifiesElementData()
    ensures PatchElements(Plain, Everything, JArr(Defaults), JArr(Defaults[0 := TestElement("a", "apricot", 1)]))
         == ElementsResult([EleJson(JStr("a"), map["data" := NodeData("a", "apricot")])], false)
  {
    TestElementId("a", "apple", 1);
    TestElementId("b", "banana", 2);
    TestElementId("c", "cherry", 3);
    TestElementId("a", "apricot", 1);
    PlainDiffIrreflexive();
    assert Defaults[0 := TestElement("a", "apricot", 1)] == [TestElement("a", "apricot", 1), Defaults[1], Defaults[2]];
    ReplaceInThree(Plain, Everything, JArr(Defaults), JArr(Defaults[0 := TestElement("a", "apricot", 1)]),
                   Defaults[0], Defaults[1], Defaults[2], TestElement("a", "apricot", 1));
    RelabelPatch("a", "apple", "apricot", 1);
  }
}
