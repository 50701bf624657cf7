/**
  The structural equality oracle of `src/deepEqual.js`: the default change
  detector, and the gate the reconciler puts in front of a stylesheet swap.
 */
module DeepEquality {
  import opened JsonValues

  /** `deepEqual(a, b)`. A function operand makes the result true whatever the
      other operand is; a non-object or null operand falls back to strict
      equality; two objects (arrays included) need the same number of own keys,
      and every key of `a` must be a key of `b` holding a deep-equal value.
      The walk is over the keys of `a`, with `a[key]` read off its shape. */
  function DeepEqual(a: Json, b: Json): bool
    decreases a
  {
    if a.JFun? || b.JFun? then true
    else if !b.IsObject() then a == b
    else
      match a
      case JArr(s) =>
        && |s| == |Keys(b)|
        && forall i | 0 <= i < |s| :: IndexKey(i) in Keys(b) && DeepEqual(s[i], Child(b, IndexKey(i)))
      case JObj(m) =>
        && |m| == |Keys(b)|
        && forall k <- m.Keys :: k in Keys(b) && DeepEqual(m[k], Child(b, k))
      case _ => a == b
  }

  /** Any function operand makes the two values equal, whatever the other one is. */
  lemma FunctionOperandEqual(a: Json, b: Json)
    requires a.JFun? || b.JFun?
    ensures DeepEqual(a, b)
  {
  }

  /** Without a function operand, a non-object or null operand compares by
      strict equality; in particular null equals only null. */
  lemma NonObjectIsStrictEquality(a: Json, b: Json)
    requires !a.JFun? && !b.JFun?
    requires !a.IsObject() || !b.IsObject()
    ensures DeepEqual(a, b) <==> a == b
    ensures a == JNull ==> (DeepEqual(a, b) <==> b == JNull)
  {
  }

  /** A finite subset as large as its superset is the whole superset. */
  lemma SubsetOfSameSize<T>(x: set<T>, y: set<T>)
    requires x <= y && |x| == |y|
    ensures x == y
  {
    assert |y - x| == |y| - |x|;
  }

  /** Two objects are deep-equal iff they have the same key set and deep-equal
      values under every key. Both the size check and the membership check of
      the source are needed for the key sets to coincide. */
  lemma ObjectsEqualIff(a: Json, b: Json)
    requires a.IsObject() && b.IsObject()
    ensures DeepEqual(a, b) <==>
              (Keys(a) == Keys(b) && forall k <- Keys(a) :: DeepEqual(Child(a, k), Child(b, k)))
  {
    match a
    case JArr(s) =>
      ArrayObjectView(s);
      if DeepEqual(a, b) {
        assert Keys(a) <= Keys(b);
        SubsetOfSameSize(Keys(a), Keys(b));
        forall k <- Keys(a)
          ensures DeepEqual(Child(a, k), Child(b, k))
        {
          IndexKeysMember(|s|, k);
          assert IndexKey(ParseDecimal(k)) == k;
        }
      }
      if Keys(a) == Keys(b) && forall k <- Keys(a) :: DeepEqual(Child(a, k), Child(b, k)) {
        forall i | 0 <= i < |s|
          ensures IndexKey(i) in Keys(b) && DeepEqual(s[i], Child(b, IndexKey(i)))
        {
          assert IndexKey(i) in Keys(a);
        }
      }
    case JObj(m) =>
      if DeepEqual(a, b) {
        assert Keys(a) <= Keys(b);
        SubsetOfSameSize(Keys(a), Keys(b));
      }
  }

  /** A key of the first object that the second lacks makes them unequal, and
      so does a differing number of keys. */
  lemma KeyMismatchUnequal(a: Json, b: Json)
    requires a.IsObject() && b.IsObject()
    requires |Keys(a)| != |Keys(b)| || exists k :: k in Keys(a) && k !in Keys(b)
    ensures !DeepEqual(a, b)
  {
    ObjectsEqualIff(a, b);
  }

  /** Every acyclic value is deep-equal to itself. */
  lemma {:induction false} DeepEqualReflexive(x: Json)
    ensures DeepEqual(x, x)
    decreases x
  {
    match x
    case JArr(s) =>
      ArrayObjectView(s);
      forall i | 0 <= i < |s|
        ensures DeepEqual(s[i], Child(x, IndexKey(i)))
      {
        DeepEqualReflexive(s[i]);
      }
    case JObj(m) =>
      forall k <- m.Keys
        ensures DeepEqual(m[k], Child(x, k))
      {
        DeepEqualReflexive(m[k]);
      }
    case _ =>
  }

  /** The order of the operands does not matter. */
  lemma {:induction false} DeepEqualSymmetric(a: Json, b: Json)
    ensures DeepEqual(a, b) == DeepEqual(b, a)
    decreases a
  {
    if a.IsObject() && b.IsObject() && !a.JFun? && !b.JFun? {
      ObjectsEqualIff(a, b);
      ObjectsEqualIff(b, a);
      if Keys(a) == Keys(b) {
        forall k <- Keys(a)
          ensures DeepEqual(Child(a, k), Child(b, k)) == DeepEqual(Child(b, k), Child(a, k))
        {
          match a
          case JArr(s) =>
            IndexKeysMember(|s|, k);
            DeepEqualSymmetric(s[ParseDecimal(k)], Child(b, k));
          case JObj(m) =>
            DeepEqualSymmetric(m[k], Child(b, k));
        }
      }
    }
  }

  /** Two arrays are deep-equal iff they have equal lengths and pairwise
      deep-equal elements. */
  lemma ArraysEqualIff(s: seq<Json>, t: seq<Json>)
    ensures DeepEqual(JArr(s), JArr(t)) <==>
              (|s| == |t| && forall i | 0 <= i < |s| :: DeepEqual(s[i], t[i]))
  {
    ArrayObjectView(s);
    ArrayObjectView(t);
    ObjectsEqualIff(JArr(s), JArr(t));
    if DeepEqual(JArr(s), JArr(t)) {
      assert |s| == |t|;
    }
    if |s| == |t| && forall i | 0 <= i < |s| :: DeepEqual(s[i], t[i]) {
      assert Keys(JArr(s)) == Keys(JArr(t));
    }
  }

  /** An array and the plain object with the same index keys and values are
      deep-equal, in either order. */
  lemma ArrayEqualsIndexedObject(s: seq<Json>)
    ensures DeepEqual(JArr(s), IndexedObject(s))
    ensures DeepEqual(IndexedObject(s), JArr(s))
  {
    var o := IndexedObject(s);
    ArrayObjectView(s);
    forall k <- Keys(JArr(s))
      ensures DeepEqual(Child(JArr(s), k), Child(o, k))
    {
      DeepEqualReflexive(Child(JArr(s), k));
    }
    ObjectsEqualIff(JArr(s), o);
    DeepEqualSymmetric(JArr(s), o);
  }

  /** Because of the function short-circuit the oracle is not transitive:
      1 and 2 both equal a function, yet differ from each other. */
  lemma NotTransitive()
    ensures DeepEqual(JNum(1), JFun) && DeepEqual(JFun, JNum(2))
    ensures !DeepEqual(JNum(1), JNum(2))
  {
  }
}
