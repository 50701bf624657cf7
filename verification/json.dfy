/**
  JSON-like values as the reconciler sees them, and the "object view" that
  JavaScript's `Object.keys(v)` and `v[key]` give of them. Arrays are objects
  whose own keys are the decimal renderings of their indices.
 */
module JsonValues {

  /** A JavaScript value of the kinds a graph description holds. `JUndef` is
      `undefined` (what reading a missing key yields); `JFun` is any function.
      Numbers are integers: no arithmetic is ever done on them. */
  datatype Json =
    | JUndef
    | JNull
    | JBool(b: bool)
    | JNum(n: int)
    | JStr(s: string)
    | JArr(items: seq<Json>)
    | JObj(fields: map<string, Json>)
    | JFun
  {
    /** `typeof v === 'object' && v !== null` */
    predicate IsObject() {
      JArr? || JObj?
    }

    /** `v == null`, JavaScript's loose comparison: true of null and undefined. */
    predicate IsNullish() {
      JNull? || JUndef?
    }
  }

  /** The character for a digit value. */
  function Digit(d: nat): char
    requires d < 10
  {
    ('0' as int + d) as char
  }

  /** The value of a decimal digit character; 0 for anything else. */
  function DigitValue(c: char): nat
  {
    if '0' <= c <= '9' then c as int - '0' as int else 0
  }

  /** The property key JavaScript gives array index `i`: its decimal rendering. */
  function IndexKey(i: nat): (k: string)
    ensures |k| > 0
    decreases i
  {
    if i < 10 then [Digit(i)] else IndexKey(i / 10) + [Digit(i % 10)]
  }

  /** Reads a string of decimal digits as a number. */
  function ParseDecimal(k: string): nat
    decreases |k|
  {
    if k == [] then 0 else ParseDecimal(k[..|k| - 1]) * 10 + DigitValue(k[|k| - 1])
  }

  /** True of exactly the keys that name an array index (no leading zeros, no sign). */
  predicate IsIndexKey(k: string)
  {
    k == IndexKey(ParseDecimal(k))
  }

  lemma {:induction false} ParseIndexKey(i: nat)
    ensures ParseDecimal(IndexKey(i)) == i
    decreases i
  {
    if i >= 10 {
      ParseIndexKey(i / 10);
      var k := IndexKey(i);
      assert k[..|k| - 1] == IndexKey(i / 10);
      assert DigitValue(k[|k| - 1]) == i % 10;
    }
  }

  /** Distinct indices have distinct keys. */
  lemma IndexKeyInjective(i: nat, j: nat)
    ensures IndexKey(i) == IndexKey(j) ==> i == j
  {
    ParseIndexKey(i);
    ParseIndexKey(j);
  }

  /** The keys of the first `n` array indices. */
  function IndexKeys(n: nat): set<string>
  {
    set i | 0 <= i < n :: IndexKey(i)
  }

  lemma {:induction false} IndexKeysCount(n: nat)
    ensures |IndexKeys(n)| == n
    decreases n
  {
    if n > 0 {
      IndexKeysCount(n - 1);
      assert IndexKeys(n) == IndexKeys(n - 1) + {IndexKey(n - 1)};
      if IndexKey(n - 1) in IndexKeys(n - 1) {
        var i :| 0 <= i < n - 1 && IndexKey(i) == IndexKey(n - 1);
        IndexKeyInjective(i, n - 1);
      }
    }
  }

  /** A key is among the first `n` index keys iff it is an index key below `n`. */
  lemma IndexKeysMember(n: nat, k: string)
    ensures k in IndexKeys(n) <==> IsIndexKey(k) && ParseDecimal(k) < n
  {
    if k in IndexKeys(n) {
      var i :| 0 <= i < n && IndexKey(i) == k;
      ParseIndexKey(i);
    }
    if IsIndexKey(k) && ParseDecimal(k) < n {
      assert IndexKey(ParseDecimal(k)) in IndexKeys(n);
    }
  }

  /** `Object.keys(v)`, as a set: own enumerable keys of an object or array. */
  function Keys(v: Json): set<string>
  {
    match v
    case JArr(s) => IndexKeys(|s|)
    case JObj(m) => m.Keys
    case _ => {}
  }

  /** `v[k]` for a key `k`: the field, the element at that index, or undefined. */
  function Child(v: Json, k: string): Json
  {
    match v
    case JArr(s) => if IsIndexKey(k) && ParseDecimal(k) < |s| then s[ParseDecimal(k)] else JUndef
    case JObj(m) => if k in m then m[k] else JUndef
    case _ => JUndef
  }

  /** Reading a key the value does not own yields undefined. */
  lemma MissingKeyUndefined(v: Json, k: string)
    requires k !in Keys(v)
    ensures Child(v, k) == JUndef
  {
    if v.JArr? {
      IndexKeysMember(|v.items|, k);
    }
  }

  /** An array has one key per element, and reading key `IndexKey(i)` yields element `i`. */
  lemma ArrayObjectView(s: seq<Json>)
    ensures |Keys(JArr(s))| == |s|
    ensures forall i | 0 <= i < |s| :: IndexKey(i) in Keys(JArr(s)) && Child(JArr(s), IndexKey(i)) == s[i]
    ensures forall k | k in Keys(JArr(s)) :: IsIndexKey(k) && ParseDecimal(k) < |s|
  {
    IndexKeysCount(|s|);
    forall i | 0 <= i < |s|
      ensures Child(JArr(s), IndexKey(i)) == s[i]
    {
      ParseIndexKey(i);
    }
    forall k | k in Keys(JArr(s))
      ensures IsIndexKey(k) && ParseDecimal(k) < |s|
    {
      IndexKeysMember(|s|, k);
    }
  }

  /** The plain object with the same own keys and values as array `s`. */
  function IndexedObject(s: seq<Json>): (o: Json)
    ensures o.JObj? && o.fields.Keys == Keys(JArr(s))
  {
    JObj(map k | k in IndexKeys(|s|) :: Child(JArr(s), k))
  }
}
