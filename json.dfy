/** Optional values. */
module Wrappers {
  datatype Option<+T> = None | Some(value: T)
}

/**
 * The JavaScript values the storage layer handles: whatever `JSON.parse`
 * can return, plus `undefined`, which a property access yields for a
 * missing key. An object keeps its own keys in insertion order next to the
 * key-to-value map, because `Object.keys` and `JSON.stringify` enumerate an
 * object's string keys in that order. JavaScript lists integer-like keys
 * ("0", "5") first, in ascending order; the model keeps them in insertion
 * order like any other key.
 */
module Json {
  import opened Wrappers

  datatype Value =
    | Undefined
    | Null
    | Bool(b: bool)
    | Num(n: int)
    | Str(s: string)
    | Arr(items: seq<Value>)
    | Obj(keys: seq<string>, props: map<string, Value>)

  const EmptyObject := Obj([], map[])

  /** JavaScript truthiness: `undefined`, `null`, `false`, `0` and `""` are falsy. */
  predicate Truthy(v: Value): (t: bool)
    ensures Nullish(v) ==> !t
    ensures v.Arr? || v.Obj? ==> t
  {
    !(v.Undefined? || v.Null? || v == Bool(false) || v == Num(0) || v == Str(""))
  }

  /** `v === null || v === undefined`: reading a property of such a value throws. */
  predicate Nullish(v: Value) {
    v.Undefined? || v.Null?
  }

  /** `typeof v === 'object'` (true of `null` and of arrays as well). */
  predicate TypeofObject(v: Value) {
    v.Null? || v.Arr? || v.Obj?
  }

  predicate Distinct(ks: seq<string>) {
    forall i, j | 0 <= i < j < |ks| :: ks[i] != ks[j]
  }

  /**
   * An object as JavaScript builds it: the key order lists every own key
   * exactly once.
   */
  predicate WellFormed(o: Value) {
    o.Obj? && Distinct(o.keys) && (forall k | k in o.props :: k in o.keys) && (forall k | k in o.keys :: k in o.props)
  }

  /** `v[k]` on a value that is not `null`/`undefined`; only objects have own keys. */
  function Get(v: Value, k: string): (r: Value)
    ensures !v.Obj? ==> r == Undefined
    ensures v.Obj? && k !in v.props ==> r == Undefined
  {
    if v.Obj? && k in v.props then v.props[k] else Undefined
  }

  /** `v[k]` as JavaScript evaluates it: `None` when it throws a TypeError. */
  function Member(v: Value, k: string): (r: Option<Value>)
    ensures r.None? <==> Nullish(v)
    ensures r.Some? ==> r.value == Get(v, k)
  {
    if Nullish(v) then None else Some(Get(v, k))
  }

  /** `o[k] = x` on an object: an existing key keeps its place, a new one goes last. */
  function Set(o: Value, k: string, x: Value): (r: Value)
    requires o.Obj?
    ensures r.Obj? && Get(r, k) == x
    ensures forall j :: j != k ==> Get(r, j) == Get(o, j)
    ensures r.keys == if k in o.props then o.keys else o.keys + [k]
    ensures WellFormed(o) ==> WellFormed(r)
  {
    Obj(if k in o.props then o.keys else o.keys + [k], o.props[k := x])
  }

  /** Copy `props`'s values for `keys`, in order, onto `acc`. */
  function SpreadKeys(acc: Value, keys: seq<string>, props: map<string, Value>): (r: Value)
    requires acc.Obj?
    ensures r.Obj? && acc.keys <= r.keys
    decreases |keys|
  {
    if keys == [] then acc
    else
      var k := keys[0];
      SpreadKeys(if k in props then Set(acc, k, props[k]) else acc, keys[1..], props)
  }

  /**
   * `{...acc, ...src}`: the fields of an object `src` are copied, in order,
   * over `acc`; `null`, `undefined`, booleans and numbers contribute none.
   * JavaScript would copy the index keys of a string or an array; the model
   * copies nothing from them.
   */
  function Spread(acc: Value, src: Value): (r: Value)
    requires acc.Obj?
    ensures r.Obj? && acc.keys <= r.keys
    ensures !src.Obj? ==> r == acc
  {
    if src.Obj? then SpreadKeys(acc, src.keys, src.props) else acc
  }

  /** `{...v}`: a shallow copy. */
  function Copy(v: Value): (r: Value)
    ensures r.Obj?
    ensures !v.Obj? ==> r == EmptyObject
  {
    Spread(EmptyObject, v)
  }

  /** After spreading, a key holds the source's value if the source has it, otherwise the target's. */
  lemma {:induction false} SpreadKeysGet(acc: Value, keys: seq<string>, props: map<string, Value>, k: string)
    requires acc.Obj?
    ensures Get(SpreadKeys(acc, keys, props), k) == if k in keys && k in props then props[k] else Get(acc, k)
    decreases |keys|
  {
    if keys != [] {
      var acc' := if keys[0] in props then Set(acc, keys[0], props[keys[0]]) else acc;
      SpreadKeysGet(acc', keys[1..], props, k);
      assert k in keys <==> k == keys[0] || k in keys[1..];
    }
  }

  /** `{...acc, ...src}` reads as `src` on the source's keys and as `acc` elsewhere. */
  lemma SpreadGet(acc: Value, src: Value, k: string)
    requires acc.Obj? && WellFormed(src)
    ensures Get(Spread(acc, src), k) == if k in src.props then src.props[k] else Get(acc, k)
  {
    SpreadKeysGet(acc, src.keys, src.props, k);
  }

  /** The keys a spread ends up with: the target's and the copied ones. */
  lemma {:induction false} SpreadKeysDomain(acc: Value, keys: seq<string>, props: map<string, Value>, k: string)
    requires acc.Obj?
    ensures k in SpreadKeys(acc, keys, props).props <==> k in acc.props || (k in keys && k in props)
    decreases |keys|
  {
    if keys != [] {
      var acc' := if keys[0] in props then Set(acc, keys[0], props[keys[0]]) else acc;
      SpreadKeysDomain(acc', keys[1..], props, k);
      assert k in keys <==> k == keys[0] || k in keys[1..];
    }
  }

  /** Spreading keys that are all new appends them to the key order, in order. */
  lemma {:induction false} SpreadKeysAppends(acc: Value, keys: seq<string>, props: map<string, Value>)
    requires acc.Obj? && Distinct(acc.keys + keys)
    requires forall k | k in acc.props :: k in acc.keys
    requires forall k | k in keys :: k in props
    ensures SpreadKeys(acc, keys, props).keys == acc.keys + keys
    decreases |keys|
  {
    if keys != [] {
      var k := keys[0];
      assert (acc.keys + keys)[|acc.keys|] == k;
      assert k !in acc.keys by {
        forall i | 0 <= i < |acc.keys| ensures acc.keys[i] != k {
          assert (acc.keys + keys)[i] == acc.keys[i];
        }
      }
      var acc' := Set(acc, k, props[k]);
      assert acc'.keys == acc.keys + [k];
      assert acc.keys + keys == acc'.keys + keys[1..];
      SpreadKeysAppends(acc', keys[1..], props);
    }
  }

  /** Copying a well-formed object yields an equal object. */
  lemma CopyOfObject(v: Value)
    requires WellFormed(v)
    ensures Copy(v) == v
  {
    var c := SpreadKeys(EmptyObject, v.keys, v.props);
    assert Copy(v) == c;
    assert EmptyObject.keys + v.keys == v.keys;
    SpreadKeysAppends(EmptyObject, v.keys, v.props);
    CopyProps(v);
  }

  /** A copy has the same own properties as the original. */
  lemma CopyProps(v: Value)
    requires WellFormed(v)
    ensures SpreadKeys(EmptyObject, v.keys, v.props).props == v.props
  {
    var c := SpreadKeys(EmptyObject, v.keys, v.props);
    forall k ensures k in c.props <==> k in v.props {
      SpreadKeysDomain(EmptyObject, v.keys, v.props, k);
    }
    forall k | k in v.props ensures c.props[k] == v.props[k] {
      SpreadKeysGet(EmptyObject, v.keys, v.props, k);
    }
  }

  /** Spreading values an object already holds under the same keys changes nothing. */
  lemma {:induction false} SpreadKeysSame(acc: Value, keys: seq<string>, props: map<string, Value>)
    requires acc.Obj?
    requires forall k | k in keys :: k in props && k in acc.props && acc.props[k] == props[k]
    ensures SpreadKeys(acc, keys, props) == acc
    decreases |keys|
  {
    if keys != [] {
      var k := keys[0];
      assert acc.props[k := props[k]] == acc.props;
      assert Set(acc, k, props[k]) == acc;
      SpreadKeysSame(acc, keys[1..], props);
    }
  }

  /** `{...o, ...o}` is `o` for a well-formed object. */
  lemma SpreadSelf(o: Value)
    requires WellFormed(o)
    ensures Spread(o, o) == o
  {
    SpreadKeysSame(o, o.keys, o.props);
  }

  /** Assigning a key twice keeps only the second value. */
  lemma SetTwice(o: Value, k: string, x: Value, y: Value)
    requires o.Obj?
    ensures Set(Set(o, k, x), k, y) == Set(o, k, y)
  {
  }

  /** Assignments to two different keys commute once the first key exists. */
  lemma SetSwap(o: Value, k: string, j: string, x: Value, y: Value)
    requires o.Obj? && k != j && k in o.props
    ensures Set(Set(o, k, x), j, y) == Set(Set(o, j, y), k, x)
  {
    assert o.props[k := x][j := y] == o.props[j := y][k := x];
  }
}
