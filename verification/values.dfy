/** JavaScript values as the schema passes see them.

    Model definitions, attributes and their properties are plain objects; an object is an
    ordered association list of own properties. Arrays, symbols, prototypes and non-integral
    numbers are not represented.
 */
module Values {
  import opened Results
  import opened Assoc

  datatype Value =
    | Undefined
    | Null
    | Bool(b: bool)
    | Num(n: int)
    | Str(s: string)
    | Func
    | Obj(props: seq<(string, Value)>)

  /** The own properties of a plain object, in enumeration order. */
  type Props = AList<Value>

  /** JavaScript truthiness: `undefined`, `null`, `false`, `0` and `''` are falsy. */
  predicate Truthy(v: Value) {
    match v
    case Undefined => false
    case Null => false
    case Bool(b) => b
    case Num(n) => n != 0
    case Str(s) => s != ""
    case Func => true
    case Obj(_) => true
  }

  /** Reading a property of `null` or `undefined` throws a TypeError. */
  predicate Nullish(v: Value) {
    v.Undefined? || v.Null?
  }

  /** `m[k]` on a plain object: the own property, or `undefined`. */
  function GetIn(m: Props, k: string): Value {
    match Lookup(m, k)
    case Some(x) => x
    case None => Undefined
  }

  /** `_.has(v, k)` / `Object.prototype.hasOwnProperty.call(v, k)`: an own property of an object. */
  predicate HasProp(v: Value, k: string) {
    v.Obj? && Has(v.props, k)
  }

  /** `v[k]` on a value that is not `null`/`undefined`: only objects carry own properties here. */
  function Get(v: Value, k: string): Value {
    if v.Obj? then GetIn(v.props, k) else Undefined
  }

  /** `v[k] = x` on an object; assigning to a primitive has no effect. */
  function SetProp(v: Value, k: string, x: Value): (r: Value)
    ensures v.Obj? ==> r.Obj? && Get(r, k) == x && HasProp(r, k)
    ensures v.Obj? ==> forall k' :: k' != k ==> Get(r, k') == Get(v, k') && (HasProp(r, k') <==> HasProp(v, k'))
    ensures !v.Obj? ==> r == v
  {
    if v.Obj? then Obj(Upsert(v.props, k, x)) else v
  }

  /** `delete v[k]`. */
  function DeleteProp(v: Value, k: string): (r: Value)
    ensures v.Obj? ==> r.Obj? && !HasProp(r, k) && Get(r, k) == Undefined
    ensures v.Obj? ==> forall k' :: k' != k ==> Get(r, k') == Get(v, k') && (HasProp(r, k') <==> HasProp(v, k'))
    ensures !v.Obj? ==> r == v
  {
    if v.Obj? then Obj(Remove(v.props, k)) else v
  }

  /** `a === b`: objects and functions are compared by reference, so two of them are never
      known to be identical here. */
  predicate StrictEquals(a: Value, b: Value) {
    a == b && !a.Obj? && !a.Func?
  }

  /** The entries from index `i` on give key `k` a value other than `undefined`. */
  ghost predicate Assigns(ps: Props, i: nat, k: string) {
    exists l :: i <= l < |ps| && ps[l].0 == k && !ps[l].1.Undefined?
  }

  /** No `undefined` anywhere in the value, at any depth. */
  predicate Defined(v: Value)
    decreases v
  {
    !v.Undefined? && (v.Obj? ==> forall i :: 0 <= i < |v.props| ==> Defined(v.props[i].1))
  }

  /** `_.merge({}, v)` for one value: an object is copied with `CopyProps`, anything else is
      kept as it is. */
  function CopyValue(v: Value): Value
    decreases v, 2
  {
    if v.Obj? then (assert Obj(v.props) == v; Obj(CopyProps(v.props))) else v
  }

  /** `_.merge({}, o)` on a plain object: a deep copy that leaves out every property whose
      value is `undefined`, at any depth, since the merge never assigns `undefined`. */
  function CopyProps(ps: Props): Props
    decreases Obj(ps), 1
  {
    CopyFrom(ps, 0)
  }

  /** The copy of the entries from index `i` on. */
  function CopyFrom(ps: Props, i: nat): Props
    requires i <= |ps|
    decreases Obj(ps), 0, |ps| - i
  {
    if i == |ps| then []
    else if ps[i].1.Undefined? then CopyFrom(ps, i + 1)
    else [(ps[i].0, CopyValue(ps[i].1))] + CopyFrom(ps, i + 1)
  }

  /** The copy owns exactly the keys the object gives a value other than `undefined`. */
  lemma {:induction false} CopyFromKeys(ps: Props, i: nat, k: string)
    requires i <= |ps|
    ensures Has(CopyFrom(ps, i), k) <==> Assigns(ps, i, k)
    decreases |ps| - i
  {
    if i < |ps| {
      CopyFromKeys(ps, i + 1, k);
      var rest := CopyFrom(ps, i + 1);
      if !ps[i].1.Undefined? {
        KeysCons((ps[i].0, CopyValue(ps[i].1)), rest);
      }
      if Assigns(ps, i, k) && !Assigns(ps, i + 1, k) {
        var l :| i <= l < |ps| && ps[l].0 == k && !ps[l].1.Undefined?;
        assert l == i;
      }
    }
  }

  /** The copy of an object owns exactly the keys it gives a value other than `undefined`. */
  lemma CopyKeys(ps: Props, k: string)
    ensures Has(CopyProps(ps), k) <==> Assigns(ps, 0, k)
  {
    CopyFromKeys(ps, 0, k);
  }

  /** Over distinct keys, the copy stores under each key the copy of the object's value, or
      nothing when that value is `undefined`. */
  lemma {:induction false} CopyFromLookup(ps: Props, i: nat, j: nat)
    requires Distinct(ps) && i <= j < |ps|
    ensures Lookup(CopyFrom(ps, i), ps[j].0) == if ps[j].1.Undefined? then None else Some(CopyValue(ps[j].1))
    decreases j - i
  {
    if i < j {
      CopyFromLookup(ps, i + 1, j);
    } else if ps[j].1.Undefined? {
      CopyFromKeys(ps, i + 1, ps[j].0);
    }
  }

  /** The same, for a key looked up in the object. */
  lemma CopyLookup(ps: Props, k: string)
    requires Distinct(ps) && Has(ps, k)
    ensures Lookup(CopyProps(ps), k) == if Lookup(ps, k).value.Undefined? then None else Some(CopyValue(Lookup(ps, k).value))
  {
    var j :| 0 <= j < |ps| && Keys(ps)[j] == k;
    forall l | 0 <= l < j ensures ps[l].0 != ps[j].0 {
    }
    LookupAt(ps, j);
    CopyFromLookup(ps, 0, j);
  }

  /** The copy of anything but `undefined` holds no `undefined`, at any depth. */
  lemma {:induction false} CopyDefined(v: Value)
    requires !v.Undefined?
    ensures Defined(CopyValue(v))
    decreases v, 1
  {
    if v.Obj? {
      assert Obj(v.props) == v;
      CopyFromDefined(v.props, 0);
      assert CopyValue(v) == Obj(CopyFrom(v.props, 0));
    }
  }

  lemma {:induction false} CopyFromDefined(ps: Props, i: nat)
    requires i <= |ps|
    ensures forall j :: 0 <= j < |CopyFrom(ps, i)| ==> Defined(CopyFrom(ps, i)[j].1)
    decreases Obj(ps), 0, |ps| - i
  {
    if i < |ps| {
      CopyFromDefined(ps, i + 1);
      if !ps[i].1.Undefined? {
        CopyDefined(ps[i].1);
        var r := [(ps[i].0, CopyValue(ps[i].1))] + CopyFrom(ps, i + 1);
        assert forall j :: 1 <= j < |r| ==> r[j] == CopyFrom(ps, i + 1)[j - 1];
      }
    }
  }

  /** A value without `undefined` is its own copy. */
  lemma {:induction false} CopyOfDefined(v: Value)
    requires Defined(v)
    ensures CopyValue(v) == v
    decreases v, 1
  {
    if v.Obj? {
      assert Obj(v.props) == v;
      CopyFromOfDefined(v.props, 0);
    }
  }

  lemma {:induction false} CopyFromOfDefined(ps: Props, i: nat)
    requires i <= |ps|
    requires forall j :: 0 <= j < |ps| ==> Defined(ps[j].1)
    ensures CopyFrom(ps, i) == ps[i..]
    decreases Obj(ps), 0, |ps| - i
  {
    if i < |ps| {
      CopyFromOfDefined(ps, i + 1);
      CopyOfDefined(ps[i].1);
      assert ps[i..] == [ps[i]] + ps[i + 1..];
    }
  }

  /** Copying twice is copying once. */
  lemma CopyIdempotent(v: Value)
    ensures CopyValue(CopyValue(v)) == CopyValue(v)
  {
    if !v.Undefined? {
      CopyDefined(v);
      CopyOfDefined(CopyValue(v));
    }
  }

  /** Assigning a property the value it already holds changes nothing. */
  lemma SetPropSame(v: Value, k: string, x: Value)
    requires HasProp(v, k) && Get(v, k) == x
    ensures SetProp(v, k, x) == v
  {
    UpsertSame(v.props, k, x);
  }
}
