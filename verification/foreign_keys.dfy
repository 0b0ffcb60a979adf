/** The foreign-key pass: every attribute naming a `model` is replaced by a foreign-key
    descriptor typed after the target's primary key.

    Collections are visited in order and, within each, its attribute names as they stood when
    the visit began. Every step reads the current collections, so a primary-key lookup sees
    the replacements made so far.
 */
module ForeignKeys {
  import opened Results
  import opened Assoc
  import opened Strings
  import opened Values
  import opened Collections

  /** `buildColumnName`: an own `columnName` lower-cased, else the attribute name
      lower-cased. */
  function BuildColumnName(key: string, attr: Value): (r: Result<string>)
    ensures r.Ok? <==> !HasProp(attr, "columnName") || Get(attr, "columnName").Str?
    ensures r.Ok? ==> IsLower(r.value)
    ensures r.Ok? ==> r.value == Lower(if HasProp(attr, "columnName") then Get(attr, "columnName").s else key)
  {
    if HasProp(attr, "columnName") then LowerOf(Get(attr, "columnName"), "columnName")
    else LowerIsLower(key); Ok(Lower(key))
  }

  /** The attribute that replaces an association: `{columnName, type, foreignKey: true,
      references, on}`, typed after the target's primary key and pointing at its name. */
  function Descriptor(columnName: string, pk: (string, Value), modelName: string): Value {
    Obj([("columnName", Str(columnName)), ("type", Get(pk.1, "type")), ("foreignKey", Bool(true)),
         ("references", Str(modelName)), ("on", Str(pk.0))])
  }

  /** An attribute the pass leaves alone: readable, and naming no model. */
  predicate Settled(v: Value) {
    !Nullish(v) && !Truthy(Get(v, "model"))
  }

  ghost predicate SettledAttrs(attrs: Props) {
    forall k :: Has(attrs, k) ==> Settled(GetIn(attrs, k))
  }

  /** Every attribute of every collection is settled. */
  ghost predicate AllSettled(cols: Collections) {
    forall c :: Has(cols, c) ==> SettledAttrs(Lookup(cols, c).value.attributes)
  }

  /** Attribute `key` changed at most; every other attribute reads the same. */
  ghost predicate SameButKey(attrs: Props, attrs': Props, key: string) {
    && (forall k :: Has(attrs', k) <==> Has(attrs, k))
    && forall k :: k != key ==> GetIn(attrs', k) == GetIn(attrs, k)
  }

  /** `delete attrs[key]; attrs[key] = d`: the attribute now reads `d` and sits last. */
  function Reassign(attrs: Props, key: string, d: Value): (r: Props)
    requires Has(attrs, key)
    ensures SameButKey(attrs, r, key)
    ensures GetIn(r, key) == d
    ensures Keys(r) == Keys(Remove(attrs, key)) + [key]
  {
    var removed := Remove(attrs, key);
    var r := Upsert(removed, key, d);
    assert forall k :: k != key ==> Lookup(r, k) == Lookup(attrs, k);
    assert forall k :: k != key ==> (Has(r, k) <==> Lookup(r, k).Some?);
    r
  }

  /** The descriptor for attribute `key` whose `model` is `model`, read from the current
      collections: the target must exist and have a primary key. */
  function DescriptorFor(cols: Collections, key: string, v: Value): (r: Result<Value>)
    ensures r.Ok? ==> Settled(r.value)
  {
    var modelName :- LowerOf(Get(v, "model"), "model");
    var pk :- FindPrimaryKey(cols, modelName);
    var columnName :- BuildColumnName(key, v);
    if pk.None? then Err(UnknownCollection(modelName))
    else
      DescriptorNamesNoModel(columnName, pk.value, modelName);
      Ok(Descriptor(columnName, pk.value, modelName))
  }

  /** One iteration of `replaceKeys`: attribute `key` of `collection`. */
  function ReplaceKey(cols: Collections, collection: string, key: string): (r: Result<Collections>)
    requires Has(cols, collection)
    ensures r.Ok? ==> SameButAttributes(cols, r.value, collection)
    ensures r.Ok? ==> SameButKey(AttrsOf(cols, collection), AttrsOf(r.value, collection), key)
    ensures r.Ok? ==> Has(AttrsOf(cols, collection), key) && Settled(GetIn(AttrsOf(r.value, collection), key))
    ensures Settled(GetIn(AttrsOf(cols, collection), key)) ==> r == Ok(cols)
  {
    var attrs := AttrsOf(cols, collection);
    var v := GetIn(attrs, key);
    if Nullish(v) then Err(TypeMismatch("model"))
    else if !Truthy(Get(v, "model")) then Ok(cols)
    else
      var d :- DescriptorFor(cols, key, v);
      Ok(WithAttributes(cols, collection, Reassign(attrs, key, d)))
  }

  /** A replaced attribute: the descriptor built from the current target, moved to the end
      of the attribute order (it is deleted, then assigned again). */
  lemma ReplaceKeyDescriptor(cols: Collections, collection: string, key: string)
    requires Has(cols, collection)
    requires ReplaceKey(cols, collection, key).Ok?
    requires !Settled(GetIn(AttrsOf(cols, collection), key))
    ensures var v := GetIn(AttrsOf(cols, collection), key);
            var attrs' := AttrsOf(ReplaceKey(cols, collection, key).value, collection);
            && Get(v, "model").Str?
            && var modelName := Lower(Get(v, "model").s);
               && FindPrimaryKey(cols, modelName).Ok? && FindPrimaryKey(cols, modelName).value.Some?
               && BuildColumnName(key, v).Ok?
               && GetIn(attrs', key)
                  == Descriptor(BuildColumnName(key, v).value, FindPrimaryKey(cols, modelName).value.value, modelName)
               && Keys(attrs') == Keys(Remove(AttrsOf(cols, collection), key)) + [key]
  {
    var attrs := AttrsOf(cols, collection);
    var v := GetIn(attrs, key);
    var d := DescriptorFor(cols, key, v);
    assert ReplaceKey(cols, collection, key) == Ok(WithAttributes(cols, collection, Reassign(attrs, key, d.value)));
    var modelName := Lower(Get(v, "model").s);
    assert d.value == Descriptor(BuildColumnName(key, v).value, FindPrimaryKey(cols, modelName).value.value, modelName);
  }

  /** An association to a model that is not in the map, or that has no primary key, aborts
      the pass. */
  lemma ReplaceKeyTargetErrors(cols: Collections, collection: string, key: string)
    requires Has(cols, collection)
    requires var v := GetIn(AttrsOf(cols, collection), key);
             !Nullish(v) && Get(v, "model").Str? && Get(v, "model").s != ""
    ensures var v := GetIn(AttrsOf(cols, collection), key);
            var target := Lower(Get(v, "model").s);
            && (!Has(cols, target) && BuildColumnName(key, v).Ok? ==> ReplaceKey(cols, collection, key) == Err(UnknownCollection(target)))
            && (Has(cols, target) && LacksPrimaryKey(AttrsOf(cols, target)) ==> ReplaceKey(cols, collection, key) == Err(NoPrimaryKey(target)))
  {
    var v := GetIn(AttrsOf(cols, collection), key);
    var target := Lower(Get(v, "model").s);
    if Has(cols, target) {
      FindPrimaryKeyMissing(cols, target);
    }
  }

  /** `replaceKeys` over the given attribute names, in order. */
  function ReplaceKeys(cols: Collections, collection: string, keys: seq<string>): (r: Result<Collections>)
    requires Has(cols, collection)
    ensures r.Ok? ==> SameButAttributes(cols, r.value, collection)
    ensures r.Ok? ==> forall k :: Has(AttrsOf(r.value, collection), k) <==> Has(AttrsOf(cols, collection), k)
    decreases |keys|
  {
    if |keys| == 0 then Ok(cols)
    else
      var next := ReplaceKey(cols, collection, keys[0]);
      if next.Err? then next
      else ReplaceKeys(next.value, collection, keys[1..])
  }

  /** The pass over the given collection names, each visiting its attribute names as they
      stand when its turn comes. */
  function ForeignKeysFrom(cols: Collections, names: seq<string>): (r: Result<Collections>)
    requires forall i :: 0 <= i < |names| ==> Has(cols, names[i])
    ensures r.Ok? ==> Keys(r.value) == Keys(cols)
    decreases |names|
  {
    if |names| == 0 then Ok(cols)
    else
      var c := names[0];
      var next := ReplaceKeys(cols, c, Keys(AttrsOf(cols, c)));
      if next.Err? then next
      else
        assert forall n :: Has(next.value, n) <==> Has(cols, n);
        ForeignKeysFrom(next.value, names[1..])
  }

  /** `ForeignKeys(collections)`. */
  function ForeignKeysPass(cols: Collections): (r: Result<Collections>)
    ensures r.Ok? ==> Keys(r.value) == Keys(cols)
  {
    assert forall i :: 0 <= i < |Keys(cols)| ==> Has(cols, Keys(cols)[i]);
    ForeignKeysFrom(cols, Keys(cols))
  }

  /** Settled attributes make `replaceKeys` a no-op. */
  lemma {:induction false} ReplaceKeysSettled(cols: Collections, collection: string, keys: seq<string>)
    requires Has(cols, collection)
    requires forall i :: 0 <= i < |keys| ==> Settled(GetIn(AttrsOf(cols, collection), keys[i]))
    ensures ReplaceKeys(cols, collection, keys) == Ok(cols)
    decreases |keys|
  {
    if |keys| > 0 {
      ReplaceKeysSettled(cols, collection, keys[1..]);
    }
  }

  /** After `replaceKeys`, each visited attribute is settled and every attribute settled
      before it reads the same. */
  lemma {:induction false} ReplaceKeysSettles(cols: Collections, collection: string, keys: seq<string>)
    requires Has(cols, collection)
    requires ReplaceKeys(cols, collection, keys).Ok?
    ensures var attrs' := AttrsOf(ReplaceKeys(cols, collection, keys).value, collection);
            && (forall i :: 0 <= i < |keys| ==> Settled(GetIn(attrs', keys[i])))
            && (forall k :: Settled(GetIn(AttrsOf(cols, collection), k)) ==> GetIn(attrs', k) == GetIn(AttrsOf(cols, collection), k))
            && (forall k :: k !in keys ==> GetIn(attrs', k) == GetIn(AttrsOf(cols, collection), k))
    decreases |keys|
  {
    if |keys| > 0 {
      var next := ReplaceKey(cols, collection, keys[0]).value;
      ReplaceKeysSettles(next, collection, keys[1..]);
      assert ReplaceKeys(cols, collection, keys) == ReplaceKeys(next, collection, keys[1..]);
      var attrs := AttrsOf(cols, collection);
      var mid := AttrsOf(next, collection);
      var attrs' := AttrsOf(ReplaceKeys(cols, collection, keys).value, collection);
      forall k | Settled(GetIn(attrs, k)) ensures GetIn(attrs', k) == GetIn(attrs, k) {
        if k == keys[0] {
          assert next == cols;
        }
      }
      forall i | 0 <= i < |keys| ensures Settled(GetIn(attrs', keys[i])) {
        if i == 0 {
          assert Settled(GetIn(mid, keys[0]));
        } else {
          assert keys[1..][i - 1] == keys[i];
        }
      }
    }
  }

  /** `d` is the descriptor that replaces attribute `key` defined as `v`: its column is named
      after `key` (or `v`'s own `columnName`), it references `v`'s model lower-cased, and it
      takes its type and `on` from an attribute of the target that owns `primaryKey`. */
  ghost predicate IsDescriptorOf(d: Value, key: string, v: Value) {
    && Get(v, "model").Str?
    && BuildColumnName(key, v).Ok?
    && exists pk: (string, Value) :: HasProp(pk.1, "primaryKey") && d == Descriptor(BuildColumnName(key, v).value, pk, Lower(Get(v, "model").s))
  }

  /** Each attribute `replaceKeys` replaces becomes the descriptor of its former definition. */
  lemma {:induction false} ReplaceKeysDescribes(cols: Collections, collection: string, keys: seq<string>)
    requires Has(cols, collection)
    requires ReplaceKeys(cols, collection, keys).Ok?
    ensures var attrs := AttrsOf(cols, collection);
            var attrs' := AttrsOf(ReplaceKeys(cols, collection, keys).value, collection);
            forall i :: 0 <= i < |keys| && !Settled(GetIn(attrs, keys[i])) ==>
              IsDescriptorOf(GetIn(attrs', keys[i]), keys[i], GetIn(attrs, keys[i]))
    decreases |keys|
  {
    if |keys| > 0 {
      var attrs := AttrsOf(cols, collection);
      var next := ReplaceKey(cols, collection, keys[0]).value;
      var mid := AttrsOf(next, collection);
      assert ReplaceKeys(cols, collection, keys) == ReplaceKeys(next, collection, keys[1..]);
      var attrs' := AttrsOf(ReplaceKeys(cols, collection, keys).value, collection);
      ReplaceKeysDescribes(next, collection, keys[1..]);
      ReplaceKeysSettles(next, collection, keys[1..]);
      forall i | 0 <= i < |keys| && !Settled(GetIn(attrs, keys[i]))
        ensures IsDescriptorOf(GetIn(attrs', keys[i]), keys[i], GetIn(attrs, keys[i]))
      {
        var k := keys[i];
        if k == keys[0] {
          ReplaceKeyDescriptor(cols, collection, k);
          var v := GetIn(attrs, k);
          var modelName := Lower(Get(v, "model").s);
          var pk := FindPrimaryKey(cols, modelName).value.value;
          assert HasProp(pk.1, "primaryKey");
          assert GetIn(attrs', k) == GetIn(mid, k);
        } else {
          assert keys[1..][i - 1] == k;
          assert GetIn(mid, k) == GetIn(attrs, k);
        }
      }
    }
  }

  /** What the pass over some collections leaves: every collection keeps its attribute names,
      settled attributes read the same, and a collection not visited is untouched. */
  lemma {:induction false} ForeignKeysFromFrame(cols: Collections, names: seq<string>)
    requires forall i :: 0 <= i < |names| ==> Has(cols, names[i])
    requires ForeignKeysFrom(cols, names).Ok?
    ensures var r := ForeignKeysFrom(cols, names).value;
            && (forall c, k :: Has(cols, c) ==> (Has(AttrsOf(r, c), k) <==> Has(AttrsOf(cols, c), k)))
            && (forall c, k :: Has(cols, c) && Settled(GetIn(AttrsOf(cols, c), k)) ==> GetIn(AttrsOf(r, c), k) == GetIn(AttrsOf(cols, c), k))
            && (forall c :: c !in names ==> Lookup(r, c) == Lookup(cols, c))
    decreases |names|
  {
    if |names| > 0 {
      var c := names[0];
      var keys := Keys(AttrsOf(cols, c));
      var next := ReplaceKeys(cols, c, keys).value;
      assert forall n :: Has(next, n) <==> Has(cols, n);
      assert ForeignKeysFrom(cols, names) == ForeignKeysFrom(next, names[1..]);
      ForeignKeysFromFrame(next, names[1..]);
      ReplaceKeysSettles(cols, c, keys);
    }
  }

  /** Every visited collection ends with all of its attributes settled. */
  lemma {:induction false} ForeignKeysFromSettles(cols: Collections, names: seq<string>)
    requires forall i :: 0 <= i < |names| ==> Has(cols, names[i])
    requires ForeignKeysFrom(cols, names).Ok?
    ensures forall i :: 0 <= i < |names| ==> SettledAttrs(AttrsOf(ForeignKeysFrom(cols, names).value, names[i]))
    decreases |names|
  {
    if |names| > 0 {
      var c := names[0];
      var keys := Keys(AttrsOf(cols, c));
      var next := ReplaceKeys(cols, c, keys).value;
      assert forall n :: Has(next, n) <==> Has(cols, n);
      assert ForeignKeysFrom(cols, names) == ForeignKeysFrom(next, names[1..]);
      var r := ForeignKeysFrom(cols, names).value;
      ForeignKeysFromSettles(next, names[1..]);
      ForeignKeysFromFrame(next, names[1..]);
      ReplaceKeysSettles(cols, c, keys);
      assert SettledAttrs(AttrsOf(next, c)) by {
        forall k | Has(AttrsOf(next, c), k) ensures Settled(GetIn(AttrsOf(next, c), k)) {
          var i :| 0 <= i < |keys| && keys[i] == k;
        }
      }
      forall i | 0 <= i < |names| ensures SettledAttrs(AttrsOf(r, names[i])) {
        if i > 0 {
          assert names[1..][i - 1] == names[i];
        }
      }
    }
  }

  /** After the pass no attribute names a model any more, and none is `null`/`undefined`. */
  lemma ForeignKeysPassSettles(cols: Collections)
    requires ForeignKeysPass(cols).Ok?
    ensures AllSettled(ForeignKeysPass(cols).value)
  {
    var names := Keys(cols);
    assert forall i :: 0 <= i < |names| ==> Has(cols, names[i]);
    ForeignKeysFromSettles(cols, names);
    var r := ForeignKeysPass(cols).value;
    forall c | Has(r, c) ensures SettledAttrs(AttrsOf(r, c)) {
      var i :| 0 <= i < |names| && names[i] == c;
    }
  }

  /** An attribute that names no model comes out of the pass exactly as it went in. */
  lemma ForeignKeysPassKeepsPlain(cols: Collections, c: string, k: string)
    requires ForeignKeysPass(cols).Ok?
    requires Has(cols, c) && Settled(GetIn(AttrsOf(cols, c), k))
    ensures Has(ForeignKeysPass(cols).value, c)
    ensures GetIn(AttrsOf(ForeignKeysPass(cols).value, c), k) == GetIn(AttrsOf(cols, c), k)
  {
    assert forall i :: 0 <= i < |Keys(cols)| ==> Has(cols, Keys(cols)[i]);
    ForeignKeysFromFrame(cols, Keys(cols));
  }

  /** On collections that are all settled the pass changes nothing. */
  lemma {:induction false} ForeignKeysFromSettledNoop(cols: Collections, names: seq<string>)
    requires forall i :: 0 <= i < |names| ==> Has(cols, names[i])
    requires AllSettled(cols)
    ensures ForeignKeysFrom(cols, names) == Ok(cols)
    decreases |names|
  {
    if |names| > 0 {
      var c := names[0];
      var keys := Keys(AttrsOf(cols, c));
      assert forall i :: 0 <= i < |keys| ==> Has(AttrsOf(cols, c), keys[i]);
      ReplaceKeysSettled(cols, c, keys);
      ForeignKeysFromSettledNoop(cols, names[1..]);
    }
  }

  /** Running the pass on its own output changes nothing. */
  lemma ForeignKeysIdempotent(cols: Collections)
    requires ForeignKeysPass(cols).Ok?
    ensures ForeignKeysPass(ForeignKeysPass(cols).value) == ForeignKeysPass(cols)
  {
    var r := ForeignKeysPass(cols).value;
    ForeignKeysPassSettles(cols);
    assert forall i :: 0 <= i < |Keys(r)| ==> Has(r, Keys(r)[i]);
    ForeignKeysFromSettledNoop(r, Keys(r));
  }

  /** A descriptor names no model, so the pass leaves it alone from then on. */
  lemma DescriptorSettled(d: Value, key: string, v: Value)
    requires IsDescriptorOf(d, key, v)
    ensures Settled(d)
  {
    var pk: (string, Value) :| HasProp(pk.1, "primaryKey") && d == Descriptor(BuildColumnName(key, v).value, pk, Lower(Get(v, "model").s));
    DescriptorNamesNoModel(BuildColumnName(key, v).value, pk, Lower(Get(v, "model").s));
  }

  lemma DescriptorNamesNoModel(columnName: string, pk: (string, Value), modelName: string)
    ensures Get(Descriptor(columnName, pk, modelName), "model") == Undefined
  {
    var d := Descriptor(columnName, pk, modelName).props;
    assert d[1..][1..][1..][1..][1..] == [];
  }

  /** The visit of a collection turns its attribute `k` into a descriptor, which is settled. */
  lemma FirstVisitDescribes(cols: Collections, c: string, keys: seq<string>, k: string)
    requires Has(cols, c) && keys == Keys(AttrsOf(cols, c))
    requires ReplaceKeys(cols, c, keys).Ok?
    requires Has(AttrsOf(cols, c), k) && !Settled(GetIn(AttrsOf(cols, c), k))
    ensures var d := GetIn(AttrsOf(ReplaceKeys(cols, c, keys).value, c), k);
            IsDescriptorOf(d, k, GetIn(AttrsOf(cols, c), k)) && Settled(d)
  {
    var i :| 0 <= i < |keys| && keys[i] == k;
    ReplaceKeysDescribes(cols, c, keys);
    var d := GetIn(AttrsOf(ReplaceKeys(cols, c, keys).value, c), k);
    DescriptorSettled(d, k, GetIn(AttrsOf(cols, c), k));
  }

  lemma {:induction false} ForeignKeysFromDescribes(cols: Collections, names: seq<string>, c: string, k: string)
    requires forall i :: 0 <= i < |names| ==> Has(cols, names[i])
    requires ForeignKeysFrom(cols, names).Ok?
    requires c in names && Has(AttrsOf(cols, c), k) && !Settled(GetIn(AttrsOf(cols, c), k))
    ensures IsDescriptorOf(GetIn(AttrsOf(ForeignKeysFrom(cols, names).value, c), k), k, GetIn(AttrsOf(cols, c), k))
    decreases |names|
  {
    var c0 := names[0];
    var keys := Keys(AttrsOf(cols, c0));
    var next := ReplaceKeys(cols, c0, keys).value;
    assert forall n :: Has(next, n) <==> Has(cols, n);
    assert ForeignKeysFrom(cols, names) == ForeignKeysFrom(next, names[1..]);
    var r := ForeignKeysFrom(cols, names).value;
    if c0 == c {
      FirstVisitDescribes(cols, c, keys, k);
      ForeignKeysFromFrame(next, names[1..]);
    } else {
      assert Lookup(next, c) == Lookup(cols, c);
      ForeignKeysFromDescribes(next, names[1..], c, k);
    }
  }

  /** Every attribute that named a model comes out of the pass as its descriptor. */
  lemma ForeignKeysPassDescribes(cols: Collections, c: string, k: string)
    requires ForeignKeysPass(cols).Ok?
    requires Has(cols, c) && Has(AttrsOf(cols, c), k) && !Settled(GetIn(AttrsOf(cols, c), k))
    ensures Has(ForeignKeysPass(cols).value, c)
    ensures IsDescriptorOf(GetIn(AttrsOf(ForeignKeysPass(cols).value, c), k), k, GetIn(AttrsOf(cols, c), k))
  {
    assert forall i :: 0 <= i < |Keys(cols)| ==> Has(cols, Keys(cols)[i]);
    ForeignKeysFromDescribes(cols, Keys(cols), c, k);
  }

  /** No attribute is listed twice, and every attribute owning `primaryKey` names no model,
      so the pass never rewrites an attribute a primary-key lookup can return. */
  ghost predicate PrimaryKeysSettled(cols: Collections) {
    && WellFormed(cols)
    && forall c, e :: Has(cols, c) && e in AttrsOf(cols, c) && HasProp(e.1, "primaryKey") ==> Settled(e.1)
  }

  /** `d` is the descriptor built for attribute `key` defined as `v` against the collections
      `cols`: its column is named after `key` (or `v`'s own `columnName`), it references `v`'s
      model lower-cased, and its type and `on` come from that model's primary key in `cols`. */
  ghost predicate DescribesIn(cols: Collections, d: Value, key: string, v: Value) {
    && Get(v, "model").Str?
    && BuildColumnName(key, v).Ok?
    && var modelName := Lower(Get(v, "model").s);
       && FindPrimaryKey(cols, modelName).Ok? && FindPrimaryKey(cols, modelName).value.Some?
       && d == Descriptor(BuildColumnName(key, v).value, FindPrimaryKey(cols, modelName).value.value, modelName)
  }

  /** A descriptor is readable and owns no `primaryKey`. */
  lemma DescriptorNotKey(columnName: string, pk: (string, Value), modelName: string)
    ensures !Nullish(Descriptor(columnName, pk, modelName))
    ensures !HasProp(Descriptor(columnName, pk, modelName), "primaryKey")
  {
    var d := Descriptor(columnName, pk, modelName).props;
    assert Keys(d) == ["columnName", "type", "foreignKey", "references", "on"];
  }

  /** Deleting attributes that are readable and own no `primaryKey` leaves the primary-key
      scan as it was. */
  lemma {:induction false} PrimaryKeyEntryRemove(attrs: Props, key: string)
    requires forall i :: 0 <= i < |attrs| && attrs[i].0 == key ==> !Nullish(attrs[i].1) && !HasProp(attrs[i].1, "primaryKey")
    ensures PrimaryKeyEntry(Remove(attrs, key)) == PrimaryKeyEntry(attrs)
    decreases |attrs|
  {
    if |attrs| > 0 {
      var rest := attrs[1..];
      forall i | 0 <= i < |rest| && rest[i].0 == key
        ensures !Nullish(rest[i].1) && !HasProp(rest[i].1, "primaryKey")
      {
        assert rest[i] == attrs[i + 1];
      }
      PrimaryKeyEntryRemove(rest, key);
      var x := attrs[0];
      if x.0 == key {
        assert Remove(attrs, key) == Remove(rest, key);
        assert !Nullish(x.1) && !HasProp(x.1, "primaryKey");
      } else {
        var t := Remove(rest, key);
        assert Remove(attrs, key) == [x] + t;
        assert ([x] + t)[1..] == t && ([x] + t)[0] == x;
      }
    }
  }

  /** Replacing an attribute that owns no `primaryKey` by a descriptor keeps the attributes
      distinct and the primary key where it was; every entry afterwards is an old one or the
      descriptor. */
  lemma ReassignKeepsKey(attrs: Props, key: string, d: Value)
    requires Distinct(attrs) && Has(attrs, key)
    requires !Nullish(GetIn(attrs, key)) && !HasProp(GetIn(attrs, key), "primaryKey")
    requires !Nullish(d) && !HasProp(d, "primaryKey")
    ensures Distinct(Reassign(attrs, key, d))
    ensures PrimaryKeyEntry(Reassign(attrs, key, d)) == PrimaryKeyEntry(attrs)
    ensures forall e :: e in Reassign(attrs, key, d) ==> e in attrs || e == (key, d)
  {
    var removed := Remove(attrs, key);
    UpsertAbsent(removed, key, d);
    assert Reassign(attrs, key, d) == removed + [(key, d)];
    forall i | 0 <= i < |attrs| && attrs[i].0 == key
      ensures !Nullish(attrs[i].1) && !HasProp(attrs[i].1, "primaryKey")
    {
      LookupDistinct(attrs, key, attrs[i].1);
    }
    PrimaryKeyEntryRemove(attrs, key);
    PrimaryKeyEntrySnoc(removed, (key, d));
    RemoveDistinct(attrs, key);
    UpsertDistinct(removed, key, d);
  }

  /** Giving one collection attributes that are distinct, that scan to the same primary key,
      and whose entries are old ones or a descriptor owning no `primaryKey`, keeps primary
      keys settled and every primary key in place. */
  lemma WithAttributesKeepsKeys(cols: Collections, collection: string, attrs': Props, key: string, d: Value)
    requires Has(cols, collection) && PrimaryKeysSettled(cols)
    requires Distinct(attrs') && !HasProp(d, "primaryKey")
    requires PrimaryKeyEntry(attrs') == PrimaryKeyEntry(AttrsOf(cols, collection))
    requires forall e :: e in attrs' ==> e in AttrsOf(cols, collection) || e == (key, d)
    ensures PrimaryKeysSettled(WithAttributes(cols, collection, attrs'))
    ensures forall t :: FindPrimaryKey(WithAttributes(cols, collection, attrs'), t) == FindPrimaryKey(cols, t)
  {
    var r := WithAttributes(cols, collection, attrs');
    DistinctSameKeys(cols, r);
    forall c | Has(r, c) ensures Distinct(AttrsOf(r, c)) {
      if c != collection {
        assert Lookup(r, c) == Lookup(cols, c);
      }
    }
    forall c, e | Has(r, c) && e in AttrsOf(r, c) && HasProp(e.1, "primaryKey") ensures Settled(e.1) {
      if c != collection {
        assert Lookup(r, c) == Lookup(cols, c);
      }
    }
    forall t ensures FindPrimaryKey(r, t) == FindPrimaryKey(cols, t) {
      if t == collection {
        FindPrimaryKeyEntry(cols, t);
        FindPrimaryKeyEntry(r, t);
      } else {
        assert Lookup(r, t) == Lookup(cols, t);
      }
    }
  }

  /** An attribute that names a model is replaced by a descriptor, which is readable and
      owns no `primaryKey`. */
  lemma ReplaceKeyReassigns(cols: Collections, collection: string, key: string) returns (d: Value)
    requires Has(cols, collection)
    requires ReplaceKey(cols, collection, key).Ok? && !Settled(GetIn(AttrsOf(cols, collection), key))
    ensures ReplaceKey(cols, collection, key).value
            == WithAttributes(cols, collection, Reassign(AttrsOf(cols, collection), key, d))
    ensures !Nullish(d) && !HasProp(d, "primaryKey")
  {
    var v := GetIn(AttrsOf(cols, collection), key);
    d := DescriptorFor(cols, key, v).value;
    var modelName := Lower(Get(v, "model").s);
    DescriptorNotKey(BuildColumnName(key, v).value, FindPrimaryKey(cols, modelName).value.value, modelName);
  }

  /** In a list without repeated keys, an owned key's entry is in the list. */
  lemma OwnEntry(attrs: Props, key: string)
    requires Distinct(attrs) && Has(attrs, key)
    ensures (key, GetIn(attrs, key)) in attrs
  {
    var i :| 0 <= i < |attrs| && Keys(attrs)[i] == key;
    LookupAt(attrs, i);
  }

  /** With settled primary keys, one iteration of `replaceKeys` keeps them settled and
      changes no collection's primary key. */
  lemma ReplaceKeyKeepsKeys(cols: Collections, collection: string, key: string)
    requires Has(cols, collection) && PrimaryKeysSettled(cols)
    requires ReplaceKey(cols, collection, key).Ok?
    ensures PrimaryKeysSettled(ReplaceKey(cols, collection, key).value)
    ensures forall t :: FindPrimaryKey(ReplaceKey(cols, collection, key).value, t) == FindPrimaryKey(cols, t)
  {
    var attrs := AttrsOf(cols, collection);
    if !Settled(GetIn(attrs, key)) {
      var d := ReplaceKeyReassigns(cols, collection, key);
      OwnEntry(attrs, key);
      ReassignKeepsKey(attrs, key, d);
      WithAttributesKeepsKeys(cols, collection, Reassign(attrs, key, d), key, d);
    }
  }

  /** `replaceKeys` keeps settled primary keys settled and every primary key in place. */
  lemma {:induction false} ReplaceKeysKeepsKeys(cols: Collections, collection: string, keys: seq<string>)
    requires Has(cols, collection) && PrimaryKeysSettled(cols)
    requires ReplaceKeys(cols, collection, keys).Ok?
    ensures PrimaryKeysSettled(ReplaceKeys(cols, collection, keys).value)
    ensures forall t :: FindPrimaryKey(ReplaceKeys(cols, collection, keys).value, t) == FindPrimaryKey(cols, t)
    decreases |keys|
  {
    if |keys| > 0 {
      var next := ReplaceKey(cols, collection, keys[0]).value;
      ReplaceKeyKeepsKeys(cols, collection, keys[0]);
      assert ReplaceKeys(cols, collection, keys) == ReplaceKeys(next, collection, keys[1..]);
      ReplaceKeysKeepsKeys(next, collection, keys[1..]);
    }
  }

  /** The pass over some collections keeps settled primary keys settled and every primary
      key in place. */
  lemma {:induction false} ForeignKeysFromKeepsKeys(cols: Collections, names: seq<string>)
    requires forall i :: 0 <= i < |names| ==> Has(cols, names[i])
    requires PrimaryKeysSettled(cols)
    requires ForeignKeysFrom(cols, names).Ok?
    ensures PrimaryKeysSettled(ForeignKeysFrom(cols, names).value)
    ensures forall t :: FindPrimaryKey(ForeignKeysFrom(cols, names).value, t) == FindPrimaryKey(cols, t)
    decreases |names|
  {
    if |names| > 0 {
      var c := names[0];
      var keys := Keys(AttrsOf(cols, c));
      var next := ReplaceKeys(cols, c, keys).value;
      ReplaceKeysKeepsKeys(cols, c, keys);
      assert forall n :: Has(next, n) <==> Has(cols, n);
      assert ForeignKeysFrom(cols, names) == ForeignKeysFrom(next, names[1..]);
      ForeignKeysFromKeepsKeys(next, names[1..]);
    }
  }

  /** With settled primary keys, each attribute `replaceKeys` replaces becomes the descriptor
      built against the collections it started from. */
  lemma {:induction false} ReplaceKeysDescribesIn(cols: Collections, collection: string, keys: seq<string>)
    requires Has(cols, collection) && PrimaryKeysSettled(cols)
    requires ReplaceKeys(cols, collection, keys).Ok?
    ensures var attrs := AttrsOf(cols, collection);
            var attrs' := AttrsOf(ReplaceKeys(cols, collection, keys).value, collection);
            forall i :: 0 <= i < |keys| && !Settled(GetIn(attrs, keys[i])) ==>
              DescribesIn(cols, GetIn(attrs', keys[i]), keys[i], GetIn(attrs, keys[i]))
    decreases |keys|
  {
    if |keys| > 0 {
      var attrs := AttrsOf(cols, collection);
      var next := ReplaceKey(cols, collection, keys[0]).value;
      var mid := AttrsOf(next, collection);
      assert ReplaceKeys(cols, collection, keys) == ReplaceKeys(next, collection, keys[1..]);
      var attrs' := AttrsOf(ReplaceKeys(cols, collection, keys).value, collection);
      ReplaceKeyKeepsKeys(cols, collection, keys[0]);
      ReplaceKeysDescribesIn(next, collection, keys[1..]);
      ReplaceKeysSettles(next, collection, keys[1..]);
      forall i | 0 <= i < |keys| && !Settled(GetIn(attrs, keys[i]))
        ensures DescribesIn(cols, GetIn(attrs', keys[i]), keys[i], GetIn(attrs, keys[i]))
      {
        var k := keys[i];
        if k == keys[0] {
          ReplaceKeyDescriptor(cols, collection, k);
          assert GetIn(attrs', k) == GetIn(mid, k);
        } else {
          assert keys[1..][i - 1] == k;
          assert GetIn(mid, k) == GetIn(attrs, k);
          var modelName := Lower(Get(GetIn(attrs, k), "model").s);
          assert FindPrimaryKey(next, modelName) == FindPrimaryKey(cols, modelName);
        }
      }
    }
  }

  /** With settled primary keys, the visit of a collection turns its attribute `k` into the
      descriptor built against the collections it started from, which is settled. */
  lemma FirstVisitDescribesIn(cols: Collections, c: string, keys: seq<string>, k: string)
    requires Has(cols, c) && keys == Keys(AttrsOf(cols, c)) && PrimaryKeysSettled(cols)
    requires ReplaceKeys(cols, c, keys).Ok?
    requires Has(AttrsOf(cols, c), k) && !Settled(GetIn(AttrsOf(cols, c), k))
    ensures var d := GetIn(AttrsOf(ReplaceKeys(cols, c, keys).value, c), k);
            DescribesIn(cols, d, k, GetIn(AttrsOf(cols, c), k)) && Settled(d)
  {
    var i :| 0 <= i < |keys| && keys[i] == k;
    ReplaceKeysDescribesIn(cols, c, keys);
    var v := GetIn(AttrsOf(cols, c), k);
    var modelName := Lower(Get(v, "model").s);
    DescriptorNotKey(BuildColumnName(k, v).value, FindPrimaryKey(cols, modelName).value.value, modelName);
    DescriptorNamesNoModel(BuildColumnName(k, v).value, FindPrimaryKey(cols, modelName).value.value, modelName);
  }

  lemma {:induction false} ForeignKeysFromDescribesIn(cols: Collections, names: seq<string>, c: string, k: string)
    requires forall i :: 0 <= i < |names| ==> Has(cols, names[i])
    requires PrimaryKeysSettled(cols)
    requires ForeignKeysFrom(cols, names).Ok?
    requires c in names && Has(AttrsOf(cols, c), k) && !Settled(GetIn(AttrsOf(cols, c), k))
    ensures DescribesIn(cols, GetIn(AttrsOf(ForeignKeysFrom(cols, names).value, c), k), k, GetIn(AttrsOf(cols, c), k))
    decreases |names|
  {
    var c0 := names[0];
    var keys := Keys(AttrsOf(cols, c0));
    var next := ReplaceKeys(cols, c0, keys).value;
    assert forall n :: Has(next, n) <==> Has(cols, n);
    assert ForeignKeysFrom(cols, names) == ForeignKeysFrom(next, names[1..]);
    if c0 == c {
      FirstVisitDescribesIn(cols, c, keys, k);
      ForeignKeysFromFrame(next, names[1..]);
    } else {
      ReplaceKeysKeepsKeys(cols, c0, keys);
      assert Lookup(next, c) == Lookup(cols, c);
      ForeignKeysFromDescribesIn(next, names[1..], c, k);
      var v := GetIn(AttrsOf(cols, c), k);
      var modelName := Lower(Get(v, "model").s);
      assert FindPrimaryKey(next, modelName) == FindPrimaryKey(cols, modelName);
    }
  }

  /** When no primary key names a model, the pass keeps every collection's primary key, and
      every attribute that named a model comes out as the descriptor typed and keyed after
      that model's primary key in the input. */
  lemma ForeignKeysPassDescribesInput(cols: Collections, c: string, k: string)
    requires PrimaryKeysSettled(cols)
    requires ForeignKeysPass(cols).Ok?
    requires Has(cols, c) && Has(AttrsOf(cols, c), k) && !Settled(GetIn(AttrsOf(cols, c), k))
    ensures forall t :: FindPrimaryKey(ForeignKeysPass(cols).value, t) == FindPrimaryKey(cols, t)
    ensures Has(ForeignKeysPass(cols).value, c)
    ensures DescribesIn(cols, GetIn(AttrsOf(ForeignKeysPass(cols).value, c), k), k, GetIn(AttrsOf(cols, c), k))
  {
    assert forall i :: 0 <= i < |Keys(cols)| ==> Has(cols, Keys(cols)[i]);
    ForeignKeysFromKeepsKeys(cols, Keys(cols));
    ForeignKeysFromDescribesIn(cols, Keys(cols), c, k);
  }
}
