/** The through-table flagger: every attribute of one model that names a `through` model is
    resolved against that model. The through model records which of its attributes points
    back, gains `hasSchema`, and the attribute is re-pointed at the foreign-key column that
    its `via` names.
 */
module ThroughTable {
  import opened Results
  import opened Assoc
  import opened Values
  import opened Entries

  function SchemaOf(schema: Schema, name: string): Props
    requires Has(schema, name)
  {
    Lookup(schema, name).value.schema
  }

  /** `schema[name].schema[key] = v`. */
  function SetSchemaAttribute(schema: Schema, name: string, key: string, v: Value): (r: Schema)
    requires Has(schema, name)
    ensures Keys(r) == Keys(schema)
    ensures forall n :: n != name ==> Lookup(r, n) == Lookup(schema, n)
    ensures Lookup(r, name) == Some(Lookup(schema, name).value.(schema := Upsert(SchemaOf(schema, name), key, v)))
  {
    var e := Lookup(schema, name).value;
    Upsert(schema, name, e.(schema := Upsert(e.schema, key, v)))
  }

  // ---------------------------------------------------------------------------------------
  // The two scans over the through model's attributes

  /** `attr.referenceIdentity` is truthy and `=== collection`. */
  predicate NamesCollection(a: Value, collection: Value) {
    var ri := Get(a, "referenceIdentity");
    Truthy(ri) && StrictEquals(ri, collection)
  }

  /** `_.find(keys, …)`: the first key whose attribute names `collection` as its reference
      identity, or `undefined`. Reading the identity of a `null`/`undefined` attribute
      throws. */
  function ThroughKey(attrs: Props, keys: seq<string>, collection: Value): (r: Result<Value>)
    ensures r.Ok? && r.value != Undefined ==>
              exists i :: && 0 <= i < |keys| && r.value == Str(keys[i])
                          && NamesCollection(GetIn(attrs, keys[i]), collection)
                          && forall j :: 0 <= j < i ==> !NamesCollection(GetIn(attrs, keys[j]), collection)
    ensures r == Ok(Undefined) <==>
              forall j :: 0 <= j < |keys| ==> !Nullish(GetIn(attrs, keys[j])) && !NamesCollection(GetIn(attrs, keys[j]), collection)
    ensures r.Err? ==> r.error == TypeMismatch("referenceIdentity")
    decreases |keys|
  {
    if |keys| == 0 then Ok(Undefined)
    else
      var a := GetIn(attrs, keys[0]);
      if Nullish(a) then Err(TypeMismatch("referenceIdentity"))
      else if NamesCollection(a, collection) then Ok(Str(keys[0]))
      else
        var r := ThroughKey(attrs, keys[1..], collection);
        assert forall j :: 1 <= j < |keys| ==> keys[1..][j - 1] == keys[j];
        r
  }

  /** The linked attribute the `via` of the attribute selects: a foreign key owning
      `references`, which equals the table name of the model being flagged. */
  predicate SelectedBy(v: Value, name: string, tableName: Value, via: Value) {
    && HasProp(v, "foreignKey")
    && HasProp(v, "references")
    && StrictEquals(Get(v, "references"), tableName)
    && StrictEquals(via, Str(name))
  }

  /** The `_.each` that looks for the reference: `found` is the reference so far; once it is
      truthy the rest of the scan does nothing. */
  function ThroughReference(attrs: Props, keys: seq<string>, tableName: Value, via: Value, found: Value): (r: Value)
    ensures r == found || exists i :: 0 <= i < |keys| && r == Get(GetIn(attrs, keys[i]), "columnName")
    ensures Truthy(found) ==> r == found
    decreases |keys|
  {
    if |keys| == 0 || Truthy(found) then found
    else
      var v := GetIn(attrs, keys[0]);
      var found' := if SelectedBy(v, keys[0], tableName, via) then Get(v, "columnName") else found;
      ThroughReference(attrs, keys[1..], tableName, via, found')
  }

  /** The reference is truthy exactly when `via` names one of the keys, whose attribute is
      selected and has a truthy `columnName`; it is then that `columnName`. */
  lemma {:induction false} ThroughReferenceSelects(attrs: Props, keys: seq<string>, tableName: Value, via: Value, found: Value)
    requires !Truthy(found)
    ensures var r := ThroughReference(attrs, keys, tableName, via, found);
            && (Truthy(r) <==>
                  && via.Str? && via.s in keys
                  && SelectedBy(GetIn(attrs, via.s), via.s, tableName, via)
                  && Truthy(Get(GetIn(attrs, via.s), "columnName")))
            && (Truthy(r) ==> r == Get(GetIn(attrs, via.s), "columnName"))
    decreases |keys|
  {
    if |keys| > 0 {
      var v := GetIn(attrs, keys[0]);
      var found' := if SelectedBy(v, keys[0], tableName, via) then Get(v, "columnName") else found;
      assert keys == [keys[0]] + keys[1..];
      if Truthy(found') {
        assert via == Str(keys[0]);
      } else {
        ThroughReferenceSelects(attrs, keys[1..], tableName, via, found');
        if via.Str? && via.s == keys[0] && SelectedBy(v, keys[0], tableName, via) {
          assert !Truthy(Get(GetIn(attrs, via.s), "columnName"));
        }
      }
    }
  }

  // ---------------------------------------------------------------------------------------
  // One attribute

  /** The through model once it is flagged: `hasSchema` set, and the attribute's path
      recorded in its `throughTable` map (a fresh `{}` when it had none). */
  function MarkThroughModel(e: SchemaEntry, path: string, found: Value): (r: SchemaEntry)
    ensures r.hasSchema == Bool(true)
    ensures r.schema == e.schema
    ensures (e.throughTable.Obj? || !Truthy(e.throughTable)) ==> Get(r.throughTable, path) == found
    ensures e.throughTable.Obj? ==> forall p :: p != path ==> Get(r.throughTable, p) == Get(e.throughTable, p)
  {
    var table := if Truthy(e.throughTable) then e.throughTable else Obj([]);
    e.(hasSchema := Bool(true), throughTable := SetProp(table, path, found))
  }

  /** `attr.references = linked.tableName; attr.referenceIdentity = linked`. */
  function Retarget(v: Value, linked: string, tableName: Value): (r: Value)
    ensures v.Obj? ==> r.Obj? && Get(r, "references") == tableName && Get(r, "referenceIdentity") == Str(linked)
    ensures v.Obj? ==> forall k :: k != "references" && k != "referenceIdentity" ==> Get(r, k) == Get(v, k) && (HasProp(r, k) <==> HasProp(v, k))
    ensures !v.Obj? ==> r == v
  {
    SetProp(SetProp(v, "references", tableName), "referenceIdentity", Str(linked))
  }

  /** `attr.on = attr.onKey = reference; delete attr.through`. */
  function SetReference(v: Value, reference: Value): (r: Value)
    ensures v.Obj? ==> r.Obj? && Get(r, "on") == reference && Get(r, "onKey") == reference && !HasProp(r, "through")
    ensures v.Obj? ==> forall k :: k != "on" && k != "onKey" && k != "through" ==> Get(r, k) == Get(v, k) && (HasProp(r, k) <==> HasProp(v, k))
    ensures !v.Obj? ==> r == v
  {
    DeleteProp(SetProp(SetProp(v, "on", reference), "onKey", reference), "through")
  }

  /** The `through` model an attribute names, when it names one. */
  function ThroughOf(schema: Schema, name: string, key: string): Option<string>
    requires Has(schema, name)
  {
    var v := GetIn(SchemaOf(schema, name), key);
    if HasProp(v, "through") && Get(v, "through").Str? then Some(Get(v, "through").s) else None
  }

  /** The schema once the through model is marked; no model's attributes change. */
  function MarkThrough(schema: Schema, name: string, key: string, linked: string, found: Value): (r: Schema)
    requires Has(schema, linked)
    ensures Keys(r) == Keys(schema)
    ensures forall n :: n != linked ==> Lookup(r, n) == Lookup(schema, n)
    ensures Lookup(r, linked) == Some(MarkThroughModel(Lookup(schema, linked).value, name + "." + key, found))
  {
    Upsert(schema, linked, MarkThroughModel(Lookup(schema, linked).value, name + "." + key, found))
  }

  /** Marking leaves every model's attributes as they were. */
  lemma MarkThroughSchemas(schema: Schema, name: string, key: string, linked: string, found: Value, n: string)
    requires Has(schema, linked) && Has(schema, n)
    ensures Has(MarkThrough(schema, name, key, linked, found), n)
    ensures SchemaOf(MarkThrough(schema, name, key, linked, found), n) == SchemaOf(schema, n)
  {
  }

  /** The schema once the through model is marked and the attribute re-pointed, before the
      reference is looked up. */
  function Retargeted(schema: Schema, name: string, key: string, linked: string, found: Value): (r: Schema)
    requires Has(schema, name) && Has(schema, linked)
    ensures Keys(r) == Keys(schema)
    ensures Has(r, name) && Has(r, linked)
  {
    var schema1 := MarkThrough(schema, name, key, linked, found);
    var v := GetIn(SchemaOf(schema, name), key);
    SetSchemaAttribute(schema1, name, key, Retarget(v, linked, Lookup(schema, linked).value.tableName))
  }

  /** One `lookForThroughProperty` call. A `through` that is not a string, or names no model
      in the schema, is an error. */
  function FlagAttribute(schema: Schema, name: string, key: string): (r: Result<Schema>)
    requires Has(schema, name)
    ensures !HasProp(GetIn(SchemaOf(schema, name), key), "through") ==> r == Ok(schema)
    ensures r.Ok? ==> Keys(r.value) == Keys(schema)
  {
    var v := GetIn(SchemaOf(schema, name), key);
    if !HasProp(v, "through") then Ok(schema)
    else if !Get(v, "through").Str? then Err(TypeMismatch("through"))
    else
      var linked := Get(v, "through").s;
      if !Has(schema, linked) then Err(TypeMismatch("throughTable"))
      else
        var linkedAttrs := SchemaOf(schema, linked);
        var found :- ThroughKey(linkedAttrs, Keys(linkedAttrs), Get(v, "collection"));
        var schema2 := Retargeted(schema, name, key, linked, found);
        var attrs2 := SchemaOf(schema2, linked);
        var reference := ThroughReference(attrs2, Keys(attrs2), Lookup(schema, name).value.tableName, Get(v, "via"), Undefined);
        if !Truthy(reference) then Err(ThroughReferenceNotFound(name, key))
        else Ok(SetSchemaAttribute(schema2, name, key, SetReference(GetIn(SchemaOf(schema2, name), key), reference)))
  }

  /** The attribute `via` selects in the through model, as the reference scan sees it: when
      the attribute points through its own model at itself, the scan sees it re-pointed. */
  function Selected(schema: Schema, name: string, key: string, linked: string, via: string): Value
    requires Has(schema, name) && Has(schema, linked)
  {
    if linked == name && via == key
    then Retarget(GetIn(SchemaOf(schema, name), key), linked, Lookup(schema, linked).value.tableName)
    else GetIn(SchemaOf(schema, linked), via)
  }

  /** After re-pointing, the through model's attribute `via` is what `Selected` says. */
  lemma RetargetedSees(schema: Schema, name: string, key: string, linked: string, found: Value, via: string)
    requires Has(schema, name) && Has(schema, linked)
    ensures GetIn(SchemaOf(Retargeted(schema, name, key, linked, found), linked), via) == Selected(schema, name, key, linked, via)
  {
    MarkThroughSchemas(schema, name, key, linked, found, name);
    MarkThroughSchemas(schema, name, key, linked, found, linked);
  }

  /** After re-pointing, the visited attribute is re-pointed and its siblings are untouched. */
  lemma RetargetedAttribute(schema: Schema, name: string, key: string, linked: string, found: Value)
    requires Has(schema, name) && Has(schema, linked)
    ensures GetIn(SchemaOf(Retargeted(schema, name, key, linked, found), name), key)
            == Retarget(GetIn(SchemaOf(schema, name), key), linked, Lookup(schema, linked).value.tableName)
    ensures forall k :: k != key ==>
              GetIn(SchemaOf(Retargeted(schema, name, key, linked, found), name), k) == GetIn(SchemaOf(schema, name), k)
    ensures Has(SchemaOf(schema, name), key) ==>
              Keys(SchemaOf(Retargeted(schema, name, key, linked, found), name)) == Keys(SchemaOf(schema, name))
  {
    MarkThroughSchemas(schema, name, key, linked, found, name);
  }

  /** Re-pointing leaves the attributes of every other model alone. */
  lemma RetargetedOthers(schema: Schema, name: string, key: string, linked: string, found: Value, n: string)
    requires Has(schema, name) && Has(schema, linked) && Has(schema, n) && n != name
    ensures SchemaOf(Retargeted(schema, name, key, linked, found), n) == SchemaOf(schema, n)
  {
    MarkThroughSchemas(schema, name, key, linked, found, n);
  }

  /** A re-pointed attribute that receives its reference holds it in `on` and `onKey`, the
      through model in `references` and `referenceIdentity`, and no `through`. */
  lemma SetReferenceFields(v: Value, linked: string, tableName: Value, reference: Value)
    requires v.Obj?
    ensures var a := SetReference(Retarget(v, linked, tableName), reference);
            && a.Obj? && !HasProp(a, "through")
            && Get(a, "on") == reference && Get(a, "onKey") == reference
            && Get(a, "references") == tableName && Get(a, "referenceIdentity") == Str(linked)
  {
    var a1 := SetProp(v, "references", tableName);
    var a2 := SetProp(a1, "referenceIdentity", Str(linked));
    assert Get(a2, "references") == tableName;
    var a3 := SetProp(a2, "on", reference);
    assert Get(a3, "references") == tableName && Get(a3, "referenceIdentity") == Str(linked);
    var a4 := SetProp(a3, "onKey", reference);
    assert Get(a4, "references") == tableName && Get(a4, "referenceIdentity") == Str(linked) && Get(a4, "on") == reference;
  }

  /** The steps a successful call with a `through` takes: the through model exists, its key
      scan succeeds, and the reference scan over the re-pointed schema finds a truthy
      reference. */
  lemma FlagAttributeSteps(schema: Schema, name: string, key: string) returns (linked: string, found: Value, reference: Value)
    requires Has(schema, name)
    requires HasProp(GetIn(SchemaOf(schema, name), key), "through")
    requires FlagAttribute(schema, name, key).Ok?
    ensures var v := GetIn(SchemaOf(schema, name), key);
            && Get(v, "through") == Str(linked) && Has(schema, linked)
            && ThroughKey(SchemaOf(schema, linked), Keys(SchemaOf(schema, linked)), Get(v, "collection")) == Ok(found)
            && var schema2 := Retargeted(schema, name, key, linked, found);
               var attrs2 := SchemaOf(schema2, linked);
               && reference == ThroughReference(attrs2, Keys(attrs2), Lookup(schema, name).value.tableName, Get(v, "via"), Undefined)
               && Truthy(reference)
               && FlagAttribute(schema, name, key).value
                  == SetSchemaAttribute(schema2, name, key, SetReference(GetIn(SchemaOf(schema2, name), key), reference))
  {
    var v := GetIn(SchemaOf(schema, name), key);
    linked := Get(v, "through").s;
    var linkedAttrs := SchemaOf(schema, linked);
    found := ThroughKey(linkedAttrs, Keys(linkedAttrs), Get(v, "collection")).value;
    var attrs2 := SchemaOf(Retargeted(schema, name, key, linked, found), linked);
    reference := ThroughReference(attrs2, Keys(attrs2), Lookup(schema, name).value.tableName, Get(v, "via"), Undefined);
  }

  /** A resolved attribute points at its through model: `references` is that model's table
      name, `referenceIdentity` its name, and `on` and `onKey` the truthy `columnName` of the
      through model's foreign key that `via` names and that references this model's table.
      `through` is gone, and no other attribute of the model changes. */
  lemma FlagAttributeResolves(schema: Schema, name: string, key: string)
    requires Has(schema, name)
    requires HasProp(GetIn(SchemaOf(schema, name), key), "through")
    requires FlagAttribute(schema, name, key).Ok?
    ensures var v := GetIn(SchemaOf(schema, name), key);
            && Get(v, "through").Str? && Has(schema, Get(v, "through").s)
            && Get(v, "via").Str?
            && var linked := Get(v, "through").s;
               var via := Get(v, "via").s;
               var sel := Selected(schema, name, key, linked, via);
               var a := GetIn(SchemaOf(FlagAttribute(schema, name, key).value, name), key);
               && SelectedBy(sel, via, Lookup(schema, name).value.tableName, Get(v, "via"))
               && Truthy(Get(sel, "columnName"))
               && Get(a, "on") == Get(sel, "columnName")
               && Get(a, "onKey") == Get(sel, "columnName")
               && Get(a, "references") == Lookup(schema, linked).value.tableName
               && Get(a, "referenceIdentity") == Str(linked)
               && a.Obj? && !HasProp(a, "through")
    ensures forall k :: k != key ==>
              GetIn(SchemaOf(FlagAttribute(schema, name, key).value, name), k) == GetIn(SchemaOf(schema, name), k)
  {
    var v := GetIn(SchemaOf(schema, name), key);
    var linked, found, reference := FlagAttributeSteps(schema, name, key);
    var schema2 := Retargeted(schema, name, key, linked, found);
    var attrs2 := SchemaOf(schema2, linked);
    var tableName := Lookup(schema, name).value.tableName;
    ThroughReferenceSelects(attrs2, Keys(attrs2), tableName, Get(v, "via"), Undefined);
    RetargetedSees(schema, name, key, linked, found, Get(v, "via").s);
    RetargetedAttribute(schema, name, key, linked, found);
    SetReferenceFields(v, linked, Lookup(schema, linked).value.tableName, reference);
    FlagAttributeSiblings(schema, name, key);
  }

  /** A successful call with a `through` leaves the model's other attributes alone. */
  lemma FlagAttributeSiblings(schema: Schema, name: string, key: string)
    requires Has(schema, name)
    requires HasProp(GetIn(SchemaOf(schema, name), key), "through")
    requires FlagAttribute(schema, name, key).Ok?
    ensures forall k :: k != key ==>
              GetIn(SchemaOf(FlagAttribute(schema, name, key).value, name), k) == GetIn(SchemaOf(schema, name), k)
  {
    var linked, found, reference := FlagAttributeSteps(schema, name, key);
    RetargetedAttribute(schema, name, key, linked, found);
  }

  /** The through model is flagged `hasSchema`, and its `throughTable` records under
      `<model>.<attribute>` what the key scan found. */
  lemma FlagAttributeMarksThroughModel(schema: Schema, name: string, key: string)
    requires Has(schema, name)
    requires HasProp(GetIn(SchemaOf(schema, name), key), "through")
    requires FlagAttribute(schema, name, key).Ok?
    ensures var v := GetIn(SchemaOf(schema, name), key);
            && Get(v, "through").Str? && Has(schema, Get(v, "through").s)
            && var linked := Get(v, "through").s;
               var e := Lookup(schema, linked).value;
               var found := ThroughKey(e.schema, Keys(e.schema), Get(v, "collection"));
               var e' := Lookup(FlagAttribute(schema, name, key).value, linked).value;
               && found.Ok?
               && e'.hasSchema == Bool(true)
               && ((e.throughTable.Obj? || !Truthy(e.throughTable)) ==> Get(e'.throughTable, name + "." + key) == found.value)
               && (linked != name ==> e'.schema == e.schema)
    ensures forall n :: n != name && n != Get(GetIn(SchemaOf(schema, name), key), "through").s ==>
              Lookup(FlagAttribute(schema, name, key).value, n) == Lookup(schema, n)
  {
    var v := GetIn(SchemaOf(schema, name), key);
    var linked := Get(v, "through").s;
    var le := Lookup(schema, linked).value;
    var found := ThroughKey(le.schema, Keys(le.schema), Get(v, "collection")).value;
    var schema1 := Upsert(schema, linked, MarkThroughModel(le, name + "." + key, found));
    var schema2 := Retargeted(schema, name, key, linked, found);
    assert Lookup(schema2, linked).value.(schema := le.schema) == MarkThroughModel(le, name + "." + key, found);
  }

  /** Once the through model exists and its keys scan cleanly, the flagger fails exactly when
      no foreign key there is selected by `via` with a truthy `columnName`. */
  lemma FlagAttributeNotFound(schema: Schema, name: string, key: string)
    requires Has(schema, name)
    requires HasProp(GetIn(SchemaOf(schema, name), key), "through")
    requires Get(GetIn(SchemaOf(schema, name), key), "through").Str?
    requires Has(schema, Get(GetIn(SchemaOf(schema, name), key), "through").s)
    requires var v := GetIn(SchemaOf(schema, name), key);
             var attrs := SchemaOf(schema, Get(v, "through").s);
             ThroughKey(attrs, Keys(attrs), Get(v, "collection")).Ok?
    ensures var v := GetIn(SchemaOf(schema, name), key);
            var linked := Get(v, "through").s;
            var via := Get(v, "via");
            (FlagAttribute(schema, name, key) == Err(ThroughReferenceNotFound(name, key)))
            <==> !(&& via.Str? && Has(SchemaOf(schema, linked), via.s)
                   && var sel := Selected(schema, name, key, linked, via.s);
                      SelectedBy(sel, via.s, Lookup(schema, name).value.tableName, via) && Truthy(Get(sel, "columnName")))
  {
    var v := GetIn(SchemaOf(schema, name), key);
    var linked := Get(v, "through").s;
    var linkedAttrs := SchemaOf(schema, linked);
    var found := ThroughKey(linkedAttrs, Keys(linkedAttrs), Get(v, "collection")).value;
    var schema2 := Retargeted(schema, name, key, linked, found);
    var attrs2 := SchemaOf(schema2, linked);
    var tableName := Lookup(schema, name).value.tableName;
    ThroughReferenceSelects(attrs2, Keys(attrs2), tableName, Get(v, "via"), Undefined);
    if Get(v, "via").Str? {
      RetargetedSees(schema, name, key, linked, found, Get(v, "via").s);
      assert Has(attrs2, Get(v, "via").s) <==> Has(linkedAttrs, Get(v, "via").s) by {
        var le := Lookup(schema, linked).value;
        var schema1 := Upsert(schema, linked, MarkThroughModel(le, name + "." + key, found));
        assert SchemaOf(schema1, linked) == linkedAttrs;
        if linked == name {
          assert Has(linkedAttrs, key);
        }
      }
    }
  }

  /** One call changes only the attribute it visits, keeps the attribute keys of the model,
      leaves every other model's attributes alone, and leaves no `through` behind. */
  lemma FlagAttributeFrame(schema: Schema, name: string, key: string)
    requires Has(schema, name) && Has(SchemaOf(schema, name), key)
    requires FlagAttribute(schema, name, key).Ok?
    ensures var r := FlagAttribute(schema, name, key).value;
            && Keys(r) == Keys(schema)
            && Keys(SchemaOf(r, name)) == Keys(SchemaOf(schema, name))
            && (forall n :: n != name && Has(schema, n) ==> SchemaOf(r, n) == SchemaOf(schema, n))
            && (forall k :: k != key ==> GetIn(SchemaOf(r, name), k) == GetIn(SchemaOf(schema, name), k))
            && !HasProp(GetIn(SchemaOf(r, name), key), "through")
  {
    var v := GetIn(SchemaOf(schema, name), key);
    if HasProp(v, "through") {
      FlagAttributeResolves(schema, name, key);
      var linked, found, reference := FlagAttributeSteps(schema, name, key);
      RetargetedAttribute(schema, name, key, linked, found);
      var r := FlagAttribute(schema, name, key).value;
      forall n | n != name && Has(schema, n) ensures SchemaOf(r, n) == SchemaOf(schema, n) {
        RetargetedOthers(schema, name, key, linked, found, n);
      }
    }
  }

  /** `_.each(attributes, lookForThroughProperty)` over a snapshot of the attribute keys. */
  function FlagAll(schema: Schema, name: string, keys: seq<string>): (r: Result<Schema>)
    requires Has(schema, name)
    ensures r.Ok? ==> Keys(r.value) == Keys(schema)
    decreases |keys|
  {
    if |keys| == 0 then Ok(schema)
    else
      var schema1 :- FlagAttribute(schema, name, keys[0]);
      FlagAll(schema1, name, keys[1..])
  }

  /** `flagThroughTable(collectionName, schema)`; a model missing from the schema has no
      attributes to read and throws. */
  function FlagThroughTable(name: string, schema: Schema): (r: Result<Schema>)
    ensures !Has(schema, name) ==> r == Err(TypeMismatch("schema"))
  {
    if !Has(schema, name) then Err(TypeMismatch("schema"))
    else FlagAll(schema, name, Keys(SchemaOf(schema, name)))
  }

  lemma {:induction false} FlagAllFrame(schema: Schema, name: string, keys: seq<string>)
    requires Has(schema, name)
    requires forall k :: k in keys ==> Has(SchemaOf(schema, name), k)
    requires FlagAll(schema, name, keys).Ok?
    ensures var r := FlagAll(schema, name, keys).value;
            && Keys(SchemaOf(r, name)) == Keys(SchemaOf(schema, name))
            && (forall n :: n != name && Has(schema, n) ==> SchemaOf(r, n) == SchemaOf(schema, n))
            && (forall k :: !HasProp(GetIn(SchemaOf(schema, name), k), "through") ==>
                  GetIn(SchemaOf(r, name), k) == GetIn(SchemaOf(schema, name), k))
            && (forall k :: k in keys ==> !HasProp(GetIn(SchemaOf(r, name), k), "through"))
    decreases |keys|
  {
    if |keys| > 0 {
      FlagAttributeFrame(schema, name, keys[0]);
      var schema1 := FlagAttribute(schema, name, keys[0]).value;
      forall k | k in keys[1..] ensures Has(SchemaOf(schema1, name), k) {
        assert k in keys;
      }
      FlagAllFrame(schema1, name, keys[1..]);
      var r := FlagAll(schema, name, keys).value;
      assert r == FlagAll(schema1, name, keys[1..]).value;
      forall k | k in keys ensures !HasProp(GetIn(SchemaOf(r, name), k), "through") {
        if k !in keys[1..] {
          assert k == keys[0];
        }
      }
      forall k | !HasProp(GetIn(SchemaOf(schema, name), k), "through")
        ensures GetIn(SchemaOf(r, name), k) == GetIn(SchemaOf(schema, name), k)
      {
        if k == keys[0] {
          assert schema1 == schema;
        }
      }
    }
  }

  /** After the flagger no attribute of the model owns `through`; an attribute that owned
      none is unchanged, and so are the attributes of every other model. */
  lemma FlagThroughTableFrame(name: string, schema: Schema)
    requires FlagThroughTable(name, schema).Ok?
    ensures Has(schema, name)
    ensures var r := FlagThroughTable(name, schema).value;
            && Keys(r) == Keys(schema)
            && Keys(SchemaOf(r, name)) == Keys(SchemaOf(schema, name))
            && (forall k :: Has(SchemaOf(r, name), k) ==> !HasProp(GetIn(SchemaOf(r, name), k), "through"))
            && (forall k :: !HasProp(GetIn(SchemaOf(schema, name), k), "through") ==>
                  GetIn(SchemaOf(r, name), k) == GetIn(SchemaOf(schema, name), k))
            && (forall n :: n != name && Has(schema, n) ==> SchemaOf(r, n) == SchemaOf(schema, n))
  {
    FlagAllFrame(schema, name, Keys(SchemaOf(schema, name)));
  }
}
