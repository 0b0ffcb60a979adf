/** The schema builder: validates every model definition and normalises it into a schema
    entry keyed by its lower-cased identity.
 */
module SchemaBuilder {
  import opened Results
  import opened Assoc
  import opened Strings
  import opened Values
  import opened Entries
  import opened AttributeValidation


  /** `identity`, falling back to `tableName`. */
  function IdentityOf(proto: Props): Value {
    if Has(proto, "tableName") && !Has(proto, "identity") then GetIn(proto, "tableName")
    else GetIn(proto, "identity")
  }

  /** The attribute map of a definition, when it is an object. */
  function AttributesOf(proto: Props): Props {
    var a := GetIn(proto, "attributes");
    if a.Obj? then a.props else []
  }

  /** Everything the builder demands of one model definition. The primary-key checks read
      the attributes as written; the attribute checks read the `_.merge` copy, which has no
      `undefined` properties. */
  predicate ValidModel(proto: Props, validTypes: set<string>, fits: (Value, Value) -> bool) {
    var pk := GetIn(proto, "primaryKey");
    var attrs := GetIn(proto, "attributes");
    var copy := CopyProps(AttributesOf(proto));
    && (Has(proto, "identity") || Has(proto, "tableName"))
    && !Has(proto, "autoCreatedAt")
    && !Has(proto, "autoUpdatedAt")
    && pk.Str?
    && HasProp(attrs, pk.s)
    && !HasProp(Get(attrs, pk.s), "defaultsTo")
    && IdentityOf(proto).Str?
    && forall i :: 0 <= i < |copy| ==> ValidAttribute(copy[i].0, copy[i].1, validTypes, fits)
  }

  /** Validates and normalises one model definition into its key and schema entry. */
  function BuildEntry(proto: Props, validTypes: set<string>, fits: (Value, Value) -> bool): (r: Result<(string, SchemaEntry)>)
    ensures r == Err(MissingIdentity) <==> !Has(proto, "identity") && !Has(proto, "tableName")
    ensures (Has(proto, "identity") || Has(proto, "tableName")) && Has(proto, "autoCreatedAt") ==> r == Err(TopLevelAutoCreatedAt)
    ensures (Has(proto, "identity") || Has(proto, "tableName")) && !Has(proto, "autoCreatedAt") && Has(proto, "autoUpdatedAt")
            ==> r == Err(TopLevelAutoUpdatedAt)
    ensures r.Ok? ==>
              var (key, e) := r.value;
              && IdentityOf(proto) == Str(e.identity)
              && key == Lower(e.identity)
              && Str(e.primaryKey) == GetIn(proto, "primaryKey")
              && Has(AttributesOf(proto), e.primaryKey)
              && e.tableName == (if Truthy(GetIn(proto, "tableName")) then GetIn(proto, "tableName") else Str(e.identity))
              && e.datastore == (if Truthy(GetIn(proto, "datastore")) then GetIn(proto, "datastore") else GetIn(proto, "connection"))
              && e.meta == (if Truthy(GetIn(proto, "meta")) then GetIn(proto, "meta") else Obj([]))
              && e.hasSchema == GetIn(proto, "schema")
              && ValidateAll(CopyProps(AttributesOf(proto)), validTypes, fits) == Ok(e.attributes)
              && e.schema == WithColumnNames(CopyProps(AttributesOf(proto)))
              && Keys(e.attributes) == Keys(CopyProps(AttributesOf(proto)))
              && e.throughTable == Undefined
  {
    if !Has(proto, "identity") && !Has(proto, "tableName") then Err(MissingIdentity)
    else if Has(proto, "autoCreatedAt") then Err(TopLevelAutoCreatedAt)
    else if Has(proto, "autoUpdatedAt") then Err(TopLevelAutoUpdatedAt)
    else
      var pk := GetIn(proto, "primaryKey");
      var attrs := GetIn(proto, "attributes");
      if !pk.Str? then Err(MissingPrimaryKey)
      else if !HasProp(attrs, pk.s) then Err(UnknownPrimaryKey(pk.s))
      else if HasProp(Get(attrs, pk.s), "defaultsTo") then Err(PrimaryKeyDefault(pk.s))
      else
        var identity := IdentityOf(proto);
        if !identity.Str? then Err(TypeMismatch("identity"))
        else
          var copy := CopyProps(attrs.props);
          var validated :- ValidateAll(copy, validTypes, fits);
          var tableName := GetIn(proto, "tableName");
          var datastore := GetIn(proto, "datastore");
          var meta := GetIn(proto, "meta");
          Ok((Lower(identity.s), SchemaEntry(
            primaryKey := pk.s,
            hasSchema := GetIn(proto, "schema"),
            identity := identity.s,
            tableName := if Truthy(tableName) then tableName else identity,
            datastore := if Truthy(datastore) then datastore else GetIn(proto, "connection"),
            attributes := validated,
            schema := WithColumnNames(copy),
            meta := if Truthy(meta) then meta else Obj([]),
            throughTable := Undefined)))
  }

  /** A definition is accepted exactly when it meets every requirement; the primary key it
      names is then an attribute that has no default. */
  lemma BuildEntryOkIff(proto: Props, validTypes: set<string>, fits: (Value, Value) -> bool)
    ensures BuildEntry(proto, validTypes, fits).Ok? <==> ValidModel(proto, validTypes, fits)
  {
    var pk := GetIn(proto, "primaryKey");
    var attrs := GetIn(proto, "attributes");
    if && (Has(proto, "identity") || Has(proto, "tableName"))
       && !Has(proto, "autoCreatedAt") && !Has(proto, "autoUpdatedAt")
       && pk.Str? && HasProp(attrs, pk.s) && !HasProp(Get(attrs, pk.s), "defaultsTo")
       && IdentityOf(proto).Str?
    {
      ValidateAllOkIff(CopyProps(attrs.props), validTypes, fits);
      assert BuildEntry(proto, validTypes, fits).Ok? <==> ValidateAll(CopyProps(attrs.props), validTypes, fits).Ok?;
    }
  }

  /** A built entry's `attributes` and `schema` own exactly the attributes the definition
      gives a value other than `undefined`. */
  lemma BuildEntryAttributeNames(proto: Props, validTypes: set<string>, fits: (Value, Value) -> bool, k: string)
    requires BuildEntry(proto, validTypes, fits).Ok?
    ensures var e := BuildEntry(proto, validTypes, fits).value.1;
            && (Has(e.attributes, k) <==> Assigns(AttributesOf(proto), 0, k))
            && (Has(e.schema, k) <==> Assigns(AttributesOf(proto), 0, k))
  {
    CopyKeys(AttributesOf(proto), k);
  }

  /** Every definition, built in order. */
  function BuildEntries(protos: seq<Props>, validTypes: set<string>, fits: (Value, Value) -> bool): (r: seq<Result<(string, SchemaEntry)>>)
    ensures |r| == |protos|
    ensures forall i :: 0 <= i < |protos| ==> r[i] == BuildEntry(protos[i], validTypes, fits)
  {
    seq(|protos|, i requires 0 <= i < |protos| => BuildEntry(protos[i], validTypes, fits))
  }

  /** The whole builder: every definition in order, each stored under its lower-cased
      identity; a later definition with the same key replaces the earlier one in place. */
  function BuildSchema(protos: seq<Props>, validTypes: set<string>, fits: (Value, Value) -> bool): (r: Result<Schema>)
    ensures r.Ok? <==> forall i :: 0 <= i < |protos| ==> BuildEntry(protos[i], validTypes, fits).Ok?
    ensures r.Ok? ==> forall k :: Has(r.value, k) <==> k in BuiltKeys(BuildEntries(protos, validTypes, fits))
  {
    CollectInto([], BuildEntries(protos, validTypes, fits))
  }

  /** The build succeeds exactly when every definition meets every requirement. */
  lemma BuildSchemaOkIff(protos: seq<Props>, validTypes: set<string>, fits: (Value, Value) -> bool)
    ensures BuildSchema(protos, validTypes, fits).Ok? <==> forall i :: 0 <= i < |protos| ==> ValidModel(protos[i], validTypes, fits)
  {
    forall i | 0 <= i < |protos|
      ensures BuildEntry(protos[i], validTypes, fits).Ok? <==> ValidModel(protos[i], validTypes, fits)
    {
      BuildEntryOkIff(protos[i], validTypes, fits);
    }
  }

  /** The schema's keys are exactly the lower-cased identities of the definitions. */
  lemma BuildSchemaKeys(protos: seq<Props>, validTypes: set<string>, fits: (Value, Value) -> bool)
    requires BuildSchema(protos, validTypes, fits).Ok?
    ensures forall i :: 0 <= i < |protos| ==>
              Has(BuildSchema(protos, validTypes, fits).value, BuildEntry(protos[i], validTypes, fits).value.0)
    ensures forall k :: Has(BuildSchema(protos, validTypes, fits).value, k) ==> IsLower(k)
  {
    BuildSchemaHasEach(protos, validTypes, fits);
    BuildSchemaLowerKeys(protos, validTypes, fits);
  }

  lemma BuildSchemaHasEach(protos: seq<Props>, validTypes: set<string>, fits: (Value, Value) -> bool)
    requires BuildSchema(protos, validTypes, fits).Ok?
    ensures forall i :: 0 <= i < |protos| ==>
              Has(BuildSchema(protos, validTypes, fits).value, BuildEntry(protos[i], validTypes, fits).value.0)
  {
    var built := BuildEntries(protos, validTypes, fits);
    var ks := BuiltKeys(built);
    forall i | 0 <= i < |protos| ensures Has(BuildSchema(protos, validTypes, fits).value, built[i].value.0) {
      assert ks[i] == built[i].value.0;
    }
  }

  lemma BuildSchemaLowerKeys(protos: seq<Props>, validTypes: set<string>, fits: (Value, Value) -> bool)
    requires BuildSchema(protos, validTypes, fits).Ok?
    ensures forall k :: Has(BuildSchema(protos, validTypes, fits).value, k) ==> IsLower(k)
  {
    var built := BuildEntries(protos, validTypes, fits);
    var ks := BuiltKeys(built);
    forall k | Has(BuildSchema(protos, validTypes, fits).value, k) ensures IsLower(k) {
      var i :| 0 <= i < |ks| && ks[i] == k;
      BuildEntryKey(protos[i], validTypes, fits);
    }
  }

  /** A built entry is stored under its lower-cased identity. */
  lemma BuildEntryKey(proto: Props, validTypes: set<string>, fits: (Value, Value) -> bool)
    requires BuildEntry(proto, validTypes, fits).Ok?
    ensures var e := BuildEntry(proto, validTypes, fits).value;
            e.0 == Lower(e.1.identity) && IsLower(e.0)
  {
    LowerIsLower(BuildEntry(proto, validTypes, fits).value.1.identity);
  }

  /** A model's entry is found under its key unless a later model has the same key. */
  lemma BuildSchemaLastWins(protos: seq<Props>, validTypes: set<string>, fits: (Value, Value) -> bool, i: nat)
    requires BuildSchema(protos, validTypes, fits).Ok?
    requires i < |protos|
    requires forall j :: i < j < |protos| ==>
               BuildEntry(protos[j], validTypes, fits).value.0 != BuildEntry(protos[i], validTypes, fits).value.0
    ensures Lookup(BuildSchema(protos, validTypes, fits).value, BuildEntry(protos[i], validTypes, fits).value.0)
            == Some(BuildEntry(protos[i], validTypes, fits).value.1)
  {
    CollectIntoLastWins([], BuildEntries(protos, validTypes, fits), i);
  }
}
