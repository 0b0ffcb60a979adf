/** The legacy attribute normaliser: fills in a model's identity, connection and flags, adds
    the automatic primary key and timestamps, strips functions and non-reserved properties,
    and rejects dotted attribute names. Its output is keyed by identity.

    The adapters' primary-key format is read from the `connections` map handed to the pass:
    `connections[name]._adapter.pkFormat`.
 */
module LegacyAttributes {
  import opened Results
  import opened Assoc
  import opened Strings
  import opened Values

  /** The attribute properties the normaliser keeps; every other property is deleted. */
  const ReservedWords: set<string> := {
    "defaultsTo", "primaryKey", "autoIncrement", "unique", "index", "columnName", "foreignKey",
    "references", "on", "through", "groupKey", "required", "default", "type", "collection",
    "model", "via"
  }

  /** The record stored for each model. */
  datatype LegacyEntry = LegacyEntry(connection: Value, identity: string, tableName: Value, attributes: Props)

  type LegacySchema = AList<LegacyEntry>

  /** A missing `identity` is the lower-cased `tableName`; without either the model is rejected. */
  function NormalizeIdentity(proto: Props): (r: Result<Props>)
    ensures r.Ok? <==> Has(proto, "identity") || GetIn(proto, "tableName").Str?
    ensures r.Err? ==> r.error == (if Has(proto, "tableName") then TypeMismatch("tableName") else MissingIdentity)
    ensures r.Ok? ==> Has(r.value, "identity")
    ensures r.Ok? ==> GetIn(r.value, "identity")
                      == if Has(proto, "identity") then GetIn(proto, "identity") else Str(Lower(GetIn(proto, "tableName").s))
    ensures r.Ok? ==> forall k :: k != "identity" ==> GetIn(r.value, k) == GetIn(proto, k) && (Has(r.value, k) <==> Has(proto, k))
  {
    if Has(proto, "tableName") && !Has(proto, "identity") then
      var t := GetIn(proto, "tableName");
      if t.Str? then Ok(Upsert(proto, "identity", Str(Lower(t.s)))) else Err(TypeMismatch("tableName"))
    else if !Has(proto, "identity") then Err(MissingIdentity)
    else Ok(proto)
  }

  /** `m[k] = v` only when `m` has no own `k`. */
  function Default(m: Props, k: string, v: Value): (r: Props)
    ensures Has(r, k)
    ensures GetIn(r, k) == if Has(m, k) then GetIn(m, k) else v
    ensures forall k' :: k' != k ==> GetIn(r, k') == GetIn(m, k') && (Has(r, k') <==> Has(m, k'))
  {
    if Has(m, k) then m else Upsert(m, k, v)
  }

  /** Applies the defaults in order: an option takes its first default only when it is not
      already an own property. */
  function DefaultsFrom(c: Props, defaults: Props): (r: Props)
    ensures forall k :: Has(r, k) <==> Has(c, k) || Has(defaults, k)
    ensures forall k :: GetIn(r, k) == if Has(c, k) then GetIn(c, k) else GetIn(defaults, k)
    decreases |defaults|
  {
    if |defaults| == 0 then c
    else
      DefaultsHead(defaults);
      DefaultsFrom(Default(c, defaults[0].0, defaults[0].1), defaults[1..])
  }

  /** The first default is the first word on its key; the rest speak for every other key. */
  lemma DefaultsHead(defaults: Props)
    requires |defaults| > 0
    ensures forall k :: Has(defaults, k) <==> k == defaults[0].0 || Has(defaults[1..], k)
    ensures GetIn(defaults, defaults[0].0) == defaults[0].1
    ensures forall k :: k != defaults[0].0 ==> GetIn(defaults, k) == GetIn(defaults[1..], k)
  {
    assert defaults == [defaults[0]] + defaults[1..];
    KeysCons(defaults[0], defaults[1..]);
  }

  /** The options `setDefaults` fills in, with their defaults: `connection` is `''`,
      `attributes` is `{}`, and the three flags are on. */
  const OptionDefaults: Props := [
    ("connection", Str("")), ("attributes", Obj([])),
    ("autoPK", Bool(true)), ("autoCreatedAt", Bool(true)), ("autoUpdatedAt", Bool(true))
  ]

  /** Every option missing from the definition takes its default; everything else is kept.
      Writing an own flag back to itself changes nothing, so only a missing flag is added. */
  function SetDefaults(c: Props): (r: Props)
    ensures forall k :: Has(r, k) <==> Has(c, k) || Has(OptionDefaults, k)
    ensures forall k :: GetIn(r, k) == if Has(c, k) then GetIn(c, k) else GetIn(OptionDefaults, k)
  {
    DefaultsFrom(c, OptionDefaults)
  }

  /** The defaults themselves. */
  lemma OptionDefaultValues()
    ensures GetIn(OptionDefaults, "connection") == Str("")
    ensures GetIn(OptionDefaults, "attributes") == Obj([])
    ensures GetIn(OptionDefaults, "autoPK") == Bool(true)
    ensures GetIn(OptionDefaults, "autoCreatedAt") == Bool(true)
    ensures GetIn(OptionDefaults, "autoUpdatedAt") == Bool(true)
  {
    assert OptionDefaults[1..][1..][1..][1..] == [("autoUpdatedAt", Bool(true))];
  }

  /** Some attribute owns a `primaryKey` property. */
  predicate DeclaresPrimaryKey(attrs: Props) {
    exists i :: 0 <= i < |attrs| && HasProp(attrs[i].1, "primaryKey")
  }

  /** Reading `hasOwnProperty` of a `null`/`undefined` attribute throws. */
  predicate HasNullishAttribute(attrs: Props) {
    exists i :: 0 <= i < |attrs| && Nullish(attrs[i].1)
  }

  /** The adapter's primary-key format for the model's connection, if it declares one.
      Only a string connection name is looked up. The own-property test throws on a
      `null`/`undefined` connections map and on a `null`/`undefined` `_adapter`, and reading
      `_adapter` throws on a `null`/`undefined` connection entry. */
  function PkFormat(connections: Value, connection: Value): (r: Result<Option<Value>>)
    ensures r.Err? <==> || Nullish(connections)
                        || (&& connection.Str? && HasProp(connections, connection.s)
                            && (|| Nullish(Get(connections, connection.s))
                                || Nullish(Get(Get(connections, connection.s), "_adapter"))))
    ensures r.Err? ==> r.error.TypeMismatch?
    ensures r.Ok? && r.value.Some? ==>
              connection.Str? && HasProp(Get(Get(connections, connection.s), "_adapter"), "pkFormat")
              && r.value.value == Get(Get(Get(connections, connection.s), "_adapter"), "pkFormat")
    ensures r.Ok? && r.value.None? ==>
              !connection.Str? || !HasProp(Get(Get(connections, connection.s), "_adapter"), "pkFormat")
  {
    if Nullish(connections) then Err(TypeMismatch("hasOwnProperty"))
    else if connection.Str? && HasProp(connections, connection.s) then
      var conn := Get(connections, connection.s);
      if Nullish(conn) then Err(TypeMismatch("connection"))
      else
        var adapter := Get(conn, "_adapter");
        if Nullish(adapter) then Err(TypeMismatch("hasOwnProperty"))
        else if HasProp(adapter, "pkFormat") then Ok(Some(Get(adapter, "pkFormat"))) else Ok(None)
    else Ok(None)
  }

  /** The automatic primary key, typed `integer` unless the adapter says otherwise. */
  function IdAttribute(pkType: Value): Value {
    Obj([("type", pkType), ("autoIncrement", Bool(true)), ("primaryKey", Bool(true)), ("unique", Bool(true))])
  }

  /** The automatic timestamp attribute. */
  const Timestamp: Value := Obj([("type", Str("datetime")), ("default", Str("NOW"))])

  /** Whether `id` is added: no attribute declares a primary key, `autoPK` is on, and `id` is
      not already a truthy attribute. */
  predicate AddsId(c: Props, attrs: Props) {
    !DeclaresPrimaryKey(attrs) && Truthy(GetIn(c, "autoPK")) && !Truthy(GetIn(attrs, "id"))
  }

  /** Adds `id`, `createdAt` and `updatedAt` as the flags ask; returns the new attribute map. */
  function AutoAttributes(c: Props, connections: Value): (r: Result<Props>)
    ensures r.Err? ==> r.error.TypeMismatch? || r.error.MalformedAttributes?
    ensures r.Ok? <==> && GetIn(c, "attributes").Obj?
                       && !HasNullishAttribute(GetIn(c, "attributes").props)
                       && (AddsId(c, GetIn(c, "attributes").props) ==> PkFormat(connections, GetIn(c, "connection")).Ok?)
    ensures r.Ok? ==> var attrs := GetIn(c, "attributes").props;
                      && (forall k :: Has(attrs, k) ==> Has(r.value, k))
                      && (forall k :: k != "id" && k != "createdAt" && k != "updatedAt" ==>
                            GetIn(r.value, k) == GetIn(attrs, k) && (Has(r.value, k) <==> Has(attrs, k)))
  {
    var attrs := GetIn(c, "attributes");
    if Nullish(attrs) then Err(TypeMismatch("attributes"))
    else if !attrs.Obj? then Err(MalformedAttributes(""))
    else if HasNullishAttribute(attrs.props) then Err(TypeMismatch("attribute"))
    else
      var withId :- AddId(c, attrs.props, connections);
      Ok(AddTimestamps(c, withId))
  }

  /** The `id` step of `AutoAttributes`. */
  function AddId(c: Props, attrs: Props, connections: Value): (r: Result<Props>)
    ensures r.Err? ==> r.error.TypeMismatch?
    ensures r.Ok? <==> AddsId(c, attrs) ==> PkFormat(connections, GetIn(c, "connection")).Ok?
    ensures r.Ok? && AddsId(c, attrs) ==>
              var fmt := PkFormat(connections, GetIn(c, "connection")).value;
              GetIn(r.value, "id") == IdAttribute(if fmt.Some? then fmt.value else Str("integer"))
    ensures r.Ok? && !AddsId(c, attrs) ==> r.value == attrs
    ensures r.Ok? ==> Has(attrs, "id") ==> Keys(r.value) == Keys(attrs)
    ensures r.Ok? ==> forall k :: k != "id" ==> GetIn(r.value, k) == GetIn(attrs, k) && (Has(r.value, k) <==> Has(attrs, k))
  {
    if AddsId(c, attrs) then
      var fmt :- PkFormat(connections, GetIn(c, "connection"));
      Ok(Upsert(attrs, "id", IdAttribute(if fmt.Some? then fmt.value else Str("integer"))))
    else Ok(attrs)
  }

  /** `attrs[k] = now` when the flag is on and `attrs[k]` is falsy. */
  function AddTimestamp(attrs: Props, flag: Value, k: string): (r: Props)
    ensures GetIn(r, k) == if Truthy(flag) && !Truthy(GetIn(attrs, k)) then Timestamp else GetIn(attrs, k)
    ensures forall k' :: k' != k ==> GetIn(r, k') == GetIn(attrs, k') && (Has(r, k') <==> Has(attrs, k'))
    ensures Has(attrs, k) ==> Has(r, k)
  {
    if Truthy(flag) && !Truthy(GetIn(attrs, k)) then Upsert(attrs, k, Timestamp) else attrs
  }

  /** The timestamp step of `AutoAttributes`. */
  function AddTimestamps(c: Props, attrs: Props): (r: Props)
    ensures GetIn(r, "createdAt") == if Truthy(GetIn(c, "autoCreatedAt")) && !Truthy(GetIn(attrs, "createdAt")) then Timestamp else GetIn(attrs, "createdAt")
    ensures GetIn(r, "updatedAt") == if Truthy(GetIn(c, "autoUpdatedAt")) && !Truthy(GetIn(attrs, "updatedAt")) then Timestamp else GetIn(attrs, "updatedAt")
    ensures forall k :: k != "createdAt" && k != "updatedAt" ==> GetIn(r, k) == GetIn(attrs, k) && (Has(r, k) <==> Has(attrs, k))
    ensures forall k :: Has(attrs, k) ==> Has(r, k)
  {
    AddTimestamp(AddTimestamp(attrs, GetIn(c, "autoCreatedAt"), "createdAt"), GetIn(c, "autoUpdatedAt"), "updatedAt")
  }

  /** `stripFunctions`: drops every function-valued attribute and keeps the rest in order. */
  function StripFunctions(attrs: Props): (r: Props)
    ensures forall e :: e in r <==> e in attrs && !e.1.Func?
  {
    Filter(attrs, (k: string, v: Value) => !v.Func?)
  }

  /** `stripProperty`: an object attribute keeps exactly its reserved properties; any other
      value is left alone. */
  function StripProperty(v: Value): (r: Value)
    ensures v.Obj? ==> r.Obj? && forall e :: e in r.props <==> e in v.props && e.0 in ReservedWords
    ensures !v.Obj? ==> r == v
  {
    if v.Obj? then Obj(Filter(v.props, (k: string, x: Value) => k in ReservedWords)) else v
  }

  /** `stripProperties`: strips every attribute in place. */
  function StripProperties(attrs: Props): (r: Props)
    ensures Keys(r) == Keys(attrs)
    ensures forall i :: 0 <= i < |attrs| ==> r[i].1 == StripProperty(attrs[i].1)
  {
    seq(|attrs|, i requires 0 <= i < |attrs| => (attrs[i].0, StripProperty(attrs[i].1)))
  }

  /** `validatePropertyNames`: the first attribute name containing `.` is rejected. */
  function ValidateNames(attrs: Props): (r: Result<Props>)
    ensures r.Ok? <==> forall i :: 0 <= i < |attrs| ==> '.' !in attrs[i].0
    ensures r.Ok? ==> r.value == attrs
    ensures r.Err? ==> r.error.InvalidAttributeName? && '.' in r.error.attribute && r.error.attribute in Keys(attrs)
  {
    if |attrs| == 0 then Ok(attrs)
    else if '.' in attrs[0].0 then Err(InvalidAttributeName(attrs[0].0))
    else
      var rest := ValidateNames(attrs[1..]);
      assert forall i :: 1 <= i < |attrs| ==> attrs[1..][i - 1] == attrs[i];
      if rest.Err? then Err(rest.error) else Ok(attrs)
  }

  /** The type of the automatic primary key: the adapter's format, else `integer`. */
  function IdType(connections: Value, connection: Value): Value {
    var fmt := PkFormat(connections, connection);
    if fmt.Ok? && fmt.value.Some? then fmt.value.value else Str("integer")
  }

  /** What `AutoAttributes` adds: `id` exactly when `AddsId` holds, and each timestamp when
      its flag is on and the attribute is falsy. */
  lemma AutoAttributesAdds(c: Props, connections: Value)
    requires AutoAttributes(c, connections).Ok?
    ensures var attrs := GetIn(c, "attributes").props;
            var r := AutoAttributes(c, connections).value;
            && GetIn(r, "id") == (if AddsId(c, attrs) then IdAttribute(IdType(connections, GetIn(c, "connection"))) else GetIn(attrs, "id"))
            && GetIn(r, "createdAt") == (if Truthy(GetIn(c, "autoCreatedAt")) && !Truthy(GetIn(attrs, "createdAt")) then Timestamp else GetIn(attrs, "createdAt"))
            && GetIn(r, "updatedAt") == (if Truthy(GetIn(c, "autoUpdatedAt")) && !Truthy(GetIn(attrs, "updatedAt")) then Timestamp else GetIn(attrs, "updatedAt"))
  {
    var attrs := GetIn(c, "attributes").props;
    var withId := AddId(c, attrs, connections).value;
    assert AutoAttributes(c, connections).value == AddTimestamps(c, withId);
    assert GetIn(withId, "createdAt") == GetIn(attrs, "createdAt");
    assert GetIn(withId, "updatedAt") == GetIn(attrs, "updatedAt");
  }

  /** `normalizeIdentity` then `setDefaults`. */
  function Prepare(proto: Props): (r: Result<Props>)
    ensures r.Err? && r.error == MissingIdentity <==> !Has(proto, "identity") && !Has(proto, "tableName")
    ensures r.Ok? <==> Has(proto, "identity") || GetIn(proto, "tableName").Str?
    ensures r.Ok? ==> GetIn(r.value, "identity")
                      == if Has(proto, "identity") then GetIn(proto, "identity") else Str(Lower(GetIn(proto, "tableName").s))
    ensures r.Ok? ==> GetIn(r.value, "tableName") == GetIn(proto, "tableName")
    ensures r.Ok? ==> GetIn(r.value, "connection") == if Has(proto, "connection") then GetIn(proto, "connection") else Str("")
  {
    var c1 :- NormalizeIdentity(proto);
    OptionDefaultValues();
    Ok(SetDefaults(c1))
  }

  /** `stripFunctions`, `stripProperties` and `validatePropertyNames` on the copied attributes,
      in one sweep (each acts on one attribute at a time, and `CleanIsThePasses` shows the sweep
      equals the three passes). Functions go, every other attribute keeps only its reserved
      properties, and the first dotted name among the kept attributes is rejected. */
  function Clean(attrs: Props): (r: Result<Props>)
    ensures r.Err? ==> r.error.InvalidAttributeName?
    ensures r.Ok? <==> forall i :: 0 <= i < |attrs| && !attrs[i].1.Func? ==> '.' !in attrs[i].0
    ensures r.Ok? ==> forall i :: 0 <= i < |r.value| ==>
                        && !r.value[i].1.Func?
                        && '.' !in r.value[i].0
                        && (r.value[i].1.Obj? ==> forall e :: e in r.value[i].1.props ==> e.0 in ReservedWords)
  {
    if |attrs| == 0 then Ok([])
    else
      var rest := Clean(attrs[1..]);
      assert forall i :: 1 <= i < |attrs| ==> attrs[1..][i - 1] == attrs[i];
      var (name, v) := attrs[0];
      if v.Func? then rest
      else if '.' in name then Err(InvalidAttributeName(name))
      else if rest.Err? then rest
      else
        var r := [(name, StripProperty(v))] + rest.value;
        assert forall i :: 1 <= i < |r| ==> r[i] == rest.value[i - 1];
        Ok(r)
  }

  /** Stripping an attribute twice strips nothing more. */
  lemma StripPropertyIdempotent(v: Value)
    ensures StripProperty(StripProperty(v)) == StripProperty(v)
  {
    if v.Obj? {
      FilterKeepsAll(StripProperty(v).props, (k: string, x: Value) => k in ReservedWords);
    }
  }

  lemma StripPropertiesCons(e: (string, Value), t: Props)
    ensures StripProperties([e] + t) == [(e.0, StripProperty(e.1))] + StripProperties(t)
  {
    var l := StripProperties([e] + t);
    var r := [(e.0, StripProperty(e.1))] + StripProperties(t);
    assert |l| == |r|;
    forall i | 0 <= i < |l| ensures l[i] == r[i] {
      assert Keys(l)[i] == ([e] + t)[i].0;
      if i > 0 {
        assert Keys(StripProperties(t))[i - 1] == t[i - 1].0;
      }
    }
  }

  /** The one sweep computes exactly `validatePropertyNames(stripProperties(stripFunctions(attrs)))`. */
  lemma {:induction false} CleanIsThePasses(attrs: Props)
    ensures Clean(attrs) == ValidateNames(StripProperties(StripFunctions(attrs)))
    decreases |attrs|
  {
    if |attrs| > 0 {
      var t := attrs[1..];
      CleanIsThePasses(t);
      assert attrs == [attrs[0]] + t;
      if !attrs[0].1.Func? {
        assert StripFunctions(attrs) == [attrs[0]] + StripFunctions(t);
        StripPropertiesCons(attrs[0], StripFunctions(t));
        var swept := [(attrs[0].0, StripProperty(attrs[0].1))] + StripProperties(StripFunctions(t));
        assert swept[1..] == StripProperties(StripFunctions(t));
      } else {
        assert StripFunctions(attrs) == StripFunctions(t);
      }
    }
  }

  /** One model definition, normalised: its key and its stored record. */
  function NormalizeModel(proto: Props, connections: Value): (r: Result<(string, LegacyEntry)>)
    ensures r.Ok? ==> r.value.0 == r.value.1.identity
  {
    var c :- Prepare(proto);
    var attrs :- AutoAttributes(c, connections);
    var identity := GetIn(c, "identity");
    if !identity.Str? then Err(TypeMismatch("identity"))
    else
      var cleaned :- Clean(attrs);
      var tableName := GetIn(c, "tableName");
      Ok((identity.s, LegacyEntry(GetIn(c, "connection"), identity.s, if Truthy(tableName) then tableName else identity, cleaned)))
  }

  /** Only a definition with neither `identity` nor `tableName` is missing its identity. */
  lemma NormalizeModelMissingIdentity(proto: Props, connections: Value)
    ensures NormalizeModel(proto, connections) == Err(MissingIdentity) <==> !Has(proto, "identity") && !Has(proto, "tableName")
  {
    var p := Prepare(proto);
    if p.Err? {
      assert NormalizeModel(proto, connections) == Err(p.error);
    } else {
      var a := AutoAttributes(p.value, connections);
      if a.Err? {
        assert NormalizeModel(proto, connections) == Err(a.error);
      } else if !GetIn(p.value, "identity").Str? {
        assert NormalizeModel(proto, connections) == Err(TypeMismatch("identity"));
      } else {
        var cl := Clean(a.value);
        assert cl.Err? ==> NormalizeModel(proto, connections) == Err(cl.error);
      }
    }
  }

  /** The stored record: the identity as given or derived from `tableName`, `tableName`
      defaulting to the identity, `connection` defaulting to `''`, and attributes holding no
      function and no dotted name. */
  lemma NormalizeModelRecord(proto: Props, connections: Value)
    requires NormalizeModel(proto, connections).Ok?
    ensures var e := NormalizeModel(proto, connections).value.1;
            && (Has(proto, "identity") ==> GetIn(proto, "identity") == Str(e.identity))
            && (!Has(proto, "identity") ==> GetIn(proto, "tableName").Str? && e.identity == Lower(GetIn(proto, "tableName").s))
            && e.tableName == (if Truthy(GetIn(proto, "tableName")) then GetIn(proto, "tableName") else Str(e.identity))
            && e.connection == (if Has(proto, "connection") then GetIn(proto, "connection") else Str(""))
            && forall i :: 0 <= i < |e.attributes| ==> !e.attributes[i].1.Func? && '.' !in e.attributes[i].0
  {
    var c := Prepare(proto).value;
    var attrs := AutoAttributes(c, connections).value;
    var identity := GetIn(c, "identity");
    var cleaned := Clean(attrs).value;
    var tableName := GetIn(c, "tableName");
    assert NormalizeModel(proto, connections).value.1
           == LegacyEntry(GetIn(c, "connection"), identity.s, if Truthy(tableName) then tableName else identity, cleaned);
  }

  /** Every stored record sits under its own identity. */
  predicate KeyedByIdentity(schema: LegacySchema) {
    forall k :: k in Keys(schema) ==> Lookup(schema, k).value.identity == k
  }

  /** Storing a record under its identity keeps every key and the schema keyed by identity. */
  function Store(acc: LegacySchema, e: LegacyEntry): (r: LegacySchema)
    ensures forall k :: Has(acc, k) ==> Has(r, k)
    ensures KeyedByIdentity(acc) ==> KeyedByIdentity(r)
  {
    Upsert(acc, e.identity, e)
  }

  /** The pass as written: the models in order, each stored under its identity (a later
      model with the same identity replaces the earlier one in place). The loop variable
      `connections` is reassigned to each model's `connection`, so every model after the
      first looks its adapter up in the previous model's connection value. */
  function NormalizeAllFrom(acc: LegacySchema, protos: seq<Props>, connections: Value): (r: Result<LegacySchema>)
    ensures r.Ok? ==> forall k :: Has(acc, k) ==> Has(r.value, k)
    ensures r.Ok? && KeyedByIdentity(acc) ==> KeyedByIdentity(r.value)
    decreases |protos|
  {
    if |protos| == 0 then Ok(acc)
    else
      var n := NormalizeModel(protos[0], connections);
      if n.Err? then Err(n.error)
      else NormalizeAllFrom(Store(acc, n.value.1), protos[1..], n.value.1.connection)
  }

  /** `new Attributes(collections, connections)`: a missing connections map is `{}`. */
  function NormalizeAll(protos: seq<Props>, connections: Value): (r: Result<LegacySchema>)
    ensures r.Ok? ==> KeyedByIdentity(r.value)
  {
    NormalizeAllFrom([], protos, if Truthy(connections) then connections else Obj([]))
  }

  /** The pass as evidently intended: every model looks its adapter up in the same map. */
  function NormalizeAllFixedFrom(acc: LegacySchema, protos: seq<Props>, connections: Value): (r: Result<LegacySchema>)
    ensures r.Ok? ==> forall k :: Has(acc, k) ==> Has(r.value, k)
    ensures r.Ok? && KeyedByIdentity(acc) ==> KeyedByIdentity(r.value)
    decreases |protos|
  {
    if |protos| == 0 then Ok(acc)
    else
      var n := NormalizeModel(protos[0], connections);
      if n.Err? then Err(n.error)
      else NormalizeAllFixedFrom(Store(acc, n.value.1), protos[1..], connections)
  }

  function NormalizeAllFixed(protos: seq<Props>, connections: Value): (r: Result<LegacySchema>)
    ensures r.Ok? ==> KeyedByIdentity(r.value)
  {
    NormalizeAllFixedFrom([], protos, if Truthy(connections) then connections else Obj([]))
  }

  /** Each model normalised on its own against the same connections map. */
  function NormalizedEach(protos: seq<Props>, connections: Value): (r: seq<Result<(string, LegacyEntry)>>)
    ensures |r| == |protos|
    ensures forall i :: 0 <= i < |protos| ==> r[i] == NormalizeModel(protos[i], connections)
  {
    seq(|protos|, i requires 0 <= i < |protos| => NormalizeModel(protos[i], connections))
  }

  /** The corrected pass stores exactly what normalising every model independently against
      the one connections map and collecting the results would store. */
  lemma {:induction false} FixedIsIndependent(acc: LegacySchema, protos: seq<Props>, connections: Value)
    ensures NormalizeAllFixedFrom(acc, protos, connections) == CollectInto(acc, NormalizedEach(protos, connections))
    decreases |protos|
  {
    if |protos| > 0 {
      var each := NormalizedEach(protos, connections);
      assert each[1..] == NormalizedEach(protos[1..], connections);
      var n := NormalizeModel(protos[0], connections);
      if n.Ok? {
        FixedIsIndependent(Store(acc, n.value.1), protos[1..], connections);
      }
    }
  }

  /** The first entry under a kept key survives the sweep, stripped. */
  lemma {:induction false} CleanLookup(attrs: Props, k: string, v: Value)
    requires Clean(attrs).Ok?
    requires Lookup(attrs, k) == Some(v) && !v.Func?
    ensures Lookup(Clean(attrs).value, k) == Some(StripProperty(v))
    decreases |attrs|
  {
    if attrs[0].0 != k {
      CleanLookup(attrs[1..], k, v);
    }
  }

  /** A definition with a string identity, the string connection name `connection`, and
      neither `attributes` nor `autoPK` of its own. */
  predicate PlainModel(proto: Props, connection: string) {
    && GetIn(proto, "identity").Str?
    && GetIn(proto, "connection") == Str(connection)
    && !Has(proto, "attributes")
    && !Has(proto, "autoPK")
  }

  /** A plain model keeps its identity and connection, starts from no attributes and has
      `autoPK` on. */
  lemma PlainPrepared(proto: Props, connection: string)
    requires PlainModel(proto, connection)
    ensures Prepare(proto).Ok?
    ensures var c := Prepare(proto).value;
            && GetIn(c, "identity") == GetIn(proto, "identity")
            && GetIn(c, "connection") == Str(connection)
            && GetIn(c, "attributes") == Obj([])
            && GetIn(c, "autoPK") == Bool(true)
  {
    assert Has(proto, "identity") && Has(proto, "connection");
    OptionDefaultValues();
    assert Prepare(proto) == Ok(SetDefaults(proto));
  }

  /** Starting from no attributes, the automatic ones are all there is. */
  lemma AutoAttributesOfNone(c: Props, connections: Value)
    requires GetIn(c, "attributes") == Obj([])
    requires AutoAttributes(c, connections).Ok?
    ensures var attrs := AutoAttributes(c, connections).value;
            forall i :: 0 <= i < |attrs| ==> attrs[i].0 in {"id", "createdAt", "updatedAt"} && '.' !in attrs[i].0
  {
    var attrs := AutoAttributes(c, connections).value;
    forall i | 0 <= i < |attrs|
      ensures attrs[i].0 in {"id", "createdAt", "updatedAt"} && '.' !in attrs[i].0
    {
      var k := attrs[i].0;
      assert Keys(attrs)[i] == k;
      assert !Has(GetIn(c, "attributes").props, k);
      assert k == "id" || k == "createdAt" || k == "updatedAt";
      AutomaticNames(k);
    }
  }

  lemma AutomaticNames(k: string)
    requires k == "id" || k == "createdAt" || k == "updatedAt"
    ensures k in {"id", "createdAt", "updatedAt"} && '.' !in k
  {
  }

  /** A plain model is accepted whenever its adapter lookup is, and keeps its connection. */
  lemma PlainModelOk(proto: Props, connection: string, connections: Value)
    requires PlainModel(proto, connection)
    requires PkFormat(connections, Str(connection)).Ok?
    ensures NormalizeModel(proto, connections).Ok?
    ensures NormalizeModel(proto, connections).value.0 == GetIn(proto, "identity").s
    ensures NormalizeModel(proto, connections).value.1.connection == Str(connection)
  {
    PlainPrepared(proto, connection);
    var c := Prepare(proto).value;
    assert !HasNullishAttribute([]);
    assert AutoAttributes(c, connections).Ok?;
    AutoAttributesOfNone(c, connections);
    var attrs := AutoAttributes(c, connections).value;
    assert Clean(attrs).Ok?;
    NormalizeModelRecord(proto, connections);
  }

  /** The stored attributes are the swept result of `AutoAttributes`. */
  lemma NormalizeModelAttributes(proto: Props, connections: Value)
    requires NormalizeModel(proto, connections).Ok?
    ensures Prepare(proto).Ok? && AutoAttributes(Prepare(proto).value, connections).Ok?
    ensures Clean(AutoAttributes(Prepare(proto).value, connections).value)
            == Ok(NormalizeModel(proto, connections).value.1.attributes)
  {
    var c := Prepare(proto).value;
    var attrs := AutoAttributes(c, connections).value;
    assert NormalizeModel(proto, connections).value.1.attributes == Clean(attrs).value;
  }

  /** A plain model gets the automatic `id`, typed after the adapter found for its
      connection, and keeps it through the sweep. */
  lemma PlainModelId(proto: Props, connection: string, connections: Value)
    requires PlainModel(proto, connection)
    requires NormalizeModel(proto, connections).Ok?
    ensures GetIn(NormalizeModel(proto, connections).value.1.attributes, "id") == IdAttribute(IdType(connections, Str(connection)))
  {
    PlainPrepared(proto, connection);
    NormalizeModelAttributes(proto, connections);
    var c := Prepare(proto).value;
    PlainAutoId(c, connection, connections);
    var id := IdAttribute(IdType(connections, Str(connection)));
    CleanLookup(AutoAttributes(c, connections).value, "id", id);
    StripIdAttribute(IdType(connections, Str(connection)));
  }

  /** With no attributes of its own and `autoPK` on, a model's automatic attributes hold
      the `id` typed after its adapter. */
  lemma PlainAutoId(c: Props, connection: string, connections: Value)
    requires GetIn(c, "attributes") == Obj([]) && GetIn(c, "autoPK") == Bool(true)
    requires GetIn(c, "connection") == Str(connection)
    requires AutoAttributes(c, connections).Ok?
    ensures Lookup(AutoAttributes(c, connections).value, "id") == Some(IdAttribute(IdType(connections, Str(connection))))
  {
    AutoAttributesAdds(c, connections);
    assert AddsId(c, []);
  }

  lemma StripIdAttribute(t: Value)
    ensures StripProperty(IdAttribute(t)) == IdAttribute(t)
  {
    var id := IdAttribute(t);
    FilterKeepsAll(id.props, (k: string, x: Value) => k in ReservedWords);
  }

  /** One step of the pass as written: the next model is normalised against the current
      connections value, which then becomes that model's connection. */
  lemma NormalizeAllStep(acc: LegacySchema, protos: seq<Props>, connections: Value)
    requires |protos| > 0 && NormalizeModel(protos[0], connections).Ok?
    ensures var n := NormalizeModel(protos[0], connections).value;
            NormalizeAllFrom(acc, protos, connections) == NormalizeAllFrom(Store(acc, n.1), protos[1..], n.1.connection)
  {
  }

  lemma NormalizeAllFixedStep(acc: LegacySchema, protos: seq<Props>, connections: Value)
    requires |protos| > 0 && NormalizeModel(protos[0], connections).Ok?
    ensures var n := NormalizeModel(protos[0], connections).value;
            NormalizeAllFixedFrom(acc, protos, connections) == NormalizeAllFixedFrom(Store(acc, n.1), protos[1..], connections)
  {
  }

  /** Two models through the pass as written: the second is normalised against the first
      model's connection and found under its own key. */
  lemma NormalizeAllTwo(p: Props, q: Props, connections: Value)
    requires NormalizeModel(p, connections).Ok?
    requires NormalizeModel(q, NormalizeModel(p, connections).value.1.connection).Ok?
    ensures var nb := NormalizeModel(q, NormalizeModel(p, connections).value.1.connection).value;
            && NormalizeAllFrom([], [p, q], connections).Ok?
            && Lookup(NormalizeAllFrom([], [p, q], connections).value, nb.0) == Some(nb.1)
  {
    var na := NormalizeModel(p, connections).value;
    NormalizeAllStep([], [p, q], connections);
    assert [p, q][1..] == [q];
    NormalizeAllStep(Store([], na.1), [q], na.1.connection);
    assert [q][1..] == [];
  }

  /** Two models through the corrected pass: both are normalised against the same map. */
  lemma NormalizeAllFixedTwo(p: Props, q: Props, connections: Value)
    requires NormalizeModel(p, connections).Ok?
    requires NormalizeModel(q, connections).Ok?
    ensures var nb := NormalizeModel(q, connections).value;
            && NormalizeAllFixedFrom([], [p, q], connections).Ok?
            && Lookup(NormalizeAllFixedFrom([], [p, q], connections).value, nb.0) == Some(nb.1)
  {
    var na := NormalizeModel(p, connections).value;
    NormalizeAllFixedStep([], [p, q], connections);
    assert [p, q][1..] == [q];
    NormalizeAllFixedStep(Store([], na.1), [q], connections);
    assert [q][1..] == [];
  }

  /** As written, the second of two plain models on a connection whose adapter declares the
      `string` primary-key format gets an `integer` automatic `id`: the pass looks its adapter
      up in the first model's connection name instead of the connections map. */
  lemma PkFormatLostAfterFirstModel(p: Props, q: Props, connection: string, connections: Value)
    requires PlainModel(p, connection) && PlainModel(q, connection)
    requires PkFormat(connections, Str(connection)) == Ok(Some(Str("string")))
    ensures NormalizeAll([p, q], connections).Ok?
    ensures var r := NormalizeAll([p, q], connections).value;
            var k := GetIn(q, "identity").s;
            Lookup(r, k).Some? && GetIn(Lookup(r, k).value.attributes, "id") == IdAttribute(Str("integer"))
  {
    assert Truthy(connections);
    PlainModelOk(p, connection, connections);
    PlainModelOnName(q, connection);
    NormalizeAllTwo(p, q, connections);
  }

  /** A plain model whose adapter is looked up in its own connection name finds none, and
      gets an `integer` automatic `id`. */
  lemma PlainModelOnName(q: Props, connection: string)
    requires PlainModel(q, connection)
    ensures var n := NormalizeModel(q, Str(connection));
            && n.Ok? && n.value.0 == GetIn(q, "identity").s
            && GetIn(n.value.1.attributes, "id") == IdAttribute(Str("integer"))
  {
    assert PkFormat(Str(connection), Str(connection)) == Ok(None);
    PlainModelOk(q, connection, Str(connection));
    PlainModelId(q, connection, Str(connection));
  }

  /** Corrected, the same second model's `id` takes the adapter's `string` format. */
  lemma PkFormatKeptWhenFixed(p: Props, q: Props, connection: string, connections: Value)
    requires PlainModel(p, connection) && PlainModel(q, connection)
    requires PkFormat(connections, Str(connection)) == Ok(Some(Str("string")))
    ensures NormalizeAllFixed([p, q], connections).Ok?
    ensures var r := NormalizeAllFixed([p, q], connections).value;
            var k := GetIn(q, "identity").s;
            Lookup(r, k).Some? && GetIn(Lookup(r, k).value.attributes, "id") == IdAttribute(Str("string"))
  {
    assert Truthy(connections);
    PlainModelOk(p, connection, connections);
    PlainModelOk(q, connection, connections);
    NormalizeAllFixedTwo(p, q, connections);
    PlainModelId(q, connection, connections);
  }

  /** Two such models: `{identity: 'a', connection: 'db'}` and `{identity: 'b', connection: 'db'}`,
      with `connections.db._adapter.pkFormat === 'string'`. */
  lemma ExampleMeetsTheFinding()
    ensures var connections := Obj([("db", Obj([("_adapter", Obj([("pkFormat", Str("string"))]))]))]);
            && PlainModel([("identity", Str("a")), ("connection", Str("db"))], "db")
            && PlainModel([("identity", Str("b")), ("connection", Str("db"))], "db")
            && PkFormat(connections, Str("db")) == Ok(Some(Str("string")))
  {
    var connections := Obj([("db", Obj([("_adapter", Obj([("pkFormat", Str("string"))]))]))]);
    assert Keys(connections.props)[0] == "db";
    assert Keys(Get(connections, "db").props)[0] == "_adapter";
    assert Keys(Obj([("pkFormat", Str("string"))]).props)[0] == "pkFormat";
    assert Keys([("identity", Str("a")), ("connection", Str("db"))]) == ["identity", "connection"];
    assert Keys([("identity", Str("b")), ("connection", Str("db"))]) == ["identity", "connection"];
  }
}
