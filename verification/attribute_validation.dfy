/** The attribute checks of the schema builder.

    The set of valid attribute types and the strict default-value check of the runtime
    type-checking library are parameters: `validTypes`, and `fits(type, defaultsTo)`.
 */
module AttributeValidation {
  import opened Results
  import opened Assoc
  import opened Strings
  import opened Values

  /** The properties an attribute definition may carry. */
  const ValidProperties: set<string> := {
    "type", "defaultsTo", "required", "allowNull", "autoUpdatedAt", "autoCreatedAt",
    "autoMigrations", "validations", "through", "collection", "model", "via", "dominant",
    "columnName", "meta", "encrypt", "description", "extendedDescription", "moreInfoUrl",
    "example", "protect", "label", "hideFromTable", "hideFromForm", "notEditable", "toolTip",
    "filterable", "beforeFormRender", "beforeIndexRender"
  }

  /** The first property name, in enumeration order, that is not whitelisted. */
  function FirstUnrecognized(props: Props): (r: Option<string>)
    ensures r.None? <==> forall i :: 0 <= i < |props| ==> props[i].0 in ValidProperties
    ensures r.Some? ==> r.value !in ValidProperties && r.value in Keys(props)
  {
    if |props| == 0 then None
    else if props[0].0 !in ValidProperties then Some(props[0].0)
    else FirstUnrecognized(props[1..])
  }

  predicate IsAssociation(attr: Value) {
    HasProp(attr, "model") || HasProp(attr, "collection")
  }

  /** A scalar attribute's `type` must be one of the valid type names. */
  predicate HasValidType(attr: Value, validTypes: set<string>) {
    var t := Get(attr, "type");
    t.Str? && t.s in validTypes
  }

  /** Everything the builder demands of one attribute, stated without regard to the order in
      which it checks. */
  predicate ValidAttribute(name: string, attr: Value, validTypes: set<string>, fits: (Value, Value) -> bool) {
    && attr.Obj?
    && (HasProp(attr, "type") || IsAssociation(attr))
    && (IsAssociation(attr) || HasValidType(attr, validTypes))
    && (HasProp(attr, "required") ==> Get(attr, "required").Bool?)
    && (forall p :: p in Keys(attr.props) ==> p in ValidProperties)
    && '.' !in name
    && (HasProp(attr, "defaultsTo") ==>
          && Get(attr, "defaultsTo") != Null
          && Get(attr, "required") != Bool(true)
          && fits(Get(attr, "type"), Get(attr, "defaultsTo")))
  }

  /** The errors that name an offending attribute. */
  predicate IsAttributeError(e: SchemaError) {
    || e.FunctionAttribute? || e.MissingType? || e.InvalidType? || e.RequiredNotBoolean?
    || e.UnrecognizedProperty? || e.InvalidAttributeName? || e.NullDefault?
    || e.RequiredWithDefault? || e.DefaultTypeMismatch?
  }

  /** An object attribute with `required` defaulted to `false` when it is missing. */
  function WithRequired(attr: Value): (r: Value)
    requires attr.Obj?
    ensures r.Obj?
    ensures forall p :: p in Keys(r.props) <==> p in Keys(attr.props) || p == "required"
    ensures Get(r, "required") == if HasProp(attr, "required") then Get(attr, "required") else Bool(false)
    ensures forall k :: k != "required" ==> Get(r, k) == Get(attr, k) && (HasProp(r, k) <==> HasProp(attr, k))
  {
    if HasProp(attr, "required") then attr else SetProp(attr, "required", Bool(false))
  }

  /** The `defaultsTo` rules, checked once `required` has been defaulted. */
  function CheckDefault(name: string, a: Value, fits: (Value, Value) -> bool): (r: Result<Value>)
    ensures r.Ok? <==> (HasProp(a, "defaultsTo") ==>
                         && Get(a, "defaultsTo") != Null
                         && !Truthy(Get(a, "required"))
                         && fits(Get(a, "type"), Get(a, "defaultsTo")))
    ensures r.Ok? ==> r.value == a
    ensures r.Err? ==> r.error.NullDefault? || r.error.RequiredWithDefault? || r.error.DefaultTypeMismatch?
  {
    if !HasProp(a, "defaultsTo") then Ok(a)
    else if Get(a, "defaultsTo") == Null then Err(NullDefault(name))
    else if Truthy(Get(a, "required")) then Err(RequiredWithDefault(name))
    else if !fits(Get(a, "type"), Get(a, "defaultsTo")) then Err(DefaultTypeMismatch(name))
    else Ok(a)
  }

  /** The checks of one attribute, in the builder's order; the first failing check names the
      error. */
  function ValidateAttribute(name: string, attr: Value, validTypes: set<string>, fits: (Value, Value) -> bool): (r: Result<Value>)
    ensures r == Err(FunctionAttribute(name)) <==> attr.Func?
    ensures r.Err? ==> IsAttributeError(r.error)
  {
    if attr.Func? then Err(FunctionAttribute(name))
    else if !HasProp(attr, "type") && !IsAssociation(attr) then Err(MissingType(name))
    else if !IsAssociation(attr) && !HasValidType(attr, validTypes) then Err(InvalidType(name))
    else if HasProp(attr, "required") && !Get(attr, "required").Bool? then Err(RequiredNotBoolean(name))
    else
      var withRequired := WithRequired(attr);
      match FirstUnrecognized(withRequired.props)
      case Some(p) => Err(UnrecognizedProperty(name, p))
      case None =>
        if '.' in name then Err(InvalidAttributeName(name))
        else CheckDefault(name, DeleteProp(withRequired, "columnName"), fits)
  }

  /** An accepted attribute as kept in the `attributes` copy: a missing `required` becomes
      `false`, `columnName` is dropped, and every other property is kept. */
  lemma ValidateAttributeValue(name: string, attr: Value, validTypes: set<string>, fits: (Value, Value) -> bool)
    requires ValidateAttribute(name, attr, validTypes, fits).Ok?
    ensures var v := ValidateAttribute(name, attr, validTypes, fits).value;
            && v.Obj?
            && Get(v, "required") == (if HasProp(attr, "required") then Get(attr, "required") else Bool(false))
            && Get(v, "required").Bool?
            && !HasProp(v, "columnName")
            && forall k :: k != "required" && k != "columnName" ==>
                 Get(v, k) == Get(attr, k) && (HasProp(v, k) <==> HasProp(attr, k))
  {
    ValidateAttributeCopies(name, attr, validTypes, fits);
    CopyShape(attr);
  }

  /** An accepted attribute is stored as its copy. */
  lemma ValidateAttributeCopies(name: string, attr: Value, validTypes: set<string>, fits: (Value, Value) -> bool)
    requires ValidateAttribute(name, attr, validTypes, fits).Ok?
    ensures attr.Obj? && (HasProp(attr, "required") ==> Get(attr, "required").Bool?)
    ensures ValidateAttribute(name, attr, validTypes, fits) == Ok(DeleteProp(WithRequired(attr), "columnName"))
  {
    var w := WithRequired(attr);
    assert !attr.Func? && (HasProp(attr, "type") || IsAssociation(attr));
    assert IsAssociation(attr) || HasValidType(attr, validTypes);
    assert HasProp(attr, "required") ==> Get(attr, "required").Bool?;
    assert FirstUnrecognized(w.props).None? && '.' !in name;
    assert ValidateAttribute(name, attr, validTypes, fits) == CheckDefault(name, DeleteProp(w, "columnName"), fits);
  }

  /** The copy with `required` defaulted and `columnName` dropped. */
  lemma CopyShape(attr: Value)
    requires attr.Obj?
    requires HasProp(attr, "required") ==> Get(attr, "required").Bool?
    ensures var v := DeleteProp(WithRequired(attr), "columnName");
            && v.Obj?
            && Get(v, "required") == (if HasProp(attr, "required") then Get(attr, "required") else Bool(false))
            && Get(v, "required").Bool?
            && !HasProp(v, "columnName")
            && forall k :: k != "required" && k != "columnName" ==>
                 Get(v, k) == Get(attr, k) && (HasProp(v, k) <==> HasProp(attr, k))
  {
  }

  /** Every property of `attr` is whitelisted exactly when every property of its copy with
      `required` defaulted is, since `required` is itself whitelisted. */
  lemma WhitelistWithRequired(attr: Value)
    requires attr.Obj?
    ensures FirstUnrecognized(WithRequired(attr).props).None?
            <==> forall p :: p in Keys(attr.props) ==> p in ValidProperties
  {
    var w := WithRequired(attr);
    if forall i :: 0 <= i < |w.props| ==> w.props[i].0 in ValidProperties {
      forall p | p in Keys(attr.props) ensures p in ValidProperties {
        assert p in Keys(w.props);
        var i :| 0 <= i < |w.props| && Keys(w.props)[i] == p;
      }
    } else {
      var i :| 0 <= i < |w.props| && w.props[i].0 !in ValidProperties;
      assert Keys(w.props)[i] == w.props[i].0;
    }
  }

  /** The `defaultsTo` rules, checked on the copy with `required` defaulted and `columnName`
      dropped, amount to the same rules on the attribute as written. */
  lemma CheckDefaultOnCopy(name: string, attr: Value, fits: (Value, Value) -> bool)
    requires attr.Obj?
    requires HasProp(attr, "required") ==> Get(attr, "required").Bool?
    ensures CheckDefault(name, DeleteProp(WithRequired(attr), "columnName"), fits).Ok?
            <==> (HasProp(attr, "defaultsTo") ==>
                    && Get(attr, "defaultsTo") != Null
                    && Get(attr, "required") != Bool(true)
                    && fits(Get(attr, "type"), Get(attr, "defaultsTo")))
  {
    var a := DeleteProp(WithRequired(attr), "columnName");
    assert Get(a, "defaultsTo") == Get(attr, "defaultsTo");
    assert Get(a, "type") == Get(attr, "type");
    assert HasProp(a, "defaultsTo") <==> HasProp(attr, "defaultsTo");
    assert Truthy(Get(a, "required")) <==> Get(attr, "required") == Bool(true);
  }

  /** Once the shape checks pass, the remaining checks succeed exactly when the whitelist,
      name and default requirements hold. */
  lemma ValidateShapedAttributeOkIff(name: string, attr: Value, validTypes: set<string>, fits: (Value, Value) -> bool)
    requires attr.Obj? && (HasProp(attr, "type") || IsAssociation(attr))
    requires IsAssociation(attr) || HasValidType(attr, validTypes)
    requires HasProp(attr, "required") ==> Get(attr, "required").Bool?
    ensures ValidateAttribute(name, attr, validTypes, fits).Ok? <==> ValidAttribute(name, attr, validTypes, fits)
  {
    var w := WithRequired(attr);
    assert ValidateAttribute(name, attr, validTypes, fits)
           == if FirstUnrecognized(w.props).Some? then Err(UnrecognizedProperty(name, FirstUnrecognized(w.props).value))
              else if '.' in name then Err(InvalidAttributeName(name))
              else CheckDefault(name, DeleteProp(w, "columnName"), fits);
    WhitelistWithRequired(attr);
    CheckDefaultOnCopy(name, attr, fits);
  }

  /** The ordered checks succeed exactly when the attribute meets every requirement. */
  lemma ValidateAttributeOkIff(name: string, attr: Value, validTypes: set<string>, fits: (Value, Value) -> bool)
    ensures ValidateAttribute(name, attr, validTypes, fits).Ok? <==> ValidAttribute(name, attr, validTypes, fits)
  {
    if attr.Obj? && (HasProp(attr, "type") || IsAssociation(attr))
       && (IsAssociation(attr) || HasValidType(attr, validTypes))
       && (HasProp(attr, "required") ==> Get(attr, "required").Bool?) {
      ValidateShapedAttributeOkIff(name, attr, validTypes, fits);
    }
  }

  /** Validates every attribute in enumeration order; the first failure aborts. */
  function ValidateAll(attrs: Props, validTypes: set<string>, fits: (Value, Value) -> bool): (r: Result<Props>)
    ensures r.Ok? <==> forall i :: 0 <= i < |attrs| ==> ValidateAttribute(attrs[i].0, attrs[i].1, validTypes, fits).Ok?
    ensures r.Err? ==> IsAttributeError(r.error)
    ensures r.Ok? ==> && Keys(r.value) == Keys(attrs)
                      && forall i :: 0 <= i < |attrs| ==> ValidateAttribute(attrs[i].0, attrs[i].1, validTypes, fits) == Ok(r.value[i].1)
  {
    ZipResults(Keys(attrs), seq(|attrs|, i requires 0 <= i < |attrs| => ValidateAttribute(attrs[i].0, attrs[i].1, validTypes, fits)))
  }

  /** Pairs each name with its result, in order; the first failure aborts. */
  function ZipResults<V>(names: seq<string>, results: seq<Result<V>>): (r: Result<AList<V>>)
    requires |results| == |names|
    ensures r.Ok? <==> forall i :: 0 <= i < |names| ==> results[i].Ok?
    ensures r.Err? ==> exists i :: && 0 <= i < |names| && results[i] == Err(r.error)
                                   && forall j :: 0 <= j < i ==> results[j].Ok?
    ensures r.Ok? ==> && Keys(r.value) == names
                      && forall i :: 0 <= i < |names| ==> results[i] == Ok(r.value[i].1)
  {
    if |names| == 0 then Ok([])
    else if results[0].Err? then Err(results[0].error)
    else
      var tail := ZipResults(names[1..], results[1..]);
      if tail.Err? then
        FirstErrorShift(results, tail.error);
        tail
      else
        var r := [(names[0], results[0].value)] + tail.value;
        KeysCons((names[0], results[0].value), tail.value);
        assert names == [names[0]] + names[1..];
        assert forall i :: 1 <= i < |names| ==> results[i] == results[1..][i - 1] && r[i] == tail.value[i - 1];
        Ok(r)
  }

  /** A first failure in the results after a success is a first failure of all of them. */
  lemma FirstErrorShift<V>(results: seq<Result<V>>, e: SchemaError)
    requires |results| > 0 && results[0].Ok?
    requires exists i :: && 0 <= i < |results| - 1 && results[1..][i] == Err(e)
                         && forall j :: 0 <= j < i ==> results[1..][j].Ok?
    ensures exists i :: && 0 <= i < |results| && results[i] == Err(e)
                        && forall j :: 0 <= j < i ==> results[j].Ok?
  {
    var i :| && 0 <= i < |results| - 1 && results[1..][i] == Err(e)
             && forall j :: 0 <= j < i ==> results[1..][j].Ok?;
    assert results[i + 1] == Err(e);
    assert forall j :: 1 <= j < i + 1 ==> results[j] == results[1..][j - 1];
  }

  /** All attributes pass exactly when each meets every requirement. */
  lemma ValidateAllOkIff(attrs: Props, validTypes: set<string>, fits: (Value, Value) -> bool)
    ensures ValidateAll(attrs, validTypes, fits).Ok? <==> forall i :: 0 <= i < |attrs| ==> ValidAttribute(attrs[i].0, attrs[i].1, validTypes, fits)
  {
    forall i | 0 <= i < |attrs|
      ensures ValidateAttribute(attrs[i].0, attrs[i].1, validTypes, fits).Ok? <==> ValidAttribute(attrs[i].0, attrs[i].1, validTypes, fits)
    {
      ValidateAttributeOkIff(attrs[i].0, attrs[i].1, validTypes, fits);
    }
  }

  /** The column name derived from an attribute name: trimmed, first space made `_`. */
  function DefaultColumnName(name: string): string {
    ReplaceFirst(Trim(name), ' ', '_')
  }

  /** One attribute of the `schema` copy: an attribute that is not a `collection` and has
      no `columnName` gets the one derived from its name; nothing else changes. */
  function WithColumnName(name: string, a: Value): (r: Value)
    ensures a.Obj? && !HasProp(a, "columnName") && !HasProp(a, "collection") ==>
              r.Obj? && Get(r, "columnName") == Str(DefaultColumnName(name))
    ensures forall k :: k != "columnName" ==> Get(r, k) == Get(a, k) && (HasProp(r, k) <==> HasProp(a, k))
    ensures HasProp(a, "columnName") || HasProp(a, "collection") ==> r == a
  {
    if !HasProp(a, "columnName") && !HasProp(a, "collection") then SetProp(a, "columnName", Str(DefaultColumnName(name))) else a
  }

  /** The `schema` copy of an attribute map. */
  function WithColumnNames(attrs: Props): (r: Props)
    ensures Keys(r) == Keys(attrs)
    ensures forall i :: 0 <= i < |attrs| ==> r[i].1 == WithColumnName(attrs[i].0, attrs[i].1)
  {
    seq(|attrs|, i requires 0 <= i < |attrs| => (attrs[i].0, WithColumnName(attrs[i].0, attrs[i].1)))
  }
}
