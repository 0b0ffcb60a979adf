/** The collection records the first-generation passes (foreign keys, join tables and
    references) read and rewrite, and the lookups those passes share.
 */
module Collections {
  import opened Results
  import opened Assoc
  import opened Strings
  import opened Values

  /** A collection as the legacy normaliser leaves it, or a junction table synthesised by the
      join-table pass. `junctionTable == false` stands for an absent flag, and `tables` is
      empty for an ordinary model. */
  datatype Collection = Collection(
    identity: Value,
    tableName: Value,
    connection: Value,
    attributes: Props,
    junctionTable: bool,
    tables: seq<string>)

  /** Collections keyed by name, in insertion order. */
  type Collections = AList<Collection>

  /** `v.hasOwnProperty(k)`: a TypeError on `null`/`undefined`, false on any other
      non-object. */
  function OwnProp(v: Value, k: string): (r: Result<bool>)
    ensures r.Err? <==> Nullish(v)
    ensures r.Ok? ==> (r.value <==> HasProp(v, k))
  {
    if Nullish(v) then Err(TypeMismatch("hasOwnProperty")) else Ok(HasProp(v, k))
  }

  /** `v.toLowerCase()`: only strings have it. */
  function LowerOf(v: Value, context: string): (r: Result<string>)
    ensures r.Ok? <==> v.Str?
    ensures r.Err? ==> r.error == TypeMismatch(context)
    ensures r.Ok? ==> r.value == Lower(v.s) && IsLower(r.value)
  {
    if v.Str? then LowerIsLower(v.s); Ok(Lower(v.s)) else Err(TypeMismatch(context))
  }

  /** Index of the last attribute owning a `primaryKey` property. Reading that property of a
      `null`/`undefined` attribute throws, wherever it sits. */
  function PrimaryKeyIndex(attrs: Props): (r: Result<Option<nat>>)
    ensures r.Err? <==> exists i :: 0 <= i < |attrs| && Nullish(attrs[i].1)
    ensures r.Err? ==> r.error == TypeMismatch("hasOwnProperty")
    ensures r.Ok? && r.value.Some? ==>
              && r.value.value < |attrs|
              && HasProp(attrs[r.value.value].1, "primaryKey")
              && forall j :: r.value.value < j < |attrs| ==> !HasProp(attrs[j].1, "primaryKey")
    ensures r.Ok? && r.value.None? ==> forall j :: 0 <= j < |attrs| ==> !HasProp(attrs[j].1, "primaryKey")
    decreases |attrs|
  {
    if |attrs| == 0 then Ok(None)
    else
      var init := attrs[..|attrs| - 1];
      var last := attrs[|attrs| - 1].1;
      var r := PrimaryKeyIndex(init);
      assert forall i :: 0 <= i < |init| ==> init[i] == attrs[i];
      if r.Err? then r
      else if Nullish(last) then Err(TypeMismatch("hasOwnProperty"))
      else if HasProp(last, "primaryKey") then Ok(Some(|attrs| - 1))
      else r
  }

  /** `findPrimaryKey`: the name and definition of the last attribute of `collection` owning
      `primaryKey`. `None` is the `null` returned for a collection that is not in the map;
      a collection with no such attribute is an error. */
  function FindPrimaryKey(cols: Collections, collection: string): (r: Result<Option<(string, Value)>>)
    ensures r.Ok? && r.value.None? <==> !Has(cols, collection)
    ensures r.Err? ==> r.error == NoPrimaryKey(collection) || r.error.TypeMismatch?
    ensures r.Ok? && r.value.Some? ==>
              Has(cols, collection) &&
              var attrs := Lookup(cols, collection).value.attributes;
              exists i :: && 0 <= i < |attrs| && attrs[i] == r.value.value
                          && HasProp(attrs[i].1, "primaryKey")
                          && forall j :: i < j < |attrs| ==> !HasProp(attrs[j].1, "primaryKey")
  {
    match Lookup(cols, collection)
    case None => Ok(None)
    case Some(col) =>
      var i :- PrimaryKeyIndex(col.attributes);
      if i.None? then Err(NoPrimaryKey(collection))
      else
        var k := i.value;
        assert Lookup(cols, collection).value.attributes[k] == col.attributes[k];
        Ok(Some(col.attributes[k]))
  }

  /** The same scan read front to back: the last attribute owning `primaryKey`, or the
      TypeError any `null`/`undefined` attribute raises. */
  function PrimaryKeyEntry(attrs: Props): (r: Result<Option<(string, Value)>>)
    ensures r.Err? ==> r.error == TypeMismatch("hasOwnProperty")
    ensures r.Ok? && r.value.Some? ==> r.value.value in attrs && HasProp(r.value.value.1, "primaryKey")
    decreases |attrs|
  {
    if |attrs| == 0 then Ok(None)
    else
      var rest :- PrimaryKeyEntry(attrs[1..]);
      if Nullish(attrs[0].1) then Err(TypeMismatch("hasOwnProperty"))
      else if rest.Some? then Ok(rest)
      else if HasProp(attrs[0].1, "primaryKey") then Ok(Some(attrs[0]))
      else Ok(None)
  }

  /** Appending an attribute: a `null`/`undefined` one throws, one owning `primaryKey`
      becomes the key, and any other leaves the outcome as it was. */
  lemma {:induction false} PrimaryKeyEntrySnoc(attrs: Props, e: (string, Value))
    ensures PrimaryKeyEntry(attrs + [e])
            == if Nullish(e.1) || PrimaryKeyEntry(attrs).Err? then Err(TypeMismatch("hasOwnProperty"))
               else if HasProp(e.1, "primaryKey") then Ok(Some(e))
               else PrimaryKeyEntry(attrs)
    decreases |attrs|
  {
    if |attrs| > 0 {
      assert (attrs + [e])[1..] == attrs[1..] + [e];
      PrimaryKeyEntrySnoc(attrs[1..], e);
    }
  }

  /** Both scans find the same attribute and fail alike. */
  lemma {:induction false} PrimaryKeyIndexEntry(attrs: Props)
    ensures var i := PrimaryKeyIndex(attrs);
            PrimaryKeyEntry(attrs)
            == if i.Err? then Err(i.error) else if i.value.None? then Ok(None) else Ok(Some(attrs[i.value.value]))
    decreases |attrs|
  {
    if |attrs| > 0 {
      var init := attrs[..|attrs| - 1];
      var last := attrs[|attrs| - 1];
      assert attrs == init + [last];
      assert forall i :: 0 <= i < |init| ==> init[i] == attrs[i];
      PrimaryKeyEntrySnoc(init, last);
      PrimaryKeyIndexEntry(init);
    }
  }

  /** `findPrimaryKey` on a collection in the map depends on nothing but the scan of its
      attributes. */
  lemma FindPrimaryKeyEntry(cols: Collections, collection: string)
    requires Has(cols, collection)
    ensures var e := PrimaryKeyEntry(AttrsOf(cols, collection));
            FindPrimaryKey(cols, collection)
            == if e.Err? then Err(e.error) else if e.value.None? then Err(NoPrimaryKey(collection)) else Ok(e.value)
  {
    PrimaryKeyIndexEntry(AttrsOf(cols, collection));
  }

  /** No attribute owns `primaryKey`, and none is `null`/`undefined`. */
  predicate LacksPrimaryKey(attrs: Props) {
    forall j :: 0 <= j < |attrs| ==> !Nullish(attrs[j].1) && !HasProp(attrs[j].1, "primaryKey")
  }

  /** A collection's primary key is reported missing exactly when it lacks one. */
  lemma FindPrimaryKeyMissing(cols: Collections, collection: string)
    requires Has(cols, collection)
    ensures FindPrimaryKey(cols, collection) == Err(NoPrimaryKey(collection))
            <==> LacksPrimaryKey(Lookup(cols, collection).value.attributes)
  {
    var attrs := Lookup(cols, collection).value.attributes;
    var i := PrimaryKeyIndex(attrs);
    assert FindPrimaryKey(cols, collection)
           == if i.Err? then Err(i.error) else if i.value.None? then Err(NoPrimaryKey(collection)) else Ok(Some(attrs[i.value.value]));
    if i.Err? {
      var j :| 0 <= j < |attrs| && Nullish(attrs[j].1);
      assert !LacksPrimaryKey(attrs);
    } else if i.value.Some? {
      assert HasProp(attrs[i.value.value].1, "primaryKey");
      assert !LacksPrimaryKey(attrs);
    } else {
      assert LacksPrimaryKey(attrs);
    }
  }

  /** A foreign key pointing at `parent`: it owns both `foreignKey` and `references`, and
      `references === parent`. */
  predicate ReferencesParent(v: Value, parent: string) {
    HasProp(v, "foreignKey") && HasProp(v, "references") && Get(v, "references") == Str(parent)
  }

  /** `attributes[attribute].columnName || attribute`. */
  function ReferenceName(e: (string, Value)): Value {
    var cn := Get(e.1, "columnName");
    if Truthy(cn) then cn else Str(e.0)
  }

  /** Index of the first attribute that is a foreign key pointing at `parent`. The scan stops
      there, so only a `null`/`undefined` attribute before it throws. */
  function ReferenceIndex(attrs: Props, parent: string): (r: Result<Option<nat>>)
    ensures r.Ok? && r.value.Some? ==>
              && r.value.value < |attrs|
              && ReferencesParent(attrs[r.value.value].1, parent)
              && forall j :: 0 <= j < r.value.value ==> !Nullish(attrs[j].1) && !ReferencesParent(attrs[j].1, parent)
    ensures r.Ok? && r.value.None? <==> forall j :: 0 <= j < |attrs| ==> !Nullish(attrs[j].1) && !ReferencesParent(attrs[j].1, parent)
    ensures r.Err? ==> r.error.TypeMismatch?
    ensures r.Err? ==> exists j :: 0 <= j < |attrs| && Nullish(attrs[j].1) && forall k :: 0 <= k < j ==> !ReferencesParent(attrs[k].1, parent)
    decreases |attrs|
  {
    if |attrs| == 0 then Ok(None)
    else if Nullish(attrs[0].1) then Err(TypeMismatch("hasOwnProperty"))
    else if ReferencesParent(attrs[0].1, parent) then Ok(Some(0))
    else
      var r := ReferenceIndex(attrs[1..], parent);
      assert forall j :: 1 <= j < |attrs| ==> attrs[1..][j - 1] == attrs[j];
      if r.Err? then r
      else if r.value.None? then Ok(None)
      else Ok(Some(r.value.value + 1))
  }

  /** `findReference` over one attribute map: the column (or, failing a truthy `columnName`,
      the attribute name) of the first foreign key pointing at `parent`; `None` is
      `undefined`. */
  function FindReferenceIn(attrs: Props, parent: string): (r: Result<Option<Value>>)
    ensures r.Err? ==> r.error.TypeMismatch?
    ensures r.Ok? && r.value.None? <==> forall j :: 0 <= j < |attrs| ==> !Nullish(attrs[j].1) && !ReferencesParent(attrs[j].1, parent)
    ensures r.Ok? && r.value.Some? ==>
              exists i :: && 0 <= i < |attrs|
                          && ReferencesParent(attrs[i].1, parent)
                          && r.value.value == ReferenceName(attrs[i])
                          && forall j :: 0 <= j < i ==> !ReferencesParent(attrs[j].1, parent)
  {
    var i :- ReferenceIndex(attrs, parent);
    if i.None? then Ok(None) else Ok(Some(ReferenceName(attrs[i.value])))
  }

  /** The reference found is the first match: an earlier foreign key to the same parent
      would have been chosen instead. */
  lemma FindReferenceFirst(attrs: Props, parent: string, i: nat)
    requires i < |attrs|
    requires ReferencesParent(attrs[i].1, parent)
    requires forall j :: 0 <= j < i ==> !Nullish(attrs[j].1) && !ReferencesParent(attrs[j].1, parent)
    ensures FindReferenceIn(attrs, parent) == Ok(Some(ReferenceName(attrs[i])))
  {
    var r := ReferenceIndex(attrs, parent);
    if r.Ok? && r.value.Some? {
      var k := r.value.value;
      assert !(k < i) && !(i < k);
    }
  }

  /** Only the attributes of one collection may differ; its other fields are kept. */
  ghost predicate SameButAttributes(cols: Collections, cols': Collections, collection: string) {
    && Keys(cols') == Keys(cols)
    && (forall c :: c != collection ==> Lookup(cols', c) == Lookup(cols, c))
    && Has(cols, collection)
    && Lookup(cols', collection).value.(attributes := Lookup(cols, collection).value.attributes)
       == Lookup(cols, collection).value
  }

  function AttrsOf(cols: Collections, collection: string): Props
    requires Has(cols, collection)
  {
    Lookup(cols, collection).value.attributes
  }

  /** Replaces the attribute map of one collection. */
  function WithAttributes(cols: Collections, collection: string, attrs: Props): (r: Collections)
    requires Has(cols, collection)
    ensures SameButAttributes(cols, r, collection)
    ensures AttrsOf(r, collection) == attrs
  {
    var col := Lookup(cols, collection).value;
    Upsert(cols, collection, col.(attributes := attrs))
  }

  /** `attributes[key] = v` on one collection. */
  function SetAttribute(cols: Collections, collection: string, key: string, v: Value): (r: Collections)
    requires Has(cols, collection)
    ensures SameButAttributes(cols, r, collection)
    ensures GetIn(AttrsOf(r, collection), key) == v
    ensures forall k :: k != key ==> GetIn(AttrsOf(r, collection), k) == GetIn(AttrsOf(cols, collection), k)
    ensures Has(AttrsOf(cols, collection), key) ==> Keys(AttrsOf(r, collection)) == Keys(AttrsOf(cols, collection))
  {
    WithAttributes(cols, collection, Upsert(AttrsOf(cols, collection), key, v))
  }

  /** Assigning an attribute the value it already holds changes nothing. */
  lemma SetAttributeSame(cols: Collections, collection: string, key: string, v: Value)
    requires Has(cols, collection) && Lookup(AttrsOf(cols, collection), key) == Some(v)
    ensures SetAttribute(cols, collection, key, v) == cols
  {
    var col := Lookup(cols, collection).value;
    UpsertSame(col.attributes, key, v);
    assert col.(attributes := col.attributes) == col;
    UpsertSame(cols, collection, col);
  }

  /** No collection name and no attribute name occurs twice, as in JavaScript objects. */
  ghost predicate WellFormed(cols: Collections) {
    && Distinct(cols)
    && forall c :: Has(cols, c) ==> Distinct(AttrsOf(cols, c))
  }

  /** No name occurs twice in `names`. */
  predicate NoRepeats(names: seq<string>) {
    forall i, j :: 0 <= i < j < |names| ==> names[i] != names[j]
  }

  /** Dropping the first name keeps the rest free of repeats, and the first is not among them. */
  lemma NoRepeatsTail(names: seq<string>)
    requires NoRepeats(names) && |names| > 0
    ensures NoRepeats(names[1..]) && names[0] !in names[1..]
  {
    var rest := names[1..];
    forall i, j | 0 <= i < j < |rest| ensures rest[i] != rest[j] {
      assert rest[i] == names[i + 1] && rest[j] == names[j + 1];
    }
    forall i | 0 <= i < |rest| ensures rest[i] != names[0] {
      assert rest[i] == names[i + 1];
    }
  }

  /** The same collections, each with the same attribute names in the same order. */
  ghost predicate SameNames(cols: Collections, cols': Collections) {
    && Keys(cols') == Keys(cols)
    && forall c :: Has(cols, c) ==> Keys(AttrsOf(cols', c)) == Keys(AttrsOf(cols, c))
  }

  /** An object's keys never repeat. */
  lemma DistinctNoRepeats<V>(m: AList<V>)
    requires Distinct(m)
    ensures NoRepeats(Keys(m))
  {
  }

  /** Distinctness depends on the keys alone. */
  lemma DistinctSameKeys<V, W>(m: AList<V>, m': AList<W>)
    requires Distinct(m) && Keys(m') == Keys(m)
    ensures Distinct(m')
  {
    forall i, j | 0 <= i < j < |m'| ensures m'[i].0 != m'[j].0 {
      assert Keys(m')[i] == m'[i].0 && Keys(m')[j] == m'[j].0;
    }
  }

  /** Renaming nothing keeps names from repeating. */
  lemma SameNamesWellFormed(cols: Collections, cols': Collections)
    requires WellFormed(cols) && SameNames(cols, cols')
    ensures WellFormed(cols')
  {
    DistinctSameKeys(cols, cols');
    forall c | Has(cols', c) ensures Distinct(AttrsOf(cols', c)) {
      DistinctSameKeys(AttrsOf(cols, c), AttrsOf(cols', c));
    }
  }
}
