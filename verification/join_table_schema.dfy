/** The newer junction-table builder: from the two sides of a many-to-many association and
    the built schema, the record of the table that joins them. The side whose attribute owns
    `dominant` supplies the datastore and wins the meta merge.
 */
module JoinTableSchema {
  import opened Results
  import opened Assoc
  import opened Strings
  import opened Values
  import opened Entries
  import opened JunctionNames

  /** The junction record `buildJoinTableSchema` returns. */
  datatype JunctionSchema = JunctionSchema(
    identity: string,
    tableName: string,
    tables: seq<string>,
    joinedAttributes: seq<string>,
    junctionTable: bool,
    meta: Props,
    datastore: Value,
    primaryKey: string,
    attributes: Props)

  // ---------------------------------------------------------------------------------------
  // `_.merge`

  /** The own properties an object contributes to `_.merge`; `meta || {}` makes a missing
      meta an empty one. */
  function MetaProps(v: Value): Props {
    if v.Obj? then v.props else []
  }

  /** `_.merge(dst, src)` on plain objects: the source entries run in order, each through
      `MergeAt`. */
  function MergeProps(dst: Props, src: Props): Props
    decreases Obj(src), 2
  {
    FoldEntries(dst, src, 0, MergeStep(src))
  }

  /** The step `_.merge` takes for the source entry at an index. */
  function MergeStep(src: Props): (Props, nat) --> Props
    decreases Obj(src), 1
  {
    (d: Props, i: nat) requires i < |src| => MergeAt(d, src, i)
  }

  /** What the source entry at `i` does to the destination: a nested object is merged into
      the destination's object under the same key (or into a fresh one), `undefined` is never
      assigned, so it neither overwrites a present key nor adds an absent one, and any other
      value replaces what was there. */
  function MergeAt(dst: Props, src: Props, i: nat): Props
    requires i < |src|
    decreases Obj(src), 0
  {
    var k := src[i].0;
    var v := src[i].1;
    if v.Obj? then (assert Obj(v.props) == v; Upsert(dst, k, Obj(MergeProps(MetaProps(GetIn(dst, k)), v.props))))
    else if v.Undefined? then dst
    else Upsert(dst, k, v)
  }

  /** The destination after `step` has run for each source entry from index `i` on. */
  function FoldEntries(dst: Props, src: Props, i: nat, step: (Props, nat) --> Props): Props
    requires i <= |src|
    requires forall d, j :: 0 <= j < |src| ==> step.requires(d, j)
    decreases |src| - i
  {
    if i == |src| then dst else FoldEntries(step(dst, i), src, i + 1, step)
  }

  /** The step for entry `j` adds the entry's key unless its value is `undefined`, leaves
      every other key alone, and stores under its key a value that depends only on what was
      there before. */
  ghost predicate StepIsLocal(src: Props, step: (Props, nat) --> Props) {
    && (forall d, j :: 0 <= j < |src| ==> step.requires(d, j))
    && (forall d, j, k :: 0 <= j < |src| && k != src[j].0 ==> Lookup(step(d, j), k) == Lookup(d, k))
    && (forall d, j, k :: 0 <= j < |src| ==> (Has(step(d, j), k) <==> Has(d, k) || (k == src[j].0 && !src[j].1.Undefined?)))
    && (forall d, d', j :: 0 <= j < |src| && Lookup(d, src[j].0) == Lookup(d', src[j].0) ==>
          Lookup(step(d, j), src[j].0) == Lookup(step(d', j), src[j].0))
  }

  /** A local fold holds the destination's keys and the keys the source assigns. */
  lemma {:induction false} FoldKeys(dst: Props, src: Props, i: nat, step: (Props, nat) --> Props, k: string)
    requires i <= |src| && StepIsLocal(src, step)
    ensures Has(FoldEntries(dst, src, i, step), k) <==> Has(dst, k) || Assigns(src, i, k)
    decreases |src| - i
  {
    if i < |src| {
      FoldKeys(step(dst, i), src, i + 1, step, k);
      if Assigns(src, i, k) && !Assigns(src, i + 1, k) {
        var l :| i <= l < |src| && src[l].0 == k && !src[l].1.Undefined?;
        assert l == i;
      }
    }
  }

  /** A key no remaining entry carries keeps the destination's value. */
  lemma {:induction false} FoldKeeps(dst: Props, src: Props, i: nat, step: (Props, nat) --> Props, k: string)
    requires i <= |src| && StepIsLocal(src, step)
    requires k !in Keys(src)[i..]
    ensures Lookup(FoldEntries(dst, src, i, step), k) == Lookup(dst, k)
    decreases |src| - i
  {
    if i < |src| {
      assert Keys(src)[i..] == [src[i].0] + Keys(src)[i + 1..];
      FoldKeeps(step(dst, i), src, i + 1, step, k);
    }
  }

  /** When keys are distinct, entry `j` has the last word on its key, and the entries before
      it do not change what it finds there. */
  lemma {:induction false} FoldOwned(dst: Props, src: Props, i: nat, j: nat, step: (Props, nat) --> Props)
    requires Distinct(src) && i <= j < |src| && StepIsLocal(src, step)
    ensures Lookup(FoldEntries(dst, src, i, step), src[j].0) == Lookup(step(dst, j), src[j].0)
    decreases j - i
  {
    if i == j {
      FoldLast(dst, src, j, step);
    } else {
      var d := step(dst, i);
      FoldOwned(d, src, i + 1, j, step);
      assert Lookup(d, src[j].0) == Lookup(dst, src[j].0);
      assert FoldEntries(dst, src, i, step) == FoldEntries(d, src, i + 1, step);
    }
  }

  /** No entry after `j` carries its key. */
  lemma FoldLast(dst: Props, src: Props, j: nat, step: (Props, nat) --> Props)
    requires Distinct(src) && j < |src| && StepIsLocal(src, step)
    ensures Lookup(FoldEntries(dst, src, j, step), src[j].0) == Lookup(step(dst, j), src[j].0)
  {
    assert src[j].0 !in Keys(src)[j + 1..] by {
      forall l | j + 1 <= l < |src| ensures Keys(src)[l] != src[j].0 {
      }
    }
    FoldKeeps(step(dst, j), src, j + 1, step, src[j].0);
  }

  /** What the merge stores under a key the source owns: the source's value if it is a
      primitive other than `undefined`, whatever was there (or nothing) if the source's is
      `undefined`, and the recursive merge if it is an object. */
  function MergedValue(before: Option<Value>, v: Value): Option<Value> {
    if v.Obj? then Some(Obj(MergeProps(MetaProps(if before.Some? then before.value else Undefined), v.props)))
    else if v.Undefined? then before
    else Some(v)
  }

  /** One source entry stores its merged value under its own key. */
  lemma MergeAtOwn(dst: Props, src: Props, i: nat)
    requires i < |src|
    ensures Lookup(MergeAt(dst, src, i), src[i].0) == MergedValue(Lookup(dst, src[i].0), src[i].1)
  {
  }

  /** One source entry leaves every other key alone. */
  lemma MergeAtOther(dst: Props, src: Props, i: nat, k: string)
    requires i < |src| && k != src[i].0
    ensures Lookup(MergeAt(dst, src, i), k) == Lookup(dst, k)
  {
  }

  /** One source entry adds its own key, unless its value is `undefined`, and no other. */
  lemma MergeAtHas(dst: Props, src: Props, i: nat, k: string)
    requires i < |src|
    ensures Has(MergeAt(dst, src, i), k) <==> Has(dst, k) || (k == src[i].0 && !src[i].1.Undefined?)
  {
    if k != src[i].0 {
      MergeAtOther(dst, src, i, k);
    }
  }

  /** The merge's step is local. */
  lemma MergeStepIsLocal(src: Props)
    ensures StepIsLocal(src, MergeStep(src))
  {
    var step := MergeStep(src);
    forall d, j, k | 0 <= j < |src| && k != src[j].0 ensures Lookup(step(d, j), k) == Lookup(d, k) {
      MergeAtOther(d, src, j, k);
    }
    forall d, j, k | 0 <= j < |src| ensures Has(step(d, j), k) <==> Has(d, k) || (k == src[j].0 && !src[j].1.Undefined?) {
      MergeAtHas(d, src, j, k);
    }
    forall d, d', j | 0 <= j < |src| && Lookup(d, src[j].0) == Lookup(d', src[j].0)
      ensures Lookup(step(d, j), src[j].0) == Lookup(step(d', j), src[j].0)
    {
      MergeAtOwn(d, src, j);
      MergeAtOwn(d', src, j);
    }
  }

  /** The merge holds exactly the destination's keys and the keys the source assigns a
      value other than `undefined`. */
  lemma MergeFromKeys(dst: Props, src: Props, k: string)
    ensures Has(MergeProps(dst, src), k) <==> Has(dst, k) || Assigns(src, 0, k)
  {
    MergeStepIsLocal(src);
    FoldKeys(dst, src, 0, MergeStep(src), k);
  }

  /** A key the source lacks keeps the destination's value. */
  lemma MergeFromKeeps(dst: Props, src: Props, k: string)
    requires k !in Keys(src)
    ensures Lookup(MergeProps(dst, src), k) == Lookup(dst, k)
  {
    MergeStepIsLocal(src);
    assert Keys(src)[0..] == Keys(src);
    FoldKeeps(dst, src, 0, MergeStep(src), k);
  }

  /** Every source entry ends up merged under its key, whatever came before it. */
  lemma MergeFromOwned(dst: Props, src: Props, j: nat)
    requires Distinct(src) && j < |src|
    ensures Lookup(MergeProps(dst, src), src[j].0) == MergedValue(Lookup(dst, src[j].0), src[j].1)
  {
    MergeStepIsLocal(src);
    FoldOwned(dst, src, 0, j, MergeStep(src));
    MergeAtOwn(dst, src, j);
  }

  /** The same, for a key looked up in the source. */
  lemma MergePropsOwned(dst: Props, src: Props, k: string)
    requires Distinct(src) && Has(src, k)
    ensures Lookup(MergeProps(dst, src), k) == MergedValue(Lookup(dst, k), Lookup(src, k).value)
  {
    var j :| 0 <= j < |src| && Keys(src)[j] == k;
    forall l | 0 <= l < j ensures src[l].0 != src[j].0 {
    }
    LookupAt(src, j);
    MergeFromOwned(dst, src, j);
  }

  /** Merging into an empty object is the copy `CopyProps`: the same keys, the same
      non-object values, and an object wherever the copy holds one. */
  lemma MergeIntoEmptyCopies(ps: Props, k: string)
    requires Distinct(ps)
    ensures Has(MergeProps([], ps), k) <==> Has(CopyProps(ps), k)
    ensures Has(ps, k) && !Lookup(ps, k).value.Obj? ==> Lookup(MergeProps([], ps), k) == Lookup(CopyProps(ps), k)
    ensures Has(ps, k) && Lookup(ps, k).value.Obj? ==>
              && Lookup(MergeProps([], ps), k).Some? && Lookup(MergeProps([], ps), k).value.Obj?
              && Lookup(CopyProps(ps), k).Some? && Lookup(CopyProps(ps), k).value.Obj?
  {
    MergeFromKeys([], ps, k);
    CopyKeys(ps, k);
    if Has(ps, k) {
      MergePropsOwned([], ps, k);
      CopyLookup(ps, k);
    }
  }

  /** `_.merge({}, nonDominant.meta || {}, dominant.meta || {})`. */
  function MergeMeta(nonDominant: Value, dominant: Value): (r: Props) {
    MergeProps(MergeProps([], MetaProps(nonDominant)), MetaProps(dominant))
  }

  /** `v` owns `k` with a value other than `undefined`. */
  predicate Defines(v: Value, k: string) {
    HasProp(v, k) && !Get(v, k).Undefined?
  }

  /** Over distinct keys, the source assigns a key exactly when it owns it with a value
      other than `undefined`. */
  lemma AssignsOwned(src: Props, k: string)
    requires Distinct(src)
    ensures Assigns(src, 0, k) <==> Has(src, k) && !Lookup(src, k).value.Undefined?
  {
    if Has(src, k) {
      var j :| 0 <= j < |src| && Keys(src)[j] == k;
      forall l | 0 <= l < j ensures src[l].0 != src[j].0 {
      }
      LookupAt(src, j);
    }
  }

  /** What the first merge of the meta stores under a key. */
  lemma MergeBaseAt(nonDominant: Value, k: string)
    requires Distinct(MetaProps(nonDominant))
    ensures !Get(nonDominant, k).Obj? ==> GetIn(MergeProps([], MetaProps(nonDominant)), k) == Get(nonDominant, k)
  {
    if HasProp(nonDominant, k) {
      MergePropsOwned([], MetaProps(nonDominant), k);
    } else {
      MergeFromKeeps([], MetaProps(nonDominant), k);
    }
  }

  /** The merged meta owns exactly the keys either side defines; where the dominant side does
      not define a key, a non-object value of the other side stays (an absent or `undefined`
      one leaves the key absent), and a primitive the dominant side defines wins. */
  lemma MergeMetaPrecedence(nonDominant: Value, dominant: Value, k: string)
    requires Distinct(MetaProps(nonDominant)) && Distinct(MetaProps(dominant))
    ensures Has(MergeMeta(nonDominant, dominant), k) <==> Defines(nonDominant, k) || Defines(dominant, k)
    ensures !Defines(dominant, k) && !Get(nonDominant, k).Obj? ==>
              GetIn(MergeMeta(nonDominant, dominant), k) == Get(nonDominant, k)
    ensures Defines(dominant, k) && !Get(dominant, k).Obj? ==>
              GetIn(MergeMeta(nonDominant, dominant), k) == Get(dominant, k)
  {
    var base := MergeProps([], MetaProps(nonDominant));
    MergeFromKeys([], MetaProps(nonDominant), k);
    MergeFromKeys(base, MetaProps(dominant), k);
    AssignsOwned(MetaProps(nonDominant), k);
    AssignsOwned(MetaProps(dominant), k);
    MergeBaseAt(nonDominant, k);
    if HasProp(dominant, k) {
      MergePropsOwned(base, MetaProps(dominant), k);
    } else {
      MergeFromKeeps(base, MetaProps(dominant), k);
    }
  }

  // ---------------------------------------------------------------------------------------
  // The junction record

  /** The junction's own primary key. */
  function IdAttribute(): Value {
    Obj([("type", Str("number")),
         ("required", Bool(false)),
         ("autoMigrations", Obj([("columnType", Str("integer")),
                                 ("unique", Bool(true)),
                                 ("autoIncrement", Bool(true))]))])
  }

  /** The properties of a foreign-key column, in the source's order. */
  function ColumnProps(name: Value, typ: Value, references: Value, identity: Value, on: Value, via: Value, group: Value): Props {
    [("columnName", name), ("type", typ), ("foreignKey", Bool(true)),
     ("references", references), ("referenceIdentity", identity), ("on", on),
     ("onKey", on), ("via", via), ("groupKey", group)]
  }

  /** The foreign-key column of side `c`, whose schema entry is `e`. */
  function ForeignKeyColumn(c: Column, other: Column, e: SchemaEntry, typ: Value, groupKey: string): Value {
    Obj(ColumnProps(Str(PairName(c)), typ, e.tableName, Str(c.collection), Str(e.primaryKey),
                    Str(other.collection + "_" + c.via), Str(groupKey)))
  }

  /** The column of side `c`, typed after its primary key; reading `.type` of a missing
      primary-key attribute throws. */
  function BuildForeignKey(c: Column, other: Column, e: SchemaEntry, groupKey: string): (r: Result<Value>)
    ensures r.Err? <==> Nullish(GetIn(e.schema, e.primaryKey))
    ensures r.Err? ==> r.error == TypeMismatch("type")
    ensures r.Ok? ==> r.value == ForeignKeyColumn(c, other, e, Get(GetIn(e.schema, e.primaryKey), "type"), groupKey)
  {
    var pk := GetIn(e.schema, e.primaryKey);
    if Nullish(pk) then Err(TypeMismatch("type"))
    else Ok(ForeignKeyColumn(c, other, e, Get(pk, "type"), groupKey))
  }

  /** Side two is dominant exactly when its attribute owns `dominant`; side one's own flag is
      never consulted. */
  predicate TwoDominates(e2: SchemaEntry, c2: Column) {
    HasProp(GetIn(e2.schema, c2.attribute), "dominant")
  }

  function JunctionAttributes(c1: Column, c2: Column, fk1: Value, fk2: Value): Props {
    Upsert(Upsert([("id", IdAttribute())], PairName(c1), fk1), PairName(c2), fk2)
  }

  /** `buildJoinTableSchema(tableDef, schema)`. Looking up a side that is not in the schema
      reads a property of `undefined` and throws. */
  function BuildJoinTableSchema(c1: Column, c2: Column, schema: Schema): (r: Result<JunctionSchema>)
    ensures r.Ok? ==> Has(schema, Lower(c1.collection)) && Has(schema, Lower(c2.collection))
    ensures r.Ok? ==> r.value.junctionTable && r.value.primaryKey == "id" && Has(r.value.attributes, "id")
  {
    match Lookup(schema, Lower(c2.collection))
    case None => Err(TypeMismatch("schema"))
    case Some(e2) =>
      match Lookup(schema, Lower(c1.collection))
      case None => Err(TypeMismatch("meta"))
      case Some(e1) =>
        var twoDominates := TwoDominates(e2, c2);
        var dominant := if twoDominates then e2 else e1;
        var nonDominant := if twoDominates then e1 else e2;
        var fk1 :- BuildForeignKey(c1, c2, e1, Lower(c1.collection));
        var fk2 :- BuildForeignKey(c2, c1, e2, c2.collection);
        var identity := JunctionName(c1, c2);
        Ok(JunctionSchema(
          identity, identity, [c1.collection, c2.collection], [PairName(c1), PairName(c2)], true,
          MergeMeta(nonDominant.meta, dominant.meta), dominant.datastore, "id",
          JunctionAttributes(c1, c2, fk1, fk2)))
  }

  /** The build fails exactly when a side is missing from the schema or lacks its primary-key
      attribute. */
  lemma BuildJoinTableSchemaErrors(c1: Column, c2: Column, schema: Schema)
    ensures var r := BuildJoinTableSchema(c1, c2, schema);
            && (!Has(schema, Lower(c2.collection)) ==> r == Err(TypeMismatch("schema")))
            && (Has(schema, Lower(c2.collection)) && !Has(schema, Lower(c1.collection)) ==> r == Err(TypeMismatch("meta")))
            && (Has(schema, Lower(c1.collection)) && Has(schema, Lower(c2.collection)) ==>
                  var e1 := Lookup(schema, Lower(c1.collection)).value;
                  var e2 := Lookup(schema, Lower(c2.collection)).value;
                  (r.Err? <==> Nullish(GetIn(e1.schema, e1.primaryKey)) || Nullish(GetIn(e2.schema, e2.primaryKey))))
  {
  }

  /** The record's name, tables and joined attributes, in the source's order. */
  lemma BuildJoinTableSchemaShape(c1: Column, c2: Column, schema: Schema)
    requires BuildJoinTableSchema(c1, c2, schema).Ok?
    ensures var t := BuildJoinTableSchema(c1, c2, schema).value;
            && t.tableName == t.identity
            && (exists a, b :: {a, b} == {c1, c2} && !LexLess(b.collection, a.collection)
                               && t.identity == PairName(a) + "__" + PairName(b))
            && t.tables == [c1.collection, c2.collection]
            && t.joinedAttributes == [PairName(c1), PairName(c2)]
            && t.junctionTable
            && t.primaryKey == "id"
            && GetIn(t.attributes, "id") == IdAttribute()
  {
    JunctionNameOrder(c1, c2);
    var t := BuildJoinTableSchema(c1, c2, schema).value;
    PairNameNotId(c1);
    PairNameNotId(c2);
    assert Lookup([("id", IdAttribute())], "id") == Some(IdAttribute());
  }

  lemma PairNameNotId(c: Column)
    ensures PairName(c) != "id"
  {
    assert PairName(c)[|c.collection|] == '_';
  }

  /** The datastore and the winning meta come from side two exactly when its attribute owns
      `dominant`, and from side one otherwise. */
  lemma BuildJoinTableSchemaDominance(c1: Column, c2: Column, schema: Schema)
    requires BuildJoinTableSchema(c1, c2, schema).Ok?
    ensures Has(schema, Lower(c1.collection)) && Has(schema, Lower(c2.collection))
    ensures var t := BuildJoinTableSchema(c1, c2, schema).value;
            var e1 := Lookup(schema, Lower(c1.collection)).value;
            var e2 := Lookup(schema, Lower(c2.collection)).value;
            && (TwoDominates(e2, c2) ==> t.datastore == e2.datastore && t.meta == MergeMeta(e1.meta, e2.meta))
            && (!TwoDominates(e2, c2) ==> t.datastore == e1.datastore && t.meta == MergeMeta(e2.meta, e1.meta))
  {
  }

  /** Both foreign-key columns are stored under `<collection>_<attribute>`; the second wins
      when the two names coincide. */
  lemma BuildJoinTableSchemaColumns(c1: Column, c2: Column, schema: Schema)
    requires BuildJoinTableSchema(c1, c2, schema).Ok?
    ensures Has(schema, Lower(c1.collection)) && Has(schema, Lower(c2.collection))
    ensures var t := BuildJoinTableSchema(c1, c2, schema).value;
            var e1 := Lookup(schema, Lower(c1.collection)).value;
            var e2 := Lookup(schema, Lower(c2.collection)).value;
            && GetIn(t.attributes, PairName(c2))
               == ForeignKeyColumn(c2, c1, e2, Get(GetIn(e2.schema, e2.primaryKey), "type"), c2.collection)
            && (PairName(c1) != PairName(c2) ==>
                  && GetIn(t.attributes, PairName(c1))
                     == ForeignKeyColumn(c1, c2, e1, Get(GetIn(e1.schema, e1.primaryKey), "type"), Lower(c1.collection))
                  && Keys(t.attributes) == ["id", PairName(c1), PairName(c2)])
  {
    var e1 := Lookup(schema, Lower(c1.collection)).value;
    var e2 := Lookup(schema, Lower(c2.collection)).value;
    var fk1 := BuildForeignKey(c1, c2, e1, Lower(c1.collection));
    var fk2 := BuildForeignKey(c2, c1, e2, c2.collection);
    assert BuildJoinTableSchema(c1, c2, schema).value.attributes == JunctionAttributes(c1, c2, fk1.value, fk2.value);
    JunctionAttributesColumns(c1, c2, fk1.value, fk2.value);
  }

  /** The attribute map holds `id` and the two columns, the second winning a name clash. */
  lemma JunctionAttributesColumns(c1: Column, c2: Column, fk1: Value, fk2: Value)
    ensures var a := JunctionAttributes(c1, c2, fk1, fk2);
            && GetIn(a, PairName(c2)) == fk2
            && (PairName(c1) != PairName(c2) ==>
                  GetIn(a, PairName(c1)) == fk1 && Keys(a) == ["id", PairName(c1), PairName(c2)])
  {
    PairNameNotId(c1);
    PairNameNotId(c2);
    var base: Props := [("id", IdAttribute())];
    assert Keys(base) == ["id"];
    assert !Has(base, PairName(c1));
    if PairName(c1) != PairName(c2) {
      var mid := Upsert(base, PairName(c1), fk1);
      assert Keys(mid) == ["id", PairName(c1)];
      assert !Has(mid, PairName(c2));
    }
  }

  /** What each foreign-key column holds: its own name, the referenced primary key's type,
      table and name, the collection it stands for, and `<other collection>_<own via>`. The
      group key is the collection name, lower-cased for side one only. */
  lemma ForeignKeyColumnFields(c: Column, other: Column, e: SchemaEntry, typ: Value, groupKey: string)
    ensures var fk := ForeignKeyColumn(c, other, e, typ, groupKey);
            && Get(fk, "columnName") == Str(PairName(c))
            && Get(fk, "type") == typ
            && Get(fk, "foreignKey") == Bool(true)
            && Get(fk, "references") == e.tableName
            && Get(fk, "referenceIdentity") == Str(c.collection)
            && Get(fk, "on") == Str(e.primaryKey)
            && Get(fk, "onKey") == Str(e.primaryKey)
            && Get(fk, "via") == Str(other.collection + "_" + c.via)
            && Get(fk, "groupKey") == Str(groupKey)
  {
    var name, identity, on, via, group :=
      Str(PairName(c)), Str(c.collection), Str(e.primaryKey), Str(other.collection + "_" + c.via), Str(groupKey);
    ColumnFieldsHead(name, typ, e.tableName, identity, on, via, group);
    ColumnFieldsMiddle(name, typ, e.tableName, identity, on, via, group);
    ColumnFieldsTail(name, typ, e.tableName, identity, on, via, group);
  }

  /** The keys of a foreign-key column, in order. */
  const ColumnKeys: seq<string> :=
    ["columnName", "type", "foreignKey", "references", "referenceIdentity", "on", "onKey", "via", "groupKey"]

  lemma ColumnKeysAre(name: Value, typ: Value, references: Value, identity: Value, on: Value, via: Value, group: Value)
    ensures var ps := ColumnProps(name, typ, references, identity, on, via, group);
            |ps| == 9 && forall j :: 0 <= j < 9 ==> ps[j].0 == ColumnKeys[j]
  {
  }

  /** No two keys of a foreign-key column coincide. */
  lemma ColumnKeysDistinct()
    ensures forall i, j :: 0 <= i < j < |ColumnKeys| ==> ColumnKeys[i] != ColumnKeys[j]
  {
  }

  /** Each field of a foreign-key column is what its key looks up. */
  lemma ColumnField(ps: Props, j: nat)
    requires |ps| == |ColumnKeys| && j < |ps|
    requires forall i :: 0 <= i < |ps| ==> ps[i].0 == ColumnKeys[i]
    ensures GetIn(ps, ColumnKeys[j]) == ps[j].1
  {
    ColumnKeysDistinct();
    LookupAt(ps, j);
  }

  lemma ColumnFieldsHead(name: Value, typ: Value, references: Value, identity: Value, on: Value, via: Value, group: Value)
    ensures var ps := ColumnProps(name, typ, references, identity, on, via, group);
            GetIn(ps, "columnName") == name && GetIn(ps, "type") == typ && GetIn(ps, "foreignKey") == Bool(true)
  {
    var ps := ColumnProps(name, typ, references, identity, on, via, group);
    ColumnKeysAre(name, typ, references, identity, on, via, group);
    ColumnField(ps, 0);
    ColumnField(ps, 1);
    ColumnField(ps, 2);
  }

  lemma ColumnFieldsMiddle(name: Value, typ: Value, references: Value, identity: Value, on: Value, via: Value, group: Value)
    ensures var ps := ColumnProps(name, typ, references, identity, on, via, group);
            GetIn(ps, "references") == references && GetIn(ps, "referenceIdentity") == identity && GetIn(ps, "on") == on
  {
    var ps := ColumnProps(name, typ, references, identity, on, via, group);
    ColumnKeysAre(name, typ, references, identity, on, via, group);
    ColumnField(ps, 3);
    ColumnField(ps, 4);
    ColumnField(ps, 5);
  }

  lemma ColumnFieldsTail(name: Value, typ: Value, references: Value, identity: Value, on: Value, via: Value, group: Value)
    ensures var ps := ColumnProps(name, typ, references, identity, on, via, group);
            GetIn(ps, "onKey") == on && GetIn(ps, "via") == via && GetIn(ps, "groupKey") == group
  {
    var ps := ColumnProps(name, typ, references, identity, on, via, group);
    ColumnKeysAre(name, typ, references, identity, on, via, group);
    ColumnField(ps, 6);
    ColumnField(ps, 7);
    ColumnField(ps, 8);
  }
}
