/** The first half of the join-table pass: every many-to-many association yields a junction
    table, and candidate tables whose two collections are already joined are dropped.
 */
module JoinBuild {
  import opened Results
  import opened Assoc
  import opened Strings
  import opened Values
  import opened Collections
  import opened JunctionNames

  /** A junction table under construction: its name and its record. */
  type Junction = (string, Collection)

  /** What every built junction satisfies: it is stored under its own lower-case identity,
      is flagged, and joins exactly two collections. */
  predicate WellFormedJunction(t: Junction) {
    IsLower(t.0) && t.1.identity == Str(t.0) && t.1.junctionTable && |t.1.tables| == 2
  }

  /** `mapCollections`: the attributes owning a `collection` property. Asking a
      `null`/`undefined` attribute throws. */
  function CollectionAttributes(attrs: Props): (r: Result<Props>)
    ensures r.Err? <==> exists i :: 0 <= i < |attrs| && Nullish(attrs[i].1)
    ensures r.Ok? ==> forall e :: e in r.value <==> e in attrs && HasProp(e.1, "collection")
  {
    if exists i :: 0 <= i < |attrs| && Nullish(attrs[i].1) then Err(TypeMismatch("hasOwnProperty"))
    else Ok(Filter(attrs, (k, v) => HasProp(v, "collection")))
  }

  /** The junction's own primary key. */
  function IdAttribute(): Value {
    Obj([("primaryKey", Bool(true)), ("autoIncrement", Bool(true)), ("type", Str("integer"))])
  }

  /** The junction attribute `{columnName, type, foreignKey: true, references, on, via,
      groupKey}`: a foreign key grouped by the collection it references. */
  function ForeignKeyObject(columnName: string, typ: Value, references: string, on: string, via: string): (r: Value)
    ensures r.Obj? && Get(r, "columnName") == Str(columnName)
    ensures Get(r, "references") == Str(references) && Get(r, "foreignKey") == Bool(true)
  {
    var ps := [("columnName", Str(columnName)), ("type", typ), ("foreignKey", Bool(true)),
               ("references", Str(references)), ("on", Str(on)), ("via", Str(via)),
               ("groupKey", Str(references))];
    assert Lookup(ps[1..][1..], "foreignKey") == Some(Bool(true));
    assert Lookup(ps[1..], "foreignKey") == Some(Bool(true));
    assert Lookup(ps[1..][1..][1..], "references") == Some(Str(references));
    assert Lookup(ps[1..][1..], "references") == Some(Str(references));
    assert Lookup(ps[1..], "references") == Some(Str(references));
    Obj(ps)
  }

  /** `buildForeignKey`: the junction attribute pointing at `c1`'s collection, typed after its
      primary key. A missing collection yields `null` and the read of its type throws. */
  function BuildForeignKey(cols: Collections, c1: Column, c2: Column): (r: Result<Value>)
    ensures r.Ok? ==> r.value.Obj?
    ensures r.Err? <==> !Has(cols, c1.collection) || FindPrimaryKey(cols, c1.collection).Err?
    ensures r.Ok? ==> Get(r.value, "columnName") == Str(Lower(PairName(c1))) && Get(r.value, "references") == Str(Lower(c1.collection))
  {
    var pk :- FindPrimaryKey(cols, c1.collection);
    if pk.None? then Err(UnknownCollection(c1.collection))
    else
      Ok(ForeignKeyObject(Lower(PairName(c1)), Get(pk.value.1, "type"), Lower(c1.collection),
                          Lower(pk.value.0), c2.collection + "_" + c1.via))
  }

  /** `v` is the junction's foreign key for side `c`, whose partner is `other`: a lower-case
      column named after the side, referencing the side's lower-cased collection. */
  ghost predicate JoinForeignKey(v: Value, c: Column, other: Column) {
    exists typ: Value, on: string ::
      v == ForeignKeyObject(Lower(PairName(c)), typ, Lower(c.collection), on, other.collection + "_" + c.via)
  }

  /** A junction foreign key references the target's lower-cased name and is typed after,
      and points `on`, the last attribute of the target owning `primaryKey`. */
  lemma BuildForeignKeyTarget(cols: Collections, c1: Column, c2: Column)
    requires BuildForeignKey(cols, c1, c2).Ok?
    ensures Has(cols, c1.collection)
    ensures var fk := BuildForeignKey(cols, c1, c2).value;
            var attrs := AttrsOf(cols, c1.collection);
            exists i :: && 0 <= i < |attrs|
                        && HasProp(attrs[i].1, "primaryKey")
                        && (forall j :: i < j < |attrs| ==> !HasProp(attrs[j].1, "primaryKey"))
                        && fk == ForeignKeyObject(Lower(PairName(c1)), Get(attrs[i].1, "type"), Lower(c1.collection),
                                                  Lower(attrs[i].0), c2.collection + "_" + c1.via)
  {
    var pk := FindPrimaryKey(cols, c1.collection);
    assert pk.Ok? && pk.value.Some?;
    var attrs := AttrsOf(cols, c1.collection);
    var i :| && 0 <= i < |attrs| && attrs[i] == pk.value.value
             && HasProp(attrs[i].1, "primaryKey")
             && forall j :: i < j < |attrs| ==> !HasProp(attrs[j].1, "primaryKey");
    assert BuildForeignKey(cols, c1, c2).value
           == ForeignKeyObject(Lower(PairName(c1)), Get(attrs[i].1, "type"), Lower(c1.collection),
                               Lower(attrs[i].0), c2.collection + "_" + c1.via);
  }

  /** The foreign key fails for a missing collection, and for one without a primary key. */
  lemma BuildForeignKeyErrors(cols: Collections, c1: Column, c2: Column)
    ensures !Has(cols, c1.collection) ==> BuildForeignKey(cols, c1, c2) == Err(UnknownCollection(c1.collection))
    ensures Has(cols, c1.collection) && LacksPrimaryKey(AttrsOf(cols, c1.collection))
            ==> BuildForeignKey(cols, c1, c2) == Err(NoPrimaryKey(c1.collection))
  {
    if Has(cols, c1.collection) {
      FindPrimaryKeyMissing(cols, c1.collection);
    }
  }

  /** The junction's attributes: `id`, then the foreign key for each side. */
  function JunctionAttributes(c1: Column, c2: Column, fk1: Value, fk2: Value): Props {
    Upsert(Upsert([("id", IdAttribute())], PairName(c1), fk1), PairName(c2), fk2)
  }

  /** `buildTable`: the junction between the two sides, named after both, on the first
      side's connection. */
  function BuildTable(cols: Collections, c1: Column, c2: Column): (r: Result<Junction>)
    ensures r.Ok? ==> WellFormedJunction(r.value)
  {
    if !Has(cols, c1.collection) then Err(UnknownCollection(c1.collection))
    else
      var fk1 :- BuildForeignKey(cols, c1, c2);
      var fk2 :- BuildForeignKey(cols, c2, c1);
      var name := Lower(JunctionName(c1, c2));
      LowerIsLower(JunctionName(c1, c2));
      Ok((name, Collection(Str(name), Undefined, Lookup(cols, c1.collection).value.connection,
                           JunctionAttributes(c1, c2, fk1, fk2), true, [c1.collection, c2.collection])))
  }

  /** The attribute keys of a junction: `id` and one key per side, each reading its own
      foreign key, as long as the three keys differ. */
  lemma JunctionAttributesKeys(c1: Column, c2: Column, fk1: Value, fk2: Value)
    requires PairName(c1) != "id" && PairName(c2) != "id" && PairName(c1) != PairName(c2)
    ensures Keys(JunctionAttributes(c1, c2, fk1, fk2)) == ["id", PairName(c1), PairName(c2)]
    ensures GetIn(JunctionAttributes(c1, c2, fk1, fk2), "id") == IdAttribute()
    ensures GetIn(JunctionAttributes(c1, c2, fk1, fk2), PairName(c1)) == fk1
    ensures GetIn(JunctionAttributes(c1, c2, fk1, fk2), PairName(c2)) == fk2
  {
    var base: Props := [("id", IdAttribute())];
    assert Keys(base) == ["id"];
    assert !Has(base, PairName(c1));
    var one := Upsert(base, PairName(c1), fk1);
    assert Keys(one) == ["id", PairName(c1)];
    assert !Has(one, PairName(c2));
  }

  /** A built junction is flagged, named after both sides in lower case, joins the two
      sides' collections in order, and uses the first side's connection. */
  lemma BuildTableShape(cols: Collections, c1: Column, c2: Column)
    requires BuildTable(cols, c1, c2).Ok?
    ensures var (name, t) := BuildTable(cols, c1, c2).value;
            && name == Lower(JunctionName(c1, c2)) && IsLower(name)
            && t.identity == Str(name)
            && t.junctionTable
            && t.tables == [c1.collection, c2.collection]
            && Has(cols, c1.collection) && t.connection == Lookup(cols, c1.collection).value.connection
  {
    LowerIsLower(JunctionName(c1, c2));
  }

  /** A built junction carries the `id` primary key and a foreign key per side; with three
      distinct keys, nothing else. */
  lemma BuildTableAttributes(cols: Collections, c1: Column, c2: Column)
    requires BuildTable(cols, c1, c2).Ok?
    ensures var attrs := BuildTable(cols, c1, c2).value.1.attributes;
            && JoinForeignKey(GetIn(attrs, PairName(c2)), c2, c1)
            && (PairName(c1) != PairName(c2) ==> JoinForeignKey(GetIn(attrs, PairName(c1)), c1, c2))
            && (PairName(c1) != "id" && PairName(c2) != "id" ==> GetIn(attrs, "id") == IdAttribute())
            && (PairName(c1) != "id" && PairName(c2) != "id" && PairName(c1) != PairName(c2)
                ==> Keys(attrs) == ["id", PairName(c1), PairName(c2)])
  {
    var fk1 := BuildForeignKey(cols, c1, c2).value;
    var fk2 := BuildForeignKey(cols, c2, c1).value;
    var one := Upsert([("id", IdAttribute())], PairName(c1), fk1);
    assert BuildTable(cols, c1, c2).value.1.attributes == Upsert(one, PairName(c2), fk2);
    if PairName(c1) != "id" && PairName(c2) != "id" {
      assert Lookup(one, "id") == Lookup([("id", IdAttribute())], "id");
      if PairName(c1) != PairName(c2) {
        JunctionAttributesKeys(c1, c2, fk1, fk2);
      }
    }
  }

  /** One iteration of `buildJoins`: the association `key` of `collection`, whose definition
      `attr` owns `collection`. `None` is an association whose other side is a plain foreign
      key, which needs no junction. */
  function BuildJoin(cols: Collections, collection: string, key: string, attr: Value): (r: Result<Option<Junction>>)
    ensures r.Ok? && r.value.Some? ==> WellFormedJunction(r.value.value)
  {
    if !HasProp(attr, "via") then Err(MissingVia(collection, key))
    else
      var childName :- LowerOf(Get(attr, "collection"), "collection");
      if !Has(cols, childName) then Err(UnknownCollection(childName))
      else
        var via := Get(attr, "via");
        if !via.Str? then Err(TypeMismatch("via"))
        else
          var childAttrs := AttrsOf(cols, childName);
          if !Has(childAttrs, via.s) then Err(ViaNotFound(collection, key))
          else
            var viaAttr := GetIn(childAttrs, via.s);
            if Nullish(viaAttr) then Err(TypeMismatch("hasOwnProperty"))
            else if HasProp(viaAttr, "foreignKey") then Ok(None)
            else
              var t :- BuildTable(cols, Column(Lower(collection), Lower(key), via.s), Column(childName, Lower(via.s), key));
              Ok(Some(t))
  }

  /** The association's target, lower-cased, exists and names `via` as one of its
      attributes. */
  predicate ViaResolves(cols: Collections, attr: Value) {
    var target := Get(attr, "collection");
    var via := Get(attr, "via");
    && HasProp(attr, "via")
    && target.Str? && Has(cols, Lower(target.s))
    && via.Str? && Has(AttrsOf(cols, Lower(target.s)), via.s)
  }

  /** An association without `via` is rejected, as is one whose `via` the target lacks. */
  lemma BuildJoinErrors(cols: Collections, collection: string, key: string, attr: Value)
    ensures !HasProp(attr, "via") ==> BuildJoin(cols, collection, key, attr) == Err(MissingVia(collection, key))
    ensures && HasProp(attr, "via") && Get(attr, "collection").Str? && Has(cols, Lower(Get(attr, "collection").s))
            && Get(attr, "via").Str? && !Has(AttrsOf(cols, Lower(Get(attr, "collection").s)), Get(attr, "via").s)
            ==> BuildJoin(cols, collection, key, attr) == Err(ViaNotFound(collection, key))
  {
  }

  /** An association whose `via` is a foreign key, and only such an association, builds
      nothing. */
  lemma BuildJoinSkipsForeignKeys(cols: Collections, collection: string, key: string, attr: Value)
    ensures BuildJoin(cols, collection, key, attr) == Ok(None) <==>
              && ViaResolves(cols, attr)
              && var viaAttr := GetIn(AttrsOf(cols, Lower(Get(attr, "collection").s)), Get(attr, "via").s);
                 !Nullish(viaAttr) && HasProp(viaAttr, "foreignKey")
  {
  }

  /** Any junction built joins the lower-cased collection with the lower-cased target and is
      named after the association and its `via`. */
  lemma BuildJoinOutcome(cols: Collections, collection: string, key: string, attr: Value)
    requires BuildJoin(cols, collection, key, attr).Ok? && BuildJoin(cols, collection, key, attr).value.Some?
    ensures ViaResolves(cols, attr)
    ensures var t := BuildJoin(cols, collection, key, attr).value.value;
            && t.1.tables == [Lower(collection), Lower(Get(attr, "collection").s)]
            && t.0 == Lower(JunctionName(Column(Lower(collection), Lower(key), Get(attr, "via").s),
                                         Column(Lower(Get(attr, "collection").s), Lower(Get(attr, "via").s), key)))
  {
    BuildJoinTable(cols, collection, key, attr);
    var via := Get(attr, "via").s;
    BuildTableShape(cols, Column(Lower(collection), Lower(key), via), Column(Lower(Get(attr, "collection").s), Lower(via), key));
  }

  /** The junction an association builds is the one `buildTable` makes for its two
      sides. */
  lemma BuildJoinTable(cols: Collections, collection: string, key: string, attr: Value)
    requires BuildJoin(cols, collection, key, attr).Ok? && BuildJoin(cols, collection, key, attr).value.Some?
    ensures Get(attr, "via").Str? && Get(attr, "collection").Str?
    ensures var via := Get(attr, "via").s;
            var c1 := Column(Lower(collection), Lower(key), via);
            var c2 := Column(Lower(Get(attr, "collection").s), Lower(via), key);
            && BuildTable(cols, c1, c2).Ok?
            && BuildJoin(cols, collection, key, attr).value.value == BuildTable(cols, c1, c2).value
  {
  }

  /** A junction's attributes are `id` and the two sides' foreign keys. */
  lemma BuildTableAttributesAre(cols: Collections, c1: Column, c2: Column)
    requires BuildTable(cols, c1, c2).Ok?
    ensures BuildForeignKey(cols, c1, c2).Ok? && BuildForeignKey(cols, c2, c1).Ok?
    ensures BuildTable(cols, c1, c2).value.1.attributes
            == JunctionAttributes(c1, c2, BuildForeignKey(cols, c1, c2).value, BuildForeignKey(cols, c2, c1).value)
  {
  }

  /** `buildJoins` over the association attributes, in order. */
  function BuildJoins(cols: Collections, collection: string, assocs: Props): (r: Result<seq<Junction>>)
    ensures r.Ok? ==> forall i :: 0 <= i < |r.value| ==> WellFormedJunction(r.value[i])
    ensures r.Ok? ==> |r.value| <= |assocs|
    decreases |assocs|
  {
    if |assocs| == 0 then Ok([])
    else
      var t :- BuildJoin(cols, collection, assocs[0].0, assocs[0].1);
      var rest :- BuildJoins(cols, collection, assocs[1..]);
      if t.None? then Ok(rest) else Ok([t.value] + rest)
  }

  /** `buildJoins(collection)`: the junctions the collection's associations call for. */
  function BuildJoinsFor(cols: Collections, collection: string): (r: Result<seq<Junction>>)
    requires Has(cols, collection)
    ensures r.Ok? ==> forall i :: 0 <= i < |r.value| ==> WellFormedJunction(r.value[i])
  {
    var assocs :- CollectionAttributes(AttrsOf(cols, collection));
    BuildJoins(cols, collection, assocs)
  }

  /** `join.tables` holds both `a` and `b`. */
  predicate CoversPair(join: Collection, a: string, b: string) {
    a in join.tables && b in join.tables
  }

  /** Some stored table joins `a` and `b`. */
  predicate StoredCovers(store: Collections, a: string, b: string) {
    exists k :: k in Keys(store) && CoversPair(Lookup(store, k).value, a, b)
  }

  /** One step of `uniqueTables`: a candidate is stored under its identity unless a stored
      table already joins its two collections. */
  function UniqueTable(store: Collections, t: Junction): (r: Collections)
    requires WellFormedJunction(t)
    ensures StoredCovers(r, t.1.tables[0], t.1.tables[1])
    ensures r == store || (Lookup(r, t.0) == Some(t.1) && forall k :: k != t.0 ==> Lookup(r, k) == Lookup(store, k))
  {
    if StoredCovers(store, t.1.tables[0], t.1.tables[1]) then store
    else
      var r := Upsert(store, t.0, t.1);
      assert CoversPair(Lookup(r, t.0).value, t.1.tables[0], t.1.tables[1]);
      r
  }

  /** `uniqueTables`. */
  function UniqueTables(store: Collections, ts: seq<Junction>): (r: Collections)
    requires forall i :: 0 <= i < |ts| ==> WellFormedJunction(ts[i])
    ensures forall k :: Has(store, k) ==> Has(r, k)
    ensures forall k :: Has(r, k) ==> Has(store, k) || exists i :: 0 <= i < |ts| && ts[i].0 == k
    decreases |ts|
  {
    if |ts| == 0 then store else UniqueTables(UniqueTable(store, ts[0]), ts[1..])
  }

  /** A candidate is dropped exactly when its pair is already joined, and stored under its
      identity otherwise. */
  lemma UniqueTableAdds(store: Collections, t: Junction)
    requires WellFormedJunction(t)
    ensures StoredCovers(store, t.1.tables[0], t.1.tables[1]) ==> UniqueTable(store, t) == store
    ensures !StoredCovers(store, t.1.tables[0], t.1.tables[1]) ==> Lookup(UniqueTable(store, t), t.0) == Some(t.1)
    ensures StoredCovers(UniqueTable(store, t), t.1.tables[0], t.1.tables[1])
  {
    var r := UniqueTable(store, t);
    if !StoredCovers(store, t.1.tables[0], t.1.tables[1]) {
      assert CoversPair(Lookup(r, t.0).value, t.1.tables[0], t.1.tables[1]);
    }
  }

  /** Two tables list the same collections. */
  ghost predicate SameTables(t: Collection, u: Collection) {
    forall x :: x in t.tables <==> x in u.tables
  }

  /** Tables sharing an identity join the same collections, as they do when identities are
      built from the joined collections' names. */
  ghost predicate IdentityDeterminesPair(all: seq<Junction>) {
    forall i, j :: 0 <= i < |all| && 0 <= j < |all| && all[i].0 == all[j].0 ==> SameTables(all[i].1, all[j].1)
  }

  /** Every stored table is one of `all`, stored under its identity. */
  ghost predicate StoredFrom(store: Collections, all: seq<Junction>) {
    forall k :: Has(store, k) ==> exists i :: 0 <= i < |all| && all[i].0 == k && Lookup(store, k) == Some(all[i].1)
  }

  /** A table already stored under a candidate's identity joins the candidate's pair. */
  lemma StoredIdentityCovers(store: Collections, t: Junction, all: seq<Junction>)
    requires WellFormedJunction(t)
    requires t in all && IdentityDeterminesPair(all) && StoredFrom(store, all)
    ensures Has(store, t.0) ==> StoredCovers(store, t.1.tables[0], t.1.tables[1])
  {
    if Has(store, t.0) {
      var n :| 0 <= n < |all| && all[n] == t;
      var i :| 0 <= i < |all| && all[i].0 == t.0 && Lookup(store, t.0) == Some(all[i].1);
      assert SameTables(all[i].1, all[n].1);
      assert CoversPair(Lookup(store, t.0).value, t.1.tables[0], t.1.tables[1]);
    }
  }

  lemma UniqueTableStep(store: Collections, t: Junction, all: seq<Junction>)
    requires WellFormedJunction(t)
    requires t in all && IdentityDeterminesPair(all) && StoredFrom(store, all)
    ensures StoredFrom(UniqueTable(store, t), all)
    ensures StoredCovers(UniqueTable(store, t), t.1.tables[0], t.1.tables[1])
    ensures forall a, b :: StoredCovers(store, a, b) ==> StoredCovers(UniqueTable(store, t), a, b)
  {
    UniqueTableAdds(store, t);
    StoredIdentityCovers(store, t, all);
    var r := UniqueTable(store, t);
    if r != store {
      assert r == Upsert(store, t.0, t.1) && !Has(store, t.0);
      var n :| 0 <= n < |all| && all[n] == t;
      forall k | Has(r, k)
        ensures exists i :: 0 <= i < |all| && all[i].0 == k && Lookup(r, k) == Some(all[i].1)
      {
        if k == t.0 {
          assert all[n].0 == k && Lookup(r, k) == Some(all[n].1);
        } else {
          assert Lookup(r, k) == Lookup(store, k);
        }
      }
      forall a, b | StoredCovers(store, a, b) ensures StoredCovers(r, a, b) {
        var k :| k in Keys(store) && CoversPair(Lookup(store, k).value, a, b);
        assert k != t.0;
        assert Lookup(r, k) == Lookup(store, k);
        assert Has(r, k);
      }
    }
  }

  /** After `uniqueTables`, the collections of every candidate are joined by a stored table,
      whether or not that candidate was the one kept; pairs joined before stay joined. */
  lemma {:induction false} UniqueTablesCovers(store: Collections, ts: seq<Junction>, all: seq<Junction>)
    requires forall i :: 0 <= i < |ts| ==> WellFormedJunction(ts[i]) && ts[i] in all
    requires IdentityDeterminesPair(all) && StoredFrom(store, all)
    ensures StoredFrom(UniqueTables(store, ts), all)
    ensures forall i :: 0 <= i < |ts| ==> StoredCovers(UniqueTables(store, ts), ts[i].1.tables[0], ts[i].1.tables[1])
    ensures forall a, b :: StoredCovers(store, a, b) ==> StoredCovers(UniqueTables(store, ts), a, b)
    decreases |ts|
  {
    if |ts| > 0 {
      var next := UniqueTable(store, ts[0]);
      UniqueTableStep(store, ts[0], all);
      UniqueTablesCovers(next, ts[1..], all);
      assert UniqueTables(store, ts) == UniqueTables(next, ts[1..]);
      forall i | 0 <= i < |ts|
        ensures StoredCovers(UniqueTables(store, ts), ts[i].1.tables[0], ts[i].1.tables[1])
      {
        if i > 0 {
          assert ts[i] == ts[1..][i - 1];
        }
      }
    }
  }

  /** A store of junctions: no name repeats, and every entry is a flagged junction stored
      under a lower-case name. */
  ghost predicate JunctionStore(store: Collections) {
    && Distinct(store)
    && forall k :: Has(store, k) ==> IsLower(k) && Lookup(store, k).value.junctionTable
  }

  /** `uniqueTables` keeps a store of junctions one. */
  lemma {:induction false} UniqueTablesKeepsStore(store: Collections, ts: seq<Junction>)
    requires forall i :: 0 <= i < |ts| ==> WellFormedJunction(ts[i])
    requires JunctionStore(store)
    ensures JunctionStore(UniqueTables(store, ts))
    decreases |ts|
  {
    if |ts| > 0 {
      var t := ts[0];
      var next := UniqueTable(store, t);
      if next != store {
        UpsertDistinct(store, t.0, t.1);
        forall k | Has(next, k) ensures IsLower(k) && Lookup(next, k).value.junctionTable {
          if k != t.0 {
            assert Lookup(next, k) == Lookup(store, k);
          }
        }
      }
      UniqueTablesKeepsStore(next, ts[1..]);
    }
  }
}
