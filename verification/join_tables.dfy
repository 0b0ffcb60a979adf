/** The join-table pass: junctions are built and deduplicated collection by collection,
    custom `through` tables are flagged, every association is then re-pointed at the
    junction joining its two collections, and the junctions are added to the collections.
 */
module JoinTables {
  import opened Results
  import opened Assoc
  import opened Strings
  import opened Values
  import opened Collections
  import opened JunctionNames
  import opened JoinBuild

  /** `collections[linked].junctionTable = true`. */
  function FlagJunction(cols: Collections, linked: string): (r: Collections)
    requires Has(cols, linked)
    ensures Keys(r) == Keys(cols)
    ensures Lookup(r, linked) == Some(Lookup(cols, linked).value.(junctionTable := true))
    ensures forall c :: c != linked ==> Lookup(r, c) == Lookup(cols, c)
    ensures forall c :: Has(cols, c) ==> AttrsOf(r, c) == AttrsOf(cols, c)
  {
    Upsert(cols, linked, Lookup(cols, linked).value.(junctionTable := true))
  }

  /** `attr.collection = attr.references = linked`. */
  function PointAt(v: Value, linked: string): Value {
    SetProp(SetProp(v, "collection", Str(linked)), "references", Str(linked))
  }

  /** `attr.on = on; delete attr.through`. */
  function SetOn(v: Value, on: string): Value {
    DeleteProp(SetProp(v, "on", Str(on)), "through")
  }

  /** What `markCustomJoinTables` leaves in an attribute that owned `through: linked`: it
      points at `linked` on `on`, and owns `through` no more. */
  predicate PointsThrough(v: Value, linked: string, on: string) {
    && v.Obj?
    && Get(v, "collection") == Str(linked)
    && Get(v, "references") == Str(linked)
    && Get(v, "on") == Str(on)
    && !HasProp(v, "through")
  }

  lemma SetOnPointsThrough(v: Value, linked: string, on: string)
    requires v.Obj?
    ensures PointsThrough(SetOn(PointAt(v, linked), on), linked, on)
  {
  }

  /** The rest of one `markCustomJoinTables` iteration, once the `through` collection
      `linked` is known to exist. */
  function MarkLinked(cols: Collections, collection: string, key: string, v: Value, linked: string): (r: Result<Collections>)
    requires Has(cols, collection) && Has(cols, linked)
    ensures r.Ok? ==> Keys(r.value) == Keys(cols)
    ensures r.Ok? && Has(AttrsOf(cols, collection), key) ==> SameNames(cols, r.value)
  {
    var cols1 := SetAttribute(FlagJunction(cols, linked), collection, key, PointAt(v, linked));
    var reference :- FindReferenceIn(AttrsOf(cols1, linked), collection);
    if reference.None? then Err(ThroughReferenceNotFound(collection, key))
    else
      var on :- LowerOf(reference.value, "on");
      Ok(SetAttribute(cols1, collection, key, SetOn(PointAt(v, linked), on)))
  }

  /** One iteration of `markCustomJoinTables`: attribute `key` of `collection`. An attribute
      owning `through` has its `through` collection flagged as a junction, and is re-pointed
      at it, `on` the first of its foreign keys back to `collection`. */
  function MarkThrough(cols: Collections, collection: string, key: string): (r: Result<Collections>)
    requires Has(cols, collection)
    ensures r.Ok? ==> SameNames(cols, r.value)
  {
    var v := GetIn(AttrsOf(cols, collection), key);
    if Nullish(v) then Err(TypeMismatch("hasOwnProperty"))
    else if !HasProp(v, "through") then Ok(cols)
    else
      var linked :- LowerOf(Get(v, "through"), "through");
      if !Has(cols, linked) then Err(UnknownCollection(linked))
      else MarkLinked(cols, collection, key, v, linked)
  }

  /** The lower-cased `through` of an attribute that owns one as a string. */
  function ThroughOf(cols: Collections, collection: string, key: string): Option<string>
    requires Has(cols, collection)
  {
    var v := GetIn(AttrsOf(cols, collection), key);
    if HasProp(v, "through") && Get(v, "through").Str? then Some(Lower(Get(v, "through").s)) else None
  }

  /** What a successful iteration stores: the attribute re-pointed at `linked`, `on` the
      lower-cased reference found in `linked`. */
  lemma MarkLinkedValue(cols: Collections, collection: string, key: string, v: Value, linked: string)
    requires Has(cols, collection) && Has(cols, linked)
    requires MarkLinked(cols, collection, key, v, linked).Ok?
    ensures var cols1 := SetAttribute(FlagJunction(cols, linked), collection, key, PointAt(v, linked));
            var reference := FindReferenceIn(AttrsOf(cols1, linked), collection);
            && reference.Ok? && reference.value.Some? && reference.value.value.Str?
            && MarkLinked(cols, collection, key, v, linked).value
               == SetAttribute(cols1, collection, key, SetOn(PointAt(v, linked), Lower(reference.value.value.s)))
  {
  }

  /** Flagging the target and re-pointing the attribute change nothing else: the target
      alone gains the junction flag, and only attribute `key` of `collection` changes. */
  lemma MarkLinkedFrame(cols: Collections, collection: string, key: string, v: Value, linked: string)
    requires Has(cols, collection) && Has(cols, linked)
    requires MarkLinked(cols, collection, key, v, linked).Ok?
    ensures var r := MarkLinked(cols, collection, key, v, linked).value;
            && Lookup(r, linked).value.junctionTable
            && (forall c :: c != linked && c != collection ==> Lookup(r, c) == Lookup(cols, c))
            && (forall k :: k != key ==> GetIn(AttrsOf(r, collection), k) == GetIn(AttrsOf(cols, collection), k))
  {
    MarkLinkedValue(cols, collection, key, v, linked);
    var flagged := FlagJunction(cols, linked);
    var cols1 := SetAttribute(flagged, collection, key, PointAt(v, linked));
    var r := MarkLinked(cols, collection, key, v, linked).value;
    assert SameButAttributes(cols1, r, collection);
    assert SameButAttributes(flagged, cols1, collection);
    assert Lookup(cols1, linked).value.junctionTable by {
      if linked == collection {
        assert Lookup(cols1, linked).value.(attributes := Lookup(flagged, linked).value.attributes) == Lookup(flagged, linked).value;
      }
    }
    if linked == collection {
      assert Lookup(r, linked).value.(attributes := Lookup(cols1, linked).value.attributes) == Lookup(cols1, linked).value;
    }
    assert AttrsOf(flagged, collection) == AttrsOf(cols, collection);
    forall k | k != key ensures GetIn(AttrsOf(r, collection), k) == GetIn(AttrsOf(cols, collection), k) {
      assert GetIn(AttrsOf(r, collection), k) == GetIn(AttrsOf(cols1, collection), k);
    }
  }

  /** When the target is another collection, the attribute ends up pointing at it, `on` the
      lower-cased column of the target's first foreign key back to `collection`. */
  lemma MarkLinkedPoints(cols: Collections, collection: string, key: string, v: Value, linked: string)
    requires Has(cols, collection) && Has(cols, linked) && linked != collection && v.Obj?
    requires MarkLinked(cols, collection, key, v, linked).Ok?
    ensures var r := MarkLinked(cols, collection, key, v, linked).value;
            var attrs := AttrsOf(cols, linked);
            exists i, on :: && PointsThrough(GetIn(AttrsOf(r, collection), key), linked, on)
                            && 0 <= i < |attrs|
                            && ReferencesParent(attrs[i].1, collection)
                            && (forall j :: 0 <= j < i ==> !ReferencesParent(attrs[j].1, collection))
                            && ReferenceName(attrs[i]).Str?
                            && on == Lower(ReferenceName(attrs[i]).s)
                            && IsLower(on)
  {
    MarkLinkedStores(cols, collection, key, v, linked);
    var attrs := AttrsOf(cols, linked);
    var reference := FindReferenceIn(attrs, collection).value.value;
    var i := ReferenceWitness(attrs, collection);
    LowerIsLower(reference.s);
    SetOnPointsThrough(v, linked, Lower(reference.s));
  }

  /** With another collection as target, the reference is read from the target as it was. */
  lemma MarkLinkedStores(cols: Collections, collection: string, key: string, v: Value, linked: string)
    requires Has(cols, collection) && Has(cols, linked) && linked != collection
    requires MarkLinked(cols, collection, key, v, linked).Ok?
    ensures var reference := FindReferenceIn(AttrsOf(cols, linked), collection);
            && reference.Ok? && reference.value.Some? && reference.value.value.Str?
            && GetIn(AttrsOf(MarkLinked(cols, collection, key, v, linked).value, collection), key)
               == SetOn(PointAt(v, linked), Lower(reference.value.value.s))
  {
    MarkLinkedValue(cols, collection, key, v, linked);
    var cols1 := SetAttribute(FlagJunction(cols, linked), collection, key, PointAt(v, linked));
    assert AttrsOf(cols1, linked) == AttrsOf(cols, linked);
  }

  /** The position of the reference `FindReferenceIn` found. */
  lemma ReferenceWitness(attrs: Props, parent: string) returns (i: nat)
    requires FindReferenceIn(attrs, parent).Ok? && FindReferenceIn(attrs, parent).value.Some?
    ensures && i < |attrs| && ReferencesParent(attrs[i].1, parent)
            && FindReferenceIn(attrs, parent).value.value == ReferenceName(attrs[i])
            && forall j :: 0 <= j < i ==> !ReferencesParent(attrs[j].1, parent)
  {
    i :| && 0 <= i < |attrs| && ReferencesParent(attrs[i].1, parent)
         && FindReferenceIn(attrs, parent).value.value == ReferenceName(attrs[i])
         && forall j :: 0 <= j < i ==> !ReferencesParent(attrs[j].1, parent);
  }

  /** An attribute without `through` is left alone. A `through` attribute flags its lower-
      cased target as a junction, and nothing but that flag and the attribute changes. */
  lemma MarkThroughOutcome(cols: Collections, collection: string, key: string)
    requires Has(cols, collection)
    requires MarkThrough(cols, collection, key).Ok?
    ensures !HasProp(GetIn(AttrsOf(cols, collection), key), "through") ==> MarkThrough(cols, collection, key) == Ok(cols)
    ensures HasProp(GetIn(AttrsOf(cols, collection), key), "through") ==>
              && ThroughOf(cols, collection, key).Some?
              && var linked := ThroughOf(cols, collection, key).value;
              && Has(cols, linked)
              && MarkThrough(cols, collection, key) == MarkLinked(cols, collection, key, GetIn(AttrsOf(cols, collection), key), linked)
  {
  }

  /** A `through` collection that does not exist is an error. */
  lemma MarkThroughUnknown(cols: Collections, collection: string, key: string)
    requires Has(cols, collection)
    requires ThroughOf(cols, collection, key).Some? && !Has(cols, ThroughOf(cols, collection, key).value)
    ensures MarkThrough(cols, collection, key) == Err(UnknownCollection(ThroughOf(cols, collection, key).value))
  {
  }

  /** A `through` collection with no foreign key back to `collection` is an error. */
  lemma MarkLinkedNoReference(cols: Collections, collection: string, key: string, v: Value, linked: string)
    requires Has(cols, collection) && Has(cols, linked) && linked != collection
    requires forall j :: 0 <= j < |AttrsOf(cols, linked)| ==>
               !Nullish(AttrsOf(cols, linked)[j].1) && !ReferencesParent(AttrsOf(cols, linked)[j].1, collection)
    ensures MarkLinked(cols, collection, key, v, linked) == Err(ThroughReferenceNotFound(collection, key))
  {
    var cols1 := SetAttribute(FlagJunction(cols, linked), collection, key, PointAt(v, linked));
    assert AttrsOf(cols1, linked) == AttrsOf(cols, linked);
  }

  /** `markCustomJoinTables` over the attribute names as they stood when it began. */
  function MarkCustomJoinTables(cols: Collections, collection: string, keys: seq<string>): (r: Result<Collections>)
    requires Has(cols, collection)
    ensures r.Ok? ==> SameNames(cols, r.value)
    decreases |keys|
  {
    if |keys| == 0 then Ok(cols)
    else
      var next :- MarkThrough(cols, collection, keys[0]);
      MarkCustomJoinTables(next, collection, keys[1..])
  }

  /** `tables.indexOf(parent) >= 0 && tables.indexOf(child) >= 0`: the child is compared with
      `===`, so only a string can match. */
  predicate Joins(t: Collection, parent: string, child: Value) {
    parent in t.tables && child.Str? && child.s in t.tables
  }

  /** `findJoinTable`: the position of the LAST stored table joining `parent` and `child`
      (the scan does not stop at the first). */
  function JoinTableIndex(store: Collections, parent: string, child: Value): (r: Option<nat>)
    ensures r.Some? ==> r.value < |store| && Joins(store[r.value].1, parent, child)
    ensures r.Some? ==> forall j :: r.value < j < |store| ==> !Joins(store[j].1, parent, child)
    ensures r.None? <==> forall j :: 0 <= j < |store| ==> !Joins(store[j].1, parent, child)
    decreases |store|
  {
    if |store| == 0 then None
    else
      var last := |store| - 1;
      if Joins(store[last].1, parent, child) then Some(last)
      else
        var r := JoinTableIndex(store[..last], parent, child);
        assert forall j :: 0 <= j < last ==> store[..last][j] == store[j];
        r
  }

  /** The attribute an association becomes once re-pointed at junction `t`. */
  function JunctionLink(t: Collection, on: Value): Value {
    Obj([("collection", t.identity), ("references", t.identity), ("on", on)])
  }

  /** One iteration of `updateAttribute`: association `key` of `collection` is replaced by a
      link to the junction joining it to its target, `on` the column of the junction's
      attribute `fkKey`. A missing junction attribute throws. */
  function LinkAttributeAt(cols: Collections, store: Collections, collection: string, key: string, fkKey: string): (r: Result<Collections>)
    requires Has(cols, collection)
    ensures r.Ok? ==> SameButAttributes(cols, r.value, collection)
    ensures var v := GetIn(AttrsOf(cols, collection), key);
            var j := JoinTableIndex(store, collection, Get(v, "collection"));
            r.Err? <==> || Nullish(v)
                        || (HasProp(v, "collection") && j.Some? && Nullish(GetIn(store[j.value].1.attributes, fkKey)))
  {
    var v := GetIn(AttrsOf(cols, collection), key);
    if Nullish(v) then Err(TypeMismatch("hasOwnProperty"))
    else if !HasProp(v, "collection") then Ok(cols)
    else
      var j := JoinTableIndex(store, collection, Get(v, "collection"));
      if j.None? then Ok(cols)
      else
        var t := store[j.value].1;
        var fk := GetIn(t.attributes, fkKey);
        if Nullish(fk) then Err(TypeMismatch("columnName"))
        else Ok(SetAttribute(cols, collection, key, JunctionLink(t, Get(fk, "columnName"))))
  }

  /** The name `updateAttribute` reads the junction's foreign key under: `AsDeclared` is the
      code as written, `LowerCased` the lookup under the lower-cased names the junction's
      attributes were built with. */
  datatype KeyLookup = AsDeclared | LowerCased

  /** `collection + '_' + attribute`, with the names as declared or lower-cased. */
  function JunctionKey(lookup: KeyLookup, collection: string, key: string): string {
    match lookup
    case AsDeclared => collection + "_" + key
    case LowerCased => Lower(collection) + "_" + Lower(key)
  }

  /** `updateAttribute` as written: the junction attribute is looked up under
      `collection + '_' + attribute`, with the attribute name as declared. */
  function LinkAttribute(cols: Collections, store: Collections, collection: string, key: string): (r: Result<Collections>)
    requires Has(cols, collection)
    ensures r.Ok? ==> SameButAttributes(cols, r.value, collection)
  {
    LinkAttributeAt(cols, store, collection, key, JunctionKey(AsDeclared, collection, key))
  }

  /** `updateAttribute` looking the junction attribute up under the lower-cased names the
      junction was built with. */
  function LinkAttributeFixed(cols: Collections, store: Collections, collection: string, key: string): (r: Result<Collections>)
    requires Has(cols, collection)
    ensures r.Ok? ==> SameButAttributes(cols, r.value, collection)
  {
    LinkAttributeAt(cols, store, collection, key, JunctionKey(LowerCased, collection, key))
  }

  /** What an attribute of `collection` is once the junctions are known, stated without the
      loop: an association whose collection and target some stored junction joins is
      re-pointed at the last such junction, `on` the column of that junction's attribute
      `fkKey`; anything else is kept. */
  function Relinked(store: Collections, collection: string, v: Value, fkKey: string): Value {
    if !HasProp(v, "collection") then v
    else
      match JoinTableIndex(store, collection, Get(v, "collection"))
      case None => v
      case Some(j) => JunctionLink(store[j].1, Get(GetIn(store[j].1.attributes, fkKey), "columnName"))
  }

  /** One successful iteration stores the re-linked attribute under `key`, which the
      collection owned, and changes no other attribute. */
  lemma LinkAttributeRelinks(cols: Collections, store: Collections, collection: string, key: string, fkKey: string)
    requires Has(cols, collection)
    requires LinkAttributeAt(cols, store, collection, key, fkKey).Ok?
    ensures var r := LinkAttributeAt(cols, store, collection, key, fkKey).value;
            && Has(AttrsOf(cols, collection), key)
            && Keys(AttrsOf(r, collection)) == Keys(AttrsOf(cols, collection))
            && GetIn(AttrsOf(r, collection), key) == Relinked(store, collection, GetIn(AttrsOf(cols, collection), key), fkKey)
            && forall k :: k != key ==> GetIn(AttrsOf(r, collection), k) == GetIn(AttrsOf(cols, collection), k)
  {
    LinkAttributeOutcome(cols, store, collection, key, fkKey);
  }

  /** An association is re-pointed at the last stored junction joining its collection and
      target, and left alone when no junction joins them; other attributes are kept. */
  lemma LinkAttributeOutcome(cols: Collections, store: Collections, collection: string, key: string, fkKey: string)
    requires Has(cols, collection)
    requires LinkAttributeAt(cols, store, collection, key, fkKey).Ok?
    ensures var v := GetIn(AttrsOf(cols, collection), key);
            var r := LinkAttributeAt(cols, store, collection, key, fkKey).value;
            && (forall k :: k != key ==> GetIn(AttrsOf(r, collection), k) == GetIn(AttrsOf(cols, collection), k))
            && (!HasProp(v, "collection") || JoinTableIndex(store, collection, Get(v, "collection")).None? ==> r == cols)
            && (HasProp(v, "collection") && JoinTableIndex(store, collection, Get(v, "collection")).Some? ==>
                  exists j :: && 0 <= j < |store|
                              && Joins(store[j].1, collection, Get(v, "collection"))
                              && (forall i :: j < i < |store| ==> !Joins(store[i].1, collection, Get(v, "collection")))
                              && Has(store[j].1.attributes, fkKey)
                              && GetIn(AttrsOf(r, collection), key)
                                 == JunctionLink(store[j].1, Get(GetIn(store[j].1.attributes, fkKey), "columnName")))
  {
    var v := GetIn(AttrsOf(cols, collection), key);
    if HasProp(v, "collection") {
      var j := JoinTableIndex(store, collection, Get(v, "collection"));
      if j.Some? {
        var fk := GetIn(store[j.value].1.attributes, fkKey);
        assert Has(store[j.value].1.attributes, fkKey);
      }
    }
  }

  /** Every key of a junction's attributes is `id` or one of its two sides' names. */
  lemma JunctionAttributesKeysAmong(c1: Column, c2: Column, fk1: Value, fk2: Value, k: string)
    requires Has(JunctionAttributes(c1, c2, fk1, fk2), k)
    ensures k == "id" || k == PairName(c1) || k == PairName(c2)
  {
    var base: Props := [("id", IdAttribute())];
    assert Keys(base) == ["id"];
    var one := Upsert(base, PairName(c1), fk1);
    UpsertHas(one, PairName(c2), fk2, k);
    if k != PairName(c2) {
      UpsertHas(base, PairName(c1), fk1, k);
    }
  }

  /** Every attribute of a junction built for an association has a lower-case name. */
  lemma BuildJoinKeysLower(cols: Collections, collection: string, key: string, attr: Value, k: string)
    requires BuildJoin(cols, collection, key, attr).Ok? && BuildJoin(cols, collection, key, attr).value.Some?
    requires Has(BuildJoin(cols, collection, key, attr).value.value.1.attributes, k)
    ensures IsLower(k)
  {
    BuildJoinTable(cols, collection, key, attr);
    var via := Get(attr, "via").s;
    var c1 := Column(Lower(collection), Lower(key), via);
    var c2 := Column(Lower(Get(attr, "collection").s), Lower(via), key);
    BuildTableAttributesAre(cols, c1, c2);
    LowerIsLower(collection);
    LowerIsLower(key);
    LowerIsLower(via);
    LowerIsLower(Get(attr, "collection").s);
    JunctionKeysLower(c1, c2, BuildForeignKey(cols, c1, c2).value, BuildForeignKey(cols, c2, c1).value, k);
  }

  /** A junction between sides with lower-case names has lower-case attribute names. */
  lemma JunctionKeysLower(c1: Column, c2: Column, fk1: Value, fk2: Value, k: string)
    requires IsLower(c1.collection) && IsLower(c1.attribute) && IsLower(c2.collection) && IsLower(c2.attribute)
    requires Has(JunctionAttributes(c1, c2, fk1, fk2), k)
    ensures IsLower(k)
  {
    JunctionAttributesKeysAmong(c1, c2, fk1, fk2, k);
    if k == PairName(c1) {
      PairNameLower(c1);
    } else if k == PairName(c2) {
      PairNameLower(c2);
    } else {
      IdIsLower();
    }
  }

  lemma IdIsLower()
    ensures IsLower("id")
  {
  }

  lemma PairNameLower(c: Column)
    requires IsLower(c.collection) && IsLower(c.attribute)
    ensures IsLower(PairName(c))
  {
    IsLowerConcat(c.collection, "_");
    IsLowerConcat(c.collection + "_", c.attribute);
  }

  /** As written, an association whose name has an upper-case letter cannot be linked: its
      junction's attributes all have lower-case names, so the lookup under the declared name
      finds nothing and reading its `columnName` throws. */
  lemma LinkAttributeMissesMixedCase(cols: Collections, store: Collections, collection: string, key: string, j: nat)
    requires Has(cols, collection)
    requires HasProp(GetIn(AttrsOf(cols, collection), key), "collection")
    requires JoinTableIndex(store, collection, Get(GetIn(AttrsOf(cols, collection), key), "collection")) == Some(j)
    requires forall k :: Has(store[j].1.attributes, k) ==> IsLower(k)
    requires !IsLower(key)
    ensures LinkAttribute(cols, store, collection, key) == Err(TypeMismatch("columnName"))
  {
    var k := collection + "_" + key;
    assert !IsLower(k) by {
      var i :| 0 <= i < |key| && 'A' <= key[i] <= 'Z';
      assert k[|collection| + 1 + i] == key[i];
    }
    assert !Has(store[j].1.attributes, k);
  }

  /** An association whose junction has an object under `fkKey` is linked to it. */
  lemma LinkAttributeAtLinks(cols: Collections, store: Collections, collection: string, key: string, fkKey: string, j: nat)
    requires Has(cols, collection)
    requires HasProp(GetIn(AttrsOf(cols, collection), key), "collection")
    requires JoinTableIndex(store, collection, Get(GetIn(AttrsOf(cols, collection), key), "collection")) == Some(j)
    requires GetIn(store[j].1.attributes, fkKey).Obj?
    ensures LinkAttributeAt(cols, store, collection, key, fkKey).Ok?
    ensures GetIn(AttrsOf(LinkAttributeAt(cols, store, collection, key, fkKey).value, collection), key)
            == JunctionLink(store[j].1, Get(GetIn(store[j].1.attributes, fkKey), "columnName"))
  {
  }

  /** The foreign key stored under either side's name in a built junction has that name,
      lower-cased, as its column. */
  lemma JunctionColumn(cols0: Collections, c1: Column, c2: Column, fkKey: string)
    requires BuildTable(cols0, c1, c2).Ok?
    requires PairName(c1) != PairName(c2) && fkKey in {PairName(c1), PairName(c2)}
    ensures var fk := GetIn(BuildTable(cols0, c1, c2).value.1.attributes, fkKey);
            fk.Obj? && Get(fk, "columnName") == Str(Lower(fkKey))
  {
    BuildTableAttributes(cols0, c1, c2);
    var attrs := BuildTable(cols0, c1, c2).value.1.attributes;
    if fkKey == PairName(c1) {
      var typ, on :| GetIn(attrs, PairName(c1)) == ForeignKeyObject(Lower(PairName(c1)), typ, Lower(c1.collection), on, c2.collection + "_" + c1.via);
    } else {
      var typ, on :| GetIn(attrs, PairName(c2)) == ForeignKeyObject(Lower(PairName(c2)), typ, Lower(c2.collection), on, c1.collection + "_" + c2.via);
    }
  }

  /** With the lower-cased lookup, an association is linked to a junction built for it or for
      its other side, `on` that side's lower-case column. */
  lemma LinkAttributeFixedFindsColumn(cols: Collections, store: Collections, collection: string, key: string,
                                      j: nat, cols0: Collections, c1: Column, c2: Column)
    requires Has(cols, collection)
    requires HasProp(GetIn(AttrsOf(cols, collection), key), "collection")
    requires JoinTableIndex(store, collection, Get(GetIn(AttrsOf(cols, collection), key), "collection")) == Some(j)
    requires BuildTable(cols0, c1, c2).Ok? && store[j].1 == BuildTable(cols0, c1, c2).value.1
    requires PairName(c1) != PairName(c2)
    requires Lower(collection) + "_" + Lower(key) in {PairName(c1), PairName(c2)}
    ensures LinkAttributeFixed(cols, store, collection, key).Ok?
    ensures GetIn(AttrsOf(LinkAttributeFixed(cols, store, collection, key).value, collection), key)
            == JunctionLink(store[j].1, Str(Lower(Lower(collection) + "_" + Lower(key))))
  {
    var fkKey := Lower(collection) + "_" + Lower(key);
    JunctionColumn(cols0, c1, c2, fkKey);
    LinkAttributeAtLinks(cols, store, collection, key, fkKey, j);
  }

  /** `updateAttribute(collection)` over the attribute names as they stood when it began. */
  function LinkAttributes(lookup: KeyLookup, cols: Collections, store: Collections, collection: string, keys: seq<string>): (r: Result<Collections>)
    requires Has(cols, collection)
    ensures r.Ok? ==> SameButAttributes(cols, r.value, collection)
    decreases |keys|
  {
    if |keys| == 0 then Ok(cols)
    else
      var next :- LinkAttributeAt(cols, store, collection, keys[0], JunctionKey(lookup, collection, keys[0]));
      LinkAttributes(lookup, next, store, collection, keys[1..])
  }

  /** A successful `updateAttribute` over distinct names re-links each of them, keeps every
      other attribute, and keeps the attribute names. */
  lemma {:induction false} LinkAttributesRelinks(lookup: KeyLookup, cols: Collections, store: Collections, collection: string, keys: seq<string>)
    requires Has(cols, collection) && NoRepeats(keys)
    requires LinkAttributes(lookup, cols, store, collection, keys).Ok?
    ensures var r := LinkAttributes(lookup, cols, store, collection, keys).value;
            && Keys(AttrsOf(r, collection)) == Keys(AttrsOf(cols, collection))
            && forall k :: GetIn(AttrsOf(r, collection), k)
                           == if k in keys then Relinked(store, collection, GetIn(AttrsOf(cols, collection), k), JunctionKey(lookup, collection, k))
                              else GetIn(AttrsOf(cols, collection), k)
    decreases |keys|
  {
    if |keys| > 0 {
      var key := keys[0];
      var next := LinkAttributeAt(cols, store, collection, key, JunctionKey(lookup, collection, key)).value;
      LinkAttributeRelinks(cols, store, collection, key, JunctionKey(lookup, collection, key));
      NoRepeatsTail(keys);
      LinkAttributesRelinks(lookup, next, store, collection, keys[1..]);
    }
  }

  /** Collection `c'` is `c` with every attribute re-linked. */
  ghost predicate LinksCollection(lookup: KeyLookup, store: Collections, name: string, c: Collection, c': Collection) {
    && c'.(attributes := c.attributes) == c
    && Keys(c'.attributes) == Keys(c.attributes)
    && forall k :: Has(c.attributes, k) ==>
         GetIn(c'.attributes, k) == Relinked(store, name, GetIn(c.attributes, k), JunctionKey(lookup, name, k))
  }

  /** `linkAttributes`: every collection in turn. */
  function LinkAll(lookup: KeyLookup, cols: Collections, store: Collections, names: seq<string>): (r: Result<Collections>)
    requires forall n :: n in names ==> Has(cols, n)
    ensures r.Ok? ==> Keys(r.value) == Keys(cols)
    decreases |names|
  {
    if |names| == 0 then Ok(cols)
    else
      var next := LinkAttributes(lookup, cols, store, names[0], Keys(AttrsOf(cols, names[0])));
      if next.Err? then Err(next.error)
      else
        assert forall n :: n in names[1..] ==> Has(next.value, n) by {
          forall n | n in names[1..] ensures Has(next.value, n) {
            assert n in names && Has(cols, n);
          }
        }
        LinkAll(lookup, next.value, store, names[1..])
  }

  /** A successful `linkAttributes` over distinct collections whose attribute names do not
      repeat re-links every attribute of those collections and leaves the others alone. */
  lemma {:induction false} LinkAllRelinks(lookup: KeyLookup, cols: Collections, store: Collections, names: seq<string>)
    requires forall n :: n in names ==> Has(cols, n) && Distinct(AttrsOf(cols, n))
    requires NoRepeats(names)
    requires LinkAll(lookup, cols, store, names).Ok?
    ensures var r := LinkAll(lookup, cols, store, names).value;
            && (forall n :: Has(cols, n) && n !in names ==> Lookup(r, n) == Lookup(cols, n))
            && (forall n :: n in names ==> LinksCollection(lookup, store, n, Lookup(cols, n).value, Lookup(r, n).value))
    decreases |names|
  {
    if |names| > 0 {
      var n0 := names[0];
      var next := LinkAttributes(lookup, cols, store, n0, Keys(AttrsOf(cols, n0))).value;
      DistinctNoRepeats(AttrsOf(cols, n0));
      LinkAttributesRelinks(lookup, cols, store, n0, Keys(AttrsOf(cols, n0)));
      NoRepeatsTail(names);
      forall n | n in names[1..] ensures Has(next, n) && Distinct(AttrsOf(next, n)) {
        assert n in names && n != n0;
        assert Lookup(next, n) == Lookup(cols, n);
      }
      LinkAllRelinks(lookup, next, store, names[1..]);
      var r := LinkAll(lookup, cols, store, names).value;
      assert LinksCollection(lookup, store, n0, Lookup(cols, n0).value, Lookup(r, n0).value) by {
        assert Lookup(r, n0) == Lookup(next, n0);
      }
      forall n | n in names[1..] ensures LinksCollection(lookup, store, n, Lookup(cols, n).value, Lookup(r, n).value) {
        assert n != n0 && Lookup(next, n) == Lookup(cols, n);
      }
    }
  }

  /** One iteration of the constructor's loop: build the collection's junctions, keep the new
      ones, then flag its custom `through` tables. */
  function BuildStep(cols: Collections, store: Collections, name: string): (r: Result<(Collections, Collections)>)
    requires Has(cols, name) && JunctionStore(store)
    ensures r.Ok? ==> SameNames(cols, r.value.0) && JunctionStore(r.value.1)
  {
    var joins :- BuildJoinsFor(cols, name);
    UniqueTablesKeepsStore(store, joins);
    var cols' :- MarkCustomJoinTables(cols, name, Keys(AttrsOf(cols, name)));
    Ok((cols', UniqueTables(store, joins)))
  }

  /** The constructor's loop over the collections. */
  function BuildAll(cols: Collections, store: Collections, names: seq<string>): (r: Result<(Collections, Collections)>)
    requires forall n :: n in names ==> Has(cols, n)
    requires JunctionStore(store)
    ensures r.Ok? ==> SameNames(cols, r.value.0) && JunctionStore(r.value.1)
    decreases |names|
  {
    if |names| == 0 then Ok((cols, store))
    else
      var next := BuildStep(cols, store, names[0]);
      if next.Err? then Err(next.error)
      else
        assert forall n :: n in names[1..] ==> Has(next.value.0, n) by {
          forall n | n in names[1..] ensures Has(next.value.0, n) {
            assert n in names && Has(cols, n);
          }
        }
        BuildAll(next.value.0, next.value.1, names[1..])
  }

  /** `new JoinTables(collections)` with the given junction-key lookup: the collections,
      re-linked, with the junctions added. */
  function JoinTablesPassWith(lookup: KeyLookup, cols: Collections): (r: Result<Collections>)
    ensures r.Ok? ==> forall k :: Has(cols, k) ==> Has(r.value, k)
  {
    var (built, store) :- BuildAll(cols, [], Keys(cols));
    var linked :- LinkAll(lookup, built, store, Keys(built));
    Ok(Extend(linked, store))
  }

  /** `new JoinTables(collections)` as written. */
  function JoinTablesPass(cols: Collections): (r: Result<Collections>)
    ensures r.Ok? ==> forall k :: Has(cols, k) ==> Has(r.value, k)
  {
    JoinTablesPassWith(AsDeclared, cols)
  }

  /** `new JoinTables(collections)` with the lower-cased junction-key lookup. */
  function JoinTablesPassFixed(cols: Collections): (r: Result<Collections>)
    ensures r.Ok? ==> forall k :: Has(cols, k) ==> Has(r.value, k)
  {
    JoinTablesPassWith(LowerCased, cols)
  }

  /** The pass as a whole: once the junctions are built and the custom `through` tables
      flagged, every collection of the input that no junction overwrites has each of its
      attributes re-linked, with the same attribute names; a junction sharing a collection's
      name replaces it. */
  lemma JoinTablesPassRelinks(lookup: KeyLookup, cols: Collections)
    requires WellFormed(cols)
    requires JoinTablesPassWith(lookup, cols).Ok?
    ensures var (built, store) := BuildAll(cols, [], Keys(cols)).value;
            var r := JoinTablesPassWith(lookup, cols).value;
            && SameNames(cols, built)
            && (forall n :: Has(cols, n) && !Has(store, n) ==>
                  LinksCollection(lookup, store, n, Lookup(built, n).value, Lookup(r, n).value))
            && (forall n :: Has(store, n) ==> Lookup(r, n) == Lookup(store, n))
  {
    var (built, store) := BuildAll(cols, [], Keys(cols)).value;
    var linked := LinkAll(lookup, built, store, Keys(built)).value;
    var r := JoinTablesPassWith(lookup, cols).value;
    SameNamesWellFormed(cols, built);
    DistinctNoRepeats(built);
    LinkAllRelinks(lookup, built, store, Keys(built));
    forall n | Has(cols, n) && !Has(store, n)
      ensures LinksCollection(lookup, store, n, Lookup(built, n).value, Lookup(r, n).value)
    {
      ExtendLookup(linked, store, n);
    }
    forall n | Has(store, n) ensures Lookup(r, n) == Lookup(store, n) {
      ExtendLookup(linked, store, n);
    }
  }

  /** The pass keeps every collection and adds only junctions: any new entry is a flagged
      junction under a lower-case name. */
  lemma JoinTablesPassAddsJunctions(lookup: KeyLookup, cols: Collections)
    requires JoinTablesPassWith(lookup, cols).Ok?
    ensures forall k :: Has(cols, k) ==> Has(JoinTablesPassWith(lookup, cols).value, k)
    ensures forall k :: Has(JoinTablesPassWith(lookup, cols).value, k) && !Has(cols, k) ==>
              IsLower(k) && Lookup(JoinTablesPassWith(lookup, cols).value, k).value.junctionTable
  {
    var (built, store) := BuildAll(cols, [], Keys(cols)).value;
    var linked := LinkAll(lookup, built, store, Keys(built)).value;
    assert JunctionStore(store);
    forall k | Has(JoinTablesPassWith(lookup, cols).value, k) && !Has(cols, k)
      ensures IsLower(k) && Lookup(JoinTablesPassWith(lookup, cols).value, k).value.junctionTable
    {
      assert !Has(linked, k);
      ExtendLookup(linked, store, k);
    }
  }
}
