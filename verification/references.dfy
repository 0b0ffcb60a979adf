/** The reference back-annotator: every plural (`collection`) attribute has its target
    lower-cased and, when the target holds a foreign key pointing back, learns which table it
    references and on which column. A `through` attribute is pointed at its through model
    instead.
 */
module References {
  import opened Results
  import opened Assoc
  import opened Strings
  import opened Values
  import opened Collections

  /** `findReference(parent, collection)`: the reference to `parent` among the attributes of
      `collection`, which must be a collection of the map. */
  function FindReference(cols: Collections, parent: string, collection: string): (r: Result<Option<Value>>)
    ensures !Has(cols, collection) <==> r == Err(UnknownCollection(collection))
  {
    if !Has(cols, collection) then Err(UnknownCollection(collection))
    else FindReferenceIn(AttrsOf(cols, collection), parent)
  }

  /** The found reference is usable: `if (!reference) continue` skips `undefined` and every
      other falsy value. */
  predicate Usable(reference: Option<Value>) {
    reference.Some? && Truthy(reference.value)
  }

  /** The collections once attribute `key` has its `collection` lower-cased to `target`. */
  function LowerTarget(cols: Collections, collection: string, key: string, target: string): (r: Collections)
    requires Has(cols, collection)
    ensures SameButAttributes(cols, r, collection)
    ensures GetIn(AttrsOf(r, collection), key) == SetProp(GetIn(AttrsOf(cols, collection), key), "collection", Str(target))
  {
    SetAttribute(cols, collection, key, SetProp(GetIn(AttrsOf(cols, collection), key), "collection", Str(target)))
  }

  /** How an attribute may evolve under the pass: it keeps whether it is an object and owns
      `collection` and `foreignKey`, never gains `through`, and if it changed at all it had a
      string `collection` and now holds it lower-cased. */
  ghost predicate Evolved(v: Value, v': Value) {
    && (HasProp(v', "collection") <==> HasProp(v, "collection"))
    && (HasProp(v', "foreignKey") <==> HasProp(v, "foreignKey"))
    && (HasProp(v', "through") ==> HasProp(v, "through"))
    && (v.Obj? <==> v'.Obj?)
    && (v' == v || (&& HasProp(v, "collection") && Get(v, "collection").Str?
                    && Get(v', "collection") == Str(Lower(Get(v, "collection").s))))
  }

  /** What one iteration may change: attribute `key` of `collection` only, keeping its
      position, and only as `Evolved` allows. */
  ghost predicate Changed(cols: Collections, cols': Collections, collection: string, key: string) {
    && SameButAttributes(cols, cols', collection)
    && (forall k :: k != key ==> GetIn(AttrsOf(cols', collection), k) == GetIn(AttrsOf(cols, collection), k))
    && Keys(AttrsOf(cols', collection)) == Keys(AttrsOf(cols, collection))
    && Evolved(GetIn(AttrsOf(cols, collection), key), GetIn(AttrsOf(cols', collection), key))
  }

  /** The through branch: `references` becomes the through model and `on` is
      `<attribute>_<reference>`, both lower-cased. */
  function ThroughAnnotation(v: Value, key: string, through: Value, on: string): Value {
    DeleteProp(SetProp(SetProp(v, "references", through), "on", Str(Lower(key) + "_" + on)), "through")
  }

  /** The plain branch: `references` becomes the target and `on` the lower-cased reference. */
  function PlainAnnotation(v: Value, target: string, on: string): Value {
    SetProp(SetProp(v, "references", Str(target)), "on", Str(on))
  }

  /** The rest of one iteration of `addKeys`, once the attribute's target is lower-cased. */
  function Annotate(cols1: Collections, collection: string, key: string, target: string): (r: Result<Collections>)
    requires Has(cols1, collection)
    ensures r.Ok? ==> Keys(r.value) == Keys(cols1)
  {
    var v1 := GetIn(AttrsOf(cols1, collection), key);
    if HasProp(v1, "through") then
      var through := Get(v1, "through");
      if !through.Str? then Err(TypeMismatch("through"))
      else
        var reference :- FindReference(cols1, target, through.s);
        if !Usable(reference) then Ok(cols1)
        else
          var on :- LowerOf(reference.value, "on");
          Ok(SetAttribute(cols1, collection, key, ThroughAnnotation(v1, key, through, on)))
    else
      var reference :- FindReference(cols1, collection, target);
      if !Usable(reference) then Ok(cols1)
      else
        var on :- LowerOf(reference.value, "on");
        Ok(SetAttribute(cols1, collection, key, PlainAnnotation(v1, target, on)))
  }

  /** One iteration of `addKeys` over attribute `key` of `collection`. */
  function AddKey(cols: Collections, collection: string, key: string): (r: Result<Collections>)
    requires Has(cols, collection)
    ensures r.Ok? ==> Keys(r.value) == Keys(cols)
  {
    var v := GetIn(AttrsOf(cols, collection), key);
    var owns :- OwnProp(v, "collection");
    if !owns then Ok(cols)
    else
      var target :- LowerOf(Get(v, "collection"), "collection");
      Annotate(LowerTarget(cols, collection, key, target), collection, key, target)
  }

  /** What an annotation keeps of the attribute it rewrites. */
  ghost predicate Keeps(a: Value, v1: Value) {
    && (HasProp(a, "collection") <==> HasProp(v1, "collection"))
    && (HasProp(a, "foreignKey") <==> HasProp(v1, "foreignKey"))
    && (HasProp(a, "through") ==> HasProp(v1, "through"))
    && Get(a, "collection") == Get(v1, "collection")
    && (a.Obj? <==> v1.Obj?)
  }

  /** Setting a property other than the kept ones keeps them. */
  lemma SetPropKeeps(v: Value, k: string, x: Value)
    requires k != "collection" && k != "foreignKey" && k != "through"
    ensures Keeps(SetProp(v, k, x), v)
  {
  }

  /** Dropping `through` keeps the rest. */
  lemma DeleteThroughKeeps(v: Value)
    ensures Keeps(DeleteProp(v, "through"), v)
  {
  }

  lemma KeepsTrans(a: Value, b: Value, c: Value)
    requires Keeps(a, b) && Keeps(b, c)
    ensures Keeps(a, c)
  {
  }

  lemma ThroughAnnotationKeeps(v1: Value, key: string, through: Value, on: string)
    ensures Keeps(ThroughAnnotation(v1, key, through, on), v1)
  {
    var w := SetProp(v1, "references", through);
    var w' := SetProp(w, "on", Str(Lower(key) + "_" + on));
    SetPropKeeps(v1, "references", through);
    SetPropKeeps(w, "on", Str(Lower(key) + "_" + on));
    KeepsTrans(w', w, v1);
    DeleteThroughKeeps(w');
    KeepsTrans(DeleteProp(w', "through"), w', v1);
  }

  lemma PlainAnnotationKeeps(v1: Value, target: string, on: string)
    ensures Keeps(PlainAnnotation(v1, target, on), v1)
  {
    var w := SetProp(v1, "references", Str(target));
    SetPropKeeps(v1, "references", Str(target));
    SetPropKeeps(w, "on", Str(on));
    KeepsTrans(PlainAnnotation(v1, target, on), w, v1);
  }

  lemma AnnotateChanges(cols1: Collections, collection: string, key: string, target: string)
    requires Has(cols1, collection)
    requires Annotate(cols1, collection, key, target).Ok?
    ensures var r := Annotate(cols1, collection, key, target).value;
            && SameButAttributes(cols1, r, collection)
            && (forall k :: k != key ==> GetIn(AttrsOf(r, collection), k) == GetIn(AttrsOf(cols1, collection), k))
            && (Has(AttrsOf(cols1, collection), key) ==> Keys(AttrsOf(r, collection)) == Keys(AttrsOf(cols1, collection)))
            && Keeps(GetIn(AttrsOf(r, collection), key), GetIn(AttrsOf(cols1, collection), key))
  {
    var v1 := GetIn(AttrsOf(cols1, collection), key);
    var r := Annotate(cols1, collection, key, target).value;
    if r != cols1 {
      if HasProp(v1, "through") {
        var reference := FindReference(cols1, target, Get(v1, "through").s).value;
        var on := LowerOf(reference.value, "on").value;
        assert r == SetAttribute(cols1, collection, key, ThroughAnnotation(v1, key, Get(v1, "through"), on));
        ThroughAnnotationKeeps(v1, key, Get(v1, "through"), on);
      } else {
        var reference := FindReference(cols1, collection, target).value;
        var on := LowerOf(reference.value, "on").value;
        assert r == SetAttribute(cols1, collection, key, PlainAnnotation(v1, target, on));
        PlainAnnotationKeeps(v1, target, on);
      }
    }
  }

  /** One iteration only touches attribute `key`, and only if it owns `collection`, whose
      target it leaves lower-cased. A `null`/`undefined` attribute, or a target that is not a
      string, is an error. */
  lemma AddKeyChanges(cols: Collections, collection: string, key: string)
    requires Has(cols, collection)
    ensures var v := GetIn(AttrsOf(cols, collection), key);
            var r := AddKey(cols, collection, key);
            && (Nullish(v) ==> r == Err(TypeMismatch("hasOwnProperty")))
            && (!Nullish(v) && !HasProp(v, "collection") ==> r == Ok(cols))
            && (HasProp(v, "collection") && !Get(v, "collection").Str? ==> r == Err(TypeMismatch("collection")))
            && (r.Ok? ==> Changed(cols, r.value, collection, key))
  {
    var v := GetIn(AttrsOf(cols, collection), key);
    var r := AddKey(cols, collection, key);
    if r.Ok? && HasProp(v, "collection") {
      var target := Lower(Get(v, "collection").s);
      var cols1 := LowerTarget(cols, collection, key, target);
      AnnotateChanges(cols1, collection, key, target);
    }
  }

  /** Attribute `i` is the first foreign key pointing at `parent`, and no attribute before
      it is `null`/`undefined`. */
  predicate FirstReference(attrs: Props, parent: string, i: int) {
    && 0 <= i < |attrs|
    && ReferencesParent(attrs[i].1, parent)
    && forall j :: 0 <= j < i ==> !Nullish(attrs[j].1) && !ReferencesParent(attrs[j].1, parent)
  }

  /** What a found reference does: nothing if it is falsy, an error if it is not a string,
      and otherwise the annotation `annotate` builds from it lower-cased. */
  ghost predicate Applies(r: Result<Collections>, cols1: Collections, collection: string, key: string,
                          name: Value, annotated: string -> Value)
    requires Has(cols1, collection)
  {
    && (!Truthy(name) ==> r == Ok(cols1))
    && (Truthy(name) && !name.Str? ==> r == Err(TypeMismatch("on")))
    && (Truthy(name) && name.Str? ==> r.Ok? && r.value == SetAttribute(cols1, collection, key, annotated(Lower(name.s))))
  }

  /** A plain attribute: its lower-cased target must be a collection; the first foreign key
      there that points back at `collection` supplies `on` (its `columnName`, else its key),
      and with none the attribute is only lower-cased. */
  lemma AddKeyPlain(cols: Collections, collection: string, key: string)
    requires Has(cols, collection)
    requires var v := GetIn(AttrsOf(cols, collection), key);
             HasProp(v, "collection") && Get(v, "collection").Str? && !HasProp(v, "through")
    ensures var v := GetIn(AttrsOf(cols, collection), key);
            var target := Lower(Get(v, "collection").s);
            var cols1 := LowerTarget(cols, collection, key, target);
            var v1 := SetProp(v, "collection", Str(target));
            var r := AddKey(cols, collection, key);
            && (!Has(cols, target) ==> r == Err(UnknownCollection(target)))
            && (Has(cols, target) ==>
                  var attrs := AttrsOf(cols1, target);
                  && ((forall j :: 0 <= j < |attrs| ==> !Nullish(attrs[j].1) && !ReferencesParent(attrs[j].1, collection)) ==> r == Ok(cols1))
                  && (forall i :: FirstReference(attrs, collection, i) ==>
                        Applies(r, cols1, collection, key, ReferenceName(attrs[i]), on => PlainAnnotation(v1, target, on))))
  {
    var v := GetIn(AttrsOf(cols, collection), key);
    var target := Lower(Get(v, "collection").s);
    var cols1 := LowerTarget(cols, collection, key, target);
    var v1 := SetProp(v, "collection", Str(target));
    assert GetIn(AttrsOf(cols1, collection), key) == v1;
    assert !HasProp(v1, "through");
    assert Has(cols1, target) <==> Has(cols, target);
    if Has(cols, target) {
      var attrs := AttrsOf(cols1, target);
      forall i | FirstReference(attrs, collection, i)
        ensures Applies(AddKey(cols, collection, key), cols1, collection, key, ReferenceName(attrs[i]), on => PlainAnnotation(v1, target, on))
      {
        FindReferenceFirst(attrs, collection, i);
      }
    }
  }

  /** A `through` attribute: the through model must be a collection; the first foreign key
      there that points at the target supplies `on` as `<attribute>_<reference>`, and
      `references` becomes the through model. */
  lemma AddKeyThrough(cols: Collections, collection: string, key: string)
    requires Has(cols, collection)
    requires var v := GetIn(AttrsOf(cols, collection), key);
             HasProp(v, "collection") && Get(v, "collection").Str? && HasProp(v, "through")
    ensures var v := GetIn(AttrsOf(cols, collection), key);
            var target := Lower(Get(v, "collection").s);
            var through := Get(v, "through");
            var cols1 := LowerTarget(cols, collection, key, target);
            var v1 := SetProp(v, "collection", Str(target));
            var r := AddKey(cols, collection, key);
            && (!through.Str? ==> r == Err(TypeMismatch("through")))
            && (through.Str? && !Has(cols, through.s) ==> r == Err(UnknownCollection(through.s)))
            && (through.Str? && Has(cols, through.s) ==>
                  var attrs := AttrsOf(cols1, through.s);
                  && ((forall j :: 0 <= j < |attrs| ==> !Nullish(attrs[j].1) && !ReferencesParent(attrs[j].1, target)) ==> r == Ok(cols1))
                  && (forall i :: FirstReference(attrs, target, i) ==>
                        Applies(r, cols1, collection, key, ReferenceName(attrs[i]), on => ThroughAnnotation(v1, key, through, on))))
  {
    var v := GetIn(AttrsOf(cols, collection), key);
    var target := Lower(Get(v, "collection").s);
    var through := Get(v, "through");
    var cols1 := LowerTarget(cols, collection, key, target);
    var v1 := SetProp(v, "collection", Str(target));
    assert GetIn(AttrsOf(cols1, collection), key) == v1;
    assert HasProp(v1, "through") && Get(v1, "through") == through;
    if through.Str? {
      assert Has(cols1, through.s) <==> Has(cols, through.s);
      if Has(cols, through.s) {
        var attrs := AttrsOf(cols1, through.s);
        assert AddKey(cols, collection, key) == Annotate(cols1, collection, key, target);
        if forall j :: 0 <= j < |attrs| ==> !Nullish(attrs[j].1) && !ReferencesParent(attrs[j].1, target) {
          assert FindReference(cols1, target, through.s) == Ok(None);
        }
        forall i | FirstReference(attrs, target, i)
          ensures Applies(AddKey(cols, collection, key), cols1, collection, key, ReferenceName(attrs[i]), on => ThroughAnnotation(v1, key, through, on))
        {
          FindReferenceFirst(attrs, target, i);
        }
      }
    }
  }

  /** `addKeys(collection)` over the given attribute names, in order. */
  function AddKeys(cols: Collections, collection: string, keys: seq<string>): (r: Result<Collections>)
    requires Has(cols, collection)
    ensures r.Ok? ==> Keys(r.value) == Keys(cols)
    decreases |keys|
  {
    if |keys| == 0 then Ok(cols)
    else
      var next :- AddKey(cols, collection, keys[0]);
      assert Has(next, collection);
      AddKeys(next, collection, keys[1..])
  }

  /** The pass over the given collection names, each visiting its attribute names as they
      stand when its turn comes. */
  function ReferencesFrom(cols: Collections, names: seq<string>): (r: Result<Collections>)
    requires forall i :: 0 <= i < |names| ==> Has(cols, names[i])
    ensures r.Ok? ==> Keys(r.value) == Keys(cols)
    decreases |names|
  {
    if |names| == 0 then Ok(cols)
    else
      var next :- AddKeys(cols, names[0], Keys(AttrsOf(cols, names[0])));
      assert forall n :: Has(next, n) <==> Has(cols, n);
      ReferencesFrom(next, names[1..])
  }

  /** `References(collections)`. */
  function ReferencesPass(cols: Collections): (r: Result<Collections>)
    ensures r.Ok? ==> Keys(r.value) == Keys(cols)
  {
    assert forall i :: 0 <= i < |Keys(cols)| ==> Has(cols, Keys(cols)[i]);
    ReferencesFrom(cols, Keys(cols))
  }

  /** `y` is `x` with its attributes evolved in place: same collections in the same order,
      same fields besides the attributes, same attribute names in the same order. */
  ghost predicate EvolvedCols(x: Collections, y: Collections) {
    && Keys(y) == Keys(x)
    && forall c :: Has(x, c) ==>
         && Lookup(y, c).value.(attributes := AttrsOf(x, c)) == Lookup(x, c).value
         && Keys(AttrsOf(y, c)) == Keys(AttrsOf(x, c))
         && forall k :: Evolved(GetIn(AttrsOf(x, c), k), GetIn(AttrsOf(y, c), k))
  }

  lemma EvolvedTrans(a: Value, b: Value, c: Value)
    requires Evolved(a, b) && Evolved(b, c)
    ensures Evolved(a, c)
  {
    if c != b && b != a {
      LowerIdempotent(Get(a, "collection").s);
    }
  }

  lemma ChangedEvolves(x: Collections, w: Collections, w': Collections, collection: string, key: string)
    requires EvolvedCols(x, w) && Changed(w, w', collection, key)
    ensures EvolvedCols(x, w')
  {
    forall c | Has(x, c)
      ensures Lookup(w', c).value.(attributes := AttrsOf(x, c)) == Lookup(x, c).value
      ensures Keys(AttrsOf(w', c)) == Keys(AttrsOf(x, c))
      ensures forall k :: Evolved(GetIn(AttrsOf(x, c), k), GetIn(AttrsOf(w', c), k))
    {
      if c == collection {
        forall k ensures Evolved(GetIn(AttrsOf(x, c), k), GetIn(AttrsOf(w', c), k)) {
          if k == key {
            EvolvedTrans(GetIn(AttrsOf(x, c), k), GetIn(AttrsOf(w, c), k), GetIn(AttrsOf(w', c), k));
          }
        }
      }
    }
  }

  lemma {:induction false} AddKeysEvolves(x: Collections, w: Collections, collection: string, keys: seq<string>)
    requires Has(w, collection) && EvolvedCols(x, w)
    requires AddKeys(w, collection, keys).Ok?
    ensures EvolvedCols(x, AddKeys(w, collection, keys).value)
    decreases |keys|
  {
    if |keys| > 0 {
      var next := AddKey(w, collection, keys[0]).value;
      AddKeyChanges(w, collection, keys[0]);
      ChangedEvolves(x, w, next, collection, keys[0]);
      AddKeysEvolves(x, next, collection, keys[1..]);
    }
  }

  lemma {:induction false} ReferencesFromEvolves(x: Collections, w: Collections, names: seq<string>)
    requires forall i :: 0 <= i < |names| ==> Has(w, names[i])
    requires EvolvedCols(x, w)
    requires ReferencesFrom(w, names).Ok?
    ensures EvolvedCols(x, ReferencesFrom(w, names).value)
    decreases |names|
  {
    if |names| > 0 {
      var next := AddKeys(w, names[0], Keys(AttrsOf(w, names[0]))).value;
      AddKeysEvolves(x, w, names[0], Keys(AttrsOf(w, names[0])));
      assert forall n :: Has(next, n) <==> Has(w, n);
      ReferencesFromEvolves(x, next, names[1..]);
    }
  }

  /** What the whole pass may change: only attributes that own `collection`, each keeping
      its place, never gaining `through` and, if changed, with its target lower-cased;
      collection order, attribute names and every other field stay as they were. */
  lemma ReferencesPassEvolves(cols: Collections)
    requires ReferencesPass(cols).Ok?
    ensures EvolvedCols(cols, ReferencesPass(cols).value)
  {
    assert forall i :: 0 <= i < |Keys(cols)| ==> Has(cols, Keys(cols)[i]);
    ReferencesFromEvolves(cols, cols, Keys(cols));
  }

  /** No attribute is both plural (`collection`) and a foreign key (`foreignKey`). */
  ghost predicate NoMixed(cols: Collections) {
    forall c, k :: Has(cols, c) ==>
      !(HasProp(GetIn(AttrsOf(cols, c), k), "collection") && HasProp(GetIn(AttrsOf(cols, c), k), "foreignKey"))
  }


  /** Attribute lists that agree position by position up to evolution. */
  ghost predicate EvolvedAttrs(a: Props, b: Props) {
    && |a| == |b|
    && forall j :: 0 <= j < |a| ==> a[j].0 == b[j].0 && Evolved(a[j].1, b[j].1)
  }

  lemma {:induction false} ReferenceIndexEvolved(a: Props, b: Props, parent: string)
    requires EvolvedAttrs(a, b)
    requires forall j :: 0 <= j < |a| ==> !(HasProp(a[j].1, "collection") && HasProp(a[j].1, "foreignKey"))
    ensures ReferenceIndex(b, parent) == ReferenceIndex(a, parent)
    ensures var r := ReferenceIndex(a, parent);
            r.Ok? && r.value.Some? ==> b[r.value.value] == a[r.value.value]
    decreases |a|
  {
    if |a| > 0 {
      assert Evolved(a[0].1, b[0].1);
      if !Nullish(a[0].1) && !ReferencesParent(a[0].1, parent) {
        assert EvolvedAttrs(a[1..], b[1..]) by {
          forall j | 0 <= j < |a[1..]| ensures a[1..][j].0 == b[1..][j].0 && Evolved(a[1..][j].1, b[1..][j].1) {
            assert a[1..][j] == a[j + 1] && b[1..][j] == b[j + 1];
          }
        }
        assert forall j :: 0 <= j < |a[1..]| ==> a[1..][j] == a[j + 1];
        ReferenceIndexEvolved(a[1..], b[1..], parent);
        var r := ReferenceIndex(a[1..], parent);
        if r.Ok? && r.value.Some? {
          assert b[1..][r.value.value] == a[1..][r.value.value];
        }
      } else if !Nullish(a[0].1) {
        assert b[0].1 == a[0].1;
        assert b[0] == a[0];
      }
    }
  }

  /** Under `WellFormed`, evolution by name is evolution by position. */
  lemma AttrsEvolved(x: Collections, y: Collections, c: string)
    requires WellFormed(x) && EvolvedCols(x, y) && Has(x, c)
    ensures EvolvedAttrs(AttrsOf(x, c), AttrsOf(y, c))
  {
    var a := AttrsOf(x, c);
    var b := AttrsOf(y, c);
    assert Keys(b) == Keys(a);
    assert |b| == |a|;
    assert Distinct(b) by {
      forall i, j | 0 <= i < j < |b| ensures b[i].0 != b[j].0 {
        assert Keys(b)[i] == a[i].0 && Keys(b)[j] == a[j].0;
      }
    }
    forall j | 0 <= j < |a| ensures a[j].0 == b[j].0 && Evolved(a[j].1, b[j].1) {
      assert Keys(b)[j] == b[j].0;
      assert a[j] in a && b[j] in b;
      LookupDistinct(a, a[j].0, a[j].1);
      LookupDistinct(b, b[j].0, b[j].1);
      assert Evolved(GetIn(a, a[j].0), GetIn(b, a[j].0));
    }
  }

  /** The lookups the pass makes read the same in every state it passes through: only
      plural attributes change, and they are never foreign keys. */
  lemma FindReferenceStable(x: Collections, y: Collections, parent: string, collection: string)
    requires WellFormed(x) && NoMixed(x) && EvolvedCols(x, y)
    ensures FindReference(y, parent, collection) == FindReference(x, parent, collection)
  {
    if Has(x, collection) {
      var a := AttrsOf(x, collection);
      AttrsEvolved(x, y, collection);
      forall j | 0 <= j < |a| ensures !(HasProp(a[j].1, "collection") && HasProp(a[j].1, "foreignKey")) {
        assert a[j] in a;
        LookupDistinct(a, a[j].0, a[j].1);
        assert a[j].1 == GetIn(a, a[j].0);
      }
      ReferenceIndexEvolved(a, AttrsOf(y, collection), parent);
    }
  }

  /** What attribute `key` (defined as `v`) of `collection` should become, with every lookup
      reading the collections `cols` as they were before the pass: an independent statement
      of one `addKeys` iteration. */
  function Expected(cols: Collections, collection: string, key: string, v: Value): Result<Value> {
    var owns :- OwnProp(v, "collection");
    if !owns then Ok(v)
    else
      var target :- LowerOf(Get(v, "collection"), "collection");
      ExpectedAnnotation(cols, collection, key, target, SetProp(v, "collection", Str(target)))
  }

  /** The rest of `Expected`, once the target is lower-cased into `v1`. */
  function ExpectedAnnotation(cols: Collections, collection: string, key: string, target: string, v1: Value): Result<Value> {
    if HasProp(v1, "through") then
      var through := Get(v1, "through");
      if !through.Str? then Err(TypeMismatch("through"))
      else
        var reference :- FindReference(cols, target, through.s);
        if !Usable(reference) then Ok(v1)
        else
          var on :- LowerOf(reference.value, "on");
          Ok(ThroughAnnotation(v1, key, through, on))
    else
      var reference :- FindReference(cols, collection, target);
      if !Usable(reference) then Ok(v1)
      else
        var on :- LowerOf(reference.value, "on");
        Ok(PlainAnnotation(v1, target, on))
  }

  /** The annotation step computes `ExpectedAnnotation` whenever the lookup it makes reads as
      it would before the pass. */
  lemma AnnotateExpected(x: Collections, z: Collections, collection: string, key: string, target: string)
    requires Has(z, collection)
    requires var v1 := GetIn(AttrsOf(z, collection), key);
             && (HasProp(v1, "through") && Get(v1, "through").Str? ==>
                   FindReference(z, target, Get(v1, "through").s) == FindReference(x, target, Get(v1, "through").s))
             && (!HasProp(v1, "through") ==> FindReference(z, collection, target) == FindReference(x, collection, target))
    requires Annotate(z, collection, key, target).Ok?
    ensures ExpectedAnnotation(x, collection, key, target, GetIn(AttrsOf(z, collection), key))
            == Ok(GetIn(AttrsOf(Annotate(z, collection, key, target).value, collection), key))
  {
    if HasProp(GetIn(AttrsOf(z, collection), key), "through") {
      AnnotateExpectedThrough(x, z, collection, key, target);
    } else {
      AnnotateExpectedPlain(x, z, collection, key, target);
    }
  }

  lemma AnnotateExpectedThrough(x: Collections, z: Collections, collection: string, key: string, target: string)
    requires Has(z, collection)
    requires var v1 := GetIn(AttrsOf(z, collection), key);
             && HasProp(v1, "through")
             && (Get(v1, "through").Str? ==>
                   FindReference(z, target, Get(v1, "through").s) == FindReference(x, target, Get(v1, "through").s))
    requires Annotate(z, collection, key, target).Ok?
    ensures ExpectedAnnotation(x, collection, key, target, GetIn(AttrsOf(z, collection), key))
            == Ok(GetIn(AttrsOf(Annotate(z, collection, key, target).value, collection), key))
  {
    var v1 := GetIn(AttrsOf(z, collection), key);
    var through := Get(v1, "through");
    if through.Str? {
      var reference := FindReference(x, target, through.s).value;
      if Usable(reference) {
        var a := ThroughAnnotation(v1, key, through, Lower(reference.value.s));
        assert Annotate(z, collection, key, target) == Ok(SetAttribute(z, collection, key, a));
      } else {
        assert Annotate(z, collection, key, target) == Ok(z);
      }
    }
  }

  lemma AnnotateExpectedPlain(x: Collections, z: Collections, collection: string, key: string, target: string)
    requires Has(z, collection)
    requires var v1 := GetIn(AttrsOf(z, collection), key);
             !HasProp(v1, "through") && FindReference(z, collection, target) == FindReference(x, collection, target)
    requires Annotate(z, collection, key, target).Ok?
    ensures ExpectedAnnotation(x, collection, key, target, GetIn(AttrsOf(z, collection), key))
            == Ok(GetIn(AttrsOf(Annotate(z, collection, key, target).value, collection), key))
  {
    var v1 := GetIn(AttrsOf(z, collection), key);
    var reference := FindReference(x, collection, target).value;
    if Usable(reference) {
      var a := PlainAnnotation(v1, target, Lower(reference.value.s));
      assert Annotate(z, collection, key, target) == Ok(SetAttribute(z, collection, key, a));
    } else {
      assert Annotate(z, collection, key, target) == Ok(z);
    }
  }

  lemma LowerTargetChanges(w: Collections, collection: string, key: string)
    requires Has(w, collection)
    requires var v := GetIn(AttrsOf(w, collection), key);
             HasProp(v, "collection") && Get(v, "collection").Str?
    ensures var v := GetIn(AttrsOf(w, collection), key);
            Changed(w, LowerTarget(w, collection, key, Lower(Get(v, "collection").s)), collection, key)
  {
  }

  /** One iteration over an attribute not yet visited computes `Expected`. */
  lemma AddKeyExpected(x: Collections, w: Collections, collection: string, key: string)
    requires WellFormed(x) && NoMixed(x) && Has(x, collection) && EvolvedCols(x, w)
    requires GetIn(AttrsOf(w, collection), key) == GetIn(AttrsOf(x, collection), key)
    requires AddKey(w, collection, key).Ok?
    ensures Expected(x, collection, key, GetIn(AttrsOf(x, collection), key))
            == Ok(GetIn(AttrsOf(AddKey(w, collection, key).value, collection), key))
  {
    var v := GetIn(AttrsOf(x, collection), key);
    if HasProp(v, "collection") {
      var target := Lower(Get(v, "collection").s);
      var z := LowerTarget(w, collection, key, target);
      LowerTargetChanges(w, collection, key);
      ChangedEvolves(x, w, z, collection, key);
      var v1 := SetProp(v, "collection", Str(target));
      assert GetIn(AttrsOf(z, collection), key) == v1;
      assert AddKey(w, collection, key) == Annotate(z, collection, key, target);
      if HasProp(v1, "through") {
        FindReferenceStable(x, z, target, Get(v1, "through").s);
      } else {
        FindReferenceStable(x, z, collection, target);
      }
      AnnotateExpected(x, z, collection, key, target);
    }
  }

  lemma {:induction false} AddKeysExpected(x: Collections, w: Collections, collection: string, keys: seq<string>)
    requires WellFormed(x) && NoMixed(x) && Has(x, collection) && Has(w, collection) && EvolvedCols(x, w)
    requires NoRepeats(keys)
    requires forall i :: 0 <= i < |keys| ==> GetIn(AttrsOf(w, collection), keys[i]) == GetIn(AttrsOf(x, collection), keys[i])
    requires AddKeys(w, collection, keys).Ok?
    ensures var r := AddKeys(w, collection, keys).value;
            && EvolvedCols(x, r)
            && SameButAttributes(w, r, collection)
            && (forall i :: 0 <= i < |keys| ==>
                  Expected(x, collection, keys[i], GetIn(AttrsOf(x, collection), keys[i])) == Ok(GetIn(AttrsOf(r, collection), keys[i])))
    decreases |keys|
  {
    if |keys| == 0 {
      assert AddKeys(w, collection, keys).value == w;
    } else {
      var k := keys[0];
      var next := AddKey(w, collection, k).value;
      AddKeyChanges(w, collection, k);
      ChangedEvolves(x, w, next, collection, k);
      AddKeyExpected(x, w, collection, k);
      var rest := keys[1..];
      NoRepeatsTail(keys);
      forall i | 0 <= i < |rest| ensures GetIn(AttrsOf(next, collection), rest[i]) == GetIn(AttrsOf(x, collection), rest[i]) {
        assert rest[i] == keys[i + 1];
      }
      AddKeysExpected(x, next, collection, rest);
      AddKeysUntouched(next, collection, rest, k);
      var r := AddKeys(w, collection, keys).value;
      assert r == AddKeys(next, collection, rest).value;
      forall i | 0 <= i < |keys|
        ensures Expected(x, collection, keys[i], GetIn(AttrsOf(x, collection), keys[i])) == Ok(GetIn(AttrsOf(r, collection), keys[i]))
      {
        if i > 0 {
          assert keys[i] == rest[i - 1];
        }
      }
    }
  }

  /** An attribute not among `keys` reads the same after `addKeys` over them. */
  lemma {:induction false} AddKeysUntouched(w: Collections, collection: string, keys: seq<string>, k: string)
    requires Has(w, collection) && k !in keys
    requires AddKeys(w, collection, keys).Ok?
    ensures SameButAttributes(w, AddKeys(w, collection, keys).value, collection)
    ensures GetIn(AttrsOf(AddKeys(w, collection, keys).value, collection), k) == GetIn(AttrsOf(w, collection), k)
    decreases |keys|
  {
    if |keys| > 0 {
      var next := AddKey(w, collection, keys[0]).value;
      AddKeyChanges(w, collection, keys[0]);
      AddKeysUntouched(next, collection, keys[1..], k);
    }
  }

  lemma {:induction false} ReferencesFromExpected(x: Collections, w: Collections, names: seq<string>)
    requires WellFormed(x) && NoMixed(x) && EvolvedCols(x, w) && NoRepeats(names)
    requires forall i :: 0 <= i < |names| ==> Has(x, names[i]) && AttrsOf(w, names[i]) == AttrsOf(x, names[i])
    requires ReferencesFrom(w, names).Ok?
    ensures var r := ReferencesFrom(w, names).value;
            && EvolvedCols(x, r)
            && (forall c :: c !in names ==> Lookup(r, c) == Lookup(w, c))
            && (forall i, k :: 0 <= i < |names| && Has(AttrsOf(x, names[i]), k) ==>
                  Expected(x, names[i], k, GetIn(AttrsOf(x, names[i]), k)) == Ok(GetIn(AttrsOf(r, names[i]), k)))
    decreases |names|
  {
    if |names| > 0 {
      var c := names[0];
      var keys := Keys(AttrsOf(w, c));
      assert NoRepeats(keys) by {
        assert Distinct(AttrsOf(x, c));
      }
      AddKeysExpected(x, w, c, keys);
      var next := AddKeys(w, c, keys).value;
      var rest := names[1..];
      NoRepeatsTail(names);
      forall i | 0 <= i < |rest| ensures Has(x, rest[i]) && AttrsOf(next, rest[i]) == AttrsOf(x, rest[i]) {
        assert rest[i] == names[i + 1];
      }
      assert forall n :: Has(next, n) <==> Has(w, n);
      ReferencesFromExpected(x, next, rest);
      var r := ReferencesFrom(w, names).value;
      assert r == ReferencesFrom(next, rest).value;
      forall i, k | 0 <= i < |names| && Has(AttrsOf(x, names[i]), k)
        ensures Expected(x, names[i], k, GetIn(AttrsOf(x, names[i]), k)) == Ok(GetIn(AttrsOf(r, names[i]), k))
      {
        if i == 0 {
          assert k in keys;
          var j :| 0 <= j < |keys| && keys[j] == k;
        } else {
          assert names[i] == rest[i - 1];
        }
      }
    }
  }

  /** The pass computes `Expected` for every attribute: each lookup it makes, at whatever
      point of the pass, reads as it would have before the pass began. This holds when every
      name is distinct and no attribute is both plural and a foreign key. */
  lemma ReferencesPassExpected(cols: Collections, c: string, k: string)
    requires WellFormed(cols) && NoMixed(cols)
    requires ReferencesPass(cols).Ok?
    requires Has(cols, c) && Has(AttrsOf(cols, c), k)
    ensures Expected(cols, c, k, GetIn(AttrsOf(cols, c), k)) == Ok(GetIn(AttrsOf(ReferencesPass(cols).value, c), k))
  {
    var names := Keys(cols);
    assert NoRepeats(names);
    ReferencesFromExpected(cols, cols, names);
    var i :| 0 <= i < |names| && names[i] == c;
  }

  /** No plural attribute goes `through` a junction model. */
  ghost predicate NoThrough(cols: Collections) {
    forall c, k :: Has(cols, c) && HasProp(GetIn(AttrsOf(cols, c), k), "collection") ==>
      !HasProp(GetIn(AttrsOf(cols, c), k), "through")
  }

  lemma PlainAnnotationIdempotent(v1: Value, target: string, on: string)
    ensures PlainAnnotation(PlainAnnotation(v1, target, on), target, on) == PlainAnnotation(v1, target, on)
  {
    var p := PlainAnnotation(v1, target, on);
    if v1.Obj? {
      SetPropSame(p, "references", Str(target));
      SetPropSame(p, "on", Str(on));
    }
  }

  /** A plain attribute's expected annotation still owns its lower-cased target and no
      `through`. */
  lemma ExpectedPlainShape(x: Collections, collection: string, key: string, target: string, v1: Value)
    requires HasProp(v1, "collection") && Get(v1, "collection") == Str(target) && !HasProp(v1, "through")
    requires ExpectedAnnotation(x, collection, key, target, v1).Ok?
    ensures var u := ExpectedAnnotation(x, collection, key, target, v1).value;
            HasProp(u, "collection") && Get(u, "collection") == Str(target) && !HasProp(u, "through")
  {
    var reference := FindReference(x, collection, target).value;
    if Usable(reference) {
      PlainAnnotationKeeps(v1, target, Lower(reference.value.s));
    }
  }

  /** Annotating a plain attribute that already holds its expected annotation is a no-op. */
  lemma AnnotateSettled(x: Collections, y: Collections, collection: string, key: string, target: string, v1: Value)
    requires Has(y, collection) && !HasProp(v1, "through")
    requires var u := GetIn(AttrsOf(y, collection), key);
             && HasProp(u, "collection") && !HasProp(u, "through")
             && ExpectedAnnotation(x, collection, key, target, v1) == Ok(u)
    requires FindReference(y, collection, target) == FindReference(x, collection, target)
    ensures Annotate(y, collection, key, target) == Ok(y)
  {
    var u := GetIn(AttrsOf(y, collection), key);
    var reference := FindReference(x, collection, target).value;
    assert Lookup(AttrsOf(y, collection), key) == Some(u);
    if Usable(reference) {
      PlainAnnotationIdempotent(v1, target, Lower(reference.value.s));
      SetAttributeSame(y, collection, key, u);
    }
  }

  /** An attribute already annotated as `Expected` makes its iteration a no-op. */
  lemma AddKeySettled(x: Collections, y: Collections, collection: string, key: string)
    requires WellFormed(x) && NoMixed(x) && NoThrough(x) && Has(x, collection) && EvolvedCols(x, y)
    requires Expected(x, collection, key, GetIn(AttrsOf(x, collection), key)) == Ok(GetIn(AttrsOf(y, collection), key))
    ensures AddKey(y, collection, key) == Ok(y)
  {
    var v := GetIn(AttrsOf(x, collection), key);
    var u := GetIn(AttrsOf(y, collection), key);
    if HasProp(v, "collection") {
      var target := Lower(Get(v, "collection").s);
      var v1 := SetProp(v, "collection", Str(target));
      assert !HasProp(v1, "through");
      assert ExpectedAnnotation(x, collection, key, target, v1) == Ok(u);
      ExpectedPlainShape(x, collection, key, target, v1);
      LowerIdempotent(Get(v, "collection").s);
      SetPropSame(u, "collection", Str(target));
      assert Lookup(AttrsOf(y, collection), key) == Some(u);
      SetAttributeSame(y, collection, key, u);
      assert LowerTarget(y, collection, key, target) == y;
      FindReferenceStable(x, y, collection, target);
      AnnotateSettled(x, y, collection, key, target, v1);
    }
  }

  lemma {:induction false} AddKeysSettled(x: Collections, y: Collections, collection: string, keys: seq<string>)
    requires WellFormed(x) && NoMixed(x) && NoThrough(x) && Has(x, collection) && Has(y, collection) && EvolvedCols(x, y)
    requires forall i :: 0 <= i < |keys| ==>
               Expected(x, collection, keys[i], GetIn(AttrsOf(x, collection), keys[i])) == Ok(GetIn(AttrsOf(y, collection), keys[i]))
    ensures AddKeys(y, collection, keys) == Ok(y)
    decreases |keys|
  {
    if |keys| > 0 {
      AddKeySettled(x, y, collection, keys[0]);
      AddKeysSettled(x, y, collection, keys[1..]);
    }
  }

  lemma {:induction false} ReferencesFromSettled(x: Collections, y: Collections, names: seq<string>)
    requires WellFormed(x) && NoMixed(x) && NoThrough(x) && EvolvedCols(x, y)
    requires forall i :: 0 <= i < |names| ==> Has(x, names[i])
    requires forall i, k :: 0 <= i < |names| && Has(AttrsOf(x, names[i]), k) ==>
               Expected(x, names[i], k, GetIn(AttrsOf(x, names[i]), k)) == Ok(GetIn(AttrsOf(y, names[i]), k))
    ensures ReferencesFrom(y, names) == Ok(y)
    decreases |names|
  {
    if |names| > 0 {
      var c := names[0];
      var keys := Keys(AttrsOf(y, c));
      forall i | 0 <= i < |keys|
        ensures Expected(x, c, keys[i], GetIn(AttrsOf(x, c), keys[i])) == Ok(GetIn(AttrsOf(y, c), keys[i]))
      {
        assert Has(AttrsOf(x, c), keys[i]);
      }
      AddKeysSettled(x, y, c, keys);
      ReferencesFromSettled(x, y, names[1..]);
    }
  }

  /** Without `through` attributes, running the pass on its own output changes nothing. */
  lemma ReferencesIdempotent(cols: Collections)
    requires WellFormed(cols) && NoMixed(cols) && NoThrough(cols)
    requires ReferencesPass(cols).Ok?
    ensures ReferencesPass(ReferencesPass(cols).value) == ReferencesPass(cols)
  {
    var y := ReferencesPass(cols).value;
    var names := Keys(cols);
    ReferencesPassEvolves(cols);
    forall i, k | 0 <= i < |names| && Has(AttrsOf(cols, names[i]), k)
      ensures Expected(cols, names[i], k, GetIn(AttrsOf(cols, names[i]), k)) == Ok(GetIn(AttrsOf(y, names[i]), k))
    {
      ReferencesPassExpected(cols, names[i], k);
    }
    ReferencesFromSettled(cols, y, names);
  }

  /** A `through` annotation drops `through` and points `references` at the through model. */
  lemma ThroughAnnotationShape(v1: Value, key: string, through: string, on: string)
    requires v1.Obj?
    ensures var a := ThroughAnnotation(v1, key, Str(through), on);
            && !HasProp(a, "through")
            && Get(a, "references") == Str(through)
            && Get(a, "on") == Str(Lower(key) + "_" + on)
  {
  }

  /** Why `ReferencesIdempotent` excludes `through`: on a second run an attribute the first
      run annotated through a junction model takes the plain branch, and any foreign key on
      its target pointing back re-aims `references` from the junction model to the target. */
  lemma ThroughRerun(cols: Collections, collection: string, key: string, target: string, name: string)
    requires Has(cols, collection)
    requires var u := GetIn(AttrsOf(cols, collection), key);
             && u.Obj? && Get(u, "collection") == Str(target) && IsLower(target)
             && !HasProp(u, "through") && Get(u, "references") != Str(target)
    requires Has(cols, target) && FindReferenceIn(AttrsOf(cols, target), collection) == Ok(Some(Str(name))) && name != ""
    ensures AddKey(cols, collection, key).Ok?
    ensures Get(GetIn(AttrsOf(AddKey(cols, collection, key).value, collection), key), "references") == Str(target)
    ensures GetIn(AttrsOf(AddKey(cols, collection, key).value, collection), key) != GetIn(AttrsOf(cols, collection), key)
  {
    var u := GetIn(AttrsOf(cols, collection), key);
    AddKeyLowered(cols, collection, key, target);
    assert FindReference(cols, collection, target) == Ok(Some(Str(name)));
    RerunAnnotates(cols, collection, key, target, name);
    var a := PlainAnnotation(u, target, Lower(name));
    assert Get(a, "references") == Str(target);
  }

  /** An attribute whose target is already lower-case goes straight to annotation. */
  lemma AddKeyLowered(cols: Collections, collection: string, key: string, target: string)
    requires Has(cols, collection)
    requires var u := GetIn(AttrsOf(cols, collection), key);
             u.Obj? && Get(u, "collection") == Str(target) && IsLower(target)
    ensures AddKey(cols, collection, key) == Annotate(cols, collection, key, target)
  {
    var u := GetIn(AttrsOf(cols, collection), key);
    LowerIsLower(target);
    SetPropSame(u, "collection", Str(target));
    assert Lookup(AttrsOf(cols, collection), key) == Some(u);
    SetAttributeSame(cols, collection, key, u);
  }

  /** The plain branch on a rerun: the reference found on the target re-aims the attribute. */
  lemma RerunAnnotates(cols: Collections, collection: string, key: string, target: string, name: string)
    requires Has(cols, collection) && !HasProp(GetIn(AttrsOf(cols, collection), key), "through")
    requires FindReference(cols, collection, target) == Ok(Some(Str(name))) && name != ""
    ensures var r := Annotate(cols, collection, key, target);
            && r.Ok?
            && GetIn(AttrsOf(r.value, collection), key) == PlainAnnotation(GetIn(AttrsOf(cols, collection), key), target, Lower(name))
  {
    var a := PlainAnnotation(GetIn(AttrsOf(cols, collection), key), target, Lower(name));
    assert Usable(Some(Str(name)));
    assert LowerOf(Str(name), "on") == Ok(Lower(name));
    assert Annotate(cols, collection, key, target) == Ok(SetAttribute(cols, collection, key, a));
  }
}
