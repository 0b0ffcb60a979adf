/** The junction-table name both join builders derive from the two sides of a many-to-many
    association: `<collection>_<attribute>__<collection>_<attribute>`, with the side whose
    collection is strictly smaller (JavaScript's `<`) first.
 */
module JunctionNames {
  import opened Strings

  /** One side of a many-to-many association: its collection, its attribute, and the name of
      the attribute on the other side that points back. */
  datatype Column = Column(collection: string, attribute: string, via: string)

  /** `<collection>_<attribute>`: the junction's foreign-key name for one side. */
  function PairName(c: Column): string {
    c.collection + "_" + c.attribute
  }

  /** `buildCollectionName` / `buildIdentity`. */
  function JunctionName(c1: Column, c2: Column): (r: string)
    ensures r == PairName(c1) + "__" + PairName(c2) || r == PairName(c2) + "__" + PairName(c1)
    ensures |r| == |PairName(c1)| + |PairName(c2)| + 2
  {
    if LexLess(c1.collection, c2.collection) then PairName(c1) + "__" + PairName(c2)
    else PairName(c2) + "__" + PairName(c1)
  }

  /** The name is the two sides' pair names joined by `__`, the side with the smaller
      collection first; a side never comes first when its collection is larger. */
  lemma JunctionNameOrder(c1: Column, c2: Column)
    ensures exists a, b :: {a, b} == {c1, c2} && !LexLess(b.collection, a.collection)
                           && JunctionName(c1, c2) == PairName(a) + "__" + PairName(b)
  {
    if LexLess(c1.collection, c2.collection) {
      LexLessAsymmetric(c1.collection, c2.collection);
      assert {c1, c2} == {c1, c2} && !LexLess(c2.collection, c1.collection);
    } else {
      assert {c2, c1} == {c1, c2};
    }
  }

  /** Sides on different collections give the same name whichever is called column one. */
  lemma JunctionNameSymmetric(c1: Column, c2: Column)
    requires c1.collection != c2.collection
    ensures JunctionName(c1, c2) == JunctionName(c2, c1)
  {
    LexLessTotal(c1.collection, c2.collection);
    LexLessAsymmetric(c1.collection, c2.collection);
  }

  /** Sides on the same collection put column two first. */
  lemma JunctionNameSameCollection(c1: Column, c2: Column)
    requires c1.collection == c2.collection
    ensures JunctionName(c1, c2) == PairName(c2) + "__" + PairName(c1)
  {
    LexLessIrreflexive(c1.collection);
  }
}
