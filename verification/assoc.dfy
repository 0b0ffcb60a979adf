/** Ordered association lists: the model of a JavaScript plain object.

    A JavaScript object enumerates its keys in insertion order; assigning to an existing key
    keeps its position, `delete` removes it, and assigning a fresh key appends it. An
    association list `seq<(string, V)>` keeps exactly that order, so "first match" and
    "last match" lookups of the schema passes can be stated over it.
 */
module Assoc {
  import opened Results

  type AList<V> = seq<(string, V)>

  /** The keys in enumeration order. */
  function Keys<V>(m: AList<V>): (ks: seq<string>)
    ensures |ks| == |m|
    ensures forall i :: 0 <= i < |m| ==> ks[i] == m[i].0
  {
    seq(|m|, i requires 0 <= i < |m| => m[i].0)
  }

  predicate Has<V>(m: AList<V>, k: string) {
    k in Keys(m)
  }

  /** No key occurs twice, as in every JavaScript object. */
  predicate Distinct<V>(m: AList<V>) {
    forall i, j :: 0 <= i < j < |m| ==> m[i].0 != m[j].0
  }

  /** The value stored under `k` (the first entry carrying it). */
  function Lookup<V>(m: AList<V>, k: string): (r: Option<V>)
    ensures r.Some? <==> Has(m, k)
  {
    if |m| == 0 then None
    else if m[0].0 == k then Some(m[0].1)
    else Lookup(m[1..], k)
  }

  /** `m[k] = v`: overwrite in place when `k` is present, append otherwise. */
  function Upsert<V>(m: AList<V>, k: string, v: V): (r: AList<V>)
    ensures Lookup(r, k) == Some(v)
    ensures forall k' :: k' != k ==> Lookup(r, k') == Lookup(m, k')
    ensures Has(m, k) ==> Keys(r) == Keys(m)
    ensures !Has(m, k) ==> Keys(r) == Keys(m) + [k]
  {
    if |m| == 0 then [(k, v)]
    else if m[0].0 == k then [(k, v)] + m[1..]
    else
      var u := Upsert(m[1..], k, v);
      KeysCons(m[0], u);
      KeysCons(m[0], m[1..]);
      assert [m[0]] + m[1..] == m;
      assert ([m[0]] + u)[1..] == u;
      [m[0]] + u
  }

  lemma KeysCons<V>(x: (string, V), t: AList<V>)
    ensures Keys([x] + t) == [x.0] + Keys(t)
  {
    var l := [x] + t;
    forall i | 0 <= i < |l| ensures Keys(l)[i] == ([x.0] + Keys(t))[i] {
      if i > 0 {
        assert l[i] == t[i - 1];
      }
    }
  }

  /** `delete m[k]`. */
  function Remove<V(!new)>(m: AList<V>, k: string): (r: AList<V>)
    ensures !Has(r, k)
    ensures forall k' :: k' != k ==> Lookup(r, k') == Lookup(m, k')
    ensures forall e :: e in r <==> e in m && e.0 != k
  {
    if |m| == 0 then []
    else if m[0].0 == k then Remove(m[1..], k)
    else [m[0]] + Remove(m[1..], k)
  }

  /** The entries whose key satisfies `keep`, in their original order. */
  function Filter<V(!new)>(m: AList<V>, keep: (string, V) -> bool): (r: AList<V>)
    ensures forall e :: e in r <==> e in m && keep(e.0, e.1)
    ensures |r| <= |m|
  {
    if |m| == 0 then []
    else if keep(m[0].0, m[0].1) then [m[0]] + Filter(m[1..], keep)
    else Filter(m[1..], keep)
  }

  lemma HasEntry<V>(m: AList<V>, e: (string, V))
    requires e in m
    ensures Has(m, e.0)
  {
    var i :| 0 <= i < |m| && m[i] == e;
    assert Keys(m)[i] == e.0;
  }

  /** In a list without repeated keys, every entry is what its key looks up. */
  lemma {:induction false} LookupDistinct<V>(m: AList<V>, k: string, v: V)
    requires Distinct(m)
    requires (k, v) in m
    ensures Lookup(m, k) == Some(v)
  {
    if m[0] != (k, v) {
      assert (k, v) in m[1..];
      assert Distinct(m[1..]) by {
        forall i, j | 0 <= i < j < |m[1..]| ensures m[1..][i].0 != m[1..][j].0 {
          assert m[1..][i] == m[i + 1] && m[1..][j] == m[j + 1];
        }
      }
      LookupDistinct(m[1..], k, v);
    }
  }

  /** The keys of successful results, in order; a failure contributes `""`. */
  function BuiltKeys<V>(built: seq<Result<(string, V)>>): (ks: seq<string>)
    ensures |ks| == |built|
    ensures forall i :: 0 <= i < |built| && built[i].Ok? ==> ks[i] == built[i].value.0
  {
    seq(|built|, i requires 0 <= i < |built| => if built[i].Ok? then built[i].value.0 else "")
  }

  /** Stores results in order into `acc` under their keys (`m[k] = v` for each); the first
      failure aborts the whole run, and a later entry with the same key replaces the earlier
      one in place. */
  function CollectInto<V>(acc: AList<V>, built: seq<Result<(string, V)>>): (r: Result<AList<V>>)
    ensures r.Ok? <==> forall i :: 0 <= i < |built| ==> built[i].Ok?
    ensures r.Ok? ==> forall k :: Has(r.value, k) <==> Has(acc, k) || k in BuiltKeys(built)
    decreases |built|
  {
    if |built| == 0 then Ok(acc)
    else if built[0].Err? then Err(built[0].error)
    else
      var acc' := Upsert(acc, built[0].value.0, built[0].value.1);
      var r := CollectInto(acc', built[1..]);
      assert forall i :: 1 <= i < |built| ==> built[1..][i - 1] == built[i];
      assert BuiltKeys(built) == [built[0].value.0] + BuiltKeys(built[1..]);
      assert forall k :: Has(acc', k) <==> Has(acc, k) || k == built[0].value.0;
      r
  }

  /** A key no entry carries keeps what the accumulator stored under it. */
  lemma {:induction false} CollectIntoUntouched<V>(acc: AList<V>, built: seq<Result<(string, V)>>, k: string)
    requires CollectInto(acc, built).Ok?
    requires forall j :: 0 <= j < |built| ==> built[j].value.0 != k
    ensures Lookup(CollectInto(acc, built).value, k) == Lookup(acc, k)
    decreases |built|
  {
    if |built| > 0 {
      var acc' := Upsert(acc, built[0].value.0, built[0].value.1);
      assert forall j :: 1 <= j < |built| ==> built[1..][j - 1] == built[j];
      CollectIntoUntouched(acc', built[1..], k);
    }
  }

  /** The entry stored under a key is the last one built with that key. */
  lemma {:induction false} CollectIntoLastWins<V>(acc: AList<V>, built: seq<Result<(string, V)>>, i: nat)
    requires CollectInto(acc, built).Ok?
    requires i < |built|
    requires forall j :: i < j < |built| ==> built[j].value.0 != built[i].value.0
    ensures Lookup(CollectInto(acc, built).value, built[i].value.0) == Some(built[i].value.1)
    decreases |built|
  {
    var acc' := Upsert(acc, built[0].value.0, built[0].value.1);
    assert forall j :: 1 <= j < |built| ==> built[1..][j - 1] == built[j];
    assert CollectInto(acc, built) == CollectInto(acc', built[1..]);
    if i == 0 {
      CollectIntoUntouched(acc', built[1..], built[0].value.0);
    } else {
      CollectIntoLastWins(acc', built[1..], i - 1);
    }
  }

  /** Filtering with a test every entry passes changes nothing. */
  lemma {:induction false} FilterKeepsAll<V(!new)>(m: AList<V>, keep: (string, V) -> bool)
    requires forall i :: 0 <= i < |m| ==> keep(m[i].0, m[i].1)
    ensures Filter(m, keep) == m
  {
    if |m| > 0 {
      FilterKeepsAll(m[1..], keep);
    }
  }

  /** Assignment adds at most the assigned key. */
  lemma UpsertHas<V>(m: AList<V>, k: string, v: V, k': string)
    requires Has(Upsert(m, k, v), k')
    ensures k' == k || Has(m, k')
  {
  }

  /** Assignment keeps keys distinct. */
  lemma UpsertDistinct<V>(m: AList<V>, k: string, v: V)
    requires Distinct(m)
    ensures Distinct(Upsert(m, k, v))
  {
    var r := Upsert(m, k, v);
    assert forall i :: 0 <= i < |r| ==> Keys(r)[i] == r[i].0;
    assert forall i :: 0 <= i < |m| ==> Keys(m)[i] == m[i].0;
  }

  /** Assigning a key the object lacks appends it. */
  lemma {:induction false} UpsertAbsent<V>(m: AList<V>, k: string, v: V)
    requires !Has(m, k)
    ensures Upsert(m, k, v) == m + [(k, v)]
    decreases |m|
  {
    if |m| > 0 {
      KeysCons(m[0], m[1..]);
      assert [m[0]] + m[1..] == m;
      UpsertAbsent(m[1..], k, v);
      assert [m[0]] + (m[1..] + [(k, v)]) == m + [(k, v)];
    }
  }

  /** Putting a new key in front keeps the keys distinct. */
  lemma DistinctCons<V>(x: (string, V), t: AList<V>)
    requires Distinct(t) && !Has(t, x.0)
    ensures Distinct([x] + t)
  {
    var r := [x] + t;
    forall i, j | 0 <= i < j < |r| ensures r[i].0 != r[j].0 {
      assert r[j] == t[j - 1];
      if i == 0 {
        assert Keys(t)[j - 1] == t[j - 1].0;
      } else {
        assert r[i] == t[i - 1];
      }
    }
  }

  /** Deleting a key keeps the others distinct. */
  lemma {:induction false} RemoveDistinct<V(!new)>(m: AList<V>, k: string)
    requires Distinct(m)
    ensures Distinct(Remove(m, k))
    decreases |m|
  {
    if |m| > 0 {
      DistinctTail(m);
      RemoveDistinct(m[1..], k);
      if m[0].0 != k {
        var t := Remove(m[1..], k);
        assert Lookup(t, m[0].0) == Lookup(m[1..], m[0].0);
        DistinctCons(m[0], t);
      }
    }
  }

  /** `_.extend(target, source)`: each entry of `source` assigned onto `target` in order. */
  function Extend<V>(target: AList<V>, source: AList<V>): (r: AList<V>)
    ensures forall k :: Has(r, k) <==> Has(target, k) || Has(source, k)
    decreases |source|
  {
    if |source| == 0 then target
    else
      KeysCons(source[0], source[1..]);
      assert [source[0]] + source[1..] == source;
      Extend(Upsert(target, source[0].0, source[0].1), source[1..])
  }

  /** After `_.extend`, a key of a source without repeated keys reads the source's value;
      any other key reads what the target held. */
  lemma {:induction false} ExtendLookup<V>(target: AList<V>, source: AList<V>, k: string)
    requires Distinct(source)
    ensures Lookup(Extend(target, source), k) == if Has(source, k) then Lookup(source, k) else Lookup(target, k)
    decreases |source|
  {
    if |source| > 0 {
      var t' := Upsert(target, source[0].0, source[0].1);
      var rest := source[1..];
      KeysCons(source[0], rest);
      assert [source[0]] + rest == source;
      DistinctTail(source);
      ExtendLookup(t', rest, k);
    }
  }

  /** Dropping the first entry keeps keys distinct. */
  lemma DistinctTail<V>(m: AList<V>)
    requires Distinct(m) && |m| > 0
    ensures Distinct(m[1..])
    ensures !Has(m[1..], m[0].0)
  {
    forall i, j | 0 <= i < j < |m[1..]| ensures m[1..][i].0 != m[1..][j].0 {
      assert m[1..][i] == m[i + 1] && m[1..][j] == m[j + 1];
    }
    forall i | 0 <= i < |m[1..]| ensures Keys(m[1..])[i] != m[0].0 {
      assert m[1..][i] == m[i + 1];
    }
  }

  /** An entry is what its key looks up when no earlier entry carries the same key. */
  lemma {:induction false} LookupAt<V>(m: AList<V>, i: nat)
    requires i < |m|
    requires forall j :: 0 <= j < i ==> m[j].0 != m[i].0
    ensures Lookup(m, m[i].0) == Some(m[i].1)
    decreases i
  {
    if i > 0 {
      assert m[1..][i - 1] == m[i];
      forall j | 0 <= j < i - 1 ensures m[1..][j].0 != m[1..][i - 1].0 {
        assert m[1..][j] == m[j + 1];
      }
      LookupAt(m[1..], i - 1);
    }
  }

  /** Assigning a key the value it already looks up changes nothing. */
  lemma {:induction false} UpsertSame<V>(m: AList<V>, k: string, v: V)
    requires Lookup(m, k) == Some(v)
    ensures Upsert(m, k, v) == m
  {
    if m[0].0 != k {
      UpsertSame(m[1..], k, v);
      assert [m[0]] + m[1..] == m;
    }
  }
}
