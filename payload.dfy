/** The decoded webhook form: one value per field name, in the order the fields arrived
    (a Python dict keeps insertion order). */
module Payload {
  import opened Wrappers

  type Field = (string, string)

  predicate DistinctKeys(p: seq<Field>) {
    forall i, j :: 0 <= i < j < |p| ==> p[i].0 != p[j].0
  }

  /** A decoded payload: no field name twice, as in the dictionary the decoder builds. */
  type Fields = p: seq<Field> | DistinctKeys(p) witness []

  /** `params.keys()`, in insertion order. */
  function Keys(p: seq<Field>): (ks: seq<string>)
    ensures |ks| == |p|
    ensures forall i :: 0 <= i < |p| ==> ks[i] == p[i].0
  {
    seq(|p|, i requires 0 <= i < |p| => p[i].0)
  }

  /** `params.get(k)`: the value stored under k, None when k is absent. */
  function Lookup(p: seq<Field>, k: string): (r: Option<string>)
    ensures r.Some? <==> k in Keys(p)
    ensures r.Some? ==> (k, r.value) in p
  {
    if p == [] then None
    else if p[0].0 == k then Some(p[0].1)
    else
      var r := Lookup(p[1..], k);
      assert Keys(p) == [p[0].0] + Keys(p[1..]);
      r
  }

  /** `params.get(k, default)` */
  function Get(p: seq<Field>, k: string, default: string): string {
    Lookup(p, k).GetOr(default)
  }

  /** In a payload a field name has one value, so any field found is the one looked up. */
  lemma {:induction false} LookupField(p: Fields, k: string, v: string)
    requires (k, v) in p
    ensures Lookup(p, k) == Some(v)
  {
    var i :| 0 <= i < |p| && p[i] == (k, v);
    var r := Lookup(p, k);
    assert r.Some?;
    var j :| 0 <= j < |p| && p[j] == (k, r.value);
    assert i == j;
  }

  /** Each name of a payload occurs once among its keys. */
  lemma {:induction false} KeysCount(p: Fields, k: string)
    ensures multiset(Keys(p))[k] == if k in Keys(p) then 1 else 0
  {
    if p != [] {
      var t: Fields := p[1..];
      KeysCount(t, k);
      assert Keys(p) == [p[0].0] + Keys(t);
      if k == p[0].0 {
        assert k !in Keys(t);
      }
    }
  }

  /** Two payloads holding the same fields, whatever their order, have the same key multiset. */
  lemma SameFieldsSameKeys(p1: Fields, p2: Fields)
    requires multiset(p1) == multiset(p2)
    ensures multiset(Keys(p1)) == multiset(Keys(p2))
  {
    forall k ensures multiset(Keys(p1))[k] == multiset(Keys(p2))[k] {
      KeysCount(p1, k);
      KeysCount(p2, k);
      if k in Keys(p1) {
        var i :| 0 <= i < |p1| && p1[i].0 == k;
        assert p1[i] in multiset(p2);
      }
      if k in Keys(p2) {
        var i :| 0 <= i < |p2| && p2[i].0 == k;
        assert p2[i] in multiset(p1);
      }
    }
  }
}
