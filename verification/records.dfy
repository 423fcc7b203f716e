/** `mapObject` of src/jot.ts: a callback applied to every entry of a record.

    A `Record<K, V>` is modelled as the list `Object.entries` walks: its
    key-value pairs in insertion order. A callback that throws is a callback
    returning `Failure`; the first exception ends the walk and propagates. */
module Records {
  import opened Wrappers

  /** The entries of a record, in the order `Object.entries` lists them. */
  type Entries<K, V> = seq<(K, V)>

  /** The keys of a record, in order. */
  function Keys<K, V>(o: Entries<K, V>): (r: seq<K>)
    ensures |r| == |o|
  {
    seq(|o|, i requires 0 <= i < |o| => o[i].0)
  }

  /** No key occurs twice, as in any object. */
  predicate Distinct<K(==)>(ks: seq<K>)
  {
    forall i, j :: 0 <= i < j < |ks| ==> ks[i] != ks[j]
  }

  /** The record built by `mapObject`, entry by entry: the walk over the
      first entries, then the callback on the last one. */
  function MapEntries<K, V, W, E>(o: Entries<K, V>, f: (K, V) -> Result<W, E>): (r: Result<Entries<K, W>, E>)
    ensures r.Success? <==> forall i :: 0 <= i < |o| ==> f(o[i].0, o[i].1).Success?
    ensures r.Success? ==> Keys(r.value) == Keys(o)
    ensures r.Success? ==> forall i :: 0 <= i < |o| ==> r.value[i].1 == f(o[i].0, o[i].1).value
    ensures r.Failure? ==> exists i :: (0 <= i < |o| && f(o[i].0, o[i].1) == Failure(r.error)
      && forall j :: 0 <= j < i ==> f(o[j].0, o[j].1).Success?)
    decreases |o|
  {
    if o == [] then Success([])
    else
      var n := |o| - 1;
      match MapEntries(o[..n], f)
      case Failure(e) =>
        assert forall i :: 0 <= i < n ==> o[..n][i] == o[i];
        Failure(e)
      case Success(acc) =>
        assert forall i :: 0 <= i < n ==> o[..n][i] == o[i];
        match f(o[n].0, o[n].1)
        case Failure(e) => Failure(e)
        case Success(w) =>
          assert Keys(acc + [(o[n].0, w)]) == Keys(o[..n]) + [o[n].0];
          Success(acc + [(o[n].0, w)])
  }

  /** Once a prefix of the entries fails, so does the whole walk, with the
      same error. */
  lemma MapEntriesPrefixFails<K, V, W, E>(o: Entries<K, V>, f: (K, V) -> Result<W, E>, i: nat)
    requires i <= |o| && MapEntries(o[..i], f).Failure?
    ensures MapEntries(o, f) == MapEntries(o[..i], f)
  {
    var e := MapEntries(o[..i], f).error;
    var k :| 0 <= k < i && f(o[..i][k].0, o[..i][k].1) == Failure(e)
      && forall j :: 0 <= j < k ==> f(o[..i][j].0, o[..i][j].1).Success?;
    assert o[..i][k] == o[k];
    assert forall j :: 0 <= j < k ==> o[..i][j] == o[j];
    var r := MapEntries(o, f);
    var m :| 0 <= m < |o| && f(o[m].0, o[m].1) == Failure(r.error)
      && forall j :: 0 <= j < m ==> f(o[j].0, o[j].1).Success?;
    assert m == k;
  }

  /** `mapObject`: walk the entries in order, call the callback on each, and
      stop at the first one that throws. */
  method MapObject<K, V, W, E>(o: Entries<K, V>, f: (K, V) -> Result<W, E>) returns (r: Result<Entries<K, W>, E>)
    ensures r == MapEntries(o, f)
  {
    var o2: Entries<K, W> := [];
    for i := 0 to |o|
      invariant MapEntries(o[..i], f) == Success(o2)
    {
      var (k, v) := o[i];
      assert o[..i + 1][..i] == o[..i];
      var w := f(k, v);
      if w.Failure? {
        MapEntriesPrefixFails(o, f, i + 1);
        return Failure(w.error);
      }
      o2 := o2 + [(k, w.value)];
    }
    assert o[..|o|] == o;
    return Success(o2);
  }
}
