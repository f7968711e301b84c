/**
 * A string-keyed JavaScript object or Python dict as the program uses it: its
 * entries in iteration (insertion) order, each key once. Assigning to a present
 * key keeps its place; assigning to a new key appends it; deleting removes it.
 */
module Dict {
  import opened Wrappers

  predicate UniqueKeys<V>(e: seq<(string, V)>) {
    forall i, j :: 0 <= i < j < |e| ==> e[i].0 != e[j].0
  }

  type Dict<V> = e: seq<(string, V)> | UniqueKeys(e) witness []

  /** `Object.keys(obj)` / iteration over a dict: the keys in order. */
  function Keys<V>(e: seq<(string, V)>): (ks: seq<string>)
    ensures |ks| == |e| && forall i :: 0 <= i < |e| ==> ks[i] == e[i].0
  {
    seq(|e|, i requires 0 <= i < |e| => e[i].0)
  }

  /** The position of the first `k` in `ks`. */
  function IndexOf(ks: seq<string>, k: string): (i: nat)
    requires k in ks
    ensures i < |ks| && ks[i] == k
    ensures forall j :: 0 <= j < i ==> ks[j] != k
  {
    if ks[0] == k then 0 else 1 + IndexOf(ks[1..], k)
  }

  /** `obj[k]`, `undefined` being None. */
  function Get<V>(d: Dict<V>, k: string): (r: Option<V>)
    ensures r.None? <==> k !in Keys(d)
    ensures r.Some? ==> (k, r.value) in d
  {
    if k in Keys(d) then Some(d[IndexOf(Keys(d), k)].1) else None
  }

  /** `obj[k] = v`. */
  function Set<V>(d: Dict<V>, k: string, v: V): (r: Dict<V>)
    ensures Get(r, k) == Some(v)
    ensures forall k' :: k' != k ==> Get(r, k') == Get(d, k')
    ensures k in Keys(d) ==> Keys(r) == Keys(d)
    ensures k !in Keys(d) ==> r == d + [(k, v)]
  {
    if k in Keys(d) then
      var r := d[IndexOf(Keys(d), k) := (k, v)];
      assert Keys(r) == Keys(d);
      r
    else
      var r := d + [(k, v)];
      assert Keys(r) == Keys(d) + [k];
      assert forall k' :: k' in Keys(d) ==> IndexOf(Keys(r), k') == IndexOf(Keys(d), k');
      r
  }

  /** `delete obj[k]`. */
  function Delete<V>(d: Dict<V>, k: string): (r: Dict<V>)
    ensures Get(r, k) == None
    ensures forall k' :: k' != k ==> Get(r, k') == Get(d, k')
    ensures k !in Keys(d) ==> r == d
    ensures forall i :: 0 <= i < |d| && d[i].0 == k ==> r == d[..i] + d[i + 1..]
  {
    if k in Keys(d) then
      var i := IndexOf(Keys(d), k);
      var r: seq<(string, V)> := d[..i] + d[i + 1..];
      assert Keys(r) == Keys(d)[..i] + Keys(d)[i + 1..];
      RemoveAtUnique(d, i);
      assert k !in Keys(r) by {
        forall j | 0 <= j < |r|
          ensures r[j].0 != k
        {
          var j' := if j < i then j else j + 1;
          assert r[j] == d[j'];
        }
      }
      forall k' | k' != k && k' in Keys(d)
        ensures Get(r, k') == Get(d, k')
      {
        DeleteKeepsOther(d, i, k');
      }
      assert forall i' :: 0 <= i' < |d| && d[i'].0 == k ==> i' == i;
      assert Get(r, k) == None;
      r
    else d
  }

  lemma RemoveAtUnique<V>(d: Dict<V>, i: nat)
    requires i < |d|
    ensures UniqueKeys(d[..i] + d[i + 1..])
  {
    var r := d[..i] + d[i + 1..];
    forall a, b | 0 <= a < b < |r|
      ensures r[a].0 != r[b].0
    {
      var a' := if a < i then a else a + 1;
      var b' := if b < i then b else b + 1;
      assert r[a] == d[a'] && r[b] == d[b'];
    }
  }

  lemma DeleteKeepsOther<V>(d: Dict<V>, i: nat, k': string)
    requires i < |d| && k' in Keys(d) && d[i].0 != k'
    ensures UniqueKeys(d[..i] + d[i + 1..])
    ensures Get(d[..i] + d[i + 1..], k') == Get(d, k')
  {
    var r: seq<(string, V)> := d[..i] + d[i + 1..];
    RemoveAtUnique(d, i);
    var j := IndexOf(Keys(d), k');
    var j' := if j < i then j else j - 1;
    assert r[j'] == d[j];
    assert Keys(r)[j'] == k';
    forall l | 0 <= l < j'
      ensures Keys(r)[l] != k'
    {
      var l' := if l < i then l else l + 1;
      assert r[l] == d[l'];
    }
    assert IndexOf(Keys(r), k') == j';
  }

  /** Assigning a new key and deleting it again gives back the original object. */
  lemma SetThenDelete<V>(d: Dict<V>, k: string, v: V)
    requires k !in Keys(d)
    ensures Delete(Set(d, k, v), k) == d
  {
    var r := Set(d, k, v);
    assert r[|d|].0 == k;
    assert r[..|d|] + r[|d| + 1..] == d;
  }
}
