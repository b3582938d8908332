/** Python dictionaries whose iteration order the room engine observes (the table, the bets and
    the guesses): entries in insertion order, and assigning to an existing key keeps its place. */
module OrderedMap {
  import opened Options

  type OMap<K, V> = seq<(K, V)>

  /** Every key occurs in at most one entry, as in a dictionary. */
  predicate UniqueKeys<K(==), V>(m: OMap<K, V>) {
    forall i, j :: 0 <= i < j < |m| ==> m[i].0 != m[j].0
  }

  /** The keys in iteration order (`d.keys()`). */
  function Keys<K, V>(m: OMap<K, V>): (ks: seq<K>)
    ensures |ks| == |m|
    ensures forall i :: 0 <= i < |m| ==> ks[i] == m[i].0
  {
    seq(|m|, i requires 0 <= i < |m| => m[i].0)
  }

  /** Some entry has key `k`. */
  predicate HasKey<K(==), V>(m: OMap<K, V>, k: K) {
    exists i :: 0 <= i < |m| && m[i].0 == k
  }

  /** Position of the entry with key `k` (the first one, should the map be ill-formed). */
  function KeyIndex<K(==), V>(m: OMap<K, V>, k: K): (i: nat)
    requires HasKey(m, k)
    ensures i < |m| && m[i].0 == k
    ensures forall j :: 0 <= j < i ==> m[j].0 != k
  {
    if m[0].0 == k then 0
    else
      assert HasKey(m[1..], k) by {
        var i :| 0 <= i < |m| && m[i].0 == k;
        assert m[1..][i - 1].0 == k;
      }
      1 + KeyIndex(m[1..], k)
  }

  /** `d.get(k)`: the value stored under `k`, if any. */
  function Get<K(==), V>(m: OMap<K, V>, k: K): (r: Option<V>)
    ensures r.None? <==> !HasKey(m, k)
    ensures r.Some? ==> (k, r.value) in m
  {
    if HasKey(m, k) then Some(m[KeyIndex(m, k)].1) else None
  }

  /** `d[k] = v`: overwrite in place when `k` is present, append otherwise. */
  function Put<K(==), V>(m: OMap<K, V>, k: K, v: V): (r: OMap<K, V>)
    ensures Keys(r) == if HasKey(m, k) then Keys(m) else Keys(m) + [k]
    ensures Get(r, k) == Some(v)
    ensures UniqueKeys(m) ==> UniqueKeys(r)
  {
    if HasKey(m, k) then
      var i := KeyIndex(m, k);
      var r := m[i := (k, v)];
      assert r[i].0 == k;
      assert KeyIndex(r, k) == i;
      r
    else
      var r := m + [(k, v)];
      assert r[|m|].0 == k;
      assert KeyIndex(r, k) == |m|;
      r
  }

  /** Assigning under one key leaves every other key's lookup alone. */
  lemma PutOther<K, V>(m: OMap<K, V>, k: K, v: V, k': K)
    requires k' != k
    ensures Get(Put(m, k, v), k') == Get(m, k')
  {
    var r := Put(m, k, v);
    assert HasKey(r, k') <==> HasKey(m, k') by {
      if HasKey(m, k') {
        var i :| 0 <= i < |m| && m[i].0 == k';
        assert r[i].0 == k';
      }
      if HasKey(r, k') {
        var i :| 0 <= i < |r| && r[i].0 == k';
        assert m[i].0 == k';
      }
    }
    if HasKey(m, k') {
      var i := KeyIndex(m, k');
      assert r[i] == m[i];
      assert forall j :: 0 <= j < i ==> r[j].0 != k';
      assert KeyIndex(r, k') == i;
    }
  }

  /** After an assignment every entry is the new one or was there before, and every entry under
      another key is still there. */
  lemma PutEntries<K, V>(m: OMap<K, V>, k: K, v: V)
    ensures forall x :: x in Put(m, k, v) ==> x == (k, v) || x in m
    ensures forall x :: x in m && x.0 != k ==> x in Put(m, k, v)
  {
    if HasKey(m, k) {
      var i := KeyIndex(m, k);
      assert Put(m, k, v) == m[i := (k, v)];
      forall x | x in m && x.0 != k ensures x in Put(m, k, v) {
        var j :| 0 <= j < |m| && m[j] == x;
        assert Put(m, k, v)[j] == x;
      }
    }
  }

  /** In a well-formed dictionary an entry is exactly what lookup returns. */
  lemma GetEntry<K, V>(m: OMap<K, V>, i: nat)
    requires UniqueKeys(m) && i < |m|
    ensures Get(m, m[i].0) == Some(m[i].1)
  {
    assert HasKey(m, m[i].0);
    assert KeyIndex(m, m[i].0) == i;
  }

  /** Dropping the first entry of a dictionary leaves a dictionary without that key. */
  lemma UniqueKeysTail<K, V>(m: OMap<K, V>)
    requires UniqueKeys(m) && m != []
    ensures UniqueKeys(m[1..])
    ensures !HasKey(m[1..], m[0].0)
    ensures forall q :: HasKey(m[1..], q) ==> HasKey(m, q)
  {
    forall q | HasKey(m[1..], q)
      ensures HasKey(m, q) && q != m[0].0
    {
      var i :| 0 <= i < |m[1..]| && m[1..][i].0 == q;
      assert m[i + 1].0 == q;
    }
  }
}
