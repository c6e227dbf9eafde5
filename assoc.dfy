/** Association lists keyed by strings.

    A JavaScript object and a JavaScript `Map` both keep their keys in
    insertion order, overwrite a present key in place and append a new key
    at the end.  `Put`, `Lookup` and `Remove` below are those three
    operations on a list of entries. */
module Assoc {
  import opened Base

  datatype Entry<V> = Entry(key: string, value: V)

  /** The set of keys present in the list. */
  function KeySet<V>(fs: seq<Entry<V>>): set<string>
  {
    if fs == [] then {} else {fs[0].key} + KeySet(fs[1..])
  }

  /** No key occurs twice: the shape of every JavaScript object and Map. */
  predicate DistinctKeys<V>(fs: seq<Entry<V>>)
  {
    fs == [] || (fs[0].key !in KeySet(fs[1..]) && DistinctKeys(fs[1..]))
  }

  /** The value stored under `k` (the first one, should there be several). */
  function Lookup<V>(fs: seq<Entry<V>>, k: string): (r: Option<V>)
    ensures r.Some? <==> k in KeySet(fs)
  {
    if fs == [] then None
    else if fs[0].key == k then Some(fs[0].value)
    else Lookup(fs[1..], k)
  }

  /** `{k: v, ...rest}`: an object literal, one key in front of the rest. */
  function Cons<V>(k: string, v: V, fs: seq<Entry<V>>): (r: seq<Entry<V>>)
    ensures KeySet(r) == {k} + KeySet(fs)
    ensures Lookup(r, k) == Some(v)
    ensures forall x | x != k :: Lookup(r, x) == Lookup(fs, x)
    ensures DistinctKeys(r) <==> k !in KeySet(fs) && DistinctKeys(fs)
    ensures r == [Entry(k, v)] + fs
  {
    var r := [Entry(k, v)] + fs;
    assert r[1..] == fs;
    r
  }

  /** `obj[k] = v`: overwrite in place when `k` is present, append otherwise. */
  function Put<V>(fs: seq<Entry<V>>, k: string, v: V): (r: seq<Entry<V>>)
    ensures Lookup(r, k) == Some(v)
    ensures forall k' :: k' != k ==> Lookup(r, k') == Lookup(fs, k')
    ensures KeySet(r) == KeySet(fs) + {k}
    ensures DistinctKeys(fs) ==> DistinctKeys(r)
    ensures k !in KeySet(fs) ==> r == fs + [Entry(k, v)]
    ensures forall i :: 0 <= i < |r| ==> r[i] == Entry(k, v) || r[i] in fs
  {
    if fs == [] then [Entry(k, v)]
    else if fs[0].key == k then [Entry(k, v)] + fs[1..]
    else [fs[0]] + Put(fs[1..], k, v)
  }

  /** The list without the entries whose key is in `ks`, order kept. */
  function RemoveKeys<V>(fs: seq<Entry<V>>, ks: set<string>): (r: seq<Entry<V>>)
    ensures KeySet(r) == KeySet(fs) - ks
    ensures forall k :: k !in ks ==> Lookup(r, k) == Lookup(fs, k)
    ensures DistinctKeys(fs) ==> DistinctKeys(r)
    ensures forall i :: 0 <= i < |r| ==> r[i] in fs && r[i].key !in ks
  {
    if fs == [] then []
    else if fs[0].key in ks then RemoveKeys(fs[1..], ks)
    else [fs[0]] + RemoveKeys(fs[1..], ks)
  }

  /** Removing keys keeps the order of what remains: it works entry by
      entry, so it distributes over concatenation. */
  lemma {:induction false} RemoveKeysAppend<V>(a: seq<Entry<V>>, b: seq<Entry<V>>, ks: set<string>)
    ensures RemoveKeys(a + b, ks) == RemoveKeys(a, ks) + RemoveKeys(b, ks)
  {
    if a == [] {
      assert a + b == b;
    } else {
      assert (a + b)[0] == a[0] && (a + b)[1..] == a[1..] + b;
      RemoveKeysAppend(a[1..], b, ks);
    }
  }

  /** `Put` on a present key overwrites it where it stands: the list keeps
      its length and its order of keys, and every other entry is as it was. */
  lemma {:induction false} PutInPlace<V>(fs: seq<Entry<V>>, k: string, v: V)
    requires k in KeySet(fs)
    ensures var r := Put(fs, k, v);
      |r| == |fs| && forall i | 0 <= i < |fs| :: r[i].key == fs[i].key && (fs[i].key != k ==> r[i] == fs[i])
  {
    if fs[0].key != k {
      PutInPlace(fs[1..], k, v);
    }
  }

  /** Replaying `Put` for every entry of `fs`, starting from `acc`: what
      building an object field by field produces. */
  function PutAll<V>(acc: seq<Entry<V>>, fs: seq<Entry<V>>): (r: seq<Entry<V>>)
    ensures DistinctKeys(acc) ==> DistinctKeys(r)
    ensures KeySet(r) == KeySet(acc) + KeySet(fs)
    ensures forall i :: 0 <= i < |r| ==> r[i] in acc || r[i] in fs
    decreases fs
  {
    if fs == [] then acc else PutAll(Put(acc, fs[0].key, fs[0].value), fs[1..])
  }

  lemma KeySetIndex<V>(fs: seq<Entry<V>>, k: string)
    ensures k in KeySet(fs) <==> exists i :: 0 <= i < |fs| && fs[i].key == k
  {
    if fs != [] {
      KeySetIndex(fs[1..], k);
      if k in KeySet(fs[1..]) {
        var i :| 0 <= i < |fs[1..]| && fs[1..][i].key == k;
        assert fs[i + 1].key == k;
      }
      if exists i :: 0 <= i < |fs| && fs[i].key == k {
        var i :| 0 <= i < |fs| && fs[i].key == k;
        if i > 0 { assert fs[1..][i - 1].key == k; }
      }
    }
  }

  /** In a list without duplicate keys, each entry is what its key looks up. */
  lemma {:induction false} LookupIndex<V>(fs: seq<Entry<V>>, i: nat)
    requires DistinctKeys(fs) && i < |fs|
    ensures Lookup(fs, fs[i].key) == Some(fs[i].value)
  {
    if i > 0 {
      KeySetIndex(fs[1..], fs[i].key);
      assert fs[1..][i - 1] == fs[i];
      LookupIndex(fs[1..], i - 1);
    }
  }

  lemma {:induction false} KeySetAppend<V>(a: seq<Entry<V>>, b: seq<Entry<V>>)
    ensures KeySet(a + b) == KeySet(a) + KeySet(b)
  {
    if a == [] {
      assert a + b == b;
    } else {
      assert (a + b)[1..] == a[1..] + b;
      KeySetAppend(a[1..], b);
    }
  }

  lemma {:induction false} DistinctAppend<V>(a: seq<Entry<V>>, b: seq<Entry<V>>)
    requires DistinctKeys(a + b)
    ensures DistinctKeys(a) && DistinctKeys(b) && KeySet(a) !! KeySet(b)
  {
    if a == [] {
      assert a + b == b;
    } else {
      assert (a + b)[1..] == a[1..] + b;
      DistinctAppend(a[1..], b);
      KeySetAppend(a[1..], b);
    }
  }

  /** Putting the first entry of `fs`, whose key `acc` lacks, appends it. */
  lemma PutFirstFresh<V>(acc: seq<Entry<V>>, fs: seq<Entry<V>>)
    requires fs != [] && DistinctKeys(acc + fs)
    ensures Put(acc, fs[0].key, fs[0].value) == acc + [fs[0]]
  {
    DistinctAppend(acc, fs);
    KeySetAppend(acc, fs);
    assert fs[0].key in KeySet(fs);
  }

  /** Replaying a list with distinct keys onto a list that shares none of
      them appends it unchanged. */
  lemma {:induction false} PutAllFresh<V>(acc: seq<Entry<V>>, fs: seq<Entry<V>>)
    requires DistinctKeys(acc + fs)
    ensures PutAll(acc, fs) == acc + fs
    decreases fs
  {
    if fs == [] {
      assert acc + fs == acc;
    } else {
      PutFirstFresh(acc, fs);
      var acc' := acc + [fs[0]];
      assert acc' + fs[1..] == acc + fs by {
        assert fs == [fs[0]] + fs[1..];
      }
      PutAllFresh(acc', fs[1..]);
    }
  }
}
