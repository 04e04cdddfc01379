/** The value returned by a lookup that may find nothing (`undefined` in the source). */
module Optional {
  datatype Option<T> = None | Some(value: T)
}

/**
 * A JavaScript `Map`: key/value entries kept in insertion order.
 * `set` on a key already present replaces its value where it stands;
 * `set` on a new key appends an entry at the end.
 */
module OrderedMaps {
  import opened Optional

  datatype OrderedMap<K(==,!new), V> = OrderedMap(entries: seq<(K, V)>)
  {
    /** No key is stored twice. */
    ghost predicate Valid() {
      forall i, j :: 0 <= i < j < |entries| ==> entries[i].0 != entries[j].0
    }

    function Keys(): set<K> {
      set i | 0 <= i < |entries| :: entries[i].0
    }

    /** `Map.prototype.get`. */
    function Get(k: K): (r: Option<V>)
      ensures r.None? <==> k !in Keys()
      ensures r.Some? ==> exists i :: 0 <= i < |entries| && entries[i] == (k, r.value)
      ensures Valid() ==> forall i :: 0 <= i < |entries| && entries[i].0 == k ==> r == Some(entries[i].1)
    {
      var i := IndexOf(entries, k);
      if i < 0 then None else Some(entries[i].1)
    }

    /** `Map.prototype.set`. */
    function Put(k: K, v: V): (r: OrderedMap<K, V>)
      ensures Valid() ==> r.Valid()
      ensures r.Keys() == Keys() + {k}
      ensures r.Get(k) == Some(v)
      ensures forall k' :: k' != k ==> r.Get(k') == Get(k')
      ensures k !in Keys() ==> r.entries == entries + [(k, v)]
      ensures k in Keys() ==> |r.entries| == |entries|
      ensures forall i :: 0 <= i < |entries| ==> r.entries[i] == if entries[i].0 == k then (k, v) else entries[i]
      ensures forall i :: |entries| <= i < |r.entries| ==> r.entries[i] == (k, v)
    {
      if k in Keys() then Replace(k, v) else Append(k, v)
    }

    /** `set` on a key already present: its entry keeps its place. */
    function Replace(k: K, v: V): (r: OrderedMap<K, V>)
      requires k in Keys()
      ensures Valid() ==> r.Valid()
      ensures r.Keys() == Keys()
      ensures r.Get(k) == Some(v)
      ensures forall k' :: k' != k ==> r.Get(k') == Get(k')
      ensures |r.entries| == |entries|
      ensures forall i :: 0 <= i < |entries| ==> r.entries[i] == if entries[i].0 == k then (k, v) else entries[i]
      ensures forall i :: |entries| <= i < |r.entries| ==> r.entries[i] == (k, v)
    {
      var r := OrderedMap(seq(|entries|, i requires 0 <= i < |entries| =>
                                if entries[i].0 == k then (k, v) else entries[i]));
      SameKeys(this, r);
      r
    }

    /** `set` on a new key: a new entry at the end. */
    function Append(k: K, v: V): (r: OrderedMap<K, V>)
      requires k !in Keys()
      ensures Valid() ==> r.Valid()
      ensures r.Keys() == Keys() + {k}
      ensures r.Get(k) == Some(v)
      ensures forall k' :: k' != k ==> r.Get(k') == Get(k')
      ensures r.entries == entries + [(k, v)]
    {
      var r := OrderedMap(entries + [(k, v)]);
      assert r.entries[|entries|].0 == k;
      assert r.Keys() == Keys() + {k} by {
        forall x | x in r.Keys() ensures x in Keys() + {k} {
          var i :| 0 <= i < |r.entries| && r.entries[i].0 == x;
          if i < |entries| { assert entries[i].0 == x; }
        }
        forall x | x in Keys() ensures x in r.Keys() {
          var i :| 0 <= i < |entries| && entries[i].0 == x;
          assert r.entries[i].0 == x;
        }
      }
      assert forall k' :: k' != k ==> IndexOf(r.entries, k') == IndexOf(entries, k') by {
        forall k' | k' != k { IndexOfAppend(entries, (k, v), k'); }
      }
      r
    }
  }

  /** Two maps whose entries carry the same keys at the same positions. */
  lemma SameKeys<K(!new), V>(a: OrderedMap<K, V>, b: OrderedMap<K, V>)
    requires |a.entries| == |b.entries|
    requires forall i :: 0 <= i < |a.entries| ==> a.entries[i].0 == b.entries[i].0
    ensures a.Keys() == b.Keys()
    ensures a.Valid() ==> b.Valid()
    ensures forall k :: IndexOf(a.entries, k) == IndexOf(b.entries, k)
  {
    forall k ensures IndexOf(a.entries, k) == IndexOf(b.entries, k) {
      IndexOfSameKeys(a.entries, b.entries, k);
    }
    assert a.Keys() == b.Keys() by {
      forall x | x in a.Keys() ensures x in b.Keys() {
        var i :| 0 <= i < |a.entries| && a.entries[i].0 == x;
        assert b.entries[i].0 == x;
      }
      forall x | x in b.Keys() ensures x in a.Keys() {
        var i :| 0 <= i < |b.entries| && b.entries[i].0 == x;
        assert a.entries[i].0 == x;
      }
    }
  }

  /** The empty map, `new Map()`. */
  function Empty<K(==,!new), V>(): (m: OrderedMap<K, V>)
    ensures m.Valid() && m.Keys() == {}
  {
    OrderedMap([])
  }

  /** Position of the first entry under `k`, or -1 when there is none. */
  function IndexOf<K(==,!new), V>(es: seq<(K, V)>, k: K): (i: int)
    ensures -1 <= i < |es|
    ensures i == -1 <==> forall j :: 0 <= j < |es| ==> es[j].0 != k
    ensures 0 <= i ==> es[i].0 == k && forall j :: 0 <= j < i ==> es[j].0 != k
  {
    if es == [] then -1
    else if es[0].0 == k then 0
    else
      var i := IndexOf(es[1..], k);
      if i < 0 then -1 else i + 1
  }

  /** Appending an entry under another key does not move the first entry under `k`. */
  lemma IndexOfAppend<K(!new), V>(es: seq<(K, V)>, e: (K, V), k: K)
    requires e.0 != k
    ensures IndexOf(es + [e], k) == IndexOf(es, k)
  {
    IndexOfSameKeysPrefix(es + [e], es, k);
  }

  /** Extra entries after the first `|b|` that are not under `k` change nothing. */
  lemma IndexOfSameKeysPrefix<K(!new), V>(a: seq<(K, V)>, b: seq<(K, V)>, k: K)
    requires |b| <= |a| && a[..|b|] == b
    requires forall j :: |b| <= j < |a| ==> a[j].0 != k
    ensures IndexOf(a, k) == IndexOf(b, k)
  {
    var i, j := IndexOf(a, k), IndexOf(b, k);
    if j >= 0 {
      assert a[j] == b[j];
    }
  }

  /** Two entry lists with `k` at the same positions find it at the same position. */
  lemma IndexOfSameKeys<K(!new), V>(a: seq<(K, V)>, b: seq<(K, V)>, k: K)
    requires |a| == |b|
    requires forall j :: 0 <= j < |a| ==> a[j].0 == b[j].0
    ensures IndexOf(a, k) == IndexOf(b, k)
  {
  }

  /** An optional `set(k, v)` call on the map: `None` leaves it alone. */
  function Apply<K(==,!new), V>(m: OrderedMap<K, V>, s: Option<(K, V)>): OrderedMap<K, V> {
    match s
    case None => m
    case Some(kv) => m.Put(kv.0, kv.1)
  }

  /** A new map after the first `n` of a sequence of optional `set` calls. */
  function Replay<K(==,!new), V>(steps: seq<Option<(K, V)>>, n: nat): (m: OrderedMap<K, V>)
    requires n <= |steps|
    ensures m.Valid()
  {
    if n == 0 then Empty() else Apply(Replay(steps, n - 1), steps[n - 1])
  }

  /** The call sets the key `k`. */
  predicate Sets<K(==), V>(s: Option<(K, V)>, k: K) {
    s.Some? && s.value.0 == k
  }

  /** The value of the last of the first `n` calls that sets `k`, if any does. */
  function LastSet<K(==), V>(steps: seq<Option<(K, V)>>, n: nat, k: K): (r: Option<V>)
    requires n <= |steps|
    ensures r.None? <==> forall j :: 0 <= j < n ==> !Sets(steps[j], k)
  {
    if n == 0 then None
    else if Sets(steps[n - 1], k) then Some(steps[n - 1].value.1)
    else LastSet(steps, n - 1, k)
  }

  /** Looking `k` up after the calls finds the value the last call setting `k` gave it. */
  lemma {:induction false} ReplayGet<K(!new), V>(steps: seq<Option<(K, V)>>, n: nat, k: K)
    requires n <= |steps|
    ensures Replay(steps, n).Get(k) == LastSet(steps, n, k)
  {
    if n > 0 {
      ReplayGet(steps, n - 1, k);
    }
  }

  /** Calls after the `i`-th that set other keys do not change the last value set for `k`. */
  lemma {:induction false} LastSetStable<K, V>(steps: seq<Option<(K, V)>>, n: nat, i: nat, k: K)
    requires i < n <= |steps|
    requires forall j :: i < j < n ==> !Sets(steps[j], k)
    ensures LastSet(steps, n, k) == LastSet(steps, i + 1, k)
  {
    if i < n - 1 {
      LastSetStable(steps, n - 1, i, k);
    }
  }

  /** The keys after the calls are exactly the keys some call sets. */
  lemma ReplayKeys<K(!new), V>(steps: seq<Option<(K, V)>>, n: nat, k: K)
    requires n <= |steps|
    ensures k in Replay(steps, n).Keys() <==> exists j :: 0 <= j < n && Sets(steps[j], k)
  {
    ReplayGet(steps, n, k);
  }

  /** The map keeps `k` with the value of the last call that sets it. */
  lemma ReplayLast<K(!new), V>(steps: seq<Option<(K, V)>>, n: nat, i: nat, k: K, v: V)
    requires i < n <= |steps| && steps[i] == Some((k, v))
    requires forall j :: i < j < n ==> !Sets(steps[j], k)
    ensures Replay(steps, n).Get(k) == Some(v)
  {
    ReplayGet(steps, n, k);
    LastSetStable(steps, n, i, k);
  }

  /** Every entry of the map is the key and value of some call. */
  lemma {:induction false} ReplayEntries<K(!new), V>(steps: seq<Option<(K, V)>>, n: nat, e: nat)
    requires n <= |steps| && e < |Replay(steps, n).entries|
    ensures exists j :: 0 <= j < n && steps[j] == Some(Replay(steps, n).entries[e])
  {
    var prev := Replay(steps, n - 1);
    ApplyEntry(prev, steps[n - 1], e);
    if steps[n - 1] != Some(Replay(steps, n).entries[e]) {
      ReplayEntries(steps, n - 1, e);
    }
  }

  /** An entry after an optional `set` is the one set or one that was already there. */
  lemma ApplyEntry<K(!new), V>(m: OrderedMap<K, V>, s: Option<(K, V)>, e: nat)
    requires e < |Apply(m, s).entries|
    ensures s == Some(Apply(m, s).entries[e]) || (e < |m.entries| && Apply(m, s).entries[e] == m.entries[e])
  {
  }

  /** `f` applied to every element, in order. */
  function MapSeq<A, B>(s: seq<A>, f: A -> B): (r: seq<B>)
    ensures |r| == |s|
  {
    if s == [] then [] else MapSeq(s[..|s| - 1], f) + [f(s[|s| - 1])]
  }

  lemma {:induction false} MapSeqAt<A, B>(s: seq<A>, f: A -> B, i: nat)
    requires i < |s|
    ensures MapSeq(s, f)[i] == f(s[i])
  {
    if i < |s| - 1 {
      MapSeqAt(s[..|s| - 1], f, i);
    }
  }
}
