/**
 * An insertion-ordered map, the way a JavaScript `Map` iterates: setting an
 * existing key keeps its place, a new key goes last.
 */
module OrderedMap {
  import opened Prelude

  datatype Entry<K, V> = Entry(key: K, value: V)

  function Get<K(==), V>(m: seq<Entry<K, V>>, k: K): Option<V> {
    if m == [] then None else if m[0].key == k then Some(m[0].value) else Get(m[1..], k)
  }

  function Put<K(==), V>(m: seq<Entry<K, V>>, k: K, v: V): seq<Entry<K, V>> {
    if m == [] then [Entry(k, v)]
    else if m[0].key == k then [Entry(k, v)] + m[1..]
    else [m[0]] + Put(m[1..], k, v)
  }

  function Delete<K(==), V>(m: seq<Entry<K, V>>, k: K): seq<Entry<K, V>> {
    if m == [] then [] else if m[0].key == k then m[1..] else [m[0]] + Delete(m[1..], k)
  }

  ghost predicate UniqueKeys<K(!new), V(!new)>(m: seq<Entry<K, V>>) {
    m == [] || ((forall e :: e in m[1..] ==> e.key != m[0].key) && UniqueKeys(m[1..]))
  }

  lemma {:induction false} GetPut<K, V>(m: seq<Entry<K, V>>, k: K, v: V, k': K)
    ensures Get(Put(m, k, v), k') == if k == k' then Some(v) else Get(m, k')
    ensures |Put(m, k, v)| == |m| + if Get(m, k).Some? then 0 else 1
  {
    if m == [] {
    } else {
      if m[0].key == k {
        assert Put(m, k, v)[1..] == m[1..];
      } else {
        GetPut(m[1..], k, v, k');
        assert Put(m, k, v)[1..] == Put(m[1..], k, v);
      }
    }
  }

  /** A lookup finds an entry, and misses only when no entry has the key. */
  lemma {:induction false} GetIn<K, V>(m: seq<Entry<K, V>>, k: K)
    ensures Get(m, k).Some? ==> Entry(k, Get(m, k).value) in m
    ensures Get(m, k).None? ==> forall e :: e in m ==> e.key != k
  {
    if m == [] {
    } else {
      GetIn(m[1..], k);
    }
  }

  lemma {:induction false} GetUnique<K(!new), V(!new)>(m: seq<Entry<K, V>>, e: Entry<K, V>)
    requires UniqueKeys(m) && e in m
    ensures Get(m, e.key) == Some(e.value)
  {
    if e != m[0] {
      GetUnique(m[1..], e);
    }
  }

  lemma {:induction false} PutKeys<K(!new), V(!new)>(m: seq<Entry<K, V>>, k: K, v: V)
    requires UniqueKeys(m)
    ensures UniqueKeys(Put(m, k, v))
    ensures forall e :: e in Put(m, k, v) ==> e == Entry(k, v) || e in m
  {
    if m == [] {
    } else {
      if m[0].key == k {
        assert Put(m, k, v)[1..] == m[1..];
      } else {
        PutKeys(m[1..], k, v);
        assert Put(m, k, v)[1..] == Put(m[1..], k, v);
      }
    }
  }

  lemma {:induction false} DeleteKeys<K(!new), V(!new)>(m: seq<Entry<K, V>>, k: K)
    requires UniqueKeys(m)
    ensures UniqueKeys(Delete(m, k))
    ensures forall e :: e in Delete(m, k) ==> e in m
    ensures forall e :: e in Delete(m, k) ==> e.key != k
  {
    if m != [] && m[0].key != k {
      DeleteKeys(m[1..], k);
      assert Delete(m, k)[1..] == Delete(m[1..], k);
    }
  }

  lemma {:induction false} GetDelete<K(!new), V(!new)>(m: seq<Entry<K, V>>, k: K, k': K)
    requires UniqueKeys(m)
    ensures Get(Delete(m, k), k') == if k == k' then None else Get(m, k')
    ensures |Delete(m, k)| == |m| - if Get(m, k).Some? then 1 else 0
  {
    if m == [] {
    } else {
      if m[0].key == k {
        GetIn(m[1..], k);
      } else {
        GetDelete(m[1..], k, k');
        assert Delete(m, k)[1..] == Delete(m[1..], k);
      }
    }
  }

  lemma {:induction false} PutIn<K(!new), V(!new)>(m: seq<Entry<K, V>>, k: K, v: V)
    ensures forall e :: e in Put(m, k, v) ==> e == Entry(k, v) || e in m
  {
    if m != [] && m[0].key != k {
      PutIn(m[1..], k, v);
    }
  }

  lemma {:induction false} DeleteIn<K(!new), V(!new)>(m: seq<Entry<K, V>>, k: K)
    ensures forall e :: e in Delete(m, k) ==> e in m
  {
    if m != [] && m[0].key != k {
      DeleteIn(m[1..], k);
    }
  }

  lemma {:induction false} PutPut<K, V>(m: seq<Entry<K, V>>, k: K, v: V, w: V)
    ensures Put(Put(m, k, v), k, w) == Put(m, k, w)
  {
    if m != [] && m[0].key != k {
      PutPut(m[1..], k, v, w);
      assert Put(m, k, v)[1..] == Put(m[1..], k, v);
    }
  }

  lemma {:induction false} PutSame<K, V>(m: seq<Entry<K, V>>, k: K)
    ensures Get(m, k).Some? ==> Put(m, k, Get(m, k).value) == m
  {
    if m != [] && m[0].key != k {
      PutSame(m[1..], k);
    }
  }

  lemma {:induction false} ReplaceAt<K, V>(a: seq<Entry<K, V>>, k: K, v: V, w: V, c: seq<Entry<K, V>>)
    requires forall e :: e in a ==> e.key != k
    ensures Put(a + ([Entry(k, v)] + c), k, w) == a + ([Entry(k, w)] + c)
    ensures Delete(a + ([Entry(k, v)] + c), k) == a + c
  {
    var all := a + ([Entry(k, v)] + c);
    if a == [] {
      assert all == [Entry(k, v)] + c && all[1..] == c;
    } else {
      assert a[0] in a;
      assert all[0] == a[0] && all[1..] == a[1..] + ([Entry(k, v)] + c);
      ReplaceAt(a[1..], k, v, w, c);
    }
  }

  lemma {:induction false} KeysApart<K(!new), V(!new)>(m: seq<Entry<K, V>>, i: nat)
    requires UniqueKeys(m) && i < |m|
    ensures forall j :: 0 <= j < i ==> m[j].key != m[i].key
  {
    if i == 0 {
    } else {
      KeysApart(m[1..], i - 1);
      assert m[1..][i - 1] == m[i] && m[i] in m[1..];
      forall j | 0 < j < i ensures m[j].key != m[i].key {
        assert m[1..][j - 1] == m[j];
      }
    }
  }

  lemma {:induction false} GetFilter<K(!new), V(!new)>(m: seq<Entry<K, V>>, p: Entry<K, V> -> bool, k: K)
    requires UniqueKeys(m)
    ensures Get(Filter(m, p), k)
         == if Get(m, k).Some? && p(Entry(k, Get(m, k).value)) then Get(m, k) else None
    ensures UniqueKeys(Filter(m, p))
  {
    if m == [] {
    } else {
      GetFilter(m[1..], p, k);
      var rest := Filter(m[1..], p);
      assert ([m[0]] + rest)[1..] == rest;
      if m[0].key == k {
        GetIn(m[1..], k);
        GetIn(rest, k);
      }
    }
  }

  lemma {:induction false} NothingToDelete<K, V>(m: seq<Entry<K, V>>, k: K)
    requires Get(m, k).None?
    ensures Delete(m, k) == m
  {
    if m == [] {
    } else {
      NothingToDelete(m[1..], k);
    }
  }
}
