/**
 * JavaScript `Map` and `Set` as the game state uses them: entries kept in
 * insertion order, `set` on a present key replacing the value where it
 * stands, and the `new Map(entries)` / `new Set(items)` constructors that
 * drop repeated keys.
 */
module OrderedMaps {
  import opened Basics

  type Entries<K, V> = seq<(K, V)>

  function Keys<K, V>(m: Entries<K, V>): (ks: seq<K>)
    ensures |ks| == |m|
  {
    seq(|m|, i requires 0 <= i < |m| => m[i].0)
  }

  predicate NoDup<T(==,!new)>(xs: seq<T>)
  {
    forall i, j :: 0 <= i < j < |xs| ==> xs[i] != xs[j]
  }

  /** No key appears twice, as in every JavaScript `Map`. */
  predicate UniqueKeys<K(==,!new), V>(m: Entries<K, V>)
  {
    NoDup(Keys(m))
  }

  /** `m.get(k)`: the value of the first entry with key `k`. */
  function Get<K(==,!new), V>(m: Entries<K, V>, k: K): (r: Option<V>)
    ensures r.None? <==> k !in Keys(m)
  {
    assert |m| > 0 ==> Keys(m) == [m[0].0] + Keys(m[1..]);
    if |m| == 0 then None
    else if m[0].0 == k then Some(m[0].1)
    else Get(m[1..], k)
  }

  /** `m.set(k, v)`: a present key keeps its position, a new key goes last. */
  function Put<K(==,!new), V>(m: Entries<K, V>, k: K, v: V): (r: Entries<K, V>)
    ensures Get(r, k) == Some(v)
    ensures forall j :: j != k ==> Get(r, j) == Get(m, j)
    ensures k in Keys(m) ==> Keys(r) == Keys(m)
    ensures k !in Keys(m) ==> r == m + [(k, v)]
    ensures k !in Keys(m) ==> Keys(r) == Keys(m) + [k]
    ensures UniqueKeys(m) ==> UniqueKeys(r)
  {
    assert |m| > 0 ==> Keys(m) == [m[0].0] + Keys(m[1..]);
    if |m| == 0 then [(k, v)]
    else if m[0].0 == k then
      assert Keys([(k, v)] + m[1..]) == Keys(m);
      [(k, v)] + m[1..]
    else
      var rest := Put(m[1..], k, v);
      assert Keys([m[0]] + rest) == [m[0].0] + Keys(rest);
      [m[0]] + rest
  }

  /** `m.delete(k)`. */
  function Delete<K(==,!new), V>(m: Entries<K, V>, k: K): (r: Entries<K, V>)
    ensures Get(r, k) == None
    ensures forall j :: j != k ==> Get(r, j) == Get(m, j)
    ensures UniqueKeys(m) ==> UniqueKeys(r)
    ensures forall j :: j in Keys(r) <==> j in Keys(m) && j != k
  {
    assert |m| > 0 ==> Keys(m) == [m[0].0] + Keys(m[1..]);
    assert |m| > 0 && UniqueKeys(m) ==> UniqueKeys(m[1..]) by {
      if |m| > 0 && UniqueKeys(m) {
        assert Keys(m[1..]) == Keys(m)[1..];
      }
    }
    if |m| == 0 then []
    else if m[0].0 == k then Delete(m[1..], k)
    else
      var rest := Delete(m[1..], k);
      assert Keys([m[0]] + rest) == [m[0].0] + Keys(rest);
      assert UniqueKeys(m) ==> m[0].0 !in Keys(m[1..]) by {
        if UniqueKeys(m) {
          forall i | 0 <= i < |m| - 1
            ensures Keys(m[1..])[i] != m[0].0
          {
            assert Keys(m[1..])[i] == Keys(m)[i + 1];
            assert Keys(m)[0] == m[0].0;
            assert Keys(m)[0] != Keys(m)[i + 1];
          }
        }
      }
      [m[0]] + rest
  }

  lemma {:induction false} DeleteAbsent<K(!new), V>(m: Entries<K, V>, k: K)
    requires k !in Keys(m)
    ensures Delete(m, k) == m
  {
    if |m| > 0 {
      assert Keys(m) == [m[0].0] + Keys(m[1..]);
      DeleteAbsent(m[1..], k);
    }
  }

  /** Deleting a key just added to a map that lacked it gives the map back. */
  lemma {:induction false} DeleteAfterPut<K(!new), V>(m: Entries<K, V>, k: K, v: V)
    requires k !in Keys(m)
    ensures Delete(Put(m, k, v), k) == m
  {
    if |m| == 0 {
    } else {
      assert Keys(m) == [m[0].0] + Keys(m[1..]);
      DeleteAfterPut(m[1..], k, v);
    }
  }

  /** `new Map(entries)`: later duplicates overwrite in place. */
  function FromEntries<K(==,!new), V>(es: Entries<K, V>): (r: Entries<K, V>)
    ensures UniqueKeys(r)
  {
    if |es| == 0 then []
    else
      var last := es[|es| - 1];
      Put(FromEntries(es[..|es| - 1]), last.0, last.1)
  }

  /** Copying a map's entries into a new Map rebuilds the same map. */
  lemma {:induction false} FromEntriesOfMap<K(!new), V>(m: Entries<K, V>)
    requires UniqueKeys(m)
    ensures FromEntries(m) == m
  {
    if |m| > 0 {
      var init := m[..|m| - 1];
      assert Keys(init) == Keys(m)[..|m| - 1];
      FromEntriesOfMap(init);
      assert m[|m| - 1].0 !in Keys(init) by {
        assert Keys(m)[|m| - 1] == m[|m| - 1].0;
      }
      assert init + [m[|m| - 1]] == m;
    }
  }

  /** `Array.from(new Set(xs))`: first occurrences, in order. */
  function Dedup<T(==,!new)>(xs: seq<T>): (r: seq<T>)
    ensures NoDup(r)
    ensures forall x :: x in r <==> x in xs
  {
    if |xs| == 0 then []
    else
      var init := Dedup(xs[..|xs| - 1]);
      assert forall x :: x in xs <==> x in xs[..|xs| - 1] || x == xs[|xs| - 1];
      if xs[|xs| - 1] in init then init else init + [xs[|xs| - 1]]
  }

  /** A list without repeats survives the round trip through a Set unchanged. */
  lemma {:induction false} DedupNoDup<T(!new)>(xs: seq<T>)
    requires NoDup(xs)
    ensures Dedup(xs) == xs
  {
    if |xs| > 0 {
      DedupNoDup(xs[..|xs| - 1]);
      assert xs[..|xs| - 1] + [xs[|xs| - 1]] == xs;
    }
  }
}
