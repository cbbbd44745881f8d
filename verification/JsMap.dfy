/**
 JavaScript's `Map` as a value: its entries in insertion order.  Setting a key that is
 present replaces the value in place; setting a new key appends.
 */
module JsMap {
  import opened Wrappers

  type Map<K, V> = seq<(K, V)>

  predicate Has<K(==), V>(m: Map<K, V>, k: K) {
    m != [] && (m[0].0 == k || Has(m[1..], k))
  }

  function Get<K(==), V>(m: Map<K, V>, k: K): Option<V> {
    if m == [] then None else if m[0].0 == k then Some(m[0].1) else Get(m[1..], k)
  }

  function Put<K(==), V>(m: Map<K, V>, k: K, v: V): Map<K, V> {
    if m == [] then [(k, v)]
    else if m[0].0 == k then [(k, v)] + m[1..]
    else [m[0]] + Put(m[1..], k, v)
  }

  function Delete<K(==), V>(m: Map<K, V>, k: K): Map<K, V> {
    if m == [] then [] else if m[0].0 == k then m[1..] else [m[0]] + Delete(m[1..], k)
  }

  /** The entries whose value passes the test, in their order. */
  function Filter<K, V>(m: Map<K, V>, keep: V -> bool): Map<K, V> {
    if m == [] then []
    else if keep(m[0].1) then [m[0]] + Filter(m[1..], keep)
    else Filter(m[1..], keep)
  }

  /** No key occurs twice: what the operations keep. */
  ghost predicate Unique<K, V>(m: Map<K, V>) {
    m != [] ==> !Has(m[1..], m[0].0) && Unique(m[1..])
  }

  ghost function Keys<K(!new), V>(m: Map<K, V>): (s: set<K>)
    ensures forall k :: k in s <==> Has(m, k)
  {
    if m == [] then {} else {m[0].0} + Keys(m[1..])
  }

  lemma {:induction false} HasIsSome<K, V>(m: Map<K, V>, k: K)
    ensures Has(m, k) <==> Get(m, k).Some?
  {
    if m != [] {
      HasIsSome(m[1..], k);
    }
  }

  lemma {:induction false} KeyCount<K(!new), V>(m: Map<K, V>)
    requires Unique(m)
    ensures |Keys(m)| == |m|
  {
    if m != [] {
      KeyCount(m[1..]);
    }
  }

  lemma {:induction false} GetAfterPut<K, V>(m: Map<K, V>, k: K, v: V, k': K)
    ensures Get(Put(m, k, v), k') == if k' == k then Some(v) else Get(m, k')
    ensures Unique(m) ==> Unique(Put(m, k, v))
    ensures Has(Put(m, k, v), k') <==> k' == k || Has(m, k')
  {
    if m != [] && m[0].0 != k {
      GetAfterPut(m[1..], k, v, k');
      if k' != m[0].0 { GetAfterPut(m[1..], k, v, m[0].0); }
    }
  }

  lemma {:induction false} GetAfterDelete<K, V>(m: Map<K, V>, k: K, k': K)
    requires Unique(m)
    ensures Get(Delete(m, k), k') == if k' == k then None else Get(m, k')
    ensures Has(Delete(m, k), k') <==> k' != k && Has(m, k')
    ensures Unique(Delete(m, k))
    ensures |Delete(m, k)| == if Has(m, k) then |m| - 1 else |m|
  {
    if m != [] {
      if m[0].0 == k {
        HasIsSome(m[1..], k);
      } else {
        GetAfterDelete(m[1..], k, k');
        if k' != m[0].0 { GetAfterDelete(m[1..], k, m[0].0); }
      }
    }
  }

  lemma {:induction false} GetAfterAppend<K, V>(m: Map<K, V>, k: K, v: V, k': K)
    requires Unique(m) && !Has(m, k)
    ensures Get(m + [(k, v)], k') == if k' == k then Some(v) else Get(m, k')
    ensures Has(m + [(k, v)], k') <==> k' == k || Has(m, k')
    ensures Unique(m + [(k, v)])
    ensures Put(m, k, v) == m + [(k, v)]
  {
    if m != [] {
      assert (m + [(k, v)])[1..] == m[1..] + [(k, v)];
      GetAfterAppend(m[1..], k, v, k');
      if k' != m[0].0 { GetAfterAppend(m[1..], k, v, m[0].0); }
    }
  }

  lemma {:induction false} GetAfterFilter<K, V>(m: Map<K, V>, keep: V -> bool, k: K)
    requires Unique(m)
    ensures Get(Filter(m, keep), k) == if Get(m, k).Some? && keep(Get(m, k).value) then Get(m, k) else None
    ensures Has(Filter(m, keep), k) ==> Has(m, k)
    ensures Unique(Filter(m, keep))
  {
    if m != [] {
      HasIsSome(m[1..], m[0].0);
      GetAfterFilter(m[1..], keep, k);
      if k != m[0].0 { GetAfterFilter(m[1..], keep, m[0].0); }
    }
  }

  // ---------- order-preserving embedding ----------

  /** The entries of s occur in l in the same order. */
  ghost predicate Embeds<T>(s: seq<T>, l: seq<T>) {
    s == [] || (l != [] && ((s[0] == l[0] && Embeds(s[1..], l[1..])) || Embeds(s, l[1..])))
  }

  lemma {:induction false} EmbedsTail<T>(s: seq<T>, l: seq<T>)
    requires Embeds(s, l) && s != []
    ensures l != [] && Embeds(s[1..], l[1..]) && Embeds(s[1..], l)
    decreases |l|
  {
    if !(s[0] == l[0] && Embeds(s[1..], l[1..])) {
      EmbedsTail(s, l[1..]);
    }
  }

  lemma {:induction false} EmbedsAppend<T>(s: seq<T>, l: seq<T>, x: T)
    requires Embeds(s, l)
    ensures Embeds(s + [x], l + [x]) && Embeds(s, l + [x])
    decreases |l|
  {
    if l != [] {
      assert (l + [x])[1..] == l[1..] + [x];
      if s != [] && s[0] == l[0] && Embeds(s[1..], l[1..]) {
        assert (s + [x])[1..] == s[1..] + [x];
        EmbedsAppend(s[1..], l[1..], x);
      } else {
        assert Embeds(s, l[1..]);
        EmbedsAppend(s, l[1..], x);
      }
    } else {
      assert s + [x] == [x] == l + [x];
      assert Embeds([x][1..], [x][1..]);
    }
  }

  lemma {:induction false} EmbedsGet<K, V>(s: Map<K, V>, l: Map<K, V>, k: K)
    requires Embeds(s, l) && Unique(l)
    ensures Has(s, k) ==> Has(l, k) && Get(s, k) == Get(l, k)
    decreases |l|
  {
    if l != [] {
      if s != [] && s[0] == l[0] && Embeds(s[1..], l[1..]) {
        EmbedsGet(s[1..], l[1..], k);
      } else {
        assert Embeds(s, l[1..]);
        EmbedsGet(s, l[1..], k);
      }
    }
  }

  lemma {:induction false} DeleteAbsent<K, V>(m: Map<K, V>, k: K)
    requires !Has(m, k)
    ensures Delete(m, k) == m
  {
    if m != [] {
      DeleteAbsent(m[1..], k);
    }
  }

  lemma {:induction false} EmbedsDelete<K, V>(s: Map<K, V>, l: Map<K, V>, k: K)
    requires Embeds(s, l) && Unique(l)
    ensures Embeds(Delete(s, k), Delete(l, k))
    decreases |l|
  {
    if l != [] {
      if s != [] && s[0] == l[0] && Embeds(s[1..], l[1..]) {
        EmbedsDelete(s[1..], l[1..], k);
      } else {
        assert Embeds(s, l[1..]);
        EmbedsDelete(s, l[1..], k);
        EmbedsGet(s, l[1..], k);
        if l[0].0 == k {
          DeleteAbsent(s, k);
        } else {
          assert Delete(l, k)[1..] == Delete(l[1..], k);
        }
      }
    }
  }

  lemma {:induction false} EmbedsFilter<K, V>(s: Map<K, V>, l: Map<K, V>, keep: V -> bool)
    requires Embeds(s, l)
    ensures Embeds(Filter(s, keep), Filter(l, keep))
    ensures |Filter(l, keep)| - |Filter(s, keep)| <= |l| - |s|
    decreases |l|
  {
    if l != [] {
      var rest := Filter(l[1..], keep);
      if s != [] && s[0] == l[0] && Embeds(s[1..], l[1..]) {
        EmbedsFilter(s[1..], l[1..], keep);
        if keep(l[0].1) {
          assert Filter(l, keep)[1..] == rest && Filter(s, keep)[1..] == Filter(s[1..], keep);
        }
      } else {
        assert Embeds(s, l[1..]);
        EmbedsFilter(s, l[1..], keep);
        if keep(l[0].1) {
          assert Filter(l, keep)[1..] == rest;
        }
      }
    }
  }
}
