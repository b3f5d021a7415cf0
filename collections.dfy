/** Sequence and map identities, kept apart so that proofs about the decoder can use
    them without unfolding extensionality next to the decoder's definitions. */
module Collections {
  lemma AppendAssoc<T>(a: seq<T>, b: seq<T>, c: seq<T>)
    ensures a + b + c == a + (b + c)
  {
  }

  lemma AppendEmpty<T>(a: seq<T>)
    ensures a + [] == a
  {
  }

  lemma HeadTail<T>(s: seq<T>)
    requires s != []
    ensures [s[0]] + s[1..] == s
  {
  }

  lemma EmptyAppend<T>(a: seq<T>)
    ensures [] + a == a
  {
  }

  /** The entries of `m` whose keys are in `keys`. */
  function Restrict<K, V>(m: map<K, V>, keys: set<K>): (r: map<K, V>)
    requires keys <= m.Keys
    ensures r.Keys == keys && forall k :: k in keys ==> r[k] == m[k]
  {
    map k | k in keys :: m[k]
  }

  /** Inserting one more entry of `m` is restricting to one more key. */
  lemma RestrictInsert<K, V>(acc: map<K, V>, m: map<K, V>, keys: set<K>, k: K)
    requires keys <= m.Keys && k in keys
    ensures acc[k := m[k]] + Restrict(m, keys - {k}) == acc + Restrict(m, keys)
  {
  }

  lemma RestrictNone<K, V>(acc: map<K, V>, m: map<K, V>)
    ensures acc + Restrict(m, {}) == acc
  {
  }

  lemma RestrictAll<K, V>(m: map<K, V>)
    ensures map[] + Restrict(m, m.Keys) == m
  {
  }
}
