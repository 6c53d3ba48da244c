/**
 A Python `dict` as the vocabulary uses it: a finite map together with the
 order in which its keys were first inserted. Assigning to a key that is
 already present changes its value and keeps its place; assigning to a new
 key appends it. Iteration (`for k in d`, `d.keys()`, `d.values()`) follows
 that order, and `len(d)` is the number of keys.
 */
module PyDict {

  datatype Dict<K, V> = Dict(keys: seq<K>, items: map<K, V>)

  /** No element of `s` occurs twice: the last one is not among the others, and so on. */
  ghost predicate Unique<K>(s: seq<K>)
    decreases |s|
  {
    |s| == 0 || (s[|s| - 1] !in s[..|s| - 1] && Unique(s[..|s| - 1]))
  }

  /** The keys are listed once each, and exactly the keys of the map are listed. */
  ghost predicate Valid<K(!new), V>(d: Dict<K, V>)
  {
    Unique(d.keys) && forall k :: k in d.items <==> k in d.keys
  }

  /** Elements at different positions of a sequence without repeats differ. */
  lemma {:induction false} UniqueDistinct<K>(s: seq<K>)
    requires Unique(s)
    ensures forall i, j :: 0 <= i < j < |s| ==> s[i] != s[j]
    decreases |s|
  {
    if |s| > 0 {
      var p := s[..|s| - 1];
      UniqueDistinct(p);
      forall i, j | 0 <= i < j < |s| ensures s[i] != s[j] {
        if j == |s| - 1 {
          assert s[i] == p[i];
        } else {
          assert s[i] == p[i] && s[j] == p[j];
        }
      }
    }
  }

  /** A prefix of a sequence without repeats has none either. */
  lemma {:induction false} UniquePrefix<K>(s: seq<K>, n: nat)
    requires Unique(s) && n <= |s|
    ensures Unique(s[..n])
    decreases |s|
  {
    if n < |s| {
      var p := s[..|s| - 1];
      assert p[..n] == s[..n];
      UniquePrefix(p, n);
    } else {
      assert s[..n] == s;
    }
  }

  /** The keys of a well-formed dictionary are pairwise distinct. */
  lemma KeysDistinct<K(!new), V>(d: Dict<K, V>)
    requires Valid(d)
    ensures forall i, j :: 0 <= i < j < |d.keys| ==> d.keys[i] != d.keys[j]
  {
    UniqueDistinct(d.keys);
  }

  /** `{}` */
  function Empty<K(!new), V>(): (d: Dict<K, V>)
    ensures Valid(d) && |d.keys| == 0
  {
    Dict([], map[])
  }

  /** `{k: v}` */
  function Single<K(!new), V>(k: K, v: V): (d: Dict<K, V>)
    ensures Valid(d) && d.keys == [k] && d.items == map[k := v]
  {
    assert [k][..0] == [];
    Dict([k], map[k := v])
  }

  /** `d[k] = v`: the value is replaced; a new key goes to the end of the order. */
  function Put<K(!new), V>(d: Dict<K, V>, k: K, v: V): (r: Dict<K, V>)
    requires Valid(d)
    ensures Valid(r)
    ensures r.items == d.items[k := v]
    ensures k in d.items ==> r.keys == d.keys
    ensures k !in d.items ==> r.keys == d.keys + [k]
  {
    if k in d.items then Dict(d.keys, d.items[k := v])
    else
      assert (d.keys + [k])[..|d.keys|] == d.keys;
      Dict(d.keys + [k], d.items[k := v])
  }

  /** Assigning a key of an empty dictionary gives the one-entry dictionary. */
  lemma PutEmpty<K(!new), V>(k: K, v: V)
    ensures Put(Empty(), k, v) == Single(k, v)
  {
  }

  /** Assigning a key twice leaves what assigning the second value once would have left. */
  lemma PutTwice<K(!new), V>(d: Dict<K, V>, k: K, v: V, w: V)
    requires Valid(d)
    ensures Put(Put(d, k, v), k, w) == Put(d, k, w)
  {
    assert d.items[k := v][k := w] == d.items[k := w];
  }

  /** `list(d.values())`: the values in key order. */
  function Values<K(!new), V>(d: Dict<K, V>): (vs: seq<V>)
    requires Valid(d)
    ensures |vs| == |d.keys|
    ensures forall i :: 0 <= i < |vs| ==> vs[i] == d.items[d.keys[i]]
  {
    seq(|d.keys|, i requires 0 <= i < |d.keys| => d.items[d.keys[i]])
  }

  /** The position of a key in the insertion order. */
  ghost function IndexOf<K(!new), V>(d: Dict<K, V>, k: K): (i: nat)
    requires Valid(d) && k in d.items
    ensures i < |d.keys| && d.keys[i] == k
  {
    var i :| 0 <= i < |d.keys| && d.keys[i] == k; i
  }
}
