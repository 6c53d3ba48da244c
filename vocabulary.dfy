/**
 The character-transition vocabulary `Vocab`: every edge `s->t` of a graph
 over characters has an identifier `(group, offset)`. This module holds the
 vocabulary value and the queries on it: forward lookup with the `<unk>`
 fallback, inverse lookup, list lookup, the neighbor enumerations, the
 outgoing identifiers of a node, and the conversion of a token sequence into
 a path of labels. How a vocabulary is built is in module VocabBuild.
 */
module Vocabulary {
  import opened PyDict
  import opened EdgeLabel
  import PyRandom

  /** `(group, offset)`: the group of the edge's source and the rank of the edge inside it. */
  type EdgeId = (int, int)

  /** The outgoing edges of one source: target label to identifier, in insertion order. */
  type Targets = Dict<string, EdgeId>

  /** `edge_dict`: source label to its outgoing edges, in insertion order. */
  type EdgeDict = Dict<string, Targets>

  /** The sentinel node for anything the vocabulary does not know. */
  const Unk: string := "<unk>"

  /**
   A vocabulary. `nodeIndex` is `nodeindex_dict` (node index to node label),
   `edges` is `edge_dict` and `edgeDecode` is `edge_decode_dict`
   (identifier to label). The `node_dict` field is always `None` and is not
   kept.
   */
  datatype Vocab = Vocab(nodeIndex: map<int, string>, edges: EdgeDict, edgeDecode: map<EdgeId, string>)

  /** Both levels of `edge_dict` are well-formed dictionaries. */
  ghost predicate WellFormed(edges: EdgeDict)
  {
    Valid(edges) && forall s :: s in edges.items ==> Valid(edges.items[s])
  }

  /** `s in edge_dict and t in edge_dict[s]` */
  predicate Registered(edges: EdgeDict, s: string, t: string)
  {
    s in edges.items && t in edges.items[s].items
  }

  /** `edge_dict[s][t]` */
  function Id(edges: EdgeDict, s: string, t: string): (r: EdgeId)
    requires Registered(edges, s, t)
  {
    edges.items[s].items[t]
  }

  // ---------------------------------------------------------------------------
  // fetch, decode, __call__
  // ---------------------------------------------------------------------------

  /**
   What `fetch(x)` needs so as not to raise: the label splits into two parts,
   and either that edge or the `<unk>-><unk>` edge is registered.
   */
  predicate Fetchable(v: Vocab, x: string)
  {
    Split(x).Some? &&
    (Registered(v.edges, Split(x).value.0, Split(x).value.1) || Registered(v.edges, Unk, Unk))
  }

  /** `fetch(x)`: the identifier of `x`, or that of `<unk>-><unk>` when `x` is not registered. */
  function Fetch(v: Vocab, x: string): (r: EdgeId)
    requires Fetchable(v, x)
    ensures exists s, t :: Registered(v.edges, s, t) && r == Id(v.edges, s, t)
  {
    var (s, t) := Split(x).value;
    if Registered(v.edges, s, t) then Id(v.edges, s, t) else Id(v.edges, Unk, Unk)
  }

  /**
   Looking up `s->t` for separator-free `s` and `t`: the registered
   identifier if the edge is registered, and the `<unk>-><unk>` identifier
   otherwise (whether `s` is unknown or only `t` is unknown under it).
   */
  lemma FetchJoin(v: Vocab, s: string, t: string)
    requires NoArrow(s) && NoArrow(t)
    requires Registered(v.edges, s, t) || Registered(v.edges, Unk, Unk)
    ensures Fetchable(v, Join(s, t))
    ensures Registered(v.edges, s, t) ==> Fetch(v, Join(s, t)) == Id(v.edges, s, t)
    ensures !Registered(v.edges, s, t) ==> Fetch(v, Join(s, t)) == Id(v.edges, Unk, Unk)
  {
    SplitJoin(s, t);
  }

  /** A label that holds the separator other than exactly once makes `fetch` raise. */
  lemma FetchRejectsMalformed(v: Vocab, s: string, t: string)
    requires !NoArrow(s) || !NoArrow(t)
    ensures !Fetchable(v, Join(s, t))
  {
    SplitJoin(s, t);
  }

  /** `decode(x)`: the label registered for identifier `x`. */
  function DecodeId(v: Vocab, x: EdgeId): (r: string)
    requires x in v.edgeDecode
  {
    v.edgeDecode[x]
  }

  /** The argument of `__call__`: a label, or a (possibly nested) list of them. */
  datatype Query = One(text: string) | Many(queries: seq<Query>)

  /** The result of `__call__`: an identifier, or a list shaped like the query. */
  datatype Answer = Id1(id: EdgeId) | Ids(answers: seq<Answer>)

  /** Every label in the query can be fetched. */
  predicate CallDefined(v: Vocab, q: Query)
    decreases q
  {
    match q
    case One(x) => Fetchable(v, x)
    case Many(qs) => forall i :: 0 <= i < |qs| ==> CallDefined(v, qs[i])
  }

  /** The answer has the shape of the query and holds `fetch` of each label in its place. */
  ghost predicate Mirrors(v: Vocab, q: Query, a: Answer)
    decreases q
  {
    match q
    case One(x) => Fetchable(v, x) && a == Id1(Fetch(v, x))
    case Many(qs) =>
      a.Ids? && |a.answers| == |qs| &&
      forall i :: 0 <= i < |qs| ==> Mirrors(v, qs[i], a.answers[i])
  }

  /** `__call__(x)`: `fetch` on a label, applied elementwise (recursively) on a list. */
  function Call(v: Vocab, q: Query): (a: Answer)
    requires CallDefined(v, q)
    ensures Mirrors(v, q, a)
    decreases q
  {
    match q
    case One(x) => Id1(Fetch(v, x))
    case Many(qs) => Ids(seq(|qs|, i requires 0 <= i < |qs| => Call(v, qs[i])))
  }

  /** Every label can be fetched. */
  predicate AllFetchable(v: Vocab, xs: seq<string>)
  {
    forall i :: 0 <= i < |xs| ==> Fetchable(v, xs[i])
  }

  /** `fetch` applied to each label of a flat list, in order. */
  function FetchAll(v: Vocab, xs: seq<string>): (ids: seq<EdgeId>)
    requires forall i :: 0 <= i < |xs| ==> Fetchable(v, xs[i])
  {
    seq(|xs|, i requires 0 <= i < |xs| && Fetchable(v, xs[i]) => Fetch(v, xs[i]))
  }

  /** `__call__` on a flat list of labels keeps length and order: it is `fetch` on each element. */
  lemma CallOnList(v: Vocab, xs: seq<string>)
    requires forall i :: 0 <= i < |xs| ==> Fetchable(v, xs[i])
    ensures CallDefined(v, Many(seq(|xs|, i requires 0 <= i < |xs| => One(xs[i]))))
    ensures var a := Call(v, Many(seq(|xs|, i requires 0 <= i < |xs| => One(xs[i]))));
      a.Ids? && |a.answers| == |xs| &&
      forall i :: 0 <= i < |xs| ==> a.answers[i] == Id1(FetchAll(v, xs)[i])
  {
    var q := Many(seq(|xs|, i requires 0 <= i < |xs| => One(xs[i])));
    assert CallDefined(v, q);
    var a := Call(v, q);
    forall i | 0 <= i < |xs|
      ensures a.answers[i] == Id1(FetchAll(v, xs)[i])
    {
      assert Mirrors(v, q.queries[i], a.answers[i]);
    }
  }

  /** Every fetched identifier is the fetch of one of the labels. */
  lemma FetchAllFrom(v: Vocab, xs: seq<string>, c: EdgeId)
    requires AllFetchable(v, xs) && c in FetchAll(v, xs)
    ensures exists i :: 0 <= i < |xs| && c == Fetch(v, xs[i])
  {
    var i :| 0 <= i < |xs| && FetchAll(v, xs)[i] == c;
    assert c == Fetch(v, xs[i]);
  }

  /** Fetching a concatenation fetches the two parts one after the other. */
  lemma FetchAllConcat(v: Vocab, xs: seq<string>, ys: seq<string>)
    requires AllFetchable(v, xs) && AllFetchable(v, ys)
    ensures AllFetchable(v, xs + ys) && FetchAll(v, xs + ys) == FetchAll(v, xs) + FetchAll(v, ys)
  {
    assert forall i :: 0 <= i < |xs + ys| ==> (xs + ys)[i] == if i < |xs| then xs[i] else ys[i - |xs|];
  }

  /**
   Fetching two orderings of the same labels gives two orderings of the same
   identifiers: `__call__` commutes with a shuffle of its list.
   */
  lemma {:induction false} FetchAllPerm(v: Vocab, xs: seq<string>, ys: seq<string>)
    requires multiset(xs) == multiset(ys)
    requires AllFetchable(v, ys)
    ensures AllFetchable(v, xs) && multiset(FetchAll(v, xs)) == multiset(FetchAll(v, ys))
    decreases |xs|
  {
    forall i | 0 <= i < |xs| ensures Fetchable(v, xs[i]) {
      assert xs[i] in multiset(ys);
    }
    if |xs| > 0 {
      var n := |xs| - 1;
      assert xs[n] in multiset(ys);
      var i :| 0 <= i < |ys| && ys[i] == xs[n];
      MultisetRemove(xs, ys, i);
      FetchAllRemove(v, ys, i);
      FetchAllRemove(v, xs, n);
      assert xs[..n] + xs[n + 1..] == xs[..n];
      FetchAllPerm(v, xs[..n], ys[..i] + ys[i + 1..]);
    }
  }

  /** Taking the last element out of one ordering and the same element out of another keeps them orderings of each other. */
  lemma MultisetRemove<T>(xs: seq<T>, ys: seq<T>, i: int)
    requires multiset(xs) == multiset(ys) && |xs| > 0 && 0 <= i < |ys| && ys[i] == xs[|xs| - 1]
    ensures multiset(xs[..|xs| - 1]) == multiset(ys[..i] + ys[i + 1..])
  {
    var n := |xs| - 1;
    var r := ys[..i] + ys[i + 1..];
    assert multiset(xs) == multiset(xs[..n]) + multiset{xs[n]} by {
      assert xs == xs[..n] + [xs[n]];
    }
    assert multiset(ys) == multiset(r) + multiset{xs[n]} by {
      assert ys == ys[..i] + [ys[i]] + ys[i + 1..];
    }
    forall e ensures multiset(xs[..n])[e] == multiset(r)[e] {
      assert multiset(xs)[e] == multiset(ys)[e];
    }
  }

  /** Fetching a list is fetching it without its `i`-th label, plus that label's identifier. */
  lemma FetchAllRemove(v: Vocab, ys: seq<string>, i: int)
    requires AllFetchable(v, ys) && 0 <= i < |ys|
    ensures AllFetchable(v, ys[..i] + ys[i + 1..])
    ensures multiset(FetchAll(v, ys)) == multiset(FetchAll(v, ys[..i] + ys[i + 1..])) + multiset{Fetch(v, ys[i])}
  {
    var a, b, y := ys[..i], ys[i + 1..], ys[i];
    assert ys == a + [y] + b;
    assert AllFetchable(v, a) by {
      assert forall m :: 0 <= m < |a| ==> a[m] == ys[m];
    }
    assert AllFetchable(v, b) by {
      assert forall m :: 0 <= m < |b| ==> b[m] == ys[i + 1 + m];
    }
    assert AllFetchable(v, [y]);
    FetchAllConcat(v, a, b);
    FetchAllConcat(v, a, [y]);
    FetchAllConcat(v, a + [y], b);
    assert FetchAll(v, [y]) == [Fetch(v, y)];
    var fa, fb := FetchAll(v, a), FetchAll(v, b);
    assert FetchAll(v, ys) == fa + [Fetch(v, y)] + fb;
    assert FetchAll(v, a + b) == fa + fb;
    assert multiset(fa + [Fetch(v, y)] + fb) == multiset(fa + fb) + multiset{Fetch(v, y)};
  }

  // ---------------------------------------------------------------------------
  // Neighbor enumeration
  // ---------------------------------------------------------------------------

  /** `[u for u in keys if u != excluded]` */
  function OtherTargets(keys: seq<string>, excluded: string): (r: seq<string>)
  {
    if keys == [] then []
    else (if keys[0] != excluded then [keys[0]] else []) + OtherTargets(keys[1..], excluded)
  }

  /** `["->".join([src, u]) for u in targets]` */
  function Labels(src: string, targets: seq<string>): (r: seq<string>)
  {
    seq(|targets|, i requires 0 <= i < |targets| => Join(src, targets[i]))
  }

  /** The filtered targets are exactly the keys other than the excluded one, each once. */
  lemma {:induction false} OtherTargetsMembers(keys: seq<string>, excluded: string)
    ensures forall u :: u in OtherTargets(keys, excluded) <==> u in keys && u != excluded
    ensures (forall i, j :: 0 <= i < j < |keys| ==> keys[i] != keys[j]) ==>
      forall i, j :: 0 <= i < j < |OtherTargets(keys, excluded)| ==>
        OtherTargets(keys, excluded)[i] != OtherTargets(keys, excluded)[j]
    ensures excluded in keys && (forall i, j :: 0 <= i < j < |keys| ==> keys[i] != keys[j]) ==>
      |OtherTargets(keys, excluded)| == |keys| - 1
    ensures excluded !in keys ==> OtherTargets(keys, excluded) == keys
  {
    if keys != [] {
      OtherTargetsMembers(keys[1..], excluded);
      var rest := OtherTargets(keys[1..], excluded);
      if forall i, j :: 0 <= i < j < |keys| ==> keys[i] != keys[j] {
        assert forall i, j :: 0 <= i < j < |keys[1..]| ==> keys[1..][i] != keys[1..][j] by {
          forall i, j | 0 <= i < j < |keys[1..]| ensures keys[1..][i] != keys[1..][j] {
            assert keys[1..][i] == keys[i + 1] && keys[1..][j] == keys[j + 1];
          }
        }
        assert keys[0] !in keys[1..];
      }
      assert keys == [keys[0]] + keys[1..];
    }
  }

  /** Labels from one source differ exactly when their targets differ. */
  lemma JoinInjective(s: string, u: string, w: string)
    ensures Join(s, u) == Join(s, w) <==> u == w
  {
    if Join(s, u) == Join(s, w) {
      assert u == Join(s, u)[|s| + 2..];
      assert w == Join(s, w)[|s| + 2..];
    }
  }

  /**
   The labels of the filtered targets: each is `src->u` for a key `u` other
   than the excluded one, every such `src->u` occurs, and none occurs twice.
   */
  lemma NeighborLabels(src: string, keys: seq<string>, excluded: string)
    requires forall i, j :: 0 <= i < j < |keys| ==> keys[i] != keys[j]
    ensures forall u :: Join(src, u) in Labels(src, OtherTargets(keys, excluded)) <==> u in keys && u != excluded
    ensures forall x :: x in Labels(src, OtherTargets(keys, excluded)) ==>
      exists u :: u in keys && u != excluded && x == Join(src, u)
    ensures forall i, j :: 0 <= i < j < |Labels(src, OtherTargets(keys, excluded))| ==>
      Labels(src, OtherTargets(keys, excluded))[i] != Labels(src, OtherTargets(keys, excluded))[j]
  {
    OtherTargetsMembers(keys, excluded);
    var ts := OtherTargets(keys, excluded);
    var ls := Labels(src, ts);
    forall u ensures Join(src, u) in ls <==> u in keys && u != excluded {
      if Join(src, u) in ls {
        var i :| 0 <= i < |ls| && ls[i] == Join(src, u);
        JoinInjective(src, u, ts[i]);
      }
      if u in ts {
        var i :| 0 <= i < |ts| && ts[i] == u;
        assert ls[i] == Join(src, u);
      }
    }
    forall x | x in ls ensures exists u :: u in keys && u != excluded && x == Join(src, u) {
      var i :| 0 <= i < |ls| && ls[i] == x;
      assert ts[i] in ts;
    }
    forall i, j | 0 <= i < j < |ls| ensures ls[i] != ls[j] {
      JoinInjective(src, ts[i], ts[j]);
    }
  }

  /** `ret[:k] if k != -1 else ret`: `-1` means "all", any other `k` is a Python slice bound. */
  function Truncate<T>(xs: seq<T>, k: int): (r: seq<T>)
    ensures r <= xs
    ensures k == -1 || k >= |xs| ==> r == xs
    ensures 0 <= k <= |xs| ==> |r| == k
    ensures k < -1 ==> |r| == if -k <= |xs| then |xs| + k else 0
  {
    if k != -1 then PyRandom.Take(xs, k) else xs
  }

  /** What a truncated shuffle keeps: a prefix of the shuffled list, so only members of the original. */
  lemma TruncatedMembers<T>(order: seq<T>, all: seq<T>, k: int)
    requires multiset(order) == multiset(all)
    ensures |Truncate(order, k)| == |Truncate(all, k)|
    ensures forall x :: x in Truncate(order, k) ==> x in all
    ensures k == -1 || k >= |all| ==> multiset(Truncate(order, k)) == multiset(all)
  {
    assert |order| == |multiset(order)| == |multiset(all)| == |all|;
    if k != -1 && k >= |all| {
      assert Truncate(order, k) == order[..|order|] == order;
    }
    forall x | x in Truncate(order, k) ensures x in all {
      assert x in order;
      assert x in multiset(order);
    }
  }

  /**
   `get_neighbor_of_edge(key, k)`: the outgoing labels of the key's source
   (`<unk>` if that source is not registered) whose target is not the key's
   target, in a shuffled order, cut to `k` unless `k` is -1.
   */
  method NeighborsOfEdge(v: Vocab, key: string, k: int, draw: nat -> nat) returns (ret: seq<string>)
    requires WellFormed(v.edges)
    requires Split(key).Some?
    requires Split(key).value.0 in v.edges.items || Unk in v.edges.items
    ensures var (s, t) := Split(key).value;
      var src := if s in v.edges.items then s else Unk;
      var all := Labels(src, OtherTargets(v.edges.items[src].keys, t));
      |ret| == |Truncate(all, k)| &&
      (exists order :: multiset(order) == multiset(all) && ret == Truncate(order, k))
    ensures var (s, t) := Split(key).value;
      var src := if s in v.edges.items then s else Unk;
      forall x :: x in ret ==> exists u :: u in v.edges.items[src].items && u != t && x == Join(src, u)
  {
    var (s, t) := Split(key).value;
    var src := if s in v.edges.items then s else Unk;
    var row := v.edges.items[src];
    var all := Labels(src, OtherTargets(row.keys, t));
    var order := PyRandom.Shuffle(all, draw);
    ret := Truncate(order, k);
    TruncatedMembers(order, all, k);
    KeysDistinct(row);
    NeighborLabels(src, row.keys, t);
  }

  /**
   `get_neighbor_of_node(key, k)`: for the node `s` with index `key`, its
   outgoing labels other than the self-loop `s->s`, shuffled, cut to `k`
   unless `k` is -1.
   */
  method NeighborsOfNode(v: Vocab, key: int, k: int, draw: nat -> nat) returns (ret: seq<string>)
    requires WellFormed(v.edges)
    requires key in v.nodeIndex && v.nodeIndex[key] in v.edges.items
    ensures var s := v.nodeIndex[key];
      var all := Labels(s, OtherTargets(v.edges.items[s].keys, s));
      |ret| == |Truncate(all, k)| &&
      (exists order :: multiset(order) == multiset(all) && ret == Truncate(order, k))
    ensures var s := v.nodeIndex[key];
      forall x :: x in ret ==> exists u :: u in v.edges.items[s].items && u != s && x == Join(s, u)
  {
    var s := v.nodeIndex[key];
    var row := v.edges.items[s];
    var all := Labels(s, OtherTargets(row.keys, s));
    var order := PyRandom.Shuffle(all, draw);
    ret := Truncate(order, k);
    TruncatedMembers(order, all, k);
    KeysDistinct(row);
    NeighborLabels(s, row.keys, s);
  }

  /**
   With `k == -1` the node query returns each non-self-loop label of the
   node exactly once: a label `s->u` is in the result if and only if `u` is
   a target of `s` other than `s`, and no label repeats.
   */
  lemma NodeNeighborsExact(v: Vocab, key: int, ret: seq<string>)
    requires WellFormed(v.edges)
    requires key in v.nodeIndex && v.nodeIndex[key] in v.edges.items
    requires var s := v.nodeIndex[key];
      multiset(ret) == multiset(Labels(s, OtherTargets(v.edges.items[s].keys, s)))
    ensures var s := v.nodeIndex[key];
      forall u :: Join(s, u) in ret <==> u in v.edges.items[s].items && u != s
    ensures forall i, j :: 0 <= i < j < |ret| ==> ret[i] != ret[j]
  {
    var s := v.nodeIndex[key];
    var row := v.edges.items[s];
    var all := Labels(s, OtherTargets(row.keys, s));
    KeysDistinct(row);
    NeighborLabels(s, row.keys, s);
    forall u ensures Join(s, u) in ret <==> Join(s, u) in all {
      assert Join(s, u) in ret <==> Join(s, u) in multiset(ret);
    }
    PermutationDistinct(ret, all);
  }

  /** A permutation of a list without repeats has none either. */
  lemma PermutationDistinct<T>(xs: seq<T>, ys: seq<T>)
    requires multiset(xs) == multiset(ys)
    requires forall i, j :: 0 <= i < j < |ys| ==> ys[i] != ys[j]
    ensures forall i, j :: 0 <= i < j < |xs| ==> xs[i] != xs[j]
  {
    forall i, j | 0 <= i < j < |xs| ensures xs[i] != xs[j] {
      if xs[i] == xs[j] {
        var x := xs[i];
        assert multiset(xs)[x] >= 2 by {
          assert xs == xs[..i] + [x] + xs[i + 1..j] + [x] + xs[j + 1..];
        }
        DistinctOccursOnce(ys, x);
      }
    }
  }

  /** In a list without repeats every element occurs at most once. */
  lemma {:induction false} DistinctOccursOnce<T>(xs: seq<T>, x: T)
    requires forall i, j :: 0 <= i < j < |xs| ==> xs[i] != xs[j]
    ensures multiset(xs)[x] <= 1
  {
    if xs != [] {
      assert xs == [xs[0]] + xs[1..];
      DistinctOccursOnce(xs[1..], x);
      if x == xs[0] {
        assert x !in xs[1..];
      }
    }
  }

  /**
   `get_neighbor_of_edge_broadcast(key, edges, k)`: the targets of the key's
   source other than the key's target are shuffled once and cut to `k` (a
   plain slice: here -1 drops the last one); the result has one row per
   given edge, pairing that edge's own source with each of those targets.
   The key's source must be registered: there is no `<unk>` fallback here.
   */
  method NeighborsOfEdgeBroadcast(v: Vocab, key: string, edges: seq<string>, draw: nat -> nat, k: int := 100)
    returns (ret: seq<seq<string>>)
    requires WellFormed(v.edges)
    requires Split(key).Some? && Split(key).value.0 in v.edges.items
    requires forall i :: 0 <= i < |edges| ==> Split(edges[i]).Some?
    ensures |ret| == |edges|
    ensures var (s, t) := Split(key).value;
      exists order ::
        multiset(order) == multiset(OtherTargets(v.edges.items[s].keys, t)) &&
        forall i :: 0 <= i < |ret| ==> ret[i] == Labels(Split(edges[i]).value.0, PyRandom.Take(order, k))
  {
    var (s, t) := Split(key).value;
    var targets := OtherTargets(v.edges.items[s].keys, t);
    var order := PyRandom.Shuffle(targets, draw);
    var kept := PyRandom.Take(order, k);
    ret := [];
    var n := 0;
    while n < |edges|
      invariant n <= |edges| && |ret| == n
      invariant forall i :: 0 <= i < n ==> ret[i] == Labels(Split(edges[i]).value.0, kept)
    {
      var (src, _) := Split(edges[n]).value;
      ret := ret + [Labels(src, kept)];
      n := n + 1;
    }
  }

  // ---------------------------------------------------------------------------
  // get_edge_of_node, to_path
  // ---------------------------------------------------------------------------

  /** `get_edge_of_node(key)`: the identifiers of the node's outgoing edges, in insertion order. */
  function EdgesOfNode(v: Vocab, key: string): (ids: seq<EdgeId>)
    requires WellFormed(v.edges) && key in v.edges.items
    ensures |ids| == |v.edges.items[key].keys|
    ensures forall i :: 0 <= i < |ids| ==> ids[i] == Id(v.edges, key, v.edges.items[key].keys[i])
  {
    Values(v.edges.items[key])
  }

  /**
   For a node and targets without separators, `get_edge_of_node(s)` is
   `vocab([s->u for u in edge_dict[s]])`: the identifiers that `fetch` gives
   for the node's outgoing labels, in the same order.
   */
  lemma EdgesOfNodeFetch(v: Vocab, key: string)
    requires WellFormed(v.edges) && key in v.edges.items && NoArrow(key)
    requires forall u :: u in v.edges.items[key].items ==> NoArrow(u)
    ensures AllFetchable(v, Labels(key, v.edges.items[key].keys))
    ensures EdgesOfNode(v, key) == FetchAll(v, Labels(key, v.edges.items[key].keys))
  {
    var row := v.edges.items[key];
    var ls := Labels(key, row.keys);
    forall i | 0 <= i < |ls| ensures Fetchable(v, ls[i]) && Fetch(v, ls[i]) == EdgesOfNode(v, key)[i] {
      assert row.keys[i] in row.items;
      FetchJoin(v, key, row.keys[i]);
    }
  }

  /** `to_path(tokens)`: the labels of the adjacent pairs of `tokens`. */
  function ToPath(tokens: seq<string>): (path: seq<string>)
    decreases |tokens|
  {
    if |tokens| <= 1 then [] else [Join(tokens[0], tokens[1])] + ToPath(tokens[1..])
  }

  /** A path has one label fewer than there are tokens, and label `i` joins tokens `i` and `i + 1`. */
  lemma {:induction false} ToPathAt(tokens: seq<string>)
    ensures |ToPath(tokens)| == if |tokens| == 0 then 0 else |tokens| - 1
    ensures forall i :: 0 <= i < |ToPath(tokens)| ==> ToPath(tokens)[i] == Join(tokens[i], tokens[i + 1])
    decreases |tokens|
  {
    if |tokens| > 1 {
      ToPathAt(tokens[1..]);
      var rest := ToPath(tokens[1..]);
      assert ToPath(tokens) == [Join(tokens[0], tokens[1])] + rest;
      forall i | 1 <= i < |ToPath(tokens)|
        ensures ToPath(tokens)[i] == Join(tokens[i], tokens[i + 1])
      {
        assert ToPath(tokens)[i] == rest[i - 1];
        assert tokens[1..][i - 1] == tokens[i] && tokens[1..][i] == tokens[i + 1];
      }
    }
  }

  /**
   How a decoded path is turned back into text: the first character of the
   first label followed by the last character of every label.
   */
  function Reassemble(labels: seq<string>): (r: string)
    requires |labels| > 0 && forall i :: 0 <= i < |labels| ==> |labels[i]| > 0
  {
    [labels[0][0]] + seq(|labels|, i requires 0 <= i < |labels| && |labels[i]| > 0 => labels[i][|labels[i]| - 1])
  }

  /** The concatenation of a sequence of strings. */
  function Concat(tokens: seq<string>): (r: string)
  {
    if tokens == [] then [] else tokens[0] + Concat(tokens[1..])
  }

  /**
   For a text of at least two characters, cutting it into an edge path and
   reassembling the path gives the text back.
   */
  lemma {:induction false} ReassemblePath(tokens: seq<string>)
    requires |tokens| >= 2
    requires forall i :: 0 <= i < |tokens| ==> |tokens[i]| == 1
    ensures |ToPath(tokens)| > 0 && forall i :: 0 <= i < |ToPath(tokens)| ==> |ToPath(tokens)[i]| > 0
    ensures Reassemble(ToPath(tokens)) == Concat(tokens)
  {
    ToPathAt(tokens);
    var path := ToPath(tokens);
    forall i | 0 <= i < |path| ensures |path[i]| > 0 {
      assert path[i] == Join(tokens[i], tokens[i + 1]);
    }
    var text := Reassemble(path);
    SingleCharsConcat(tokens);
    assert |text| == |tokens|;
    forall i | 0 <= i < |tokens| ensures text[i] == tokens[i][0] {
      if i > 0 {
        assert path[i - 1] == Join(tokens[i - 1], tokens[i]);
      } else {
        assert path[0] == Join(tokens[0], tokens[1]);
      }
    }
  }

  /** A concatenation of one-character strings is the sequence of those characters. */
  lemma {:induction false} SingleCharsConcat(tokens: seq<string>)
    requires forall i :: 0 <= i < |tokens| ==> |tokens[i]| == 1
    ensures |Concat(tokens)| == |tokens|
    ensures forall i :: 0 <= i < |tokens| ==> Concat(tokens)[i] == tokens[i][0]
  {
    if tokens != [] {
      SingleCharsConcat(tokens[1..]);
      forall i | 1 <= i < |tokens| ensures Concat(tokens)[i] == tokens[i][0] {
        assert Concat(tokens)[i] == Concat(tokens[1..])[i - 1];
        assert tokens[1..][i - 1] == tokens[i];
      }
    }
  }
}
