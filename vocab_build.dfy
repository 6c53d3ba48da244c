/**
 The two ways a vocabulary is built.

 Dense (`from_node_dict`): from a node dictionary (node label to integer
 index), every ordered pair of nodes, self-pairs included, becomes an edge
 with identifier `(index(s), index(t))`.

 Sparse (`from_edge`): from the lines of an edge file, each `s->t` after
 trimming. `<unk>-><unk>` is registered first at `(0, 0)`; a source seen for
 the first time gets the next group number (the number of sources so far)
 and offset 0; a later target of a known source gets that source's group and
 the number of targets it already has as offset.
 */
module VocabBuild {
  import opened PyDict
  import opened EdgeLabel
  import opened Vocabulary

  /** The node dictionary of a dense build: node label to node index. */
  type NodeDict = Dict<string, int>

  // ---------------------------------------------------------------------------
  // Dense build
  // ---------------------------------------------------------------------------

  /** Distinct nodes have distinct indices. */
  ghost predicate DistinctIndices(d: NodeDict)
  {
    forall s, t :: s in d.items && t in d.items && d.items[s] == d.items[t] ==> s == t
  }

  /**
   What the dense build produces from `d`. Sources and, under each, targets
   are the nodes in the dictionary's order, and `s->t` has identifier
   `(d[s], d[t])`. Every node index maps back to a node with that index, and
   every decode entry is the label of a node pair with that identifier (when
   indices collide, the pair written last wins; with distinct indices there
   is only one).
   */
  ghost predicate DenseOf(v: Vocab, d: NodeDict)
  {
    Valid(d) && WellFormed(v.edges) &&
    v.edges.keys == d.keys &&
    (forall s :: s in d.items ==> s in v.edges.items && v.edges.items[s].keys == d.keys) &&
    (forall s, t {:trigger Registered(v.edges, s, t)} ::
      s in d.items && t in d.items ==>
      Registered(v.edges, s, t) && Id(v.edges, s, t) == (d.items[s], d.items[t]) &&
      Id(v.edges, s, t) in v.edgeDecode) &&
    (forall s :: s in d.items ==> d.items[s] in v.nodeIndex) &&
    (forall i :: i in v.nodeIndex ==> v.nodeIndex[i] in d.items && d.items[v.nodeIndex[i]] == i)
  }

  /** Every decode entry of a dense build is the label of a node pair with that identifier. */
  ghost predicate DenseDecode(v: Vocab, d: NodeDict)
  {
    forall p {:trigger v.edgeDecode[p]} :: p in v.edgeDecode ==> exists s, t ::
      s in d.items && t in d.items && p == (d.items[s], d.items[t]) && v.edgeDecode[p] == Join(s, t)
  }

  /** The key at position `b` is not among the first `b`, and extends them. */
  lemma NextKey<K(!new), V>(d: Dict<K, V>, b: nat)
    requires Valid(d) && b < |d.keys|
    ensures d.keys[b] in d.items && d.keys[b] !in d.keys[..b]
    ensures d.keys[..b + 1] == d.keys[..b] + [d.keys[b]]
  {
    KeysDistinct(d);
  }

  /** The targets written into `edge_dict[s]` by the first `b` steps of the inner loop. */
  function RowItems(d: NodeDict, s: string, b: nat): (r: map<string, EdgeId>)
    requires Valid(d) && s in d.items && b <= |d.keys|
  {
    if b == 0 then map[]
    else
      var t := d.keys[b - 1];
      assert t in d.keys;
      RowItems(d, s, b - 1)[t := (d.items[s], d.items[t])]
  }

  /** The row `edge_dict[s]` once the first `b` nodes of `d` have been visited as targets. */
  function DenseRow(d: NodeDict, s: string, b: nat): (row: Targets)
    requires Valid(d) && s in d.items && b <= |d.keys|
    ensures Valid(row)
  {
    RowItemsAt(d, s, b);
    UniquePrefix(d.keys, b);
    Dict(d.keys[..b], RowItems(d, s, b))
  }

  /** The first `b` steps write exactly the first `b` nodes, each `t` at `(d[s], d[t])`. */
  lemma {:induction false} RowItemsAt(d: NodeDict, s: string, b: nat)
    requires Valid(d) && s in d.items && b <= |d.keys|
    ensures forall t :: t in RowItems(d, s, b) <==> t in d.keys[..b]
    ensures forall t :: t in RowItems(d, s, b) ==> t in d.items && RowItems(d, s, b)[t] == (d.items[s], d.items[t])
  {
    if b > 0 {
      RowItemsAt(d, s, b - 1);
      NextKey(d, b - 1);
    }
  }

  /** A row is a well-formed dictionary whose every target `t` is at `(d[s], d[t])`. */
  lemma DenseRowValid(d: NodeDict, s: string, b: nat)
    requires Valid(d) && s in d.items && b <= |d.keys|
    ensures Valid(DenseRow(d, s, b))
    ensures forall t :: t in DenseRow(d, s, b).items ==> t in d.items && DenseRow(d, s, b).items[t] == (d.items[s], d.items[t])
  {
    RowItemsAt(d, s, b);
  }

  /** Visiting the next target adds it at the end of the row. */
  lemma DenseRowStep(d: NodeDict, s: string, b: nat)
    requires Valid(d) && s in d.items && b < |d.keys|
    ensures Valid(DenseRow(d, s, b))
    ensures Put(DenseRow(d, s, b), d.keys[b], (d.items[s], d.items[d.keys[b]])) == DenseRow(d, s, b + 1)
  {
    DenseRowValid(d, s, b);
    NextKey(d, b);
    RowItemsAt(d, s, b);
  }

  /** `edge_decode_dict` after the first `b` targets of `s` have been written over `m`. */
  function DenseDecodeRow(d: NodeDict, s: string, b: nat, m: map<EdgeId, string>): (r: map<EdgeId, string>)
    requires Valid(d) && s in d.items && b <= |d.keys|
  {
    if b == 0 then m
    else DenseDecodeRow(d, s, b - 1, m)[(d.items[s], d.items[d.keys[b - 1]]) := Join(s, d.keys[b - 1])]
  }

  /** The rows written into `edge_dict` by the first `a` steps of the outer loop. */
  function EdgeItems(d: NodeDict, a: nat): (r: map<string, Targets>)
    requires Valid(d) && a <= |d.keys|
  {
    if a == 0 then map[]
    else
      var s := d.keys[a - 1];
      assert s in d.keys;
      EdgeItems(d, a - 1)[s := DenseRow(d, s, |d.keys|)]
  }

  /** `edge_dict` once the first `a` nodes of `d` have been visited as sources. */
  function DenseEdges(d: NodeDict, a: nat): (edges: EdgeDict)
    requires Valid(d) && a <= |d.keys|
    ensures Valid(edges)
  {
    EdgeItemsAt(d, a);
    UniquePrefix(d.keys, a);
    Dict(d.keys[..a], EdgeItems(d, a))
  }

  /** The first `a` steps write exactly the first `a` nodes, each holding its full row. */
  lemma {:induction false} EdgeItemsAt(d: NodeDict, a: nat)
    requires Valid(d) && a <= |d.keys|
    ensures forall s :: s in EdgeItems(d, a) <==> s in d.keys[..a]
    ensures forall s :: s in EdgeItems(d, a) ==> s in d.items && EdgeItems(d, a)[s] == DenseRow(d, s, |d.keys|)
  {
    if a > 0 {
      EdgeItemsAt(d, a - 1);
      NextKey(d, a - 1);
    }
  }

  /** Both levels are well-formed, and each visited source holds its full row. */
  lemma DenseEdgesValid(d: NodeDict, a: nat)
    requires Valid(d) && a <= |d.keys|
    ensures WellFormed(DenseEdges(d, a))
    ensures forall s :: s in DenseEdges(d, a).items ==>
      s in d.items && DenseEdges(d, a).items[s] == DenseRow(d, s, |d.keys|)
  {
    EdgeItemsAt(d, a);
    forall s | s in DenseEdges(d, a).items ensures Valid(DenseEdges(d, a).items[s]) {
      DenseRowValid(d, s, |d.keys|);
    }
  }

  /** Visiting the next source adds its full row at the end of `edge_dict`. */
  lemma DenseEdgesStep(d: NodeDict, a: nat)
    requires Valid(d) && a < |d.keys|
    ensures Valid(DenseEdges(d, a)) && d.keys[a] in d.items
    ensures Put(DenseEdges(d, a), d.keys[a], DenseRow(d, d.keys[a], |d.keys|)) == DenseEdges(d, a + 1)
  {
    DenseEdgesValid(d, a);
    NextKey(d, a);
    EdgeItemsAt(d, a);
  }

  /** `nodeindex_dict` once the first `a` nodes have been visited. */
  function DenseNodeIndex(d: NodeDict, a: nat): (m: map<int, string>)
    requires Valid(d) && a <= |d.keys|
    ensures forall i :: i in m ==> m[i] in d.items && d.items[m[i]] == i
    ensures forall x :: 0 <= x < a ==> d.items[d.keys[x]] in m
  {
    if a == 0 then map[]
    else DenseNodeIndex(d, a - 1)[d.items[d.keys[a - 1]] := d.keys[a - 1]]
  }

  /** `edge_decode_dict` once the first `a` nodes have been visited as sources. */
  function DenseDecodeUpTo(d: NodeDict, a: nat): (r: map<EdgeId, string>)
    requires Valid(d) && a <= |d.keys|
  {
    if a == 0 then map[]
    else DenseDecodeRow(d, d.keys[a - 1], |d.keys|, DenseDecodeUpTo(d, a - 1))
  }

  /** The vocabulary `from_node_dict(d)` returns. */
  function DenseBuild(d: NodeDict): (r: Vocab)
    requires Valid(d)
  {
    Vocab(DenseNodeIndex(d, |d.keys|), DenseEdges(d, |d.keys|), DenseDecodeUpTo(d, |d.keys|))
  }

  /** The entry for `p`, if there is one, is the label of a node pair whose identifier is `p`. */
  ghost predicate DecodesNodePair(d: NodeDict, m: map<EdgeId, string>, p: EdgeId)
  {
    p in m ==> exists s, t :: s in d.items && t in d.items && p == (d.items[s], d.items[t]) && m[p] == Join(s, t)
  }

  /** Writing a row keeps every entry the label of a node pair with its identifier. */
  lemma {:induction false} DenseDecodeRowSound(d: NodeDict, s: string, b: nat, m: map<EdgeId, string>, p: EdgeId)
    requires Valid(d) && s in d.items && b <= |d.keys|
    requires DecodesNodePair(d, m, p)
    ensures DecodesNodePair(d, DenseDecodeRow(d, s, b, m), p)
  {
    if b > 0 {
      DenseDecodeRowSound(d, s, b - 1, m, p);
      var t := d.keys[b - 1];
      if p == (d.items[s], d.items[t]) {
        assert t in d.items;
        assert DenseDecodeRow(d, s, b, m)[p] == Join(s, t);
      }
    }
  }

  /** A row keeps the entries already there and adds `(d[s], d[t])` for each of its first `b` targets. */
  lemma {:induction false} DenseDecodeRowHas(d: NodeDict, s: string, b: nat, m: map<EdgeId, string>, p: EdgeId)
    requires Valid(d) && s in d.items && b <= |d.keys|
    ensures p in m ==> p in DenseDecodeRow(d, s, b, m)
    ensures forall y :: 0 <= y < b ==> (d.items[s], d.items[d.keys[y]]) in DenseDecodeRow(d, s, b, m)
  {
    if b > 0 {
      DenseDecodeRowHas(d, s, b - 1, m, p);
    }
  }

  /** Every entry of the decode table is the label of a node pair with that identifier. */
  lemma {:induction false} DenseDecodeUpToSound(d: NodeDict, a: nat, p: EdgeId)
    requires Valid(d) && a <= |d.keys|
    ensures DecodesNodePair(d, DenseDecodeUpTo(d, a), p)
  {
    if a > 0 {
      DenseDecodeUpToSound(d, a - 1, p);
      assert d.keys[a - 1] in d.items;
      DenseDecodeRowSound(d, d.keys[a - 1], |d.keys|, DenseDecodeUpTo(d, a - 1), p);
    }
  }

  /** After `a` sources the decode table has `(d[s], d[t])` for each visited `s` and every node `t`. */
  lemma {:induction false} DenseDecodeUpToHas(d: NodeDict, a: nat, x: nat, y: nat)
    requires Valid(d) && x < a <= |d.keys| && y < |d.keys|
    ensures (d.items[d.keys[x]], d.items[d.keys[y]]) in DenseDecodeUpTo(d, a)
  {
    var s := d.keys[a - 1];
    assert s in d.items;
    var m := DenseDecodeUpTo(d, a - 1);
    var p := (d.items[d.keys[x]], d.items[d.keys[y]]);
    DenseDecodeRowHas(d, s, |d.keys|, m, p);
    if x < a - 1 {
      DenseDecodeUpToHas(d, a - 1, x, y);
    }
  }

  /** The tables of the built vocabulary: every node is a source, and every row lists every node. */
  lemma DenseBuildRows(d: NodeDict)
    requires Valid(d)
    ensures WellFormed(DenseBuild(d).edges) && DenseBuild(d).edges.keys == d.keys
    ensures forall s :: s in d.items ==> s in DenseBuild(d).edges.items && DenseBuild(d).edges.items[s].keys == d.keys
  {
    var n := |d.keys|;
    var e := DenseEdges(d, n);
    assert DenseBuild(d).edges == e;
    assert d.keys[..n] == d.keys;
    DenseEdgesValid(d, n);
    EdgeItemsAt(d, n);
    forall s | s in d.items ensures s in e.items && e.items[s].keys == d.keys {
      assert s in d.keys;
      assert e.items[s] == DenseRow(d, s, n);
    }
  }

  /** In the built vocabulary the pair `s->t` of nodes is at `(d[s], d[t])`, which has a decode entry. */
  lemma DenseBuildPair(d: NodeDict, s: string, t: string)
    requires Valid(d) && s in d.items && t in d.items
    ensures Registered(DenseBuild(d).edges, s, t)
    ensures Id(DenseBuild(d).edges, s, t) == (d.items[s], d.items[t])
    ensures Id(DenseBuild(d).edges, s, t) in DenseBuild(d).edgeDecode
  {
    var n := |d.keys|;
    assert d.keys[..n] == d.keys;
    var x := IndexOf(d, s);
    var y := IndexOf(d, t);
    EdgeItemsAt(d, n);
    assert s in DenseBuild(d).edges.items;
    DenseRowValid(d, s, n);
    RowItemsAt(d, s, n);
    assert t in DenseBuild(d).edges.items[s].items;
    DenseDecodeUpToHas(d, n, x, y);
  }

  /** The built vocabulary has the dense shape, and its decode table holds node-pair labels only. */
  lemma DenseBuildIsDense(d: NodeDict)
    requires Valid(d)
    ensures DenseOf(DenseBuild(d), d) && DenseDecode(DenseBuild(d), d)
  {
    var v := DenseBuild(d);
    DenseBuildRows(d);
    forall s, t | s in d.items && t in d.items
      ensures Registered(v.edges, s, t) && Id(v.edges, s, t) == (d.items[s], d.items[t]) &&
        Id(v.edges, s, t) in v.edgeDecode
    {
      DenseBuildPair(d, s, t);
    }
    forall s | s in d.items ensures d.items[s] in v.nodeIndex {
      var x := IndexOf(d, s);
    }
    forall p | p in v.edgeDecode
      ensures exists s, t :: s in d.items && t in d.items && p == (d.items[s], d.items[t]) && v.edgeDecode[p] == Join(s, t)
    {
      DenseDecodeUpToSound(d, |d.keys|, p);
    }
  }

  /** One step of the inner loop of `from_node_dict` turns the row of `b` targets into that of `b + 1`. */
  lemma DenseInnerStep(d: NodeDict, a: nat, b: nat)
    requires Valid(d) && a < |d.keys| && b < |d.keys|
    ensures var s := d.keys[a];
      var edges := Put(DenseEdges(d, a), s, DenseRow(d, s, b));
      s in d.items && d.keys[b] in d.items && s in edges.items && Valid(edges.items[s]) &&
      Put(edges, s, Put(edges.items[s], d.keys[b], (d.items[s], d.items[d.keys[b]]))) ==
        Put(DenseEdges(d, a), s, DenseRow(d, s, b + 1))
  {
    var s := d.keys[a];
    DenseEdgesStep(d, a);
    DenseRowStep(d, s, b);
    NextKey(d, b);
    var edges := Put(DenseEdges(d, a), s, DenseRow(d, s, b));
    assert edges.items[s] == DenseRow(d, s, b);
    PutTwice(DenseEdges(d, a), s, DenseRow(d, s, b), DenseRow(d, s, b + 1));
  }

  /** Visiting the next source applies its full row of decode entries. */
  lemma DenseDecodeStep(d: NodeDict, a: nat)
    requires Valid(d) && a < |d.keys|
    ensures d.keys[a] in d.items
    ensures DenseDecodeUpTo(d, a + 1) == DenseDecodeRow(d, d.keys[a], |d.keys|, DenseDecodeUpTo(d, a))
  {
    NextKey(d, a);
  }

  /**
   `from_node_dict(d)`: for each node `s` in order, record `nodeindex[d[s]] = s`,
   start an empty row `edge_dict[s]`, and then, for each node `t` in order,
   register `s->t` at `(d[s], d[t])` in both directions (the inner loop is
   `VisitTargets`).
   */
  method FromNodeDict(d: NodeDict) returns (v: Vocab)
    requires Valid(d)
    ensures v == DenseBuild(d)
    ensures DenseOf(v, d) && DenseDecode(v, d)
  {
    var nodeIndex: map<int, string> := map[];
    var edges: EdgeDict := Empty();
    var decode: map<EdgeId, string> := map[];
    var a := 0;
    assert DenseEdges(d, 0) == Empty();
    while a < |d.keys|
      invariant 0 <= a <= |d.keys|
      invariant nodeIndex == DenseNodeIndex(d, a)
      invariant edges == DenseEdges(d, a)
      invariant decode == DenseDecodeUpTo(d, a)
    {
      var s := d.keys[a];
      NextKey(d, a);
      nodeIndex := nodeIndex[d.items[s] := s];
      edges := Put(edges, s, Empty());
      edges, decode := VisitTargets(d, a, edges, decode);
      a := a + 1;
    }
    v := Vocab(nodeIndex, edges, decode);
    DenseBuildIsDense(d);
  }

  /**
   The inner loop of `from_node_dict` for the source `s = d.keys[a]`, whose
   row has just been started empty: it fills the row and the decode table.
   */
  method VisitTargets(d: NodeDict, a: nat, edges0: EdgeDict, decode0: map<EdgeId, string>)
    returns (edges: EdgeDict, decode: map<EdgeId, string>)
    requires Valid(d) && a < |d.keys|
    requires edges0 == Put(DenseEdges(d, a), d.keys[a], Empty())
    requires decode0 == DenseDecodeUpTo(d, a)
    ensures edges == DenseEdges(d, a + 1) && decode == DenseDecodeUpTo(d, a + 1)
  {
    var s := d.keys[a];
    NextKey(d, a);
    assert DenseRow(d, s, 0) == Empty();
    edges, decode := edges0, decode0;
    var b := 0;
    while b < |d.keys|
      invariant 0 <= b <= |d.keys|
      invariant edges == Put(DenseEdges(d, a), s, DenseRow(d, s, b))
      invariant decode == DenseDecodeRow(d, s, b, DenseDecodeUpTo(d, a))
    {
      edges, decode := VisitTarget(d, a, b, edges, decode);
      b := b + 1;
    }
    assert b == |d.keys|;
    DenseEdgesStep(d, a);
    DenseDecodeStep(d, a);
  }

  /** One step of that inner loop: `s->t` for `t = d.keys[b]` is written in both directions. */
  method VisitTarget(d: NodeDict, a: nat, b: nat, edges0: EdgeDict, decode0: map<EdgeId, string>)
    returns (edges: EdgeDict, decode: map<EdgeId, string>)
    requires Valid(d) && a < |d.keys| && b < |d.keys|
    requires edges0 == Put(DenseEdges(d, a), d.keys[a], DenseRow(d, d.keys[a], b))
    requires decode0 == DenseDecodeRow(d, d.keys[a], b, DenseDecodeUpTo(d, a))
    ensures edges == Put(DenseEdges(d, a), d.keys[a], DenseRow(d, d.keys[a], b + 1))
    ensures decode == DenseDecodeRow(d, d.keys[a], b + 1, DenseDecodeUpTo(d, a))
  {
    var s, t := d.keys[a], d.keys[b];
    DenseInnerStep(d, a, b);
    var id := (d.items[s], d.items[t]);
    edges := Put(edges0, s, Put(edges0.items[s], t, id));
    decode := decode0[id := Join(s, t)];
  }

  /** With distinct indices, the node index table is the exact inverse of the node dictionary. */
  lemma DenseIndexInverse(v: Vocab, d: NodeDict, s: string)
    requires DenseOf(v, d) && DistinctIndices(d)
    requires s in d.items
    ensures d.items[s] in v.nodeIndex && v.nodeIndex[d.items[s]] == s
  {
    var i := d.items[s];
    assert i in v.nodeIndex;
    var s' := v.nodeIndex[i];
    assert s' in d.items && d.items[s'] == i;
  }

  /** In a dense vocabulary the registered edges are exactly the node pairs. */
  lemma DenseRegistered(v: Vocab, d: NodeDict, s: string, t: string)
    requires DenseOf(v, d)
    ensures Registered(v.edges, s, t) <==> s in d.items && t in d.items
  {
    if s in d.items && t in d.items {
      assert Registered(v.edges, s, t);
    }
    if s in v.edges.items {
      assert s in v.edges.keys;
      assert s in d.items;
      var row := v.edges.items[s];
      if t in row.items {
        assert t in row.keys;
        assert t in d.items;
      }
    }
  }

  /**
   With distinct indices and separator-free labels, `fetch` of `s->t` is
   `(d[s], d[t])` and `decode` of that identifier is `s->t` again.
   */
  lemma DenseRoundTrip(v: Vocab, d: NodeDict, s: string, t: string)
    requires DenseOf(v, d) && DenseDecode(v, d) && DistinctIndices(d)
    requires s in d.items && t in d.items && NoArrow(s) && NoArrow(t)
    ensures Fetchable(v, Join(s, t)) && Fetch(v, Join(s, t)) == (d.items[s], d.items[t])
    ensures Fetch(v, Join(s, t)) in v.edgeDecode && DecodeId(v, Fetch(v, Join(s, t))) == Join(s, t)
  {
    assert Registered(v.edges, s, t) && Id(v.edges, s, t) == (d.items[s], d.items[t]);
    FetchJoin(v, s, t);
    var p := (d.items[s], d.items[t]);
    assert p in v.edgeDecode;
    var s', t' :| s' in d.items && t' in d.items && p == (d.items[s'], d.items[t']) && v.edgeDecode[p] == Join(s', t');
    assert d.items[s'] == d.items[s] && d.items[t'] == d.items[t];
    assert s' == s && t' == t;
  }

  /**
   The dense fallback exists only when the node dictionary has `<unk>`: then
   any splittable label that is not a node pair is fetched as
   `(d[<unk>], d[<unk>])`.
   */
  lemma DenseFallback(v: Vocab, d: NodeDict, x: string)
    requires DenseOf(v, d) && Unk in d.items
    requires Split(x).Some? && !(Split(x).value.0 in d.items && Split(x).value.1 in d.items)
    ensures Fetchable(v, x) && Fetch(v, x) == (d.items[Unk], d.items[Unk])
  {
    var (s, t) := Split(x).value;
    DenseRegistered(v, d, s, t);
    DenseRegistered(v, d, Unk, Unk);
  }

  /** Without `<unk>` among the nodes, `fetch` of a label that is not a node pair raises. */
  lemma DenseNoFallback(v: Vocab, d: NodeDict, x: string)
    requires DenseOf(v, d) && Unk !in d.items
    requires Split(x).Some? && !(Split(x).value.0 in d.items && Split(x).value.1 in d.items)
    ensures !Fetchable(v, x)
  {
    var (s, t) := Split(x).value;
    DenseRegistered(v, d, s, t);
    DenseRegistered(v, d, Unk, Unk);
  }

  /**
   `get_edge_of_node(s)` in a dense vocabulary: one identifier per node, and
   the `i`-th is `(d[s], d[t])` for the `i`-th node `t`.
   */
  lemma DenseEdgesOfNode(v: Vocab, d: NodeDict, s: string, i: int)
    requires DenseOf(v, d) && s in d.items && 0 <= i < |d.keys|
    ensures s in v.edges.items && |EdgesOfNode(v, s)| == |d.keys|
    ensures EdgesOfNode(v, s)[i] == (d.items[s], d.items[d.keys[i]])
  {
    var t := d.keys[i];
    assert t in d.keys;
    assert t in d.items;
    assert Registered(v.edges, s, t);
    assert v.edges.items[s].keys == d.keys;
  }

  /**
   The node query in a dense vocabulary with distinct indices: for the node
   `s` with index `d[s]`, the labels to shuffle are `s->u` for every node
   `u` other than `s`, one fewer than there are nodes.
   */
  lemma DenseNodeNeighbors(v: Vocab, d: NodeDict, s: string)
    requires DenseOf(v, d) && DistinctIndices(d)
    requires s in d.items
    ensures d.items[s] in v.nodeIndex && v.nodeIndex[d.items[s]] == s && s in v.edges.items
    ensures Labels(s, OtherTargets(v.edges.items[s].keys, s)) == Labels(s, OtherTargets(d.keys, s))
    ensures |Labels(s, OtherTargets(d.keys, s))| == |d.keys| - 1
  {
    DenseIndexInverse(v, d, s);
    assert s in v.edges.items && v.edges.items[s].keys == d.keys;
    assert s in d.keys;
    KeysDistinct(d);
    OtherTargetsMembers(d.keys, s);
  }

  // ---------------------------------------------------------------------------
  // Sparse build
  // ---------------------------------------------------------------------------

  /** The two tables `from_edge` fills: `edge_dict` and `edge_decode_dict`. */
  datatype Tables = Tables(edges: EdgeDict, edgeDecode: map<EdgeId, string>)

  /** Reading an edge file gives the tables, or the index of the first line that does not split. */
  datatype EdgeFile = Read(tables: Tables) | Malformed(line: nat)

  /** A line split into its source and target, or `None` when it does not split. */
  type Parsed = Option<(string, string)>

  /** Each line trimmed and split, as the loop of `from_edge` does before using it. */
  function Parse(lines: seq<string>): (ps: seq<Parsed>)
    ensures |ps| == |lines|
    ensures forall i :: 0 <= i < |lines| ==> ps[i] == Split(Strip(lines[i]))
  {
    seq(|lines|, i requires 0 <= i < |lines| => Split(Strip(lines[i])))
  }

  /** The pairs of lines that all split. */
  function Pairs(parsed: seq<Parsed>): (ps: seq<(string, string)>)
    requires forall i :: 0 <= i < |parsed| ==> parsed[i].Some?
    ensures |ps| == |parsed|
    ensures forall i :: 0 <= i < |parsed| ==> parsed[i] == Some(ps[i])
  {
    seq(|parsed|, i requires 0 <= i < |parsed| => parsed[i].value)
  }

  /** No pair is repeated and none is `<unk>-><unk>`, which is registered before any line. */
  ghost predicate FreshPairs(ps: seq<(string, string)>)
  {
    (forall i, j :: 0 <= i < j < |ps| ==> ps[i] != ps[j]) &&
    (forall i :: 0 <= i < |ps| ==> ps[i] != (Unk, Unk))
  }

  /** Both levels of `edge_dict` are well-formed and every source has at least one target. */
  ghost predicate RowsNonEmpty(edges: EdgeDict)
  {
    WellFormed(edges) && forall s :: s in edges.items ==> |edges.items[s].keys| > 0
  }

  /**
   The identifier the next line out of `s` gets: a new source takes group
   `len(edge_dict)` and offset 0; a known one takes the group of its first
   target and offset `len(edge_dict[s])`.
   */
  function NextId(edges: EdgeDict, s: string): (r: EdgeId)
    requires RowsNonEmpty(edges)
  {
    if s !in edges.items then (|edges.keys|, 0)
    else
      var row := edges.items[s];
      (row.items[row.keys[0]].0, |row.keys|)
  }

  /** The tables after the line `s->t`: the edge is written at `NextId` in both directions. */
  function AddLine(tb: Tables, s: string, t: string): (r: Tables)
    requires RowsNonEmpty(tb.edges)
    ensures RowsNonEmpty(r.edges)
  {
    var id := NextId(tb.edges, s);
    var row := if s in tb.edges.items then tb.edges.items[s] else Empty();
    Tables(Put(tb.edges, s, Put(row, t, id)), tb.edgeDecode[id := Join(s, t)])
  }

  /** The tables before the first line: `<unk>-><unk>` at `(0, 0)` and an empty decode table. */
  function Start(): (r: Tables)
    ensures RowsNonEmpty(r.edges)
  {
    Tables(Single(Unk, Single(Unk, (0, 0))), map[])
  }

  /** The tables after the lines whose pairs are `ps`, in order. */
  function SparseBuild(ps: seq<(string, string)>): (r: Tables)
    ensures RowsNonEmpty(r.edges)
  {
    if |ps| == 0 then Start()
    else AddLine(SparseBuild(ps[..|ps| - 1]), ps[|ps| - 1].0, ps[|ps| - 1].1)
  }

  /** Reading one more line that splits applies `AddLine` to the tables of the lines before it. */
  lemma BuildStep(parsed: seq<Parsed>, n: nat)
    requires n < |parsed| && forall i :: 0 <= i <= n ==> parsed[i].Some?
    ensures SparseBuild(Pairs(parsed[..n + 1])) ==
      AddLine(SparseBuild(Pairs(parsed[..n])), parsed[n].value.0, parsed[n].value.1)
  {
    assert Pairs(parsed[..n + 1])[..n] == Pairs(parsed[..n]);
  }

  /**
   `<unk>` is the first source; every source has at least one target; and
   every identifier has as group the position of its source in `edge_dict`,
   so distinct sources have distinct groups.
   */
  ghost predicate GroupsArePositions(edges: EdgeDict)
  {
    WellFormed(edges) &&
    |edges.keys| > 0 && edges.keys[0] == Unk &&
    (forall g :: 0 <= g < |edges.keys| ==> |edges.items[edges.keys[g]].keys| > 0) &&
    (forall g, t :: 0 <= g < |edges.keys| && t in edges.items[edges.keys[g]].items ==>
      edges.items[edges.keys[g]].items[t].0 == g)
  }

  /** Inside each group, the offsets are 0, 1, 2, ... in the order the targets were added. */
  ghost predicate OffsetsArePositions(edges: EdgeDict)
  {
    WellFormed(edges) &&
    forall s, j :: s in edges.items && 0 <= j < |edges.items[s].keys| ==>
      edges.items[s].items[edges.items[s].keys[j]].1 == j
  }

  /** The registered edges are `<unk>-><unk>` and the pairs of the lines. */
  ghost predicate RegisteredExactly(edges: EdgeDict, ps: seq<(string, string)>)
  {
    forall s, t :: Registered(edges, s, t) <==> (s, t) == (Unk, Unk) || (s, t) in ps
  }

  /**
   The decode table is the exact inverse of the lines' part of `edge_dict`:
   each line's identifier decodes to its label, and each decode entry is the
   identifier of some line.
   */
  ghost predicate DecodeInverse(edges: EdgeDict, decode: map<EdgeId, string>, ps: seq<(string, string)>)
  {
    DecodesLines(edges, decode, ps) && DecodesOnlyLines(edges, decode, ps)
  }

  /** Every line's edge is registered and its identifier decodes to its label. */
  ghost predicate DecodesLines(edges: EdgeDict, decode: map<EdgeId, string>, ps: seq<(string, string)>)
  {
    forall s, t :: (s, t) in ps ==>
      Registered(edges, s, t) && Id(edges, s, t) in decode && decode[Id(edges, s, t)] == Join(s, t)
  }

  /** Every identifier in the decode table is that of a line's edge. */
  ghost predicate DecodesOnlyLines(edges: EdgeDict, decode: map<EdgeId, string>, ps: seq<(string, string)>)
  {
    forall p :: p in decode ==> exists s, t :: (s, t) in ps && Registered(edges, s, t) && Id(edges, s, t) == p
  }

  /** The group of a registered edge is the position of its source. */
  lemma GroupOf(edges: EdgeDict, s: string, t: string)
    requires GroupsArePositions(edges) && Registered(edges, s, t)
    ensures 0 <= Id(edges, s, t).0 < |edges.keys| && edges.keys[Id(edges, s, t).0] == s
  {
    var g := IndexOf(edges, s);
    assert edges.items[edges.keys[g]].items[t].0 == g;
  }

  /** The offset of a registered edge is the position of its target under the source. */
  lemma OffsetOf(edges: EdgeDict, s: string, t: string)
    requires OffsetsArePositions(edges) && Registered(edges, s, t)
    ensures 0 <= Id(edges, s, t).1 < |edges.items[s].keys| && edges.items[s].keys[Id(edges, s, t).1] == t
  {
    var j := IndexOf(edges.items[s], t);
    assert edges.items[s].items[edges.items[s].keys[j]].1 == j;
  }

  /** A line registers its own edge at `NextId` and leaves every other edge as it was. */
  lemma AddLineEdges(tb: Tables, s: string, t: string, x: string, y: string)
    requires RowsNonEmpty(tb.edges)
    ensures Registered(AddLine(tb, s, t).edges, s, t)
    ensures Id(AddLine(tb, s, t).edges, s, t) == NextId(tb.edges, s)
    ensures (x, y) != (s, t) ==>
      (Registered(AddLine(tb, s, t).edges, x, y) <==> Registered(tb.edges, x, y)) &&
      (Registered(tb.edges, x, y) ==> Id(AddLine(tb, s, t).edges, x, y) == Id(tb.edges, x, y))
  {
  }

  /** The identifier a line gets is not that of any edge already registered. */
  lemma NextIdFresh(edges: EdgeDict, s: string, x: string, y: string)
    requires RowsNonEmpty(edges) && GroupsArePositions(edges) && OffsetsArePositions(edges)
    requires Registered(edges, x, y)
    ensures Id(edges, x, y) != NextId(edges, s)
  {
    GroupOf(edges, x, y);
    OffsetOf(edges, x, y);
    KeysDistinct(edges);
    if s in edges.items {
      var g := IndexOf(edges, s);
      var row := edges.items[s];
      assert row.keys[0] in row.items;
      assert NextId(edges, s).0 == g;
    }
  }

  /** A line keeps every group the position of its source. */
  lemma AddLineGroups(tb: Tables, s: string, t: string)
    requires RowsNonEmpty(tb.edges) && GroupsArePositions(tb.edges)
    ensures GroupsArePositions(AddLine(tb, s, t).edges)
  {
    var e' := AddLine(tb, s, t).edges;
    assert e'.keys[0] == Unk;
    forall g, u | 0 <= g < |e'.keys| && u in e'.items[e'.keys[g]].items
      ensures e'.items[e'.keys[g]].items[u].0 == g
    {
      AddLineGroupAt(tb, s, t, g, u);
    }
  }

  /** One target of one group after a line: the group is still the position of the source. */
  lemma AddLineGroupAt(tb: Tables, s: string, t: string, g: int, u: string)
    requires RowsNonEmpty(tb.edges) && GroupsArePositions(tb.edges)
    requires 0 <= g < |AddLine(tb, s, t).edges.keys|
    requires u in AddLine(tb, s, t).edges.items[AddLine(tb, s, t).edges.keys[g]].items
    ensures AddLine(tb, s, t).edges.items[AddLine(tb, s, t).edges.keys[g]].items[u].0 == g
  {
    var e, e' := tb.edges, AddLine(tb, s, t).edges;
    var id := NextId(e, s);
    var row := if s in e.items then e.items[s] else Empty();
    var row' := Put(row, t, id);
    assert e' == Put(e, s, row');
    assert e'.items == e.items[s := row'];
    if s in e.items {
      assert e'.keys == e.keys;
      if e.keys[g] != s {
        assert e'.items[e.keys[g]] == e.items[e.keys[g]];
      } else {
        KnownSourceGroup(e, s, g);
        assert row'.items == row.items[t := id];
      }
    } else {
      assert e'.keys == e.keys + [s];
      if g < |e.keys| {
        assert e'.keys[g] == e.keys[g] && e.keys[g] != s;
        assert e'.items[e.keys[g]] == e.items[e.keys[g]];
      } else {
        assert e'.keys[g] == s && g == |e.keys|;
        assert row'.items == map[t := id];
      }
    }
  }

  /** A known source sits at one position, which is the group of its first target. */
  lemma KnownSourceGroup(e: EdgeDict, s: string, g: int)
    requires RowsNonEmpty(e) && GroupsArePositions(e)
    requires s in e.items && 0 <= g < |e.keys| && e.keys[g] == s
    ensures NextId(e, s).0 == g
  {
    KeysDistinct(e);
    var row := e.items[s];
    assert row.keys[0] in row.items;
  }

  /** A line whose edge is new keeps the offsets the positions of the targets. */
  lemma AddLineOffsets(tb: Tables, s: string, t: string)
    requires RowsNonEmpty(tb.edges) && OffsetsArePositions(tb.edges) && !Registered(tb.edges, s, t)
    ensures OffsetsArePositions(AddLine(tb, s, t).edges)
  {
    var e, id := tb.edges, NextId(tb.edges, s);
    var row := if s in e.items then e.items[s] else Empty();
    var row' := Put(row, t, id);
    var e' := Put(e, s, row');
    assert AddLine(tb, s, t).edges == e';
    assert t !in row.items && id.1 == |row.keys|;
    assert row'.keys == row.keys + [t];
    assert e'.items == e.items[s := row'];
    forall x, j | x in e'.items && 0 <= j < |e'.items[x].keys| ensures e'.items[x].items[e'.items[x].keys[j]].1 == j {
      if x != s {
        assert e'.items[x] == e.items[x];
      } else if j < |row.keys| {
        assert row'.keys[j] == row.keys[j] != t;
      }
    }
  }

  /** A fresh line keeps the decode table the inverse of the lines' edges. */
  lemma AddLineDecode(tb: Tables, s: string, t: string, ps: seq<(string, string)>)
    requires RowsNonEmpty(tb.edges) && GroupsArePositions(tb.edges) && OffsetsArePositions(tb.edges)
    requires DecodeInverse(tb.edges, tb.edgeDecode, ps) && (s, t) !in ps
    ensures DecodeInverse(AddLine(tb, s, t).edges, AddLine(tb, s, t).edgeDecode, ps + [(s, t)])
  {
    AddLineDecodes(tb, s, t, ps);
    AddLineDecodesOnly(tb, s, t, ps);
  }

  /** After a line, its own edge and every earlier line's edge still decode to their labels. */
  lemma AddLineDecodes(tb: Tables, s: string, t: string, ps: seq<(string, string)>)
    requires RowsNonEmpty(tb.edges) && GroupsArePositions(tb.edges) && OffsetsArePositions(tb.edges)
    requires DecodesLines(tb.edges, tb.edgeDecode, ps)
    ensures DecodesLines(AddLine(tb, s, t).edges, AddLine(tb, s, t).edgeDecode, ps + [(s, t)])
  {
    forall x, y | (x, y) in ps + [(s, t)]
      ensures Registered(AddLine(tb, s, t).edges, x, y) &&
        Id(AddLine(tb, s, t).edges, x, y) in AddLine(tb, s, t).edgeDecode &&
        AddLine(tb, s, t).edgeDecode[Id(AddLine(tb, s, t).edges, x, y)] == Join(x, y)
    {
      if (x, y) == (s, t) {
        AddLineDecodesNew(tb, s, t);
      } else {
        assert (x, y) in ps;
        AddLineDecodesOld(tb, s, t, x, y);
      }
    }
  }

  /** The new line's edge decodes to its label. */
  lemma AddLineDecodesNew(tb: Tables, s: string, t: string)
    requires RowsNonEmpty(tb.edges)
    ensures Registered(AddLine(tb, s, t).edges, s, t) &&
      Id(AddLine(tb, s, t).edges, s, t) in AddLine(tb, s, t).edgeDecode &&
      AddLine(tb, s, t).edgeDecode[Id(AddLine(tb, s, t).edges, s, t)] == Join(s, t)
  {
    AddLineEdges(tb, s, t, s, t);
  }

  /** An earlier edge keeps its identifier, which the new line does not take, so it still decodes. */
  lemma AddLineDecodesOld(tb: Tables, s: string, t: string, x: string, y: string)
    requires RowsNonEmpty(tb.edges) && GroupsArePositions(tb.edges) && OffsetsArePositions(tb.edges)
    requires (x, y) != (s, t) && Registered(tb.edges, x, y)
    requires Id(tb.edges, x, y) in tb.edgeDecode && tb.edgeDecode[Id(tb.edges, x, y)] == Join(x, y)
    ensures Registered(AddLine(tb, s, t).edges, x, y) &&
      Id(AddLine(tb, s, t).edges, x, y) in AddLine(tb, s, t).edgeDecode &&
      AddLine(tb, s, t).edgeDecode[Id(AddLine(tb, s, t).edges, x, y)] == Join(x, y)
  {
    AddLineEdges(tb, s, t, x, y);
    NextIdFresh(tb.edges, s, x, y);
  }

  /** After a line, the decode table holds only the identifiers of the lines' edges. */
  lemma AddLineDecodesOnly(tb: Tables, s: string, t: string, ps: seq<(string, string)>)
    requires RowsNonEmpty(tb.edges) && DecodesOnlyLines(tb.edges, tb.edgeDecode, ps) && (s, t) !in ps
    ensures DecodesOnlyLines(AddLine(tb, s, t).edges, AddLine(tb, s, t).edgeDecode, ps + [(s, t)])
  {
    var e, r := tb.edges, AddLine(tb, s, t);
    AddLineEdges(tb, s, t, s, t);
    forall p | p in r.edgeDecode
      ensures exists x, y :: (x, y) in ps + [(s, t)] && Registered(r.edges, x, y) && Id(r.edges, x, y) == p
    {
      if p == NextId(e, s) {
        assert (s, t) in ps + [(s, t)];
      } else {
        var x, y :| (x, y) in ps && Registered(e, x, y) && Id(e, x, y) == p;
        AddLineEdges(tb, s, t, x, y);
        assert (x, y) in ps + [(s, t)];
      }
    }
  }

  /** A line adds its own pair to the registered edges. */
  lemma AddLineRegistered(tb: Tables, s: string, t: string, ps: seq<(string, string)>)
    requires RowsNonEmpty(tb.edges) && RegisteredExactly(tb.edges, ps)
    ensures RegisteredExactly(AddLine(tb, s, t).edges, ps + [(s, t)])
  {
    forall x, y ensures Registered(AddLine(tb, s, t).edges, x, y) <==>
      (x, y) == (Unk, Unk) || (x, y) in ps + [(s, t)]
    {
      AddLineEdges(tb, s, t, x, y);
    }
  }

  /** A non-empty sequence is its front followed by its last element. */
  lemma SplitLast<T>(xs: seq<T>)
    requires |xs| > 0
    ensures xs == xs[..|xs| - 1] + [xs[|xs| - 1]]
  {
  }

  /** Before any line: one group, `<unk>`, holding `<unk>-><unk>` at `(0, 0)`, and nothing to decode. */
  lemma StartShape()
    ensures GroupsArePositions(Start().edges) && OffsetsArePositions(Start().edges)
    ensures RegisteredExactly(Start().edges, [])
    ensures Registered(Start().edges, Unk, Unk) && Id(Start().edges, Unk, Unk) == (0, 0)
    ensures DecodeInverse(Start().edges, Start().edgeDecode, [])
  {
    var e := Start().edges;
    assert e.keys[0] == Unk && e.items[Unk].keys[0] == Unk;
  }

  /** Whatever the lines, every group is the position of its source in `edge_dict`. */
  lemma {:induction false} SparseGroups(ps: seq<(string, string)>)
    ensures GroupsArePositions(SparseBuild(ps).edges)
  {
    if |ps| == 0 {
      StartShape();
    } else {
      var q, s, t := ps[..|ps| - 1], ps[|ps| - 1].0, ps[|ps| - 1].1;
      assert SparseBuild(ps) == AddLine(SparseBuild(q), s, t);
      SparseGroups(q);
      AddLineGroups(SparseBuild(q), s, t);
    }
  }

  /** Whatever the lines, the registered edges are `<unk>-><unk>` and those of the lines. */
  lemma {:induction false} SparseRegistered(ps: seq<(string, string)>)
    ensures RegisteredExactly(SparseBuild(ps).edges, ps)
  {
    if |ps| == 0 {
      StartShape();
    } else {
      var q, s, t := ps[..|ps| - 1], ps[|ps| - 1].0, ps[|ps| - 1].1;
      assert SparseBuild(ps) == AddLine(SparseBuild(q), s, t);
      SparseRegistered(q);
      AddLineRegistered(SparseBuild(q), s, t, q);
      SplitLast(ps);
    }
  }

  /** Unless a line names it again, `<unk>-><unk>` keeps the identifier `(0, 0)`. */
  lemma {:induction false} SparseUnkFirst(ps: seq<(string, string)>)
    requires (Unk, Unk) !in ps
    ensures Registered(SparseBuild(ps).edges, Unk, Unk) && Id(SparseBuild(ps).edges, Unk, Unk) == (0, 0)
  {
    if |ps| == 0 {
      StartShape();
    } else {
      var q, s, t := ps[..|ps| - 1], ps[|ps| - 1].0, ps[|ps| - 1].1;
      assert (s, t) in ps;
      assert SparseBuild(ps) == AddLine(SparseBuild(q), s, t);
      SparseUnkFirst(q);
      AddLineEdges(SparseBuild(q), s, t, Unk, Unk);
    }
  }

  /**
   With no repeated pair and none equal to `<unk>-><unk>`, the offsets are
   the positions of the targets and the decode table is the exact inverse of
   the lines' edges.
   */
  lemma {:induction false} SparseFresh(ps: seq<(string, string)>)
    requires FreshPairs(ps)
    ensures OffsetsArePositions(SparseBuild(ps).edges)
    ensures DecodeInverse(SparseBuild(ps).edges, SparseBuild(ps).edgeDecode, ps)
    decreases |ps|
  {
    if |ps| == 0 {
      StartShape();
    } else {
      var q, s, t := ps[..|ps| - 1], ps[|ps| - 1].0, ps[|ps| - 1].1;
      assert FreshPairs(q) by {
        forall i, j | 0 <= i < j < |q| ensures q[i] != q[j] {
          assert q[i] == ps[i] && q[j] == ps[j];
        }
      }
      assert (s, t) !in q && (s, t) != (Unk, Unk) by {
        forall i | 0 <= i < |q| ensures q[i] != (s, t) {
          assert q[i] == ps[i];
        }
      }
      SparseFresh(q);
      SparseFreshStep(q, s, t);
      SplitLast(ps);
    }
  }

  /** A fresh line after the lines `q` keeps the offsets positions and the decode table the inverse. */
  lemma SparseFreshStep(q: seq<(string, string)>, s: string, t: string)
    requires (s, t) !in q && (s, t) != (Unk, Unk)
    requires OffsetsArePositions(SparseBuild(q).edges)
    requires DecodeInverse(SparseBuild(q).edges, SparseBuild(q).edgeDecode, q)
    ensures OffsetsArePositions(SparseBuild(q + [(s, t)]).edges)
    ensures DecodeInverse(SparseBuild(q + [(s, t)]).edges, SparseBuild(q + [(s, t)]).edgeDecode, q + [(s, t)])
  {
    assert (q + [(s, t)])[..|q|] == q;
    assert SparseBuild(q + [(s, t)]) == AddLine(SparseBuild(q), s, t);
    SparseFreshOffsets(q, s, t);
    SparseFreshDecode(q, s, t);
  }

  /** The offset half of that step. */
  lemma SparseFreshOffsets(q: seq<(string, string)>, s: string, t: string)
    requires (s, t) !in q && (s, t) != (Unk, Unk)
    requires OffsetsArePositions(SparseBuild(q).edges)
    ensures OffsetsArePositions(AddLine(SparseBuild(q), s, t).edges)
  {
    SparseGroups(q);
    SparseRegistered(q);
    AddLineOffsets(SparseBuild(q), s, t);
  }

  /** The decode half of that step. */
  lemma SparseFreshDecode(q: seq<(string, string)>, s: string, t: string)
    requires (s, t) !in q
    requires OffsetsArePositions(SparseBuild(q).edges)
    requires DecodeInverse(SparseBuild(q).edges, SparseBuild(q).edgeDecode, q)
    ensures DecodeInverse(AddLine(SparseBuild(q), s, t).edges, AddLine(SparseBuild(q), s, t).edgeDecode, q + [(s, t)])
  {
    SparseGroups(q);
    AddLineDecode(SparseBuild(q), s, t, q);
  }

  /** With fresh pairs, two registered edges with the same identifier are the same edge. */
  lemma SparseIdsInjective(ps: seq<(string, string)>, s: string, t: string, x: string, y: string)
    requires FreshPairs(ps)
    requires Registered(SparseBuild(ps).edges, s, t) && Registered(SparseBuild(ps).edges, x, y)
    requires Id(SparseBuild(ps).edges, s, t) == Id(SparseBuild(ps).edges, x, y)
    ensures s == x && t == y
  {
    var e := SparseBuild(ps).edges;
    SparseGroups(ps);
    SparseFresh(ps);
    GroupOf(e, s, t);
    GroupOf(e, x, y);
    OffsetOf(e, s, t);
    OffsetOf(e, x, y);
  }

  /**
   `(0, 0)` is never written to the decode table, whatever the lines: a
   new source gets group `len(edge_dict) >= 1`, and a known source gets
   offset `len(edge_dict[s]) >= 1`. So `decode` of the unknown identifier
   raises KeyError.
   */
  lemma {:induction false} SparseUnkNotDecoded(ps: seq<(string, string)>)
    ensures (0, 0) !in SparseBuild(ps).edgeDecode
    ensures |SparseBuild(ps).edges.keys| > 0
    decreases |ps|
  {
    if |ps| > 0 {
      var tb := SparseBuild(ps[..|ps| - 1]);
      SparseUnkNotDecoded(ps[..|ps| - 1]);
      var s := ps[|ps| - 1].0;
      if s in tb.edges.items {
        assert |tb.edges.items[s].keys| > 0;
      }
    }
  }

  /**
   The sparse round trip: with fresh pairs, the label of a line whose parts
   hold no separator is fetched as its registered identifier, which decodes
   back to the label.
   */
  lemma SparseRoundTrip(ps: seq<(string, string)>, s: string, t: string)
    requires FreshPairs(ps) && (s, t) in ps && NoArrow(s) && NoArrow(t)
    ensures var v := Vocab(map[], SparseBuild(ps).edges, SparseBuild(ps).edgeDecode);
      Fetchable(v, Join(s, t)) && Registered(v.edges, s, t) && Fetch(v, Join(s, t)) == Id(v.edges, s, t) &&
      Fetch(v, Join(s, t)) in v.edgeDecode && DecodeId(v, Fetch(v, Join(s, t))) == Join(s, t)
  {
    var v := Vocab(map[], SparseBuild(ps).edges, SparseBuild(ps).edgeDecode);
    SparseFresh(ps);
    FetchJoin(v, s, t);
  }

  /**
   `from_edge` on the given lines (the file reading itself is not
   modelled): each line is trimmed and split; a new source gets group
   `len(edge_dict)` and offset 0, a known source keeps the group of its first
   target and takes offset `len(edge_dict[s])`; `edge_decode_dict` maps the
   identifier back to the label.
   */
  method FromEdgeLines(lines: seq<string>) returns (out: EdgeFile)
    ensures out.Malformed? ==>
      out.line < |lines| && Parse(lines)[out.line].None? &&
      forall i :: 0 <= i < out.line ==> Parse(lines)[i].Some?
    ensures out.Read? ==>
      (forall i :: 0 <= i < |lines| ==> Parse(lines)[i].Some?) &&
      out.tables == SparseBuild(Pairs(Parse(lines)))
  {
    var edges, decode := StartTables();
    assert Pairs(Parse(lines)[..0]) == [];
    ghost var parsed := Parse(lines);
    var n := 0;
    while n < |lines|
      invariant 0 <= n <= |lines| && forall i :: 0 <= i < n ==> parsed[i].Some?
      invariant Tables(edges, decode) == SparseBuild(Pairs(parsed[..n]))
    {
      var parts := Split(Strip(lines[n]));
      if parts.None? {
        return Malformed(n);
      }
      var (s, t) := parts.value;
      BuildStep(parsed, n);
      edges, decode := ReadLine(edges, decode, s, t);
      n := n + 1;
    }
    assert parsed[..n] == parsed;
    out := Read(Tables(edges, decode));
  }

  /** The tables `from_edge` starts from: `{"<unk>": {"<unk>": (0, 0)}}` and `{}`. */
  method StartTables() returns (edges: EdgeDict, decode: map<EdgeId, string>)
    ensures Tables(edges, decode) == Start()
  {
    edges := Put(Empty(), Unk, Empty());
    edges := Put(edges, Unk, Put(edges.items[Unk], Unk, (0, 0)));
    decode := map[];
    PutEmpty(Unk, Single(Unk, (0, 0)));
    PutEmpty(Unk, (0, 0));
    PutTwice(Empty(), Unk, Empty(), Single(Unk, (0, 0)));
  }

  /** The body of the loop of `from_edge` for a line that split into `s` and `t`. */
  method ReadLine(edges0: EdgeDict, decode0: map<EdgeId, string>, s: string, t: string)
    returns (edges: EdgeDict, decode: map<EdgeId, string>)
    requires RowsNonEmpty(edges0)
    ensures Tables(edges, decode) == AddLine(Tables(edges0, decode0), s, t)
  {
    edges := edges0;
    var i, j;
    if s !in edges.items {
      i, j := |edges.keys|, 0;
      edges := Put(edges, s, Empty());
      PutTwice(edges0, s, Empty(), Put(Empty(), t, (i, j)));
    } else {
      var row := edges.items[s];
      i, j := row.items[row.keys[0]].0, |row.keys|;
    }
    edges := Put(edges, s, Put(edges.items[s], t, (i, j)));
    decode := decode0[(i, j) := Join(s, t)];
  }
}
