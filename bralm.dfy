/**
 The discrete skeleton of `BraLM.decode`. The prefix `start` of edge
 identifiers is ingested one pair at a time, each adding a row to the energy
 cache. Then, for `max_new_tokens` steps, the candidates are the edges out of
 the current node `x` (its neighbors, shuffled, fetched as identifiers).
 One of them is picked, by sampling or greedily by its score. With `y` the
 second component (the offset) of the picked identifier, the pair `(x, y)` is
 appended, the cache gains the picked candidate's row, and `x` moves to `y`.
 Only in a dense build is that offset the target's node index.

 The tensor arithmetic is abstract. `energy(cache, pair, i)` is the new row
 computed from the cache, the pair's parameters and positional row `i`.
 `norm` is the score of a row. The cache is kept as the sequence of its rows.
 */
module BraLM {
  import opened EdgeLabel
  import opened Vocabulary
  import opened VocabBuild

  /** The rows of `positions` and of the positional encoding. */
  const PositionCount := 512

  /** Why decoding stops with an exception. */
  datatype Fault =
    | EmptyStart              // `pair` is unbound after iterating an empty `start`
    | UnknownNode(key: int)   // `nodeindex_dict[x]` or `edge_dict[s]` raises KeyError
    | BadCandidate(key: int)  // `fetch` raises on one of the neighbor labels
    | DeadEnd(key: int)       // `torch.cat` of no candidates raises

  /** The decoded pairs and the energy cache, or the fault that ended decoding with the pairs and rows it had. */
  datatype Outcome<E> =
    | Done(ret: seq<EdgeId>, cache: seq<E>)
    | Crashed(fault: Fault, ret: seq<EdgeId>, cache: seq<E>)

  /** The number of iterations of `range(n)`. */
  function Steps(n: int): (r: nat)
  {
    if n < 0 then 0 else n
  }

  /** `get_neighbor_of_node(key, -1)` finds the node and its row. */
  predicate HasRow(v: Vocab, key: int)
  {
    key in v.nodeIndex && v.nodeIndex[key] in v.edges.items
  }

  /** The labels `s->u` for the targets `u != s` of the node `s` with index `key`, in row order. */
  function NodeLabels(v: Vocab, key: int): (r: seq<string>)
    requires HasRow(v, key)
  {
    var s := v.nodeIndex[key];
    Labels(s, OtherTargets(v.edges.items[s].keys, s))
  }

  /** The node has a row and `fetch` accepts all its neighbor labels. */
  predicate Ready(v: Vocab, key: int)
  {
    HasRow(v, key) && AllFetchable(v, NodeLabels(v, key))
  }

  /** The candidate identifiers of a node, in row order (decoding sees them shuffled). */
  function Candidates(v: Vocab, key: int): (r: seq<EdgeId>)
    requires Ready(v, key)
  {
    FetchAll(v, NodeLabels(v, key))
  }

  /**
   Every node index is ready and has a candidate, and every candidate's
   target is again a node index: decoding can go on from any node.
   */
  ghost predicate Closed(v: Vocab)
  {
    forall x :: x in v.nodeIndex ==>
      Ready(v, x) && |NodeLabels(v, x)| > 0 &&
      forall c :: c in Candidates(v, x) ==> c.1 in v.nodeIndex
  }

  /** `argmax`: the index of the first largest score. */
  function ArgMax(scores: seq<real>): (k: nat)
    requires |scores| > 0
    ensures k < |scores|
    ensures forall j :: 0 <= j < |scores| ==> scores[j] <= scores[k]
    ensures forall j :: 0 <= j < k ==> scores[j] < scores[k]
    decreases |scores|
  {
    if |scores| == 1 then 0
    else
      var k := ArgMax(scores[..|scores| - 1]);
      if scores[|scores| - 1] > scores[k] then |scores| - 1 else k
  }

  /** The score of each candidate: the norm of the row it would add. */
  function Scores<E>(energy: (seq<E>, EdgeId, nat) -> E, norm: E -> real,
                     cache: seq<E>, cands: seq<EdgeId>, i: nat): (r: seq<real>)
    ensures |r| == |cands|
    ensures forall m :: 0 <= m < |cands| ==> r[m] == norm(energy(cache, cands[m], i))
  {
    seq(|cands|, m requires 0 <= m < |cands| => norm(energy(cache, cands[m], i)))
  }

  /** Row `k` of the cache is the energy of pair `k` of the prefix over the rows before it. */
  ghost predicate Ingested<E>(energy: (seq<E>, EdgeId, nat) -> E, start: seq<EdgeId>, cache: seq<E>)
  {
    |start| <= |cache| &&
    forall k :: 0 <= k < |start| ==> cache[k] == energy(cache[..k], start[k], k)
  }

  /**
   Generation step `j` wrote position `k = n + j`. From the second component
   `x` of the pair before, it picked the candidate `z` of `x`. It appended `(x, z.1)`
   and the row `energy(cache[..k], z, j)`, whose positional row is the step
   number `j`. Greedily, no candidate scores higher than `z`.
   */
  ghost predicate GenStep<E>(v: Vocab, doSample: bool, energy: (seq<E>, EdgeId, nat) -> E, norm: E -> real,
                             ret: seq<EdgeId>, cache: seq<E>, n: nat, j: nat, z: EdgeId)
  {
    0 < n + j < |ret| && n + j < |cache| &&
    Ready(v, ret[n + j - 1].1) && z in Candidates(v, ret[n + j - 1].1) &&
    ret[n + j] == (ret[n + j - 1].1, z.1) &&
    cache[n + j] == energy(cache[..n + j], z, j) &&
    (!doSample ==> Best(v, energy, norm, cache[..n + j], ret[n + j - 1].1, z, j))
  }

  /** No candidate of `x` adds a row with a higher score than the row of `z`. */
  ghost predicate Best<E>(v: Vocab, energy: (seq<E>, EdgeId, nat) -> E, norm: E -> real,
                          cache: seq<E>, x: int, z: EdgeId, j: nat)
    requires Ready(v, x)
  {
    forall c :: c in Candidates(v, x) ==> norm(energy(cache, c, j)) <= norm(energy(cache, z, j))
  }

  /**
   `vocab(vocab.get_neighbor_of_node(x, -1))`: the shuffled neighbor labels
   of `x`, fetched as identifiers, or the fault raised on the way.
   */
  method CandidatesOf(v: Vocab, key: int, draw: nat -> nat) returns (cands: seq<EdgeId>, fault: Option<Fault>)
    requires WellFormed(v.edges)
    ensures fault.None? <==> Ready(v, key)
    ensures fault.Some? ==> fault.value == if HasRow(v, key) then BadCandidate(key) else UnknownNode(key)
    ensures fault.None? ==> multiset(cands) == multiset(Candidates(v, key))
  {
    if !HasRow(v, key) {
      return [], Some(UnknownNode(key));
    }
    var labels := ShuffledLabels(v, key, draw);
    SameFetchable(v, labels, NodeLabels(v, key));
    if !AllFetchable(v, labels) {
      return [], Some(BadCandidate(key));
    }
    cands := FetchAll(v, labels);
    fault := None;
    FetchAllPerm(v, labels, NodeLabels(v, key));
  }

  /** `get_neighbor_of_node(key, -1)`: the neighbor labels of the node, in shuffled order. */
  method ShuffledLabels(v: Vocab, key: int, draw: nat -> nat) returns (labels: seq<string>)
    requires WellFormed(v.edges) && HasRow(v, key)
    ensures multiset(labels) == multiset(NodeLabels(v, key))
  {
    labels := NeighborsOfNode(v, key, -1, draw);
    SameLabels(labels, NodeLabels(v, key));
  }

  /** A shuffle of the labels, kept whole, is `Truncate(order, -1)` of a permutation. */
  lemma SameLabels(labels: seq<string>, all: seq<string>)
    requires exists order :: multiset(order) == multiset(all) && labels == Truncate(order, -1)
    ensures multiset(labels) == multiset(all)
  {
    var order :| multiset(order) == multiset(all) && labels == Truncate(order, -1);
    assert labels == order;
  }

  /** Two orderings of the same labels are both accepted by `fetch` or both not. */
  lemma SameFetchable(v: Vocab, xs: seq<string>, ys: seq<string>)
    requires multiset(xs) == multiset(ys)
    ensures AllFetchable(v, xs) <==> AllFetchable(v, ys)
  {
    if !AllFetchable(v, xs) {
      var i :| 0 <= i < |xs| && !Fetchable(v, xs[i]);
      assert xs[i] in multiset(ys);
    }
    if !AllFetchable(v, ys) {
      var i :| 0 <= i < |ys| && !Fetchable(v, ys[i]);
      assert ys[i] in multiset(xs);
    }
  }

  /**
   `BraLM.decode(start, vocab, max_new_tokens=16, do_sample=False)`. The tensor arithmetic is
   `energy` and `norm`. The n-th shuffle uses the stream `shuffleDraws(n)`. The
   n-th sample takes index `sampleDraws(n) % len(candidates)`, which can be any
   index, as `torch.multinomial` over softmax probabilities can.
   */
  method Decode<E>(start: seq<EdgeId>, v: Vocab,
                   energy: (seq<E>, EdgeId, nat) -> E, norm: E -> real,
                   shuffleDraws: nat -> nat -> nat, sampleDraws: nat -> nat,
                   maxNewTokens: int := 16, doSample: bool := false)
    returns (out: Outcome<E>, ghost picks: seq<EdgeId>)
    requires WellFormed(v.edges)
    requires |start| <= PositionCount && |start| + Steps(maxNewTokens) <= PositionCount + 1
    ensures |start| == 0 <==> out == Crashed(EmptyStart, [], [])
    ensures |start| > 0 ==>
      |out.ret| == |out.cache| == |start| + |picks| &&
      out.ret[..|start|] == start && Ingested(energy, start, out.cache) &&
      forall j :: 0 <= j < |picks| ==> GenStep(v, doSample, energy, norm, out.ret, out.cache, |start|, j, picks[j])
    ensures out.Done? ==> |picks| == Steps(maxNewTokens)
    ensures |start| > 0 && Steps(maxNewTokens) == 0 ==> out.Done?
    ensures out.Crashed? && |start| > 0 ==>
      !out.fault.EmptyStart? && |picks| < Steps(maxNewTokens) && out.fault.key == out.ret[|out.ret| - 1].1
    ensures out.Crashed? && out.fault.UnknownNode? ==> !HasRow(v, out.fault.key)
    ensures out.Crashed? && out.fault.BadCandidate? ==> HasRow(v, out.fault.key) && !Ready(v, out.fault.key)
    ensures out.Crashed? && out.fault.DeadEnd? ==> Ready(v, out.fault.key) && NodeLabels(v, out.fault.key) == []
    ensures |start| > 0 && Closed(v) && start[|start| - 1].1 in v.nodeIndex ==> out.Done?
  {
    if |start| == 0 {
      return Crashed(EmptyStart, [], []), [];
    }
    out, picks := Generate(start, v, energy, norm, shuffleDraws, sampleDraws, maxNewTokens, doSample);
  }

  /**
   The body of `decode` for a non-empty `start`: the prefix is ingested, and
   then `max_new_tokens` steps each append one pair chained from the current
   node, unless a step faults.
   */
  method Generate<E>(start: seq<EdgeId>, v: Vocab,
                     energy: (seq<E>, EdgeId, nat) -> E, norm: E -> real,
                     shuffleDraws: nat -> nat -> nat, sampleDraws: nat -> nat,
                     maxNewTokens: int, doSample: bool)
    returns (out: Outcome<E>, ghost picks: seq<EdgeId>)
    requires WellFormed(v.edges)
    requires 0 < |start| <= PositionCount && |start| + Steps(maxNewTokens) <= PositionCount + 1
    ensures |out.ret| == |out.cache| == |start| + |picks|
    ensures out.ret[..|start|] == start && Ingested(energy, start, out.cache)
    ensures forall j :: 0 <= j < |picks| ==> GenStep(v, doSample, energy, norm, out.ret, out.cache, |start|, j, picks[j])
    ensures out.Done? <==> |picks| == Steps(maxNewTokens)
    ensures out.Crashed? ==>
      !out.fault.EmptyStart? && |picks| < Steps(maxNewTokens) && out.fault.key == out.ret[|out.ret| - 1].1
    ensures out.Crashed? && out.fault.UnknownNode? ==> !HasRow(v, out.fault.key)
    ensures out.Crashed? && out.fault.BadCandidate? ==> HasRow(v, out.fault.key) && !Ready(v, out.fault.key)
    ensures out.Crashed? && out.fault.DeadEnd? ==> Ready(v, out.fault.key) && NodeLabels(v, out.fault.key) == []
    ensures Closed(v) && start[|start| - 1].1 in v.nodeIndex ==> out.Done?
  {
    picks := [];
    var ret, cache := Ingest(start, energy);
    var x := start[|start| - 1].1;
    var j := 0;
    while j < maxNewTokens
      invariant 0 <= j <= Steps(maxNewTokens) && |picks| == j
      invariant |ret| == |cache| == |start| + j && ret[..|start|] == start && Ingested(energy, start, cache)
      invariant x == ret[|ret| - 1].1
      invariant forall m :: 0 <= m < j ==> GenStep(v, doSample, energy, norm, ret, cache, |start|, m, picks[m])
      invariant Closed(v) && start[|start| - 1].1 in v.nodeIndex ==> x in v.nodeIndex
    {
      var fault, z := GenerateStep(v, doSample, energy, norm, cache, x, j, shuffleDraws(j), sampleDraws(j));
      if fault.Some? {
        return Crashed(fault.value, ret, cache), picks;
      }
      Extend(v, doSample, energy, norm, start, ret, cache, picks, x, z);
      ret, cache := ret + [(x, z.1)], cache + [energy(cache, z, j)];
      picks := picks + [z];
      x := z.1;
      j := j + 1;
    }
    out := Done(ret, cache);
  }

  /**
   One step of the generation loop from node `x`: the candidates are
   fetched, and one is picked, by the sample `sample % len(candidates)` or by
   `ArgMax` of the scores; or the fault that stops decoding.
   */
  method GenerateStep<E>(v: Vocab, doSample: bool, energy: (seq<E>, EdgeId, nat) -> E, norm: E -> real,
                         cache: seq<E>, x: int, j: nat, draw: nat -> nat, sample: nat)
    returns (fault: Option<Fault>, z: EdgeId)
    requires WellFormed(v.edges)
    ensures fault.None? <==> Ready(v, x) && |NodeLabels(v, x)| > 0
    ensures fault.Some? ==>
      fault.value == if !HasRow(v, x) then UnknownNode(x) else if !Ready(v, x) then BadCandidate(x) else DeadEnd(x)
    ensures fault.None? ==> z in Candidates(v, x) && (!doSample ==> Best(v, energy, norm, cache, x, z, j))
  {
    var cands;
    cands, fault := CandidatesOf(v, x, draw);
    if fault.Some? {
      return fault, (0, 0);
    }
    assert |cands| == |NodeLabels(v, x)| by {
      assert |multiset(cands)| == |multiset(Candidates(v, x))|;
    }
    if |cands| == 0 {
      return Some(DeadEnd(x)), (0, 0);
    }
    var index;
    if doSample {
      index := sample % |cands|;
    } else {
      var scores := Scores(energy, norm, cache, cands, j);
      index := ArgMax(scores);
      forall c | c in Candidates(v, x) ensures norm(energy(cache, c, j)) <= norm(energy(cache, cands[index], j)) {
        assert c in multiset(cands);
        var m :| 0 <= m < |cands| && cands[m] == c;
        assert scores[m] == norm(energy(cache, c, j));
      }
    }
    z := cands[index];
    assert z in multiset(Candidates(v, x));
  }

  /** The pair and row a generation step appends make that step hold of the longer sequences. */
  lemma NewStep<E>(v: Vocab, doSample: bool, energy: (seq<E>, EdgeId, nat) -> E, norm: E -> real,
                   ret: seq<EdgeId>, cache: seq<E>, n: nat, j: nat, x: int, z: EdgeId)
    requires |ret| == |cache| == n + j > 0 && x == ret[|ret| - 1].1
    requires Ready(v, x) && z in Candidates(v, x) && (!doSample ==> Best(v, energy, norm, cache, x, z, j))
    ensures GenStep(v, doSample, energy, norm, ret + [(x, z.1)], cache + [energy(cache, z, j)], n, j, z)
  {
    assert (cache + [energy(cache, z, j)])[..n + j] == cache;
  }

  /** The first loop of `decode`: each pair of `start` is appended with its row in the cache. */
  method Ingest<E>(start: seq<EdgeId>, energy: (seq<E>, EdgeId, nat) -> E)
    returns (ret: seq<EdgeId>, cache: seq<E>)
    requires |start| <= PositionCount
    ensures ret == start && |cache| == |start| && Ingested(energy, start, cache)
  {
    ret, cache := [], [];
    var i := 0;
    while i < |start|
      invariant 0 <= i <= |start| && ret == start[..i] && |cache| == i
      invariant forall k :: 0 <= k < i ==> cache[k] == energy(cache[..k], start[k], k)
    {
      ghost var c0 := cache;
      cache := cache + [energy(cache, start[i], i)];
      assert forall k :: 0 <= k <= i ==> cache[..k] == c0[..k];
      ret := ret + [start[i]];
      i := i + 1;
    }
  }

  /** A generation step from the last target keeps the prefix, the ingested rows and every step so far. */
  lemma Extend<E>(v: Vocab, doSample: bool, energy: (seq<E>, EdgeId, nat) -> E, norm: E -> real,
                  start: seq<EdgeId>, ret: seq<EdgeId>, cache: seq<E>, picks: seq<EdgeId>, x: int, z: EdgeId)
    requires 0 < |start| && |ret| == |cache| == |start| + |picks| && x == ret[|ret| - 1].1
    requires ret[..|start|] == start && Ingested(energy, start, cache)
    requires forall m :: 0 <= m < |picks| ==> GenStep(v, doSample, energy, norm, ret, cache, |start|, m, picks[m])
    requires Ready(v, x) && z in Candidates(v, x) && (!doSample ==> Best(v, energy, norm, cache, x, z, |picks|))
    ensures (ret + [(x, z.1)])[..|start|] == start && Ingested(energy, start, cache + [energy(cache, z, |picks|)])
    ensures forall m :: 0 <= m < |picks + [z]| ==>
      GenStep(v, doSample, energy, norm, ret + [(x, z.1)], cache + [energy(cache, z, |picks|)], |start|, m, (picks + [z])[m])
  {
    var j := |picks|;
    Appended(v, doSample, energy, norm, start, ret, cache, (x, z.1), energy(cache, z, j), picks);
    NewStep(v, doSample, energy, norm, ret, cache, |start|, j, x, z);
    forall m | 0 <= m < |picks + [z]|
      ensures GenStep(v, doSample, energy, norm, ret + [(x, z.1)], cache + [energy(cache, z, j)], |start|, m, (picks + [z])[m])
    {
      if m < j {
        assert (picks + [z])[m] == picks[m];
      }
    }
  }

  /** Appending a pair and a row keeps the prefix, the ingested rows and the earlier steps. */
  lemma Appended<E>(v: Vocab, doSample: bool, energy: (seq<E>, EdgeId, nat) -> E, norm: E -> real,
                    start: seq<EdgeId>, ret: seq<EdgeId>, cache: seq<E>, p: EdgeId, row: E, picks: seq<EdgeId>)
    requires |ret| == |cache| == |start| + |picks| && ret[..|start|] == start && Ingested(energy, start, cache)
    requires forall m :: 0 <= m < |picks| ==> GenStep(v, doSample, energy, norm, ret, cache, |start|, m, picks[m])
    ensures (ret + [p])[..|start|] == start && Ingested(energy, start, cache + [row])
    ensures forall m :: 0 <= m < |picks| ==>
      GenStep(v, doSample, energy, norm, ret + [p], cache + [row], |start|, m, picks[m])
  {
    assert (ret + [p])[..|start|] == ret[..|start|];
    assert forall k :: 0 <= k <= |cache| ==> (cache + [row])[..k] == cache[..k];
  }

  // ---------------------------------------------------------------------------
  // Decoding over a dense vocabulary
  // ---------------------------------------------------------------------------

  /**
   In a dense vocabulary with distinct indices and separator-free nodes, the
   candidates of node `x` are the pairs `(x, d[u])` for the other nodes `u`,
   so every generated pair moves to a different node.
   */
  lemma DenseStep(v: Vocab, d: NodeDict, x: int, c: EdgeId)
    requires DenseOf(v, d) && DenseDecode(v, d) && DistinctIndices(d)
    requires forall s :: s in d.items ==> NoArrow(s)
    requires Ready(v, x) && c in Candidates(v, x)
    ensures c.0 == x && c.1 != x && c.1 in v.nodeIndex
  {
    var labels := NodeLabels(v, x);
    FetchAllFrom(v, labels, c);
    var i :| 0 <= i < |labels| && c == Fetch(v, labels[i]);
    DenseLabel(v, d, x, i);
  }

  /**
   A generated pair of a dense vocabulary starts at the target of the pair
   before it and ends at a different node.
   */
  lemma DenseGenerated<E>(v: Vocab, d: NodeDict, doSample: bool, energy: (seq<E>, EdgeId, nat) -> E,
                          norm: E -> real, ret: seq<EdgeId>, cache: seq<E>, n: nat, j: nat, z: EdgeId)
    requires DenseOf(v, d) && DenseDecode(v, d) && DistinctIndices(d)
    requires forall s :: s in d.items ==> NoArrow(s)
    requires GenStep(v, doSample, energy, norm, ret, cache, n, j, z)
    ensures ret[n + j].0 == ret[n + j - 1].1 && ret[n + j].1 != ret[n + j].0
    ensures ret[n + j] == z && ret[n + j].1 in v.nodeIndex
  {
    DenseStep(v, d, ret[n + j - 1].1, z);
  }

  /**
   A dense vocabulary over at least two separator-free nodes with distinct
   indices is closed: decoding from any node index runs to the end.
   */
  lemma DenseReady(v: Vocab, d: NodeDict)
    requires DenseOf(v, d) && DenseDecode(v, d) && DistinctIndices(d)
    requires forall s :: s in d.items ==> NoArrow(s)
    requires |d.keys| >= 2
    ensures Closed(v)
  {
    forall x | x in v.nodeIndex
      ensures Ready(v, x) && |NodeLabels(v, x)| > 0 &&
        forall c :: c in Candidates(v, x) ==> c.1 in v.nodeIndex
    {
      DenseNodeReady(v, d, x);
      forall c | c in Candidates(v, x) ensures c.1 in v.nodeIndex {
        DenseStep(v, d, x, c);
      }
    }
  }

  /** A node of a dense vocabulary has `|d| - 1` neighbor labels, all of which `fetch` accepts. */
  lemma DenseNodeReady(v: Vocab, d: NodeDict, x: int)
    requires DenseOf(v, d) && DenseDecode(v, d) && DistinctIndices(d)
    requires forall s :: s in d.items ==> NoArrow(s)
    requires x in v.nodeIndex
    ensures Ready(v, x) && |NodeLabels(v, x)| == |d.keys| - 1
  {
    var s := v.nodeIndex[x];
    assert s in d.items && v.edges.items[s].keys == d.keys;
    DenseNodeNeighbors(v, d, s);
    DenseLabelsFetchable(v, d, x);
  }

  /** `fetch` accepts every neighbor label of a dense node. */
  lemma DenseLabelsFetchable(v: Vocab, d: NodeDict, x: int)
    requires DenseOf(v, d) && DenseDecode(v, d) && DistinctIndices(d)
    requires forall s :: s in d.items ==> NoArrow(s)
    requires HasRow(v, x)
    ensures AllFetchable(v, NodeLabels(v, x))
  {
    forall i | 0 <= i < |NodeLabels(v, x)| ensures Fetchable(v, NodeLabels(v, x)[i]) {
      DenseLabel(v, d, x, i);
    }
  }

  /** The `i`-th neighbor label of node `x` is `s->u` for another node `u`, fetched as `(x, d[u])`. */
  lemma DenseLabel(v: Vocab, d: NodeDict, x: int, i: int)
    requires DenseOf(v, d) && DenseDecode(v, d) && DistinctIndices(d)
    requires forall s :: s in d.items ==> NoArrow(s)
    requires HasRow(v, x) && 0 <= i < |NodeLabels(v, x)|
    ensures Fetchable(v, NodeLabels(v, x)[i])
    ensures Fetch(v, NodeLabels(v, x)[i]).0 == x
    ensures Fetch(v, NodeLabels(v, x)[i]).1 != x && Fetch(v, NodeLabels(v, x)[i]).1 in v.nodeIndex
  {
    var s := v.nodeIndex[x];
    assert s in d.items && d.items[s] == x && v.edges.items[s].keys == d.keys;
    OtherTargetsMembers(d.keys, s);
    var u := OtherTargets(d.keys, s)[i];
    assert u in OtherTargets(d.keys, s);
    assert NodeLabels(v, x)[i] == Join(s, u);
    assert u in d.items && u != s;
    DenseRoundTrip(v, d, s, u);
  }
}
