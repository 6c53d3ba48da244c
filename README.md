# BriLLM vocabulary and decoding skeleton in Dafny

This project models the character-transition vocabulary `Vocab` of BriLLM
(`model.py`) and the discrete control structure of `BraLM.decode`. It then
proves properties of both.

The vocabulary has three tables:
- nodes are characters, and `nodeindex_dict` maps node indices back to them;
- `edge_dict` maps a source node and a target node to an edge identifier `(group, offset)`;
- `edge_decode_dict` maps an identifier back to the label `"s->t"`.

It is built in two ways. The dense build `from_node_dict` registers every
ordered pair of nodes. The sparse build `from_edge` registers only the pairs
read from an edge file; it pre-registers `<unk>-><unk>` at `(0, 0)` and
hands out offsets per source in order of first appearance. Python dicts
keep insertion order, and the offsets, `get_edge_of_node` and the neighbor
lists depend on it. So the node dict and each level of `edge_dict` are a map
paired with its key order (`PyDict.Dict`). `nodeindex_dict` and
`edge_decode_dict` are only looked up, never iterated, so they are plain maps.

Decoding:
1. Ingest a prefix of edge identifiers, one energy-cache row per pair.
2. Run `max_new_tokens` times from the current node `x`:
   - take the shuffled neighbor labels of `x` and fetch them as candidates;
   - pick one, by sampling or greedily;
   - append `(x, y)` where `y = candidates[index][-1]` is the second component (the offset) of the picked edge identifier, add its row to the cache, and move to `y`.

The tensor arithmetic is abstracted into two function parameters:
- `energy(cache, pair, i)` computes a new row;
- `norm` scores a row.

The randomness of `random.shuffle` and `torch.multinomial` also comes in as
parameters (streams of draws).

Files:
- `py_dict.dfy`: insertion-ordered dicts.
- `edge_label.dfy`: `"->".join`, `split("->")` and `strip()`.
- `py_random.dfy`: `random.shuffle` and slicing.
- `vocabulary.dfy`: the lookups and queries on a built vocabulary.
- `vocab_build.dfy`: the two builders.
- `bralm.dfy`: decoding.

Behaviour of the code that the model keeps as written:
- `fetch` raises ValueError unless the label holds `"->"` exactly once, because
  `s, t = x.split("->")` (model.py:19) needs exactly two parts
  (`Vocabulary.FetchRejectsMalformed`).
- On an unregistered pair, `fetch` falls back to `edge_dict["<unk>"]["<unk>"]`
  (model.py:20). A dense vocabulary built without a `"<unk>"` node has no
  such entry, so there `fetch` raises KeyError (`VocabBuild.DenseNoFallback`).
  With a `"<unk>"` node the fallback is `(d["<unk>"], d["<unk>"])`
  (`VocabBuild.DenseFallback`).
- The sparse build puts `<unk>-><unk>` at `(0, 0)` in `edge_dict` (model.py:39),
  but never writes `(0, 0)` into `edge_decode_dict`, so `decode((0, 0))` raises
  KeyError (`VocabBuild.SparseUnkNotDecoded`).
- Decoding moves to `y = candidates[index][-1]` (model.py:174), the second
  component of the picked edge identifier, and looks `y` up as a node index.
  In a dense build that component is the target's node index
  (`BraLM.DenseGenerated`). In the tables of the sparse build it is the offset
  of the target within its source's row, a rank and not a node index; were a
  vocabulary built from those tables, the walk would move to whichever node
  has that index. `BraLM.GenStep` keeps the step as `(x, z.1)`. `from_edge`
  itself never returns a vocabulary (see "## Left out"), and the model's
  sparse vocabulary has an empty node index, on which decoding stops with
  `UnknownNode` at the first step.
- `temperature <= 0` is not rejected: it only skips the division
  `probs / temperature` (model.py:167-168).

## Model

| member | source | states |
|---|---|---|
| PyDict.Put | model.py:29-32 | assigning `d[k] = v` keeps the keys unique, updates the value, keeps the position of an existing key and appends a new one |
| PyDict.PutTwice | model.py:47-51 | assigning the same key twice leaves the dict that the second assignment alone leaves; also used for the row rewrites at model.py:29-31 and model.py:38-39 |
| EdgeLabel.Split | model.py:19 | definition of `s, t = x.split("->")`: the parts around the first separator when there is no second one, and no result (ValueError) otherwise; `EdgeLabel.SplitJoin` and `EdgeLabel.SplitSound` state what it does |
| EdgeLabel.SplitJoin | model.py:19 | `split("->")` of `"s->t"` unpacks into `(s, t)` exactly when neither part contains `"->"`, and raises otherwise |
| EdgeLabel.SplitSound | model.py:19 | any label that unpacks is the join of its two parts, and neither part contains the separator |
| EdgeLabel.FindArrow | model.py:19 | the separator search returns the first occurrence at or after the start point, or reports that none exists |
| EdgeLabel.Strip | model.py:43 | definition of `line.strip()` as whitespace removed from the front and then from the back; `EdgeLabel.StripSpec` states what it keeps |
| EdgeLabel.StripSpec | model.py:43 | `strip()` keeps a contiguous part of the line that neither starts nor ends with whitespace, and removes only whitespace around it |
| PyRandom.Shuffle | model.py:59 | `random.shuffle` returns a permutation of its input (same multiset) |
| PyRandom.Take | model.py:60 | `xs[:k]` is a prefix of `xs` of length `min(k, len)` for `k >= 0`, and `len + k` (at least 0) for negative `k` |
| Vocabulary.Fetch | model.py:18-20 | definition of `fetch`: split the label, then the registered id or else the `<unk>-><unk>` id; its requires is the absence of the ValueError and KeyError; every answer is the id of some registered edge (the fallback is itself registered); `Vocabulary.FetchJoin` and `Vocabulary.FetchRejectsMalformed` state what it does |
| Vocabulary.FetchJoin | model.py:18-20 | for separator-free `s` and `t`: `fetch("s->t")` is the registered id of `(s, t)` when that pair is registered, and otherwise the `<unk>-><unk>` id if that pair is registered (else KeyError) |
| Vocabulary.FetchRejectsMalformed | model.py:19 | `fetch` raises on a label whose parts contain the separator |
| Vocabulary.DecodeId | model.py:88-89 | definition of `decode` as the lookup in `edge_decode_dict`; its requires is the absence of the KeyError; `VocabBuild.DenseRoundTrip`, `VocabBuild.SparseRoundTrip` and `VocabBuild.SparseUnkNotDecoded` state what it returns |
| Vocabulary.CallOnList | model.py:12-16 | `__call__` on a flat list keeps length and order and is `fetch` elementwise |
| Vocabulary.FetchAllPerm | model.py:12-16 | `__call__` on two orderings of the same labels gives two orderings of the same ids (same multiset), and accepts one list iff it accepts the other |
| Vocabulary.OtherTargets | model.py:58 | definition of the filter `[u for u in keys if u != t]`; `Vocabulary.OtherTargetsMembers` states what it keeps |
| Vocabulary.OtherTargetsMembers | model.py:58 | the filter keeps exactly the keys other than the excluded one, without repeats when the keys have none, and exactly one element fewer when the keys have no repeats and include the excluded one |
| Vocabulary.Labels | model.py:58 | definition of `["->".join([src, u]) for u in targets]`; `Vocabulary.NeighborLabels` states what it gives |
| Vocabulary.NeighborLabels | model.py:64 | `src->u` is among the labels iff `u` is a key other than the excluded one, every label has that form, and no label repeats |
| Vocabulary.Truncate | model.py:60 | `ret[:k] if k != -1 else ret` is a prefix of `ret`, all of it for `k == -1` or `k >= len(ret)`, of length `k` for `0 <= k <= len(ret)`, and of length `len(ret) + k` (at least 0) for `k < -1` |
| Vocabulary.TruncatedMembers | model.py:59-60 | truncating a permutation keeps the truncated length, keeps only original elements, and with `k == -1` or `k >= n` keeps the whole multiset |
| Vocabulary.NeighborsOfEdge | model.py:55-60 | the result is a truncation to `k` (all when `k == -1`) of a permutation of the labels `src->u` for targets `u != t`, where `src` is `s` or `<unk>` for an unregistered `s` |
| Vocabulary.NeighborsOfNode | model.py:62-66 | the result is a truncation to `k` of a permutation of the labels `s->u` for the targets `u != s` of node `s = nodeindex_dict[key]` |
| Vocabulary.NodeNeighborsExact | model.py:62-66 | with `k == -1`, `s->u` is in the result iff `u` is a target of `s` other than `s`, and no label repeats |
| Vocabulary.NeighborsOfEdgeBroadcast | model.py:68-76 | one list per input edge; all share one permutation of the targets `u != t` of `s`, truncated to `k`, each prefixed with that edge's own source |
| Vocabulary.EdgesOfNodeFetch | model.py:85-86 | for separator-free labels, `get_edge_of_node(s)` equals `__call__` on the labels `s->u` for the targets `u` of `s`, in insertion order |
| Vocabulary.ToPath | model.py:78-83 | definition of `to_path` by recursion on the tokens; `Vocabulary.ToPathAt` states what it gives |
| Vocabulary.ToPathAt | model.py:78-83 | `to_path` of `n >= 1` tokens has `n - 1` labels, the i-th being `tokens[i]->tokens[i+1]` |
| Vocabulary.ReassemblePath | infer.py:22-23 | for at least two one-character tokens, the first character of the first label plus the last character of every label gives back the joined text |
| VocabBuild.FromNodeDict | model.py:22-33 | the dense build gives the dense tables: `edge_dict[s][t] == (d[s], d[t])` for all nodes, rows in node order, decode entries for every pair, and `d[nodeindex_dict[i]] == i` for every index entry; the inverse `nodeindex_dict[d[s]] == s` needs distinct indices, since with `d = {a: 0, b: 0}` index 0 is overwritten with `b` (`VocabBuild.DenseIndexInverse`) |
| VocabBuild.VisitTargets | model.py:30-32 | the inner loop over `t` fills the freshly emptied row `edge_dict[s]` with every node in order and adds the decode entries of `s`'s row; the index entry `nodeindex_dict[d[s]]` (model.py:28) is written by `VocabBuild.FromNodeDict` |
| VocabBuild.VisitTarget | model.py:31-32 | one inner step sets `edge_dict[s][t] = (d[s], d[t])` and the matching decode entry |
| VocabBuild.DenseIndexInverse | model.py:27-28 | with distinct indices, `nodeindex_dict[d[s]] == s` for every node |
| VocabBuild.DenseRegistered | model.py:27-32 | `(s, t)` is registered iff both are nodes |
| VocabBuild.DenseRoundTrip | model.py:27-32 | for nodes `s, t` without separators and distinct indices, `fetch("s->t") == (d[s], d[t])` and `decode` of it gives `"s->t"` back |
| VocabBuild.DenseFallback | model.py:20 | with `"<unk>"` a node, an unregistered pair is fetched as `(d["<unk>"], d["<unk>"])` |
| VocabBuild.DenseNoFallback | model.py:20 | without a `"<unk>"` node, `fetch` of an unregistered pair raises |
| VocabBuild.DenseEdgesOfNode | model.py:85-86 | in the dense build, `get_edge_of_node(s)[i] == (d[s], d[keys[i]])` |
| VocabBuild.DenseNodeNeighbors | model.py:62-66 | the neighbor labels of a dense node are those of the node dict without the node itself, `len(d) - 1` of them |
| VocabBuild.FromEdgeLines | model.py:36-52 | each line is stripped and split; the sparse build fails at the first line that does not split into two parts, and otherwise returns the tables of the fold of `AddLine` over the lines |
| VocabBuild.StartTables | model.py:37-40 | the initial tables hold only `<unk>-><unk>` at `(0, 0)` and an empty decode table |
| VocabBuild.NextId | model.py:44-50 | definition of the id for the next line: `(len(edge_dict), 0)` for a new source, the group of the first target and offset `len(edge_dict[s])` for a known one; `VocabBuild.NextIdFresh` and `VocabBuild.KnownSourceGroup` state what it gives |
| VocabBuild.AddLine | model.py:44-52 | the tables after one line keep every row non-empty; `VocabBuild.AddLineGroups`, `VocabBuild.AddLineOffsets`, `VocabBuild.AddLineRegistered` and `VocabBuild.AddLineDecode` state the invariants it keeps |
| VocabBuild.ReadLine | model.py:44-52 | one loop step updates the tables as `AddLine` specifies |
| VocabBuild.BuildStep | model.py:42-52 | the tables after `n + 1` lines are those after `n` lines with line `n` added |
| VocabBuild.StartShape | model.py:37-40 | the initial tables satisfy the group, offset, registration and decode invariants |
| VocabBuild.NextIdFresh | model.py:44-50 | while every row's offsets are positions (no line so far repeated or `<unk>-><unk>`), the id for a new pair differs from every id already in the table |
| VocabBuild.KnownSourceGroup | model.py:49 | a known source's next id carries its group, the position of the source in `edge_dict` |
| VocabBuild.AddLineGroups | model.py:44-51 | adding a line keeps "the group of a source is its position in `edge_dict`" |
| VocabBuild.AddLineOffsets | model.py:49-51 | adding a fresh line keeps "the offset of a target is its position in its row" |
| VocabBuild.AddLineRegistered | model.py:44-51 | after adding `(s, t)`, exactly the pairs read so far (and `<unk>-><unk>`) are registered |
| VocabBuild.AddLineDecode | model.py:51-52 | while every row's offsets are positions (no line so far repeated or `<unk>-><unk>`), adding a fresh line keeps `edge_decode_dict` the exact inverse of the ids of the pairs read |
| VocabBuild.SparseGroups | model.py:44-51 | the group of every source is its position in `edge_dict`, so distinct sources get distinct groups |
| VocabBuild.SparseFresh | model.py:44-52 | for lines without repeats, none of them `<unk>-><unk>`, offsets within a group are `0, 1, 2, ...` and `edge_decode_dict` is exactly the inverse of the ids read |
| VocabBuild.SparseRegistered | model.py:44-51 | the registered pairs are exactly `<unk>-><unk>` and the lines read |
| VocabBuild.SparseUnkFirst | model.py:38-39 | `<unk>-><unk>` stays registered at `(0, 0)` unless a line re-registers it |
| VocabBuild.SparseIdsInjective | model.py:44-52 | for lines without repeats, none of them `<unk>-><unk>`, different registered pairs have different ids |
| VocabBuild.SparseUnkNotDecoded | model.py:40-52 | for every line file, repeated lines included, `(0, 0)` has no decode entry |
| VocabBuild.SparseRoundTrip | model.py:44-52 | for lines without repeats, none of them `<unk>-><unk>`, and a pair with separator-free parts, every pair read fetches as its registered id, and `decode` of that gives the label back |
| BraLM.ArgMax | model.py:172 | the index is in range, its score is a maximum, and no earlier score is as large (first maximum) |
| BraLM.Ingest | model.py:136-149 | the prefix is appended unchanged, and cache row `k` is the energy of pair `k` over the rows before it at position `k` |
| BraLM.ShuffledLabels | model.py:154 | `get_neighbor_of_node(x, -1)` is a permutation (same multiset) of the node's labels `s->u`, `u != s` |
| BraLM.CandidatesOf | model.py:154 | the call succeeds iff the node has a row and `fetch` accepts every neighbor label, and names the fault otherwise; the candidates are a permutation (same multiset) of the fetched ids of the labels |
| BraLM.GenerateStep | model.py:154-174 | a step succeeds iff the node is ready with at least one candidate, and names the fault otherwise; the scores are the norms of the rows the candidates would add; the pick is a candidate, and greedily no candidate scores higher |
| BraLM.Decode | model.py:133-182 | an empty `start` crashes with nothing decoded; otherwise the pairs and cache rows so far have equal length `len(start)` plus the steps done, keep `start` as prefix, and each generated pair is chained from the previous target to a candidate of it; with `max_new_tokens <= 0` it always finishes; a crash happens before the last step, at the current node, for the reason its fault names; a finished run has done `max_new_tokens` steps; for a closed vocabulary it never crashes on a non-empty start whose last target is a node index |
| BraLM.Generate | model.py:134-180 | for a non-empty `start`: the pairs and rows have equal length `len(start)` plus the steps done, keep `start` as prefix and its ingested rows, and each generated pair is a step from the previous target; it finishes iff it did `max_new_tokens` steps; a crash happens before the last step, at the current node, for the reason its fault names; a closed vocabulary never crashes when the last target of `start` is a node index |
| BraLM.Extend | model.py:174-180 | one more step from the last target keeps the prefix, the ingested rows and all earlier steps, and the new pair and row are that step |
| BraLM.NewStep | model.py:174-180 | a step's pair and row, appended, satisfy the step predicate at their position |
| BraLM.Appended | model.py:175-180 | appending keeps the prefix, the ingested rows and the earlier steps |
| BraLM.DenseStep | model.py:154 | with distinct indices and separator-free nodes, in a dense vocabulary every candidate of `x` is `(x, y)` with `y != x` a node index |
| BraLM.DenseGenerated | model.py:174-175 | with distinct indices and separator-free nodes, in a dense vocabulary every generated pair starts at the previous target and ends at a different node |
| BraLM.DenseReady | model.py:153-178 | a dense vocabulary of at least two separator-free nodes with distinct indices is closed, so decoding from a start whose last target is a node index never faults |
| BraLM.DenseNodeReady | model.py:154 | with distinct indices and separator-free nodes, a dense node has `len(d) - 1` candidates, all fetchable |
| BraLM.DenseLabel | model.py:154 | with distinct indices and separator-free nodes, the i-th neighbor label of a dense node fetches as `(x, y)`, with `y` a different node index |

## Left out

- Tensor numerics (model.py:138-144, 155-172): GELU, the softmax over `positions`, `mm`/`bmm`, biases and the L2 norm are floating point. They become the `energy` and `norm` parameters. The generated row uses the positional row `pe[:, i]` of the step counter `i`, which restarts at 0 (model.py:162), not `curr_i`. `energy` receives that step number.
- Softmax and temperature (model.py:166-168): over the reals, softmax is strictly increasing and dividing by a positive temperature is a positive rescaling, so neither changes the argmax or the support of the sampling distribution. Greedy picking is therefore `ArgMax` over the norms, and `BraLM.Best` is an exact-arithmetic idealisation. In float32, softmax can round distinct norms to equal probabilities or underflow them to 0, which can change the argmax or exclude a candidate from sampling; that is not modelled.
- `torch.multinomial` (model.py:170): sampling picks `sample % len(candidates)` for a drawn `sample`, so any index can come out. The probabilities are not modelled.
- BraLM.GenerateStep: when several candidates share the highest score, `argmax` returns the first of them in shuffled order. The contract states only that the pick has a highest score.
- BraLM.Decode: the contract states that each pick is among the candidates (and greedily has a highest score), not which shuffled order the candidates came in nor which of several tied candidates `argmax` returns.
- BraLM.Generate: the same as for `BraLM.Decode`: each pick is a candidate with, greedily, a highest score; the shuffled order and the tie-break among equal scores are not stated.
- `get_positional_encoding`, `prepare_network`, `_network`, `to_device`, `_reshape12`, `get_initial_tensor` (model.py:102-130): parameter allocation and math on floats. Every fetched id is assumed to have a parameter slot.
- The 512 positions (model.py:99, 135): `pe.squeeze(0)[i]` raises IndexError for a prefix longer than 512 (model.py:144), and `positions[:curr_i]` has fewer rows than the cache once `curr_i > 512`, so the product at model.py:159 raises on a shape mismatch. These failures are not modelled as faults: `BraLM.Decode` and `BraLM.Ingest` require the prefix and the run to stay within those bounds.
- `random.shuffle` (model.py:59, 65, 71): the permutation is driven by a draw stream, and the contracts speak of multisets, not of a fixed order.
- File reading in `from_edge` (model.py:41-42): the lines are an input sequence.
- The constructor call that ends `from_edge` (model.py:53): it passes three arguments to the four-parameter `__init__` (model.py:6), so it raises `TypeError`. `VocabBuild.FromEdgeLines` returns the two tables its loop builds instead. `VocabBuild.SparseRoundTrip` places them in a vocabulary with an empty node index.
- `node_dict` (model.py:7, 33): it is always `None` and unused by the modelled code. It is not a field of `Vocabulary.Vocab`.
- infer.py as a whole: loading JSON and weights, device choice and `print` are I/O. Only its reassembly of the decoded text (infer.py:22-23) is modelled, by `Vocabulary.ReassemblePath`.
- Python exceptions inside decoding (a `KeyError`, a `ValueError` from `fetch`, or `torch.cat` of no candidates) are the `BraLM.Fault` outcomes. Elsewhere an exception is the negation of a `requires`: the member is specified only on the inputs where the source does not raise. This covers `fetch`, `decode`, `get_edge_of_node`, `get_neighbor_of_node`, and `get_neighbor_of_edge` / `get_neighbor_of_edge_broadcast` (which no modelled code calls). The exception is not modelled as a result.
- VocabBuild.SparseFresh: the offset and decode-inverse properties are stated for files without repeated lines and without a `<unk>-><unk>` line. With a repeated line, `edge_dict[s][t]` is reassigned to `(i, len(row))` and the offsets stop being positions. A `<unk>-><unk>` line does the same to the pre-registered entry: it is reassigned to `(0, 1)`, the id the next `<unk>->u` line also receives, so ids stop being injective. Registration, groups and the missing `(0, 0)` decode entry (`VocabBuild.SparseRegistered`, `VocabBuild.SparseGroups`, `VocabBuild.SparseUnkNotDecoded`) hold for every file.
- Strings are sequences of characters. `strip()` removes the characters `str.isspace` accepts, as listed in `EdgeLabel.IsSpace`.
