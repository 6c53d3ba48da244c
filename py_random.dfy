/**
 The two pieces of Python list behaviour the neighbor queries rely on:
 `random.shuffle`, which permutes a list in place, and the slice `xs[:k]`.
 */
module PyRandom {

  /**
   `random.shuffle(xs)`: for `i` from `len(xs) - 1` down to 1, swap `xs[i]`
   with `xs[j]` for a random `j` in `[0, i]`. The randomness is the stream
   `draw`: the n-th swap uses `draw(n) % (i + 1)`, which can be any index in
   `[0, i]`, so every outcome of the library call is an outcome of the model.
   */
  method Shuffle<T>(xs: seq<T>, draw: nat -> nat) returns (ys: seq<T>)
    ensures multiset(ys) == multiset(xs)
  {
    ys := xs;
    var i := |ys| - 1;
    var n: nat := 0;
    while i >= 1
      invariant i < |ys| == |xs|
      invariant multiset(ys) == multiset(xs)
    {
      var j := draw(n) % (i + 1);
      ys := ys[i := ys[j]][j := ys[i]];
      i := i - 1;
      n := n + 1;
    }
  }

  /** `xs[:k]` for any integer `k`: a negative `k` counts from the end. */
  function Take<T>(xs: seq<T>, k: int): (r: seq<T>)
    ensures r <= xs
    ensures 0 <= k ==> |r| == if k <= |xs| then k else |xs|
    ensures k < 0 ==> |r| == if -k <= |xs| then |xs| + k else 0
  {
    if 0 <= k then (if k <= |xs| then xs[..k] else xs)
    else (if -k <= |xs| then xs[..|xs| + k] else [])
  }
}
