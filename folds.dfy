/**
 * A loop that visits the elements of a sequence in order, writes one
 * output per element and threads a state from each element to the next:
 * the scripts' directory and file loops that log a line per entry while
 * the filesystem changes under them.
 */
module Folds {

  /** The outputs and the state after `step` has visited the first `n` elements of `xs`, starting from `s0`. */
  ghost function Run<X, L, S>(xs: seq<X>, n: nat, s0: S, step: (S, X) -> (L, S)): (r: (seq<L>, S))
    requires n <= |xs|
    ensures |r.0| == n
  {
    if n == 0 then ([], s0)
    else
      var prev := Run(xs, n - 1, s0, step);
      var out := step(prev.1, xs[n - 1]);
      (prev.0 + [out.0], out.1)
  }

  /** Visiting more elements leaves the outputs already written alone. */
  lemma {:induction false} RunPrefix<X, L, S>(xs: seq<X>, k: nat, n: nat, s0: S, step: (S, X) -> (L, S))
    requires k <= n <= |xs|
    ensures Run(xs, n, s0, step).0[..k] == Run(xs, k, s0, step).0
    decreases n
  {
    if k < n {
      RunPrefix(xs, k, n - 1, s0, step);
      var before := Run(xs, n - 1, s0, step).0;
      var after := Run(xs, n, s0, step).0;
      assert after[..n - 1] == before;
      assert after[..k] == before[..k];
    } else {
      assert Run(xs, n, s0, step).0[..n] == Run(xs, n, s0, step).0;
    }
  }

  /** The output for element `k` is what `step` gives it in the state the elements before it leave. */
  lemma RunAt<X, L, S>(xs: seq<X>, k: nat, n: nat, s0: S, step: (S, X) -> (L, S))
    requires k < n <= |xs|
    ensures Run(xs, n, s0, step).0[k] == step(Run(xs, k, s0, step).1, xs[k]).0
  {
    RunPrefix(xs, k + 1, n, s0, step);
    var full := Run(xs, n, s0, step).0;
    assert full[k] == full[..k + 1][k];
  }
}
