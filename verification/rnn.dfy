/** `rnn`: forward propagation of a simple recurrent network. The cell is
    applied once per time step, in order, each step reading the hidden
    state the previous step wrote into the preallocated `H` and writing its
    output into `Y` (supervised_learning/RNNs/1-rnn.py). */
module Rnn {

  /** The hidden states and the outputs of unrolling `forward` over the
      inputs `X`, starting from `h0`: the reference for what `rnn` fills
      its arrays with. */
  function Unroll<S, I, O>(forward: (S, I) -> (S, O), X: seq<I>, h0: S): (r: (seq<S>, seq<O>))
    ensures |r.0| == |X| + 1 && |r.1| == |X|
    ensures r.0[0] == h0
  {
    if X == [] then ([h0], [])
    else
      var prev := Unroll(forward, X[..|X| - 1], h0);
      var step := forward(prev.0[|X| - 1], X[|X| - 1]);
      (prev.0 + [step.0], prev.1 + [step.1])
  }

  /** Every step of the unrolling is one application of the cell to the
      hidden state before it and the input of that step. */
  lemma {:induction false} UnrollSteps<S, I, O>(forward: (S, I) -> (S, O), X: seq<I>, h0: S, t: int)
    requires 0 <= t < |X|
    ensures var r := Unroll(forward, X, h0); (r.0[t + 1], r.1[t]) == forward(r.0[t], X[t])
  {
    if t < |X| - 1 {
      UnrollSteps(forward, X[..|X| - 1], h0, t);
    }
  }

  /** Causality: the states and outputs of the first t steps depend only on
      the first t inputs. */
  lemma {:induction false} UnrollPrefix<S, I, O>(forward: (S, I) -> (S, O), X: seq<I>, h0: S, t: int)
    requires 0 <= t <= |X|
    ensures Unroll(forward, X[..t], h0).0 == Unroll(forward, X, h0).0[..t + 1]
    ensures Unroll(forward, X[..t], h0).1 == Unroll(forward, X, h0).1[..t]
    decreases |X|
  {
    if t < |X| {
      assert X[..|X| - 1][..t] == X[..t];
      UnrollPrefix(forward, X[..|X| - 1], h0, t);
    } else {
      assert X[..t] == X;
    }
  }

  /** Any sequences that start at `h0` and follow the cell step by step are
      the unrolling: the step relation determines the result. */
  lemma {:induction false} UnrollUnique<S, I, O>(forward: (S, I) -> (S, O), X: seq<I>, h0: S, hs: seq<S>, ys: seq<O>)
    requires |hs| == |X| + 1 && |ys| == |X| && hs[0] == h0
    requires forall t :: 0 <= t < |X| ==> (hs[t + 1], ys[t]) == forward(hs[t], X[t])
    ensures (hs, ys) == Unroll(forward, X, h0)
    decreases |X|
  {
    if X == [] {
      assert hs == [h0] && ys == [];
    } else {
      var n := |X| - 1;
      assert forall t :: 0 <= t < n ==> X[..n][t] == X[t];
      UnrollUnique(forward, X[..n], h0, hs[..n + 1], ys[..n]);
      assert hs == hs[..n + 1] + [hs[n + 1]];
      assert ys == ys[..n] + [ys[n]];
    }
  }

  /** `rnn(rnn_cell, X, h_0)` with `forward` standing for
      `rnn_cell.forward`; `zeroH` and `zeroY` are the zero state and output
      `np.zeros` fills the arrays with before the loop. */
  method Run<S, I, O>(forward: (S, I) -> (S, O), X: seq<I>, h0: S, zeroH: S, zeroY: O)
    returns (H: array<S>, Y: array<O>)
    ensures fresh(H) && fresh(Y)
    ensures H.Length == |X| + 1 && Y.Length == |X|
    ensures H[0] == h0
    ensures forall t :: 0 <= t < |X| ==> (H[t + 1], Y[t]) == forward(H[t], X[t])
    ensures (H[..], Y[..]) == Unroll(forward, X, h0)
  {
    H := new S[|X| + 1](_ => zeroH);
    Y := new O[|X|](_ => zeroY);
    H[0] := h0;
    for step := 0 to |X|
      invariant H[0] == h0
      invariant forall t :: 0 <= t < step ==> (H[t + 1], Y[t]) == forward(H[t], X[t])
      invariant forall t :: step < t < H.Length ==> H[t] == zeroH
      invariant forall t :: step <= t < Y.Length ==> Y[t] == zeroY
    {
      var hPrev := H[step];
      var xt := X[step];
      var next := forward(hPrev, xt);
      H[step + 1] := next.0;
      Y[step] := next.1;
    }
    UnrollUnique(forward, X, h0, H[..], Y[..]);
  }
}
