/** `BIC`: validate the arguments, fit a Gaussian mixture by EM for every
    number of clusters k from kmin to kmax, score each fit by
    k * ln(n) - 2 * ll and pick `best_k` by the plateau rule: the first k
    whose score is close to the previous score (the one before kmin counts
    as 0) makes k - 1 the answer (unsupervised_learning/clustering/9-BIC.py). */
module Bic {
  import opened Wrappers
  import opened PyArgs

  /** What `expectation_maximization` returns for one k: the mixture
      parameters (pi, m, S) and the log likelihood. */
  datatype EmFit<P> = EmFit(params: P, ll: real)

  /** The numeric collaborators of one sweep: EM for a given k (the data,
      iterations, tol and verbose are the same for every k), ln(n), and
      `np.isclose`. */
  datatype Sweep<P> = Sweep(em: int -> EmFit<P>, lnN: real, close: (real, real) -> bool)

  /** `(None, None, None, None)`, or `best_k, best_res, l, b`. `best_res` is
      None when no plateau is found, Some(None) for the `(None, None, None)`
      of the previous fit when the plateau is at kmin, and Some(Some(p))
      for the parameters `p` of fit k - 1 otherwise. */
  datatype Outcome<P> =
    | Failure
    | Success(bestK: int, bestRes: Option<Option<P>>, l: seq<real>, b: seq<real>)

  /** The argument checks, in the order the function makes them. */
  predicate ValidArgs(X: ArrayArg, kmin: PyValue, kmax: PyValue, iterations: PyValue, tol: PyValue, verbose: PyValue): (ok: bool)
    ensures ok ==> !kmax.PyNone? && kmin.PyInt? && kmax.PyInt? && kmin.i <= kmax.i
  {
    && Is2D(X)
    && kmin.PyInt? && kmin.i >= 1
    && kmax.PyInt? && kmax.i >= kmin.i
    && iterations.PyInt?
    && tol.PyFloat? && tol.f >= 0.0
    && verbose.PyBool?
  }

  /** The score of the fit with k clusters: the penalty is k itself. */
  function BicOf<P>(s: Sweep<P>, k: int): real {
    k as real * s.lnN - 2.0 * s.em(k).ll
  }

  /** `prior_bic` when k is scored: 0 before the first fit, else the score of k - 1. */
  function PriorBic<P>(s: Sweep<P>, kmin: int, k: int): real {
    if k == kmin then 0.0 else BicOf(s, k - 1)
  }

  /** The score of k is close to the one before it. */
  predicate Plateau<P>(s: Sweep<P>, kmin: int, k: int) {
    s.close(BicOf(s, k), PriorBic(s, kmin, k))
  }

  /** `(pi_prev, m_prev, S_prev)` when k is scored. */
  function PrevParams<P>(s: Sweep<P>, kmin: int, k: int): Option<P> {
    if k == kmin then None else Some(s.em(k - 1).params)
  }

  /** The first k in [kmin, hi) with a plateau, if any. */
  function FirstPlateau<P>(s: Sweep<P>, kmin: int, hi: int): (r: Option<int>)
    decreases hi - kmin
    ensures r.Some? ==> kmin <= r.value < hi && Plateau(s, kmin, r.value)
  {
    if hi <= kmin then None
    else
      var f := FirstPlateau(s, kmin, hi - 1);
      if f.Some? then f
      else if Plateau(s, kmin, hi - 1) then Some(hi - 1)
      else None
  }

  /** FirstPlateau finds the first plateau, and finds none exactly when
      there is none. */
  lemma {:induction false} FirstPlateauIsFirst<P>(s: Sweep<P>, kmin: int, hi: int, k: int)
    requires kmin <= k < hi
    ensures FirstPlateau(s, kmin, hi) == Some(k) <==>
      Plateau(s, kmin, k) && forall j :: kmin <= j < k ==> !Plateau(s, kmin, j)
    ensures FirstPlateau(s, kmin, hi).None? ==> !Plateau(s, kmin, k)
    decreases hi - kmin
  {
    if k < hi - 1 {
      FirstPlateauIsFirst(s, kmin, hi - 1, k);
      if FirstPlateau(s, kmin, hi - 1).None? {
        assert !Plateau(s, kmin, k);
      }
    } else if kmin < k {
      forall j | kmin <= j < k
        ensures FirstPlateau(s, kmin, k).None? ==> !Plateau(s, kmin, j)
      {
        FirstPlateauIsFirst(s, kmin, k, j);
      }
      if FirstPlateau(s, kmin, k).Some? {
        var f := FirstPlateau(s, kmin, k).value;
        FirstPlateauIsFirst(s, kmin, k, f);
      }
    }
  }

  /** The shared `likelyhoods`/`bics` list after the fits of kmin .. hi - 1:
      the log likelihood and the score of each k, one after the other. */
  function Trace<P>(s: Sweep<P>, kmin: int, hi: int): (r: seq<real>)
    requires kmin <= hi
    ensures |r| == 2 * (hi - kmin)
    decreases hi - kmin
  {
    if hi == kmin then [] else Trace(s, kmin, hi - 1) + [s.em(hi - 1).ll, BicOf(s, hi - 1)]
  }

  /** Entry 2j of the list is the log likelihood of kmin + j and entry
      2j + 1 its score. */
  lemma {:induction false} TraceEntries<P>(s: Sweep<P>, kmin: int, hi: int, j: int)
    requires kmin <= hi && 0 <= j < hi - kmin
    ensures Trace(s, kmin, hi)[2 * j] == s.em(kmin + j).ll
    ensures Trace(s, kmin, hi)[2 * j + 1] == (kmin + j) as real * s.lnN - 2.0 * s.em(kmin + j).ll
    decreases hi - kmin
  {
    if j < hi - 1 - kmin {
      TraceEntries(s, kmin, hi - 1, j);
    }
  }

  /** kmin, kmin + 1, ..., hi - 1. */
  function Span(kmin: int, hi: int): (r: seq<int>)
    requires kmin <= hi
    ensures |r| == hi - kmin && forall j :: 0 <= j < |r| ==> r[j] == kmin + j
    decreases hi - kmin
  {
    if hi == kmin then [] else Span(kmin, hi - 1) + [hi - 1]
  }

  /** `best_k` after the fits of kmin .. hi - 1 when it starts at kmax. */
  function BestK<P>(s: Sweep<P>, kmin: int, kmax: int, hi: int): int {
    var f := FirstPlateau(s, kmin, hi);
    if f.Some? then f.value - 1 else kmax
  }

  /** `best_res` after the fits of kmin .. hi - 1. */
  function BestRes<P>(s: Sweep<P>, kmin: int, hi: int): Option<Option<P>> {
    var f := FirstPlateau(s, kmin, hi);
    if f.Some? then Some(PrevParams(s, kmin, f.value)) else None
  }

  /** `best_k` lies in [kmin - 1, kmax]. */
  lemma BestKBounds<P>(s: Sweep<P>, kmin: int, kmax: int)
    requires kmin <= kmax
    ensures kmin - 1 <= BestK(s, kmin, kmax, kmax + 1) <= kmax
  {
  }

  /** With no plateau the answer is kmax, with no parameters. */
  lemma NoPlateauKeepsKmax<P>(s: Sweep<P>, kmin: int, kmax: int)
    requires forall k :: kmin <= k <= kmax ==> !Plateau(s, kmin, k)
    ensures BestK(s, kmin, kmax, kmax + 1) == kmax && BestRes(s, kmin, kmax + 1) == None
  {
  }

  /** The first plateau k decides: the answer is k - 1 with the parameters
      fitted for k - 1, or the `(None, None, None)` of no fit when k = kmin;
      later plateaus change nothing. */
  lemma FirstPlateauDecides<P>(s: Sweep<P>, kmin: int, kmax: int, k: int)
    requires kmin <= k <= kmax && Plateau(s, kmin, k)
    requires forall j :: kmin <= j < k ==> !Plateau(s, kmin, j)
    ensures BestK(s, kmin, kmax, kmax + 1) == k - 1
    ensures BestRes(s, kmin, kmax + 1) == Some(if k == kmin then None else Some(s.em(k - 1).params))
  {
    FirstPlateauIsFirst(s, kmin, kmax + 1, k);
  }

  /** What scoring k adds to the state of the sweep. */
  lemma SweepStep<P>(s: Sweep<P>, kmin: int, kmax: int, k: int)
    requires kmin <= k <= kmax
    ensures Span(kmin, k + 1) == Span(kmin, k) + [k]
    ensures Trace(s, kmin, k + 1) == Trace(s, kmin, k) + [s.em(k).ll, BicOf(s, k)]
    ensures PriorBic(s, kmin, k + 1) == BicOf(s, k)
    ensures PrevParams(s, kmin, k + 1) == Some(s.em(k).params)
    ensures var first := Plateau(s, kmin, k) && BestK(s, kmin, kmax, k) >= k;
      && BestK(s, kmin, kmax, k + 1) == (if first then k - 1 else BestK(s, kmin, kmax, k))
      && BestRes(s, kmin, k + 1) == (if first then Some(PrevParams(s, kmin, k)) else BestRes(s, kmin, k))
  {
  }

  /** The `for k in range(kmin, kmax + 1)` loop of `BIC`, with `lnN` the
      value of `np.log(n)`: it returns `best_k`, `best_res`, the shared
      list and the k passed to EM, in call order. */
  method ScoreSweep<P>(lo: int, hi: int, em: int -> EmFit<P>, lnN: real, close: (real, real) -> bool)
    returns (bestK: int, bestRes: Option<Option<P>>, trace: seq<real>, ghost fitted: seq<int>)
    requires lo <= hi
    ensures fitted == Span(lo, hi + 1)
    ensures trace == Trace(Sweep(em, lnN, close), lo, hi + 1)
    ensures bestK == BestK(Sweep(em, lnN, close), lo, hi, hi + 1)
    ensures bestRes == BestRes(Sweep(em, lnN, close), lo, hi + 1)
  {
    ghost var s := Sweep(em, lnN, close);
    fitted := [];
    var priorBic: real := 0.0;
    trace := [];
    bestK := hi;
    var prev: Option<P> := None;
    bestRes := None;
    for k := lo to hi + 1
      invariant fitted == Span(lo, k)
      invariant trace == Trace(s, lo, k)
      invariant priorBic == PriorBic(s, lo, k)
      invariant prev == PrevParams(s, lo, k)
      invariant bestK == BestK(s, lo, hi, k)
      invariant bestRes == BestRes(s, lo, k)
    {
      var fit := em(k);
      fitted := fitted + [k];
      var bic := k as real * lnN - 2.0 * fit.ll;
      assert fit == s.em(k) && bic == BicOf(s, k);
      SweepStep(s, lo, hi, k);
      if close(bic, priorBic) && bestK >= k {
        bestK := k - 1;
        bestRes := Some(prev);
      }
      prev := Some(fit.params);
      trace := trace + [fit.ll];
      trace := trace + [bic];
      priorBic := bic;
    }
  }

  /** `BIC(X, kmin, kmax, iterations, tol, verbose)`. `log` is `np.log`;
      the ghost `fitted` lists the k passed to EM, in call order. */
  method BIC<P>(X: ArrayArg, kmin: PyValue, kmax: PyValue, iterations: PyValue, tol: PyValue, verbose: PyValue,
                em: int -> EmFit<P>, log: nat -> real, close: (real, real) -> bool)
    returns (r: Outcome<P>, ghost fitted: seq<int>)
    ensures r.Failure? <==> !ValidArgs(X, kmin, kmax, iterations, tol, verbose)
    ensures kmax.PyNone? ==> r.Failure?
    ensures r.Failure? ==> fitted == []
    ensures r.Success? ==>
      var s := Sweep(em, log(Rows(X)), close);
      && fitted == Span(kmin.i, kmax.i + 1)
      && r.l == r.b == Trace(s, kmin.i, kmax.i + 1)
      && r.bestK == BestK(s, kmin.i, kmax.i, kmax.i + 1)
      && r.bestRes == BestRes(s, kmin.i, kmax.i + 1)
  {
    fitted := [];
    if !Is2D(X) {
      return Failure, fitted;
    }
    if !kmin.PyInt? || kmin.i < 1 {
      return Failure, fitted;
    }
    if !kmax.PyInt? || kmax.i < kmin.i {
      return Failure, fitted;
    }
    if !iterations.PyInt? {
      return Failure, fitted;
    }
    if !tol.PyFloat? || tol.f < 0.0 {
      return Failure, fitted;
    }
    if !verbose.PyBool? {
      return Failure, fitted;
    }
    // `if kmax is None: kmax = iterations` cannot fire: kmax is an int here.

    var n := Rows(X);
    var bestK, bestRes, trace;
    bestK, bestRes, trace, fitted := ScoreSweep(kmin.i, kmax.i, em, log(n), close);
    return Success(bestK, bestRes, trace, trace), fitted;
  }
}
