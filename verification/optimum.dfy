/** `optimum_k`: validate the arguments, run K-means for every number of
    clusters k from kmin to kmax and record, for each k, the drop in
    intra-cluster variance relative to kmin
    (unsupervised_learning/clustering/3-optimum.py). */
module Optimum {
  import opened Wrappers
  import opened PyArgs

  /** What `kmeans(X, k, iterations)` returns: the centroids C and the
      cluster index of every data point. */
  datatype KMeansFit<C, A> = KMeansFit(centroids: C, clss: A)

  /** `(None, None)`, or `results, d_vars`. */
  datatype Outcome<C, A> =
    | Failure
    | Success(results: seq<KMeansFit<C, A>>, dVars: seq<real>)

  /** The argument checks, in the order the function makes them. */
  predicate ValidArgs(X: ArrayArg, kmin: PyValue, kmax: PyValue, iterations: PyValue): (ok: bool)
    ensures ok ==> !kmax.PyNone? && kmin.PyInt? && kmax.PyInt? && kmax.i - kmin.i + 1 >= 2
  {
    && Is2D(X)
    && kmin.PyInt? && kmin.i > 0
    && kmax.PyInt? && kmax.i > 0
    && kmin.i < kmax.i
    && iterations.PyInt? && iterations.i > 0
  }

  /** `optimum_k(X, kmin, kmax, iterations)`. `kmeans(k)` is the K-means
      fit with k clusters (the data and the iterations are the same for
      every k) and `variance(C)` is `variance(X, C)`; the ghost `fitted`
      lists the k passed to K-means, in call order. */
  method OptimumK<C, A>(X: ArrayArg, kmin: PyValue, kmax: PyValue, iterations: PyValue,
                        kmeans: int -> KMeansFit<C, A>, variance: C -> real)
    returns (r: Outcome<C, A>, ghost fitted: seq<int>)
    ensures r.Failure? <==> !ValidArgs(X, kmin, kmax, iterations)
    ensures kmax.PyNone? ==> r.Failure?
    ensures r.Failure? ==> fitted == []
    ensures r.Success? ==>
      var lo, hi := kmin.i, kmax.i;
      && |r.results| == |r.dVars| == |fitted| == hi - lo + 1 >= 2
      && (forall j :: 0 <= j < |fitted| ==> fitted[j] == lo + j)
      && (forall j :: 0 <= j < |r.results| ==> r.results[j] == kmeans(lo + j))
      && (forall j :: 0 <= j < |r.dVars| ==>
            r.dVars[j] == variance(kmeans(lo).centroids) - variance(kmeans(lo + j).centroids))
      && r.dVars[0] == 0.0
  {
    fitted := [];
    if !Is2D(X) {
      return Failure, fitted;
    }
    if !kmin.PyInt? || kmin.i <= 0 {
      return Failure, fitted;
    }
    if !kmax.PyInt? || kmax.i <= 0 {
      return Failure, fitted;
    }
    if kmin.i >= kmax.i {
      return Failure, fitted;
    }
    if !iterations.PyInt? || iterations.i <= 0 {
      return Failure, fitted;
    }
    // `if kmax is None: kmax = X.shape[0]` cannot fire: kmax is an int here.

    var lo, hi := kmin.i, kmax.i;
    var results: seq<KMeansFit<C, A>> := [];
    var dVars: seq<real> := [];
    // `var = float('inf')`: no variance yet
    var base: Option<real> := None;
    for k := lo to hi + 1
      invariant |results| == |dVars| == |fitted| == k - lo
      invariant forall j :: 0 <= j < |fitted| ==> fitted[j] == lo + j
      invariant forall j :: 0 <= j < |results| ==> results[j] == kmeans(lo + j)
      invariant base == if k == lo then None else Some(variance(kmeans(lo).centroids))
      invariant forall j :: 0 <= j < |dVars| ==>
        dVars[j] == variance(kmeans(lo).centroids) - variance(kmeans(lo + j).centroids)
    {
      var fit := kmeans(k);
      fitted := fitted + [k];
      results := results + [fit];
      var newVar := variance(fit.centroids);
      if k == lo {
        base := Some(newVar);
      }
      dVars := dVars + [base.value - newVar];
    }
    return Success(results, dVars), fitted;
  }
}
