/**
 * `multiprocessing.Pool.map` as its callers see it. However the workers are
 * scheduled, the result list holds f's value for each input, in input order;
 * that ordering is the only part of the pool the scripts rely on.
 */
module Pool {

  function Map<A, B>(f: A -> B, xs: seq<A>): (ys: seq<B>)
    ensures |ys| == |xs|
    ensures forall i :: 0 <= i < |xs| ==> ys[i] == f(xs[i])
  {
    if xs == [] then [] else [f(xs[0])] + Map(f, xs[1..])
  }
}
