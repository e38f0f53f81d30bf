/**
  Failure-compatible result types shared by the engine, and the error values
  that the engine's `ValueError`s carry.
 */
module Results {

  /** Present-or-absent value; used for the optional two-volume difference. */
  datatype Option<+T> = None | Some(value: T)

  /** Either a computed value or the error that stopped the computation. */
  datatype Result<+T, +E> = Ok(value: T) | Err(error: E) {

    predicate IsFailure() {
      Err?
    }

    function PropagateFailure<U>(): Result<U, E>
      requires Err?
    {
      Err(error)
    }

    function Extract(): T
      requires Ok?
    {
      value
    }
  }

  /** The `ValueError`s raised inside the engine (unit converter and water-mass check). */
  datatype CalcError =
    | UnsupportedVolumeUnits(fromUnit: string, toUnit: string)
    | UnsupportedMassUnits(fromUnit: string, toUnit: string)
    | OnlyCelsiusSupported
    | NonPositiveGasVolume
    | NegativeHumidityContent

  /**
    Applies `f` to each element in order, passing the element's position
    counted from `firstIndex`, and stops at the first failure.
   */
  function Traverse<A, B, E>(f: (nat, A) -> Result<B, E>, xs: seq<A>, firstIndex: nat): (r: Result<seq<B>, E>)
    ensures r.Ok? <==> forall i :: 0 <= i < |xs| ==> f(firstIndex + i, xs[i]).Ok?
    ensures r.Ok? ==> |r.value| == |xs|
    ensures r.Ok? ==> forall i :: 0 <= i < |xs| ==> r.value[i] == f(firstIndex + i, xs[i]).value
    ensures r.Err? ==> exists k :: 0 <= k < |xs| && f(firstIndex + k, xs[k]) == Err(r.error)
                                 && forall i :: 0 <= i < k ==> f(firstIndex + i, xs[i]).Ok?
    decreases |xs|
  {
    if |xs| == 0 then Ok([])
    else
      var head :- f(firstIndex, xs[0]);
      var tail :- Traverse(f, xs[1..], firstIndex + 1);
      Ok([head] + tail)
  }
}
