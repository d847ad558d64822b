/** Failure-carrying results shared by every part of the colour model.
    Each `Error` stands for an exception the Python program raises. */
module Outcome {

  datatype Option<+T> = None | Some(value: T)

  datatype Error =
    | EmptyPalette                          // argmin / min() over no palette entries
    | EmptyImage                            // a mean or an argmax over zero pixels
    | BadChannel(line: nat, token: string)  // int() rejected a channel token of a palette line

  datatype Result<+T> = Ok(value: T) | Err(error: Error)

  /** Applies `step` to every element from position `from` on, with its position,
      in order, stopping at the first failure, as a Python loop or list
      comprehension stops at the first exception. */
  function CollectFrom<A, T>(xs: seq<A>, step: (A, nat) -> Result<T>, from: nat): (r: Result<seq<T>>)
    requires from <= |xs|
    ensures r.Ok? <==> forall i :: from <= i < |xs| ==> step(xs[i], i).Ok?
    ensures r.Ok? ==> |r.value| == |xs| - from
    ensures r.Ok? ==> forall i :: from <= i < |xs| ==> step(xs[i], i) == Ok(r.value[i - from])
    ensures r.Err? ==> exists i :: from <= i < |xs| && step(xs[i], i) == Err(r.error)
                                   && forall k :: from <= k < i ==> step(xs[k], k).Ok?
    decreases |xs| - from
  {
    if from == |xs| then Ok([])
    else
      match step(xs[from], from)
      case Err(e) => Err(e)
      case Ok(v) =>
        match CollectFrom(xs, step, from + 1)
        case Err(e) => Err(e)
        case Ok(vs) => Ok([v] + vs)
  }
}
