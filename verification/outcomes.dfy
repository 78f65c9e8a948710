/**
  Small value types shared by every sample program of the model: optional
  values and the way one run of a pump loop ends.
 */
module Outcomes {

  datatype Option<+T> = None | Some(value: T) {
    /** The value as a sequence of at most one element. */
    function ToSeq(): (r: seq<T>)
      ensures |r| <= 1 && (Some? <==> |r| == 1) && (Some? ==> r[0] == value)
    {
      match this
      case Some(v) => [v]
      case None => []
    }
  }

  /** How one call of a pump-loop function ends.
      - Returned: the function returned this status code.
      - CheckFailed: a CHECK/CHECK_EQ macro aborted the process.
      - Undefined: the code indexed a buffer array out of range (undefined
        behaviour in C++); the model stops there.
      - ScriptExhausted: the codec script ran out before the loop exited; the
        real loop would go on polling the codec. */
  datatype RunEnd<+S> = Returned(status: S) | CheckFailed | Undefined | ScriptExhausted
}
