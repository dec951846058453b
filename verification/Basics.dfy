/**
 The small enumerations every part of a partitioned request looks at, and constant arrays.
 */
module Basics {

  /** The background set-up thread: never created, at work, or done. */
  datatype Thread = None | Running | Finished

  datatype Side = SendSide | RecvSide {
    function Other(): Side {
      if this == SendSide then RecvSide else SendSide
    }
  }

  function Uniform<T>(n: nat, v: T): (r: seq<T>)
    ensures |r| == n && forall i :: 0 <= i < n ==> r[i] == v
  {
    seq(n, _ => v)
  }
}
