// `transform`: copy a vector, applying an operation to every element.
//
// The source fills a fresh vector with one `push_back` per input element,
// in order, after reserving room for exactly as many elements as the input
// holds.  The input is passed by const reference and is never changed,
// which a Dafny `seq` parameter gives for free.

module Misc {

  method Transform<T, U>(input: seq<T>, op: T -> U) returns (out: seq<U>)
    ensures |out| == |input|
    ensures forall i :: 0 <= i < |out| ==> out[i] == op(input[i])
  {
    out := [];
    var k := 0;
    while k < |input|
      invariant 0 <= k <= |input|
      invariant |out| == k
      invariant forall i :: 0 <= i < k ==> out[i] == op(input[i])
    {
      out := out + [op(input[k])];
      k := k + 1;
    }
  }
}
