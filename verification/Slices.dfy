/** Byte slices on the heap, and the copy both the store and the merge make of a caller's bytes. */
module Slices {
  import opened Prelude

  type Slice = array<Byte>

  /** A copy the caller cannot reach. */
  method Clone(b: Slice) returns (out: Slice)
    ensures fresh(out) && out[..] == b[..]
  {
    out := new Byte[b.Length](_ => 0);
    for i := 0 to b.Length
      invariant forall j :: 0 <= j < i ==> out[j] == b[j]
    {
      out[i] := b[i];
    }
  }

  /** Bytes a library hands over in a buffer of their own. */
  method Allocate(bytes: Bytes) returns (out: Slice)
    ensures fresh(out) && out[..] == bytes
  {
    out := new Byte[|bytes|](i requires 0 <= i < |bytes| => bytes[i]);
  }
}
