/** Bytes on disk and on the wire, and the digest computed over them. */
module Octets {
  type Bytes = seq<bv8>

  /** SHA-256 in the program; any function of the bytes here. */
  type Digest = Bytes -> string

  function Joined(chunks: seq<Bytes>): Bytes {
    if chunks == [] then [] else Joined(chunks[..|chunks| - 1]) + chunks[|chunks| - 1]
  }

  /** Chunks are joined in the order they come in. */
  lemma {:induction false} JoinedConcat(a: seq<Bytes>, b: seq<Bytes>)
    ensures Joined(a + b) == Joined(a) + Joined(b)
    ensures |b| == 1 ==> Joined(b) == b[0]
    decreases |b|
  {
    if b == [] {
      assert a + b == a;
    } else {
      var most, last := b[..|b| - 1], b[|b| - 1];
      assert (a + b)[..|a + b| - 1] == a + most;
      JoinedConcat(a, most);
      assert Joined(a) + Joined(most) + last == Joined(a) + (Joined(most) + last);
    }
  }
}
