/**
 * Shared vocabulary of the model: bytes, an Option type, concatenation of
 * byte chunks, the clamping `Blob.slice` of the browser File API and the
 * JavaScript numbers the transfer code produces when it divides.
 */
module Base {

  newtype byte = x: int | 0 <= x < 256

  datatype Option<T> = None | Some(value: T)

  function Min(a: int, b: int): int
  {
    if a <= b then a else b
  }

  /** Concatenation of a sequence of byte chunks, in order (what `new Blob(chunks)` holds). */
  function Flatten(chunks: seq<seq<byte>>): seq<byte>
  {
    if chunks == [] then [] else Flatten(chunks[..|chunks| - 1]) + chunks[|chunks| - 1]
  }

  lemma {:induction false} FlattenConcat(a: seq<seq<byte>>, b: seq<seq<byte>>)
    ensures Flatten(a + b) == Flatten(a) + Flatten(b)
    decreases |b|
  {
    if b == [] {
      assert a + b == a;
    } else {
      var b' := b[..|b| - 1];
      assert (a + b)[..|a + b| - 1] == a + b';
      FlattenConcat(a, b');
    }
  }

  lemma FlattenCons(c: seq<byte>, rest: seq<seq<byte>>)
    ensures Flatten([c] + rest) == c + Flatten(rest)
  {
    FlattenConcat([c], rest);
    assert Flatten([c]) == Flatten([]) + c;
  }

  /**
   * `blob.slice(start, end)` for non-negative arguments: both ends are clamped
   * to the blob's size and an inverted range gives the empty blob.
   */
  function BlobSlice(data: seq<byte>, start: nat, end: nat): (r: seq<byte>)
    ensures start <= |data| ==> start + |r| <= |data| && r == data[start..start + |r|]
    ensures start <= end ==> |r| == Min(end, |data|) - Min(start, |data|)
    ensures |r| <= if start <= end then end - start else 0
  {
    var s := Min(start, |data|);
    var e := Min(end, |data|);
    if e <= s then [] else data[s..e]
  }

  /**
   * A quotient as JavaScript computes it for the transfer code: a finite
   * ratio, or +Infinity (a positive byte count divided by a declared size of 0).
   */
  datatype Progress = Ratio(value: real) | Infinite
}
