/** Vocabulary shared by every module: file content, hashes and optional values. */
module Basics {

  newtype Byte = x: int | 0 <= x < 256

  /** The bytes of a file; its size is the length of the sequence. */
  type Content = seq<Byte>

  datatype Option<+T> = None | Some(value: T)

  /** The sha256 column or manifest field. SHA-256 is taken to be injective, so a digest is
      represented by the content it was computed from; `Unhashed` is the empty string. */
  datatype Hash = Unhashed | Digest(of: Content)

  /** Pigeonhole: a subset is never larger than the set that holds it. */
  lemma {:induction false} SubsetSize<T>(a: set<T>, b: set<T>)
    requires a <= b
    ensures |a| <= |b|
  {
    if a != {} {
      var x :| x in a;
      SubsetSize(a - {x}, b - {x});
    }
  }
}
