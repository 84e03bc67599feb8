/** Small value wrappers shared by the other modules. */
module Base {

  /** `None` stands for JavaScript's `undefined` (or NaN, for a number). */
  datatype Option<+T> = None | Some(value: T)

  /** A value, or the error the source would throw or reject with. */
  datatype Result<+T, +E> = Ok(value: T) | Err(error: E)

  /** Bytes of a Node `Buffer`. */
  type byte = x: int | 0 <= x < 256

  predicate NoDuplicates<T(==)>(s: seq<T>) {
    forall i, j :: 0 <= i < j < |s| ==> s[i] != s[j]
  }

  predicate IsPrefix<T(==)>(p: seq<T>, s: seq<T>) {
    |p| <= |s| && s[..|p|] == p
  }

  lemma ConcatAssoc<T>(a: seq<T>, b: seq<T>, c: seq<T>)
    ensures a + b + c == a + (b + c)
  {
  }

  lemma PairConcat<T>(x: T, y: T)
    ensures [x] + [y] == [x, y]
  {
  }

  lemma PrefixTransitive<T>(a: seq<T>, b: seq<T>, c: seq<T>)
    requires IsPrefix(a, b) && IsPrefix(b, c)
    ensures IsPrefix(a, c)
  {
    assert c[..|a|] == c[..|b|][..|a|];
  }

  lemma PrefixOfPush<T>(a: seq<T>, x: T)
    ensures IsPrefix(a, a + [x])
  {
    assert (a + [x])[..|a|] == a;
  }

  lemma PrefixSplit<T>(a: seq<T>, b: seq<T>, c: seq<T>)
    requires IsPrefix(a, b) && IsPrefix(b, c)
    ensures c[|a|..] == b[|a|..] + c[|b|..]
  {
    assert c[|a|..] == c[|a|..|b|] + c[|b|..];
  }

  /** The concatenation of a sequence of sequences, in order (`Buffer.concat`). */
  function Flatten<T>(chunks: seq<seq<T>>): (r: seq<T>)
  {
    if chunks == [] then [] else Flatten(chunks[..|chunks| - 1]) + chunks[|chunks| - 1]
  }

  lemma {:induction false} FlattenAppend<T>(chunks: seq<seq<T>>, c: seq<T>)
    ensures Flatten(chunks + [c]) == Flatten(chunks) + c
  {
    assert (chunks + [c])[..|chunks|] == chunks;
  }
}
