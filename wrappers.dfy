/** The optional value used wherever the engine returns a Rust `Option`, and one sequence fact the proofs share. */
module Wrappers {

  datatype Option<+T> = None | Some(value: T)

  /** Concatenation regroups freely; stated once so that long chains of appends stay cheap to check. */
  lemma AppendAssoc<T>(a: seq<T>, b: seq<T>, c: seq<T>)
    ensures (a + b) + c == a + (b + c)
  {
  }
}
