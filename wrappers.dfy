/** The optional value the source expresses with Python's None, and map lookup with a default. */
module Wrappers {

  datatype Option<T> = None | Some(value: T)

  /** The sequence a map holds at `k`; a missing key reads as the empty sequence. */
  function SeqAt<K, T>(m: map<K, seq<T>>, k: K): (s: seq<T>)
    ensures k !in m ==> s == []
  {
    if k in m then m[k] else []
  }

}
