/** Sequences of tokens, built and read from the front. */
module TokenStreams {

  /** One token in front of the rest. */
  function Put<T>(t: T, rest: seq<T>): (r: seq<T>)
    ensures r != [] && r[0] == t && r[1..] == rest
  {
    [t] + rest
  }

  predicate Next<T(==)>(ts: seq<T>, t: T)
  {
    ts != [] && ts[0] == t
  }
}
