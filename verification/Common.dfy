/** What several of the modules need. */
module Common {
  datatype Option<+T> = None | Some(value: T)

  /** The same value, n times. */
  function Repeat<T>(x: T, n: nat): (s: seq<T>)
    ensures |s| == n && forall i :: 0 <= i < n ==> s[i] == x
  {
    seq(n, _ => x)
  }
}
