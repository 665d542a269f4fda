/** Shared result types and the one sequence helper several modules need. */
module Wrappers {
  datatype Option<+T> = None | Some(value: T)

  /** A Go slice as JSON shows it: `nil` encodes as `null`, which is not an empty list. */
  datatype Slice<+T> = Nil | Items(items: seq<T>)

  /** The last `n` elements of `s`, or all of `s` when it is shorter. */
  function LastN<T>(n: nat, s: seq<T>): (r: seq<T>)
    ensures |r| == if |s| < n then |s| else n
  {
    if |s| <= n then s else s[|s| - n..]
  }

  /** Trimming a longer window first changes nothing. */
  lemma LastNAbsorbs<T>(n: nat, s: seq<T>, t: seq<T>)
    ensures LastN(n, LastN(n, s) + t) == LastN(n, s + t)
  {
    if |s| > n {
      assert s + t == s[..|s| - n] + (LastN(n, s) + t);
    }
  }
}
