/** Facts about sequences of anything. */
module Sequences {

  lemma {:induction false} Associate<T>(a: seq<T>, b: seq<T>, c: seq<T>)
    ensures a + b + c == a + (b + c)
  {
  }

  /** A proper prefix of two parts that has all of the first has a proper prefix of the second. */
  lemma {:induction false} PastFirst<T>(part: seq<T>, a: seq<T>, b: seq<T>) returns (rest: seq<T>)
    requires part < a + b && |a| <= |part|
    ensures part == a + rest && rest < b
  {
    rest := part[|a|..];
    assert part == (a + b)[..|part|];
  }
}
