/** Regrouping concatenations, apart from the proofs that need it. */
module Sequences {

  lemma {:induction false} Regroup<T>(a: seq<T>, b: seq<T>, c: seq<T>)
    ensures a + b + c == a + (b + c)
  {
  }

  lemma {:induction false} RegroupFour<T>(a: seq<T>, b: seq<T>, c: seq<T>, d: seq<T>)
    ensures a + b + c + d == a + (b + (c + d))
  {
    Regroup(a + b, c, d);
    Regroup(a, b, c + d);
  }
}
