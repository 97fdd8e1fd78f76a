module Sequences {

  lemma Associates<T>(a: seq<T>, b: seq<T>, c: seq<T>)
    ensures (a + b) + c == a + (b + c)
  {
  }

  /** Induction over sequences built by appending elements that satisfy `q`. */
  lemma {:induction false} SnocInduction<T>(p: seq<T> -> bool, q: T -> bool, ts: seq<T>)
    requires p([])
    requires forall us, t :: p(us) && q(t) ==> p(us + [t])
    requires forall i :: 0 <= i < |ts| ==> q(ts[i])
    ensures p(ts)
  {
    if ts != [] {
      SnocInduction(p, q, ts[..|ts| - 1]);
      assert ts == ts[..|ts| - 1] + [ts[|ts| - 1]];
    }
  }
}
