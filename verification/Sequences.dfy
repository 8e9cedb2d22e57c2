/** How sequences are put together, stated once where the verifier does not see it unaided. */
module Sequences {
  lemma Joined<T>(a: seq<T>, b: seq<T>, c: seq<T>)
    ensures a + b + c == a + (b + c)
  {}

  lemma Nothing<T>(xs: seq<T>)
    ensures [] + xs == xs && xs + [] == xs
  {}

  lemma Regroup<T>(acc: seq<T>, xs: seq<T>)
    requires xs != []
    ensures acc + [xs[0]] + xs[1..] == acc + xs
  {}
}
