/** What holds of all sequences. */
module Sequences {
  lemma Regroup<T>(a: seq<T>, b: seq<T>, c: seq<T>)
    ensures (a + b) + c == a + (b + c)
  {
  }

  lemma MiddleThree<T>(a: seq<T>, b: seq<T>, c: seq<T>, d: seq<T>, e: seq<T>)
    ensures a + b + c + d + e == a + (b + c + d) + e
  {
  }

  lemma LastApart<T>(first: T, rest: seq<T>)
    requires |rest| > 0
    ensures var init, last := rest[..|rest| - 1], rest[|rest| - 1];
            rest == init + [last] && [first] + rest == ([first] + init) + [last]
  {
  }
}
