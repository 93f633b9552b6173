/** Counting in sequences, without going through multisets. */
module Occurrences {

  function Occurs<T(==)>(s: seq<T>, x: T): nat {
    if s == [] then 0 else (if s[0] == x then 1 else 0) + Occurs(s[1..], x)
  }

  lemma {:induction false} OccursConcat<T>(s: seq<T>, t: seq<T>, x: T)
    ensures Occurs(s + t, x) == Occurs(s, x) + Occurs(t, x)
  {
    if s == [] {
      assert s + t == t;
    } else {
      assert (s + t)[1..] == s[1..] + t;
      OccursConcat(s[1..], t, x);
    }
  }

  lemma {:induction false} OccursIsMultiplicity<T>(s: seq<T>, x: T)
    ensures Occurs(s, x) == multiset(s)[x]
  {
    if s != [] {
      OccursIsMultiplicity(s[1..], x);
      assert s == [s[0]] + s[1..];
    }
  }
}
