/** What the modelled lists have in common. */
module Sequences {

  /** Removing from a list takes out the first element equal to x, if there is one. */
  function RemoveFirst<T(==)>(list: seq<T>, x: T): seq<T> {
    if |list| == 0 then []
    else if list[0] == x then list[1..]
    else [list[0]] + RemoveFirst(list[1..], x)
  }

  lemma {:induction false} RemoveAbsent<T>(list: seq<T>, x: T)
    requires x !in list
    ensures RemoveFirst(list, x) == list
  {
    if |list| != 0 {
      RemoveAbsent(list[1..], x);
    }
  }

  lemma Concat<T>(a: seq<T>, b: seq<T>, c: seq<T>)
    ensures (a + b) + c == a + (b + c)
  {
  }

  /** One more element of a prefix. */
  lemma TakeOneMore<T>(s: seq<T>, i: nat)
    requires i < |s|
    ensures s[..i + 1] == s[..i] + [s[i]]
  {
  }

  lemma AppendOne<T>(a: seq<T>, x: T, rest: seq<T>)
    ensures a + ([x] + rest) == a + [x] + rest
    ensures |rest| == 0 ==> a + ([x] + rest) == a + [x]
  {
  }

  lemma SliceJoin<T>(s: seq<T>, i: nat, j: nat, k: nat)
    requires i <= j <= k <= |s|
    ensures s[i..j] + s[j..k] == s[i..k]
  {
  }

  lemma PrefixSlice<T>(a: seq<T>, b: seq<T>, i: nat, j: nat)
    requires i <= j <= |a|
    ensures (a + b)[i..j] == a[i..j]
  {
  }
}
