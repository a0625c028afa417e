/** Occurrences of a value in a sequence, and how one update moves the count. */
module Counting {
  ghost function One(b: bool): nat { if b then 1 else 0 }

  ghost function Count<T>(s: seq<T>, x: T): nat {
    if s == [] then 0 else Count(s[..|s| - 1], x) + One(s[|s| - 1] == x)
  }

  lemma {:induction false} CountUpdate<T>(s: seq<T>, i: nat, to: T, x: T)
    requires i < |s|
    ensures Count(s[i := to], x) == Count(s, x) - One(s[i] == x) + One(to == x)
  {
    var n := |s| - 1;
    if i == n {
      assert s[i := to][..n] == s[..n];
    } else {
      assert s[i := to][..n] == s[..n][i := to];
      CountUpdate(s[..n], i, to, x);
    }
  }

  lemma {:induction false} CountAbsent<T>(s: seq<T>, x: T)
    requires x !in s
    ensures Count(s, x) == 0
  {
    if s != [] { CountAbsent(s[..|s| - 1], x); }
  }

  lemma {:induction false} CountTwo<T>(s: seq<T>, x: T, y: T)
    requires x != y
    ensures Count(s, x) + Count(s, y) <= |s|
  {
    if s != [] { CountTwo(s[..|s| - 1], x, y); }
  }
}
