/** Taking one element out of a sequence seen as a collection. */
module Sequences {

  lemma RemoveAt<T>(x: seq<T>, j: nat)
    requires j < |x|
    ensures multiset(x) == multiset(x[..j] + x[j + 1..]) + multiset{x[j]}
  {
    assert x == x[..j] + ([x[j]] + x[j + 1..]);
  }

  /** The first element of one of two equal collections has a place in the other, and the rests are equal again. */
  lemma MatchFirst<T>(a: seq<T>, b: seq<T>) returns (j: nat)
    requires multiset(a) == multiset(b) && a != []
    ensures j < |b| && b[j] == a[0] && multiset(a[1..]) == multiset(b[..j] + b[j + 1..])
  {
    assert a[0] in multiset(b);
    j :| 0 <= j < |b| && b[j] == a[0];
    RemoveAt(a, 0);
    RemoveAt(b, j);
    assert a[..0] + a[1..] == a[1..];
    assert multiset(a[1..]) == multiset(a) - multiset{a[0]};
    assert multiset(b[..j] + b[j + 1..]) == multiset(b) - multiset{b[j]};
  }

  lemma NothingLeft<T>(b: seq<T>)
    requires multiset(b) == multiset([])
    ensures b == []
  {
    assert |multiset(b)| == 0;
  }
}
