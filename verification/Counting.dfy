/** How often an element occurs in a sequence. */
module Counting {

  lemma TwiceCounted<T>(x: seq<T>, i: nat, j: nat)
    requires i < j < |x| && x[i] == x[j]
    ensures multiset(x)[x[i]] >= 2
  {
    assert x == x[..j] + [x[j]] + x[j + 1..];
    assert x[..j][i] in multiset(x[..j]);
  }

  lemma SplitCount<T>(s: seq<T>, k: nat)
    requires k < |s|
    ensures multiset(s) == multiset(s[..k] + s[k + 1..]) + multiset{s[k]}
  {
    assert s == s[..k] + [s[k]] + s[k + 1..];
  }

  lemma CancelOne<T>(a: multiset<T>, b: multiset<T>, e: T)
    requires a + multiset{e} == b + multiset{e}
    ensures a == b
  {
    assert a == (a + multiset{e}) - multiset{e} && b == (b + multiset{e}) - multiset{e};
  }

  lemma DropOne<T>(x: seq<T>, y: seq<T>, k: nat)
    requires multiset(x) == multiset(y) && x != [] && k < |y| && y[k] == x[|x| - 1]
    ensures multiset(x[..|x| - 1]) == multiset(y[..k] + y[k + 1..])
  {
    var n := |x| - 1;
    SplitCount(x, n);
    SplitCount(y, k);
    assert x[..n] + x[n + 1..] == x[..n];
    CancelOne(multiset(x[..n]), multiset(y[..k] + y[k + 1..]), y[k]);
  }
}
