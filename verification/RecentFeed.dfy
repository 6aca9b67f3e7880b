/**
 The activity feed of the dashboard: every source is cut to the limit before the union is sorted
 (RecentActivity in internal/dashboard/service.go). Entry ids are numbers in the order of their
 collation.
 */
module RecentFeed {

  datatype Entry = Entry(occurredAt: int, entryId: int, shown: string)

  predicate Later(a: Entry, b: Entry) {
    a.occurredAt > b.occurredAt || (a.occurredAt == b.occurredAt && a.entryId > b.entryId)
  }

  /** An entry's time and id tell it apart from every other entry. */
  ghost predicate Distinct(all: set<Entry>) {
    forall a, b :: a in all && b in all && a.occurredAt == b.occurredAt && a.entryId == b.entryId ==> a == b
  }

  ghost predicate From(s: seq<Entry>, all: set<Entry>) {
    forall i :: 0 <= i < |s| ==> s[i] in all
  }

  // ----- ORDER BY and LIMIT

  function Insert(x: Entry, s: seq<Entry>): (r: seq<Entry>)
    ensures |r| == |s| + 1
  {
    if s != [] && Later(s[0], x) then [s[0]] + Insert(x, s[1..]) else [x] + s
  }

  /** Inserts the entries of x one by one. */
  function Into(x: seq<Entry>, s: seq<Entry>): seq<Entry> {
    if x == [] then s else Insert(x[0], Into(x[1..], s))
  }

  /** ORDER BY occurred_at DESC, entry_id DESC. */
  function Ranked(s: seq<Entry>): seq<Entry> {
    Into(s, [])
  }

  /** LIMIT n. */
  function Top(n: nat, s: seq<Entry>): seq<Entry> {
    if |s| <= n then s else s[..n]
  }

  /** UNION ALL. */
  ghost function Union(sources: seq<seq<Entry>>): seq<Entry> {
    if sources == [] then [] else sources[0] + Union(sources[1..])
  }

  ghost function Cut(n: nat, sources: seq<seq<Entry>>): (r: seq<seq<Entry>>)
    ensures |r| == |sources| && forall i :: 0 <= i < |r| ==> r[i] == Top(n, Ranked(sources[i]))
  {
    seq(|sources|, i requires 0 <= i < |sources| => Top(n, Ranked(sources[i])))
  }

  ghost predicate InOrder(s: seq<Entry>) {
    forall i, j :: 0 <= i < j < |s| ==> AsLate(s[i], s[j])
  }

  /** The first is the later one, or it happened together with the second and has no smaller id. */
  ghost predicate AsLate(a: Entry, b: Entry) {
    a.occurredAt > b.occurredAt || (a.occurredAt == b.occurredAt && a.entryId >= b.entryId)
  }

  /** The feed is part of what there is, in order, and nothing left out is later than anything in it. */
  ghost predicate Latest(feed: seq<Entry>, limit: nat, there: seq<Entry>) {
    && |feed| == (if |there| < limit then |there| else limit) && InOrder(feed)
    && multiset(feed) <= multiset(there)
    && forall e, x :: e in feed && multiset(feed)[x] < multiset(there)[x] ==> AsLate(e, x)
  }

  // ----- inserting

  lemma {:induction false} InsertStaysFrom(x: Entry, s: seq<Entry>, all: set<Entry>)
    requires x in all && From(s, all)
    ensures From(Insert(x, s), all)
  {
    if s != [] && Later(s[0], x) {
      InsertStaysFrom(x, s[1..], all);
    }
  }

  lemma {:induction false} IntoStaysFrom(x: seq<Entry>, s: seq<Entry>, all: set<Entry>)
    requires From(x, all) && From(s, all)
    ensures From(Into(x, s), all)
  {
    if x != [] {
      IntoStaysFrom(x[1..], s, all);
      InsertStaysFrom(x[0], Into(x[1..], s), all);
    }
  }

  lemma {:induction false} InsertsCommute(a: Entry, b: Entry, s: seq<Entry>)
    requires Later(a, b) || Later(b, a) || a == b
    ensures Insert(a, Insert(b, s)) == Insert(b, Insert(a, s))
  {
    if s != [] && Later(s[0], a) && Later(s[0], b) {
      InsertsCommute(a, b, s[1..]);
      assert ([s[0]] + Insert(b, s[1..]))[1..] == Insert(b, s[1..]);
      assert ([s[0]] + Insert(a, s[1..]))[1..] == Insert(a, s[1..]);
    } else {
      assert ([a] + s)[1..] == s && ([b] + s)[1..] == s;
      if s != [] {
        assert ([s[0]] + Insert(b, s[1..]))[1..] == Insert(b, s[1..]);
        assert ([s[0]] + Insert(a, s[1..]))[1..] == Insert(a, s[1..]);
      }
    }
  }

  lemma Ordered(a: Entry, b: Entry, all: set<Entry>)
    requires Distinct(all) && a in all && b in all
    ensures Later(a, b) || Later(b, a) || a == b
  {
  }

  lemma {:induction false} InsertSinks(a: Entry, x: seq<Entry>, s: seq<Entry>, all: set<Entry>)
    requires Distinct(all) && a in all && From(x, all)
    ensures Into(x, Insert(a, s)) == Insert(a, Into(x, s))
  {
    hide Insert, Later;
    if x != [] {
      InsertSinks(a, x[1..], s, all);
      assert x[0] in all;
      Ordered(a, x[0], all);
      InsertsCommute(a, x[0], Into(x[1..], s));
    }
  }

  lemma {:induction false} IntosCommute(x: seq<Entry>, y: seq<Entry>, s: seq<Entry>, all: set<Entry>)
    requires Distinct(all) && From(x, all) && From(y, all)
    ensures Into(x, Into(y, s)) == Into(y, Into(x, s))
  {
    hide Insert, Distinct;
    if y != [] {
      IntosCommute(x, y[1..], s, all);
      InsertSinks(y[0], x, Into(y[1..], s), all);
    }
  }

  lemma {:induction false} IntoAppend(x: seq<Entry>, y: seq<Entry>, s: seq<Entry>)
    ensures Into(x + y, s) == Into(x, Into(y, s))
  {
    hide Insert;
    if x == [] {
      assert x + y == y;
    } else {
      IntoAppend(x[1..], y, s);
      assert (x + y)[1..] == x[1..] + y;
    }
  }

  /** Sorting first changes nothing. */
  lemma {:induction false} IntoInserted(a: Entry, x: seq<Entry>, s: seq<Entry>, all: set<Entry>)
    requires Distinct(all) && a in all && From(x, all)
    ensures Into(Insert(a, x), s) == Insert(a, Into(x, s))
  {
    hide Distinct;
    if x != [] && Later(x[0], a) {
      IntoInserted(a, x[1..], s, all);
      assert ([x[0]] + Insert(a, x[1..]))[1..] == Insert(a, x[1..]);
      InsertsCommute(a, x[0], Into(x[1..], s));
    } else {
      assert ([a] + x)[1..] == x;
    }
  }

  lemma {:induction false} RankedFirst(x: seq<Entry>, s: seq<Entry>, all: set<Entry>)
    requires Distinct(all) && From(x, all)
    ensures Into(Ranked(x), s) == Into(x, s)
  {
    hide Insert, Distinct;
    if x != [] {
      RankedFirst(x[1..], s, all);
      IntoStaysFrom(x[1..], [], all);
      IntoInserted(x[0], Ranked(x[1..]), s, all);
    }
  }

  // ----- order

  lemma {:induction false} InsertKeepsOrder(x: Entry, s: seq<Entry>)
    requires InOrder(s)
    ensures InOrder(Insert(x, s))
    ensures forall y :: y in Insert(x, s) ==> y == x || y in s
  {
    if s != [] && Later(s[0], x) {
      InsertKeepsOrder(x, s[1..]);
      var rest := Insert(x, s[1..]);
      forall i | 0 <= i < |rest| ensures !Later(rest[i], s[0]) {
        assert rest[i] in rest;
      }
    }
  }

  lemma {:induction false} RankedIsInOrder(x: seq<Entry>)
    ensures InOrder(Ranked(x))
  {
    if x != [] {
      RankedIsInOrder(x[1..]);
      InsertKeepsOrder(x[0], Ranked(x[1..]));
    }
  }

  /** Sorting keeps every entry, repetitions included. */
  lemma {:induction false} RankedIsPermutation(x: seq<Entry>)
    ensures multiset(Ranked(x)) == multiset(x)
  {
    if x != [] {
      RankedIsPermutation(x[1..]);
      InsertAdds(x[0], Ranked(x[1..]));
      assert x == [x[0]] + x[1..];
    }
  }

  lemma {:induction false} InsertAdds(a: Entry, s: seq<Entry>)
    ensures multiset(Insert(a, s)) == multiset(s) + multiset{a}
  {
    if s != [] && Later(s[0], a) {
      InsertAdds(a, s[1..]);
      assert s == [s[0]] + s[1..];
    }
  }

  lemma {:induction false} InOrderIsRanked(s: seq<Entry>)
    requires InOrder(s)
    ensures Ranked(s) == s
  {
    if s != [] {
      InOrderIsRanked(s[1..]);
      assert |s| > 1 ==> !Later(s[1], s[0]);
      assert s == [s[0]] + s[1..];
    }
  }

  // ----- cutting

  /** What is beyond the limit before an insertion is beyond it afterwards. */
  lemma {:induction false} CutBeforeInsert(n: nat, x: Entry, s: seq<Entry>)
    ensures Top(n, Insert(x, s)) == Top(n, Insert(x, Top(n, s)))
    decreases |s|
  {
    hide Top, Insert;
    if n == 0 || s == [] {
      TopOfNone(n, s);
      TopOfNone(n, Insert(x, s));
      TopOfNone(n, Insert(x, Top(n, s)));
    } else {
      var h, r := s[0], s[1..];
      assert s == [h] + r;
      CutOfCons(n, h, r);
      InsertCons(x, h, r);
      InsertCons(x, h, Top(n - 1, r));
      if Later(h, x) {
        CutBeforeInsert(n - 1, x, r);
        CutOfCons(n, h, Insert(x, r));
        CutOfCons(n, h, Insert(x, Top(n - 1, r)));
      } else {
        CutOfCons(n, x, s);
        CutOfCons(n, x, Top(n, s));
        TopWithin(n - 1, n, s);
      }
    }
  }

  lemma TopOfNone(n: nat, s: seq<Entry>)
    ensures n == 0 ==> Top(n, s) == []
    ensures s == [] ==> Top(n, s) == []
  {
  }

  lemma TopWithin(m: nat, n: nat, s: seq<Entry>)
    requires m <= n
    ensures Top(m, Top(n, s)) == Top(m, s)
  {
  }

  lemma InsertCons(x: Entry, h: Entry, r: seq<Entry>)
    ensures Insert(x, [h] + r) == if Later(h, x) then [h] + Insert(x, r) else [x] + ([h] + r)
  {
    assert ([h] + r)[1..] == r;
  }

  lemma CutOfCons(n: nat, x: Entry, s: seq<Entry>)
    requires n >= 1
    ensures Top(n, [x] + s) == [x] + Top(n - 1, s)
  {
  }

  lemma {:induction false} CutBeforeInto(n: nat, x: seq<Entry>, s: seq<Entry>)
    ensures Top(n, Into(x, s)) == Top(n, Into(x, Top(n, s)))
  {
    hide Insert, Top;
    if x == [] {
      CutTwice(n, s);
    } else {
      CutBeforeInto(n, x[1..], s);
      CutBeforeInsert(n, x[0], Into(x[1..], s));
      CutBeforeInsert(n, x[0], Into(x[1..], Top(n, s)));
    }
  }

  lemma CutTwice(n: nat, s: seq<Entry>)
    ensures Top(n, Top(n, s)) == Top(n, s)
    ensures |Top(n, s)| <= |s| && Top(n, s) == s[..|Top(n, s)|]
  {
  }

  /** One source may be cut before it is merged with the rest. */
  lemma CutOneSource(n: nat, x: seq<Entry>, s: seq<Entry>, all: set<Entry>)
    requires Distinct(all) && From(x, all) && From(s, all)
    ensures Top(n, Into(Top(n, Ranked(x)), Ranked(s))) == Top(n, Into(x, Ranked(s)))
  {
    hide Insert, Into, Distinct, InOrder, Top;
    var r := Ranked(x);
    var t := Top(n, r);
    CutTwice(n, r);
    RankedIsInOrder(x);
    IntoStaysFrom(x, [], all);
    PrefixIsRanked(r, |t|);
    InOrderIsRanked(r);
    calc {
      Top(n, Into(t, Ranked(s)));
      { IntosCommute(t, s, [], all); }
      Top(n, Into(s, Ranked(t)));
      Top(n, Into(s, t));
      { CutBeforeInto(n, s, r); }
      Top(n, Into(s, r));
      { IntosCommute(s, r, [], all); }
      Top(n, Into(r, Ranked(s)));
      { RankedFirst(x, Ranked(s), all); }
      Top(n, Into(x, Ranked(s)));
    }
  }

  lemma PrefixIsRanked(r: seq<Entry>, k: nat)
    requires InOrder(r) && k <= |r|
    ensures Ranked(r[..k]) == r[..k]
  {
    InOrderIsRanked(r[..k]);
  }

  ghost predicate AllFrom(sources: seq<seq<Entry>>, all: set<Entry>) {
    forall i :: 0 <= i < |sources| ==> From(sources[i], all)
  }

  lemma {:induction false} UnionIsFrom(sources: seq<seq<Entry>>, all: set<Entry>)
    requires AllFrom(sources, all)
    ensures From(Union(sources), all)
  {
    if sources != [] {
      UnionIsFrom(sources[1..], all);
      assert From(sources[0], all);
    }
  }

  /** The top n of the sources' own top n is the top n of everything. */
  lemma {:induction false} CutSourcesFirst(n: nat, sources: seq<seq<Entry>>, all: set<Entry>)
    requires Distinct(all) && AllFrom(sources, all)
    ensures Top(n, Ranked(Union(Cut(n, sources)))) == Top(n, Ranked(Union(sources)))
  {
    hide Into, Distinct, Top, From;
    if sources != [] {
      var first, rest := sources[0], sources[1..];
      var cut := Top(n, Ranked(first));
      CutSourcesFirst(n, rest, all);
      assert Cut(n, sources)[1..] == Cut(n, rest);
      UnionIsFrom(rest, all);
      calc {
        Top(n, Ranked(Union(Cut(n, sources))));
        { IntoAppend(cut, Union(Cut(n, rest)), []); }
        Top(n, Into(cut, Ranked(Union(Cut(n, rest)))));
        { CutBeforeInto(n, cut, Ranked(Union(Cut(n, rest)))); }
        Top(n, Into(cut, Top(n, Ranked(Union(Cut(n, rest))))));
        { CutBeforeInto(n, cut, Ranked(Union(rest))); }
        Top(n, Into(cut, Ranked(Union(rest))));
        { CutOneSource(n, first, Union(rest), all); }
        Top(n, Into(first, Ranked(Union(rest))));
        { IntoAppend(first, Union(rest), []); }
        Top(n, Ranked(Union(sources)));
      }
    }
  }

  /** The top n of the sorted entries are the latest n. */
  lemma TopIsLatest(n: nat, s: seq<Entry>)
    ensures Latest(Top(n, Ranked(s)), n, s)
  {
    hide Into, AsLate;
    var r, top := Ranked(s), Top(n, Ranked(s));
    RankedIsInOrder(s);
    RankedIsPermutation(s);
    assert |multiset(r)| == |r| && |multiset(s)| == |s|;
    var rest := r[|top|..];
    assert r == top + rest;
    forall e, x | e in top && multiset(top)[x] < multiset(s)[x] ensures AsLate(e, x) {
      assert multiset(r) == multiset(top) + multiset(rest);
      assert x in rest;
      var i :| 0 <= i < |top| && top[i] == e;
      var j :| 0 <= j < |rest| && rest[j] == x;
      assert r[i] == e && r[|top| + j] == x;
    }
  }

  /** RecentActivity: cut, unite, sort, cut again. */
  method RecentActivity(limit: nat, sources: seq<seq<Entry>>, ghost all: set<Entry>) returns (feed: seq<Entry>)
    requires Distinct(all) && AllFrom(sources, all)
    ensures feed == Top(limit, Ranked(Union(sources)))
    ensures Latest(feed, limit, Union(sources))
  {
    TopIsLatest(limit, Union(sources));
    hide Into, Distinct, Top, From;
    CutSourcesFirst(limit, sources, all);
    if |sources| == 0 {
      NothingToShow(limit);
      return [];
    }
    var limited: seq<Entry> := [];
    for i := 0 to |sources|
      invariant limited == Union(Cut(limit, sources)[..i])
    {
      UnionSnoc(Cut(limit, sources), i);
      limited := limited + Top(limit, Ranked(sources[i]));
    }
    assert Cut(limit, sources)[..|sources|] == Cut(limit, sources);
    feed := Top(limit, Ranked(limited));
  }

  lemma NothingToShow(n: nat)
    ensures Top(n, Ranked(Union([]))) == []
  {
  }

  lemma {:induction false} UnionSnoc(sources: seq<seq<Entry>>, i: nat)
    requires i < |sources|
    ensures Union(sources[..i + 1]) == Union(sources[..i]) + sources[i]
  {
    if i == 0 {
      assert sources[..1] == [sources[0]] && sources[..0] == [];
      assert [sources[0]][1..] == [];
    } else {
      UnionSnoc(sources[1..], i - 1);
      assert sources[..i + 1][1..] == sources[1..][..i] && sources[..i][1..] == sources[1..][..i - 1];
    }
  }
}
