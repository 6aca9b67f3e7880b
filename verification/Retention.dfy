/**
 Listing and pruning the databases earlier restores set aside (internal/backup/retention.go). The
 catalog is the set of database names; `at` is the second a moment of the calendar stands for.
 */
module Retention {

  import opened DatabaseNames
  import opened Text
  import opened Wrappers

  type Clock = string -> int

  const NANOS := 1_000_000_000

  /** Different moments are different seconds. */
  ghost predicate Readable(at: Clock) {
    forall s, t :: IsMoment(s) && IsMoment(t) && at(s) == at(t) ==> s == t
  }

  // ----- instants

  /** The first nine digits of the fraction, as time.Parse reads them. */
  function Fraction(text: string): (r: string)
    requires Accepted(text)
    ensures |r| == 9
  {
    ((if |text| == STAMP_LENGTH then "" else text[16..|text| - 1]) + "000000000")[..9]
  }

  /** In nanoseconds. */
  function InstantOf(text: string, at: Clock): int
    requires Accepted(text)
  {
    at(text[..15]) * NANOS + NumberOf(Fraction(text))
  }

  /** SQL's LIKE: _ is any character, % any text, and a backslash takes the next character literally. */
  predicate Like(s: string, pattern: string)
    decreases |pattern|, |s|
  {
    if pattern == "" then s == ""
    else if pattern[0] == '%' then Like(s, pattern[1..]) || (s != "" && Like(s[1..], pattern))
    else if pattern[0] == '\\' then
      |pattern| > 1 && s != "" && s[0] == pattern[1] && Like(s[1..], pattern[2..])
    else s != "" && (pattern[0] == '_' || s[0] == pattern[0]) && Like(s[1..], pattern[1..])
  }

  /** What the catalog query asks for. */
  function Pattern(live: string): string {
    live + RETIRED_INFIX + "%"
  }

  /** The query finds the name and the parser reads it. */
  predicate Retained(live: string, name: string) {
    Like(name, Pattern(live)) && ParseRetiredStamp(name, live).Some?
  }

  function TextOf(live: string, name: string): (r: string)
    requires Retained(live, name)
    ensures Accepted(r) && name == live + RETIRED_INFIX + r
  {
    ParseRetiredStamp(name, live).value
  }

  function RetiredAt(live: string, name: string, at: Clock): int
    requires Retained(live, name)
  {
    InstantOf(TextOf(live, name), at)
  }

  lemma {:induction false} NumbersDiffer(s: string, t: string)
    requires AllDigits(s) && AllDigits(t) && |s| == |t|
    ensures 0 <= NumberOf(s) && (|s| == 9 ==> NumberOf(s) < NANOS)
    ensures NumberOf(s) == NumberOf(t) ==> s == t
  {
    if s != "" {
      var n := |s| - 1;
      NumbersDiffer(s[..n], t[..n]);
      assert s == s[..n] + [s[n]] && t == t[..n] + [t[n]];
    }
    if |s| == 9 {
      NumberBelow(s, 9);
      assert Tens(9) == NANOS;
    }
  }

  function Tens(n: nat): int {
    if n == 0 then 1 else 10 * Tens(n - 1)
  }

  lemma {:induction false} NumberBelow(s: string, n: nat)
    requires AllDigits(s) && |s| == n
    ensures 0 <= NumberOf(s) < Tens(n)
  {
    if n > 0 {
      NumberBelow(s[..n - 1], n - 1);
    }
  }

  lemma FractionIsDigits(text: string)
    requires Accepted(text)
    ensures AllDigits(Fraction(text))
  {
    hide IsMoment;
  }

  lemma {:induction false} TensAdd(m: nat, n: nat)
    ensures Tens(m + n) == Tens(m) * Tens(n) && Tens(n) > 0
  {
    if n > 0 {
      TensAdd(m, n - 1);
    }
  }

  lemma {:induction false} NumberAppend(x: string, y: string)
    ensures NumberOf(x + y) == NumberOf(x) * Tens(|y|) + NumberOf(y)
  {
    if y == "" {
      assert x + y == x;
    } else {
      var n := |y| - 1;
      NumberAppend(x, y[..n]);
      assert (x + y)[..|x| + n] == x + y[..n];
      Shifted(NumberOf(x), Tens(n), NumberOf(y[..n]), y[n] as int - '0' as int);
    }
  }

  lemma Shifted(x: int, t: int, y: int, d: int)
    ensures (x * t + y) * 10 + d == x * (10 * t) + (y * 10 + d)
  {
  }

  lemma {:induction false} ZerosAreNothing(s: string)
    requires forall i :: 0 <= i < |s| ==> s[i] == '0'
    ensures NumberOf(s) == 0
  {
    if s != "" {
      ZerosAreNothing(s[..|s| - 1]);
    }
  }

  /** The digits between the point and the Z. */
  ghost function Digits(text: string): string
    requires Accepted(text)
  {
    if |text| == STAMP_LENGTH then "" else text[16..|text| - 1]
  }

  lemma NoDigitsAreDigits(text: string)
    requires Accepted(text)
    ensures AllDigits(Digits(text)) && Fraction(text) == (Digits(text) + "000000000")[..9]
  {
    hide IsMoment;
  }

  /** The nanoseconds are those of the fraction the digits spell, the rest of it cut off. */
  lemma FractionIsCutOff(text: string)
    requires Accepted(text)
    ensures var n, d := NumberOf(Fraction(text)), Digits(text);
            n * Tens(|d|) <= NumberOf(d) * NANOS < (n + 1) * Tens(|d|)
  {
    hide IsMoment, Accepted, NumberOf, Fraction, Digits, Tens;
    var f, d := Fraction(text), Digits(text);
    NoDigitsAreDigits(text);
    NineZeros();
    if |d| <= 9 {
      var zeros := "000000000"[..9 - |d|];
      assert f == d + zeros;
      NumberAppend(d, zeros);
      ZerosAreNothing(zeros);
      TensAdd(9 - |d|, |d|);
      Regroup(NumberOf(d), Tens(9 - |d|), Tens(|d|));
    } else {
      var a, b := d[..9], d[9..];
      assert d == a + b && f == a;
      NumberAppend(a, b);
      NumberBelow(b, |b|);
      TensAdd(9, |b|);
      Bounds(NumberOf(a), NumberOf(b), Tens(|b|));
    }
  }

  lemma NineZeros()
    ensures forall i :: 0 <= i < 9 ==> "000000000"[i] == '0'
    ensures Tens(9) == NANOS
  {
  }

  lemma Regroup(x: int, s: int, t: int)
    requires t > 0
    ensures x * s * t == x * (s * t) && (x * s + 1) * t == x * s * t + t
  {
  }

  lemma Bounds(a: int, b: int, t: int)
    requires 0 <= b < t
    ensures a * (NANOS * t) <= (a * t + b) * NANOS < (a + 1) * (NANOS * t)
  {
    assert a * (NANOS * t) == a * t * NANOS;
    assert (a + 1) * (NANOS * t) == a * t * NANOS + NANOS * t;
  }

  /** Two names stand for one instant exactly when they agree in the second and in nine digits of the fraction. */
  lemma SameInstant(live: string, a: string, b: string, at: Clock)
    requires Readable(at) && Retained(live, a) && Retained(live, b)
    ensures RetiredAt(live, a, at) == RetiredAt(live, b, at) <==>
            && TextOf(live, a)[..15] == TextOf(live, b)[..15]
            && Fraction(TextOf(live, a)) == Fraction(TextOf(live, b))
  {
    hide IsMoment, ParseRetiredStamp, NumberOf, Fraction;
    var s, t := TextOf(live, a), TextOf(live, b);
    FractionIsDigits(s);
    FractionIsDigits(t);
    NumbersDiffer(Fraction(s), Fraction(t));
    NumbersDiffer(Fraction(t), Fraction(s));
  }

  /** No two names the engine gave stand for one instant. */
  lemma OneGivenNamePerInstant(live: string, a: string, b: string, at: Clock)
    requires Readable(at) && Retained(live, a) && Retained(live, b)
    requires |TextOf(live, a)| == |TextOf(live, b)| == STAMP_LENGTH
    requires RetiredAt(live, a, at) == RetiredAt(live, b, at)
    ensures a == b
  {
    hide IsMoment, ParseRetiredStamp, NumberOf, Fraction;
    SameInstant(live, a, b, at);
    var s, t := TextOf(live, a), TextOf(live, b);
    assert s == s[..15] + "Z" && t == t[..15] + "Z";
  }

  /** Foreign names can. */
  lemma TiesHappen(at: Clock) returns (live: string, a: string, b: string)
    ensures a != b && Retained(live, a) && Retained(live, b) && RetiredAt(live, a, at) == RetiredAt(live, b, at)
  {
    var s, t := "20240101T000000.5Z", "20240101T000000.50Z";
    live, a, b := "v", "v" + RETIRED_INFIX + s, "v" + RETIRED_INFIX + t;
    SomeStamp();
    hide IsMoment;
    assert s[..15] == t[..15] == "20240101T000000";
    assert s[16..17] == "5" && t[16..18] == "50";
    assert a[|live + RETIRED_INFIX|..] == s && b[|live + RETIRED_INFIX|..] == t;
    PlainNamesAreFound(live, a);
    PlainNamesAreFound(live, b);
    assert ("5" + "000000000")[..9] == "500000000" == ("50" + "000000000")[..9];
  }

  // ----- what the query finds

  datatype Slot = Any | Exactly(c: char)

  /** What each character of a name has to be, if no % and no unfinished escape is in the way. */
  ghost function Slots(pattern: string): Option<seq<Slot>>
    decreases |pattern|
  {
    if pattern == "" then Some([])
    else if pattern[0] == '%' || pattern == "\\" then None
    else
      var rest := Slots(if pattern[0] == '\\' then pattern[2..] else pattern[1..]);
      var slot :=
        if pattern[0] == '\\' then Exactly(pattern[1]) else if pattern[0] == '_' then Any else Exactly(pattern[0]);
      if rest.None? then None else Some([slot] + rest.value)
  }

  ghost predicate Fills(s: string, slots: seq<Slot>) {
    |slots| <= |s| && forall i :: 0 <= i < |slots| ==> slots[i] == Any || slots[i] == Exactly(s[i])
  }

  /** LIKE place by place: the characters before the % have to fit, and any text may follow. */
  lemma {:induction false} LikeMeans(s: string, pattern: string)
    requires Slots(pattern).Some?
    ensures Like(s, pattern + "%") <==> Fills(s, Slots(pattern).value)
    decreases |pattern|
  {
    var p := pattern + "%";
    if pattern == "" {
      assert p == "%";
      AnyTextIsLikePercent(s);
    } else {
      var n := if pattern[0] == '\\' then 2 else 1;
      assert p[n..] == pattern[n..] + "%" && p[0] == pattern[0] && (n == 2 ==> p[1] == pattern[1]);
      if s != "" {
        LikeMeans(s[1..], pattern[n..]);
        FillsStep(s, Slots(pattern).value);
      }
    }
  }

  lemma FillsStep(s: string, slots: seq<Slot>)
    requires s != "" && slots != []
    ensures Fills(s, slots) <==> (slots[0] == Any || slots[0] == Exactly(s[0])) && Fills(s[1..], slots[1..])
  {
    if Fills(s[1..], slots[1..]) {
      assert forall i :: 1 <= i < |slots| ==> slots[i] == slots[1..][i - 1];
    }
  }

  lemma {:induction false} AnyTextIsLikePercent(s: string)
    ensures Like(s, "%")
  {
    if s == "" {
      assert "%"[1..] == "";
    } else {
      AnyTextIsLikePercent(s[1..]);
    }
  }

  lemma {:induction false} TextIsLikeItself(prefix: string, rest: string)
    requires '\\' !in prefix
    ensures Like(prefix + rest, prefix + "%")
    decreases |prefix|
  {
    if prefix == "" {
      assert "" + rest == rest && "" + "%" == "%";
      AnyTextIsLikePercent(rest);
    } else {
      TextIsLikeItself(prefix[1..], rest);
      var s, p := prefix + rest, prefix + "%";
      assert s[1..] == prefix[1..] + rest && p[1..] == prefix[1..] + "%";
    }
  }

  /** Without a backslash in the live name the query misses nothing the parser would read. */
  lemma PlainNamesAreFound(live: string, name: string)
    requires '\\' !in live
    ensures Retained(live, name) <==> ParseRetiredStamp(name, live).Some?
  {
    hide Accepted, Like;
    if ParseRetiredStamp(name, live).Some? {
      var prefix := live + RETIRED_INFIX;
      assert name == prefix + name[|prefix|..];
      assert '\\' !in prefix by { assert '\\' !in RETIRED_INFIX; }
      TextIsLikeItself(prefix, name[|prefix|..]);
    }
  }

  lemma {:induction false} PlainPrefixCancels(u: string, x: string, y: string)
    requires '\\' !in u && '%' !in u
    ensures Like(u + x, u + y) <==> Like(x, y)
    decreases |u|
  {
    if u == "" {
      assert "" + x == x && "" + y == y;
    } else {
      PlainPrefixCancels(u[1..], x, y);
      assert (u + x)[1..] == u[1..] + x && (u + y)[1..] == u[1..] + y;
    }
  }

  /**
   With one, it is read as an escape: unless another backslash follows it, or a % comes before it,
   no retained database is found at all, the engine's own included.
   */
  lemma BackslashHidesAll(live: string, u: string, v: string, name: string)
    requires live == u + "\\" + v && '\\' !in u && '%' !in u && !("\\" <= v)
    ensures !Retained(live, name)
  {
    hide Accepted;
    if ParseRetiredStamp(name, live).Some? {
      var text := name[|live + RETIRED_INFIX|..];
      var rest := v + RETIRED_INFIX + text;
      var pattern := v + RETIRED_INFIX + "%";
      assert name == live + RETIRED_INFIX + text;
      assert name == u + ("\\" + rest) && Pattern(live) == u + ("\\" + pattern);
      PlainPrefixCancels(u, "\\" + rest, "\\" + pattern);
      assert pattern[0] != '\\';
    }
  }

  // ----- rank

  /** The retained databases that are newer than this one. */
  ghost function Newer(names: set<string>, live: string, name: string, at: Clock): set<string>
    requires Retained(live, name)
  {
    set m | m in names && Retained(live, m) && RetiredAt(live, m, at) > RetiredAt(live, name, at)
  }

  /** Those of the same instant. */
  ghost function Tied(names: set<string>, live: string, name: string, at: Clock): set<string>
    requires Retained(live, name)
  {
    set m | m in names && Retained(live, m) && RetiredAt(live, m, at) == RetiredAt(live, name, at)
  }

  /** A keep of less than one counts as one. */
  ghost function Kept(keep: int): nat {
    if keep < 1 then 1 else keep
  }

  /** Old enough, with enough newer ones. */
  ghost predicate Outdated(names: set<string>, live: string, name: string, at: Clock, keep: int, cutoff: int) {
    && Retained(live, name) && name in names
    && |Newer(names, live, name, at)| >= Kept(keep) && RetiredAt(live, name, at) <= cutoff
  }

  predicate NotAfter(live: string, a: string, b: string, at: Clock) {
    Retained(live, a) && Retained(live, b) && RetiredAt(live, a, at) >= RetiredAt(live, b, at)
  }

  /** Each retained database once, newest first; databases of one instant in any order. */
  ghost predicate Listing(s: seq<string>, names: set<string>, live: string, at: Clock) {
    && (forall i :: 0 <= i < |s| ==> Retained(live, s[i]) && s[i] in names)
    && (forall i, j :: 0 <= i < j < |s| ==> s[i] != s[j] && NotAfter(live, s[i], s[j], at))
    && (forall m :: m in names && Retained(live, m) ==> m in s)
  }

  /** What a prune that goes through this listing drops. */
  ghost predicate Slated(s: seq<string>, live: string, name: string, at: Clock, keep: int, cutoff: int) {
    exists i :: Kept(keep) <= i < |s| && s[i] == name && Retained(live, s[i]) && RetiredAt(live, s[i], at) <= cutoff
  }

  ghost function First(s: seq<string>, n: nat): set<string> {
    set k | 0 <= k < n && k < |s| :: s[k]
  }

  lemma {:induction false} FirstSize(s: seq<string>, n: nat)
    requires n <= |s| && forall j, k :: 0 <= j < k < |s| ==> s[j] != s[k]
    ensures |First(s, n)| == n
  {
    if n > 0 {
      FirstSize(s, n - 1);
      assert s[n - 1] !in First(s, n - 1);
      assert First(s, n) == First(s, n - 1) + {s[n - 1]};
    }
  }

  lemma SmallerSet(a: set<string>, b: set<string>)
    requires a <= b
    ensures |a| <= |b|
  {
    assert b == a + (b - a);
  }

  lemma NewerComeFirst(s: seq<string>, names: set<string>, live: string, at: Clock, i: nat)
    requires Listing(s, names, live, at) && i < |s|
    ensures Newer(names, live, s[i], at) <= First(s, i)
  {
    hide ParseRetiredStamp, Like, RetiredAt, Accepted;
    forall m | m in Newer(names, live, s[i], at) ensures m in First(s, i) {
      var k :| 0 <= k < |s| && s[k] == m;
      assert RetiredAt(live, s[k], at) > RetiredAt(live, s[i], at);
    }
  }

  lemma FirstAreNewerOrTied(s: seq<string>, names: set<string>, live: string, at: Clock, i: nat)
    requires Listing(s, names, live, at) && i < |s|
    ensures First(s, i + 1) <= Newer(names, live, s[i], at) + Tied(names, live, s[i], at)
  {
    hide ParseRetiredStamp, Like, RetiredAt, Accepted;
    forall k | 0 <= k <= i ensures s[k] in Newer(names, live, s[i], at) + Tied(names, live, s[i], at) {
      assert k < i ==> NotAfter(live, s[k], s[i], at);
    }
  }

  /** In a listing, the newer ones come before and everything before is newer or tied. */
  lemma PlaceIsRank(s: seq<string>, names: set<string>, live: string, at: Clock, i: nat)
    requires Listing(s, names, live, at) && i < |s|
    ensures |Newer(names, live, s[i], at)| <= i < |Newer(names, live, s[i], at)| + |Tied(names, live, s[i], at)|
  {
    hide ParseRetiredStamp, Like, RetiredAt, Accepted, First;
    NewerComeFirst(s, names, live, at, i);
    FirstAreNewerOrTied(s, names, live, at, i);
    FirstSize(s, i);
    FirstSize(s, i + 1);
    var newer, tied := Newer(names, live, s[i], at), Tied(names, live, s[i], at);
    SmallerSet(newer, First(s, i));
    SmallerSet(First(s, i + 1), newer + tied);
    assert newer !! tied;
  }

  /** Outdated databases go, whatever the order; a database that goes has enough newer or tied ones. */
  lemma SlatedByRank(s: seq<string>, names: set<string>, live: string, name: string, at: Clock, keep: int, cutoff: int)
    requires Listing(s, names, live, at)
    ensures Outdated(names, live, name, at, keep, cutoff) ==> Slated(s, live, name, at, keep, cutoff)
    ensures Slated(s, live, name, at, keep, cutoff) ==>
              && Retained(live, name) && RetiredAt(live, name, at) <= cutoff
              && |Newer(names, live, name, at)| + |Tied(names, live, name, at)| > Kept(keep)
    ensures Retained(live, name) && Tied(names, live, name, at) == {name} ==>
              (Slated(s, live, name, at, keep, cutoff) <==> Outdated(names, live, name, at, keep, cutoff))
  {
    hide ParseRetiredStamp, Like, RetiredAt, Accepted, Newer, Tied;
    forall i | 0 <= i < |s| && s[i] == name
      ensures |Newer(names, live, name, at)| <= i < |Newer(names, live, name, at)| + |Tied(names, live, name, at)|
    {
      PlaceIsRank(s, names, live, at, i);
    }
    if Outdated(names, live, name, at, keep, cutoff) {
      assert name in s;
      var i :| 0 <= i < |s| && s[i] == name;
      PlaceIsRank(s, names, live, at, i);
    }
  }

  // ----- the commands

  /** sort.Slice is not stable: the order of databases of one instant is left open. */
  method ListRetained(names: set<string>, live: string, at: Clock) returns (s: seq<string>)
    ensures Listing(s, names, live, at)
  {
    hide ParseRetiredStamp, Like, RetiredAt, Accepted;
    s := [];
    var todo := set m | m in names && Retained(live, m);
    while todo != {}
      invariant forall m :: m in todo ==> m in names && Retained(live, m)
      invariant forall i :: 0 <= i < |s| ==> Retained(live, s[i]) && s[i] in names && s[i] !in todo
      invariant forall i, j :: 0 <= i < j < |s| ==> s[i] != s[j] && NotAfter(live, s[i], s[j], at)
      invariant forall m :: m in names && Retained(live, m) ==> m in s || m in todo
      invariant forall i, m :: 0 <= i < |s| && m in todo ==> NotAfter(live, s[i], m, at)
      decreases |todo|
    {
      var newest := Newest(todo, live, at);
      s := s + [newest];
      todo := todo - {newest};
    }
  }

  method Newest(todo: set<string>, live: string, at: Clock) returns (newest: string)
    requires todo != {} && forall m :: m in todo ==> Retained(live, m)
    ensures newest in todo && forall m :: m in todo ==> NotAfter(live, newest, m, at)
  {
    hide ParseRetiredStamp, Like, RetiredAt, Accepted;
    newest :| newest in todo;
    var rest := todo - {newest};
    while rest != {}
      invariant newest in todo && rest <= todo
      invariant forall m :: m in todo && m !in rest ==> NotAfter(live, newest, m, at)
    {
      var m :| m in rest;
      rest := rest - {m};
      if RetiredAt(live, m, at) > RetiredAt(live, newest, at) {
        newest := m;
      }
    }
  }

  /**
   PruneRetainedDatabases. Without a failing drop exactly the slated databases go; with one,
   only slated ones went before it. A dry run names them and drops nothing.
   */
  method Prune(names: set<string>, live: string, at: Clock, keep: int, cutoff: int, dryRun: bool, failing: set<string>)
    returns (ok: bool, dropped: seq<string>, left: set<string>, ghost order: seq<string>)
    ensures Listing(order, names, live, at)
    ensures forall m :: m in dropped ==> Slated(order, live, m, at, keep, cutoff)
    ensures ok ==> forall m :: Slated(order, live, m, at, keep, cutoff) ==> m in dropped
    ensures ok <==> dryRun || forall m :: Slated(order, live, m, at, keep, cutoff) ==> m !in failing
    ensures left == if dryRun then names else names - (set m | m in dropped)
  {
    hide ParseRetiredStamp, Like, RetiredAt, Accepted;
    var s := ListRetained(names, live, at);
    order := s;
    var place := if keep < 1 then 1 else keep;
    dropped, left := [], names;
    for i := 0 to |s|
      invariant forall m :: m in dropped ==> Slated(s, live, m, at, keep, cutoff)
      invariant forall k :: Kept(keep) <= k < i && RetiredAt(live, s[k], at) <= cutoff ==>
                              s[k] in dropped && (dryRun || s[k] !in failing)
      invariant left == if dryRun then names else names - (set m | m in dropped)
    {
      if i < place {
        continue;
      }
      if RetiredAt(live, s[i], at) > cutoff {
        continue;
      }
      assert Slated(s, live, s[i], at, keep, cutoff);
      if !dryRun {
        if s[i] in failing {
          return false, dropped, left, order;
        }
        left := left - {s[i]};
      }
      dropped := dropped + [s[i]];
    }
    return true, dropped, left, order;
  }

  /** A newest retained database is kept, however the policy is set. */
  lemma NewestIsKept(s: seq<string>, names: set<string>, live: string, at: Clock, keep: int, cutoff: int)
    requires Listing(s, names, live, at) && s != []
    ensures !Slated(s, live, s[0], at, keep, cutoff) && Newer(names, live, s[0], at) == {}
  {
    hide ParseRetiredStamp, Like, RetiredAt, Accepted;
    forall m | m in names && Retained(live, m) ensures NotAfter(live, s[0], m, at) {
      var k :| 0 <= k < |s| && s[k] == m;
    }
  }

  /** Of two newest ones, one can go. */
  lemma TiedNewestCanGo(live: string, a: string, b: string, at: Clock)
    requires a != b && Retained(live, a) && Retained(live, b) && RetiredAt(live, a, at) == RetiredAt(live, b, at)
    ensures Listing([a, b], {a, b}, live, at) && Newer({a, b}, live, b, at) == {}
    ensures Slated([a, b], live, b, at, 1, RetiredAt(live, b, at))
  {
    hide ParseRetiredStamp, Like, RetiredAt, Accepted;
    assert [a, b][1] == b;
  }

  /** What goes carries the prefix and a moment; the engine named it unless a fraction follows the seconds. */
  lemma OnlyRetainedGo(s: seq<string>, names: set<string>, live: string, name: string, at: Clock, keep: int,
                       cutoff: int)
    requires Listing(s, names, live, at) && Slated(s, live, name, at, keep, cutoff) && |name| <= NAME_LIMIT
    ensures name in names && name != live && Retained(live, name)
    ensures IsRetired(live, name) <==> |TextOf(live, name)| == STAMP_LENGTH
  {
    hide Accepted, RetiredAt, IsMoment, Truncate;
    ParsedNameIsRetired(live, name);
    if IsRetired(live, name) {
      var stamp := name[|name| - STAMP_LENGTH..];
      assert IsStamp(stamp) && name == RetiredName(live, stamp);
    }
    if |TextOf(live, name)| == STAMP_LENGTH {
      var stamp :| IsStamp(stamp) && name == RetiredName(live, stamp);
      RetiredNamesAreRetired(live, stamp);
    }
  }

  /** What a prune leaves and comes before a database old enough to go is among the first. */
  lemma LeftComeFirst(s: seq<string>, names: set<string>, live: string, name: string, m: string, at: Clock, keep: int,
                      cutoff: int)
    requires Listing(s, names, live, at) && name in names && m in names && NotAfter(live, m, name, at)
    requires RetiredAt(live, name, at) <= cutoff && !Slated(s, live, name, at, keep, cutoff)
    requires !Slated(s, live, m, at, keep, cutoff)
    ensures m in First(s, Kept(keep))
  {
    hide ParseRetiredStamp, Like, RetiredAt, Accepted;
    var p :| 0 <= p < |s| && s[p] == name;
    var q :| 0 <= q < |s| && s[q] == m;
  }

  lemma StretchComesFirst(s: seq<string>, names: set<string>, t: seq<string>, left: set<string>, live: string,
                          i: nat, at: Clock, keep: int, cutoff: int)
    requires Listing(s, names, live, at) && Listing(t, left, live, at) && i < |t| && RetiredAt(live, t[i], at) <= cutoff
    requires forall m :: m in left <==> m in names && !Slated(s, live, m, at, keep, cutoff)
    ensures First(t, i + 1) <= First(s, Kept(keep))
  {
    hide ParseRetiredStamp, Like, RetiredAt, Accepted, Slated;
    forall k | 0 <= k <= i ensures t[k] in First(s, Kept(keep)) {
      assert t[k] in left && t[i] in left && NotAfter(live, t[k], t[i], at);
      LeftComeFirst(s, names, live, t[i], t[k], at, keep, cutoff);
    }
  }

  /** A second prune with the same policy finds nothing to do, in whatever order it lists what is left. */
  lemma PruneAgainFindsNothing(s: seq<string>, names: set<string>, t: seq<string>, left: set<string>, live: string,
                               name: string, at: Clock, keep: int, cutoff: int)
    requires Listing(s, names, live, at) && Listing(t, left, live, at)
    requires forall m :: m in left <==> m in names && !Slated(s, live, m, at, keep, cutoff)
    ensures !Slated(t, live, name, at, keep, cutoff)
  {
    hide ParseRetiredStamp, Like, RetiredAt, Accepted, Retained, Listing, First;
    forall i | Kept(keep) <= i < |t| && Retained(live, t[i]) ensures RetiredAt(live, t[i], at) > cutoff {
      if RetiredAt(live, t[i], at) <= cutoff {
        StretchComesFirst(s, names, t, left, live, i, at, keep, cutoff);
        FirstCounts(s, names, live, at, Kept(keep));
        FirstCounts(t, left, live, at, i + 1);
        SmallerSet(First(t, i + 1), First(s, Kept(keep)));
      }
    }
  }

  lemma FirstCounts(s: seq<string>, names: set<string>, live: string, at: Clock, n: nat)
    requires Listing(s, names, live, at)
    ensures |First(s, n)| == if n < |s| then n else |s|
  {
    hide Retained, NotAfter;
    var m := if n < |s| then n else |s|;
    assert First(s, n) == First(s, m);
    FirstSize(s, m);
  }
}
