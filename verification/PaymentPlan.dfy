/**
 Splitting open invoice balances among dated installments (CreatePaymentPlan in
 internal/finance/payment_plans.go). Amounts are whole ticks of 0.0001, due dates are numbers in
 calendar order, an invoice is its position in the plan's list of sources.
 */
module PaymentPlan {

  datatype Installment = Installment(due: int, amount: int)
  datatype Part = Part(installment: nat, source: nat, due: int, amount: int, start: int)
  datatype Outcome = Planned(parts: seq<Part>) | Refused

  function Total(amounts: seq<int>): int {
    if amounts == [] then 0 else amounts[0] + Total(amounts[1..])
  }

  function Amounts(installments: seq<Installment>): (r: seq<int>)
    ensures |r| == |installments| && forall i :: 0 <= i < |r| ==> r[i] == installments[i].amount
  {
    seq(|installments|, i requires 0 <= i < |installments| => installments[i].amount)
  }

  ghost predicate Positive(amounts: seq<int>) {
    forall i :: 0 <= i < |amounts| ==> amounts[i] > 0
  }

  ghost predicate Chronological(installments: seq<Installment>) {
    forall i, j :: 0 <= i < j < |installments| ==> installments[i].due <= installments[j].due
  }

  /** What validatePlan and the balance checks demand of a plan. */
  ghost predicate Acceptable(sources: seq<int>, installments: seq<Installment>) {
    && 1 <= |sources| <= 100 && 1 <= |installments| <= 120
    && Chronological(installments) && Positive(Amounts(installments)) && Positive(sources)
    && Total(Amounts(installments)) == Total(sources)
  }

  // ----- what the parts add up to

  ghost function OfInstallment(parts: seq<Part>, k: nat): int {
    if parts == [] then 0
    else
      var n := |parts| - 1;
      OfInstallment(parts[..n], k) + if parts[n].installment == k then parts[n].amount else 0
  }

  ghost function OfSource(parts: seq<Part>, s: nat): int {
    if parts == [] then 0
    else
      var n := |parts| - 1;
      OfSource(parts[..n], s) + if parts[n].source == s then parts[n].amount else 0
  }

  lemma Appended(parts: seq<Part>, p: Part)
    ensures forall k :: OfInstallment(parts + [p], k)
                        == OfInstallment(parts, k) + if p.installment == k then p.amount else 0
    ensures forall s :: OfSource(parts + [p], s) == OfSource(parts, s) + if p.source == s then p.amount else 0
  {
    assert (parts + [p])[..|parts|] == parts;
  }

  // ----- the plan laid out on a line

  /** Installment k takes the stretch from Before(amounts, k) to Before(amounts, k + 1) of the total. */
  ghost function Before(amounts: seq<int>, k: nat): int
    requires k <= |amounts|
  {
    Total(amounts[..k])
  }

  function Max(a: int, b: int): int { if a < b then b else a }
  function Min(a: int, b: int): int { if a < b then a else b }

  /** The part is the whole overlap of its installment's stretch with its invoice's stretch. */
  ghost predicate IsOverlap(p: Part, sources: seq<int>, due: seq<int>) {
    && p.installment < |due| && p.source < |sources| && p.amount > 0
    && p.start + Before(sources, p.source) == Max(Before(due, p.installment), Before(sources, p.source))
    && p.start + Before(sources, p.source) + p.amount
       == Min(Before(due, p.installment + 1), Before(sources, p.source + 1))
  }

  /** Each part starts where the earlier parts of its invoice end. */
  ghost predicate Tiled(parts: seq<Part>) {
    forall j :: 0 <= j < |parts| ==> parts[j].start == OfSource(parts[..j], parts[j].source)
  }

  /** Installments and invoices are both taken in order, and no pair comes twice. */
  ghost predicate Ordered(parts: seq<Part>) {
    forall j, k :: 0 <= j < k < |parts| ==>
      && parts[j].installment <= parts[k].installment && parts[j].source <= parts[k].source
      && (parts[j].installment, parts[j].source) != (parts[k].installment, parts[k].source)
      && parts[j].due <= parts[k].due
  }

  ghost predicate Exact(parts: seq<Part>, sources: seq<int>, due: seq<int>) {
    && (forall k :: 0 <= k < |due| ==> OfInstallment(parts, k) == due[k])
    && (forall s :: 0 <= s < |sources| ==> OfSource(parts, s) == sources[s])
  }

  // ----- sums over a line

  lemma {:induction false} TotalSplit(amounts: seq<int>, k: nat)
    requires k < |amounts|
    ensures Before(amounts, k + 1) == Before(amounts, k) + amounts[k]
    ensures Total(amounts) == Before(amounts, k) + amounts[k] + Total(amounts[k + 1..])
    ensures Total(amounts[k..]) == amounts[k] + Total(amounts[k + 1..])
  {
    assert amounts[k..][1..] == amounts[k + 1..];
    if k > 0 {
      TotalSplit(amounts[1..], k - 1);
      assert amounts[..k][1..] == amounts[1..][..k - 1] && amounts[..k + 1][1..] == amounts[1..][..k];
      assert amounts[1..][k..] == amounts[k + 1..];
    } else {
      assert amounts[..1] == [amounts[0]] && amounts[..0] == [];
      assert [amounts[0]][1..] == [];
    }
  }

  lemma {:induction false} RestIsPositive(amounts: seq<int>, k: nat)
    requires k <= |amounts| && Positive(amounts)
    ensures Total(amounts[k..]) >= 0
    ensures k < |amounts| ==> Total(amounts[k..]) >= amounts[k]
    decreases |amounts| - k
  {
    if k < |amounts| {
      RestIsPositive(amounts, k + 1);
      TotalSplit(amounts, k);
    }
  }

  // ----- the loop

  /** The loop's place: `left` of installment i still to cover, `used` of source `index` taken. */
  datatype Place = Place(i: nat, left: int, index: nat, used: int)

  ghost predicate At(place: Place, sources: seq<int>, due: seq<int>) {
    && place.i < |due| && 0 <= place.left <= due[place.i]
    && place.index <= |sources| && 0 <= place.used
    && (if place.index < |sources| then place.used < sources[place.index] else place.used == 0)
    && (place.used == 0 || place.left == due[place.i] || place.left == 0)
    && Before(sources, place.index) + place.used == Before(due, place.i + 1) - place.left
  }

  /** Where the installments up to a place stand. */
  ghost predicate Covered(parts: seq<Part>, place: Place, sources: seq<int>, due: seq<int>)
    requires place.i < |due|
  {
    && (forall k :: 0 <= k < place.i ==> OfInstallment(parts, k) == due[k])
    && OfInstallment(parts, place.i) == due[place.i] - place.left
    && (forall k :: place.i < k ==> OfInstallment(parts, k) == 0)
    && (forall s :: 0 <= s < place.index && s < |sources| ==> OfSource(parts, s) == sources[s])
    && OfSource(parts, place.index) == place.used
    && (forall s :: place.index < s ==> OfSource(parts, s) == 0)
  }

  /** No part lies beyond the place, and the next one will be new. */
  ghost predicate Behind(parts: seq<Part>, place: Place, installments: seq<Installment>)
    requires place.i < |installments|
  {
    && forall j :: 0 <= j < |parts| ==>
      && parts[j].installment <= place.i && parts[j].source <= place.index
      && parts[j].due <= installments[place.i].due
      && (place.left > 0 ==> parts[j].installment < place.i || parts[j].source < place.index)
  }

  ghost predicate LaidOut(parts: seq<Part>, sources: seq<int>, installments: seq<Installment>) {
    forall j :: 0 <= j < |parts| ==>
      && IsOverlap(parts[j], sources, Amounts(installments))
      && parts[j].due == installments[parts[j].installment].due
  }

  function Closed(left: int): int { if left == 0 then 1 else 0 }

  /** The part the loop cuts at a place, and the place after it. */
  function Cut(place: Place, sources: seq<int>, installments: seq<Installment>): Part
    requires place.i < |installments| && place.index < |sources|
  {
    var available := sources[place.index] - place.used;
    Part(place.i, place.index, installments[place.i].due, Min(place.left, available), place.used)
  }

  function After(place: Place, p: Part, sources: seq<int>): Place
    requires place.index < |sources|
  {
    if place.used + p.amount == sources[place.index]
    then Place(place.i, place.left - p.amount, place.index + 1, 0)
    else Place(place.i, place.left - p.amount, place.index, place.used + p.amount)
  }

  /** There is always an invoice left to take from: the totals are equal. */
  lemma SourcesLast(place: Place, sources: seq<int>, installments: seq<Installment>)
    requires Acceptable(sources, installments) && At(place, sources, Amounts(installments)) && place.left > 0
    ensures place.index < |sources|
  {
    var due := Amounts(installments);
    TotalSplit(due, place.i);
    RestIsPositive(due, place.i + 1);
    assert sources[..|sources|] == sources;
  }

  lemma CutKeepsPlace(place: Place, sources: seq<int>, installments: seq<Installment>)
    requires Acceptable(sources, installments) && At(place, sources, Amounts(installments))
    requires place.left > 0 && place.index < |sources|
    ensures var p := Cut(place, sources, installments);
            At(After(place, p, sources), sources, Amounts(installments))
            && IsOverlap(p, sources, Amounts(installments))
  {
    TotalSplit(sources, place.index);
    TotalSplit(Amounts(installments), place.i);
  }

  lemma CutKeepsSums(parts: seq<Part>, place: Place, sources: seq<int>, installments: seq<Installment>)
    requires place.i < |installments| && place.index < |sources|
    requires Covered(parts, place, sources, Amounts(installments))
    ensures var p := Cut(place, sources, installments);
            Covered(parts + [p], After(place, p, sources), sources, Amounts(installments))
  {
    hide OfInstallment, OfSource;
    Appended(parts, Cut(place, sources, installments));
  }

  lemma {:induction false} CutKeepsShape(parts: seq<Part>, place: Place, sources: seq<int>,
                                         installments: seq<Installment>)
    requires place.i < |installments| && place.index < |sources| && place.left > 0
    requires Behind(parts, place, installments) && Ordered(parts) && Tiled(parts)
    requires OfSource(parts, place.index) == place.used
    ensures var p := Cut(place, sources, installments);
            && Behind(parts + [p], After(place, p, sources), installments)
            && Ordered(parts + [p]) && Tiled(parts + [p])
  {
    hide OfSource;
    var p := Cut(place, sources, installments);
    var more := parts + [p];
    assert forall j :: 0 <= j <= |parts| ==> more[..j] == parts[..j];
    assert parts[..|parts|] == parts;
  }

  /** The last cut closes an installment and an invoice at once. */
  lemma LastCutClosesBoth(place: Place, sources: seq<int>, installments: seq<Installment>)
    requires Acceptable(sources, installments) && At(place, sources, Amounts(installments))
    requires place.left == 0
    ensures place.i == |installments| - 1 <==> place.index == |sources|
  {
    var due := Amounts(installments);
    TotalSplit(due, place.i);
    RestIsPositive(due, place.i + 1);
    if place.index < |sources| {
      TotalSplit(sources, place.index);
      RestIsPositive(sources, place.index + 1);
    } else {
      assert sources[..|sources|] == sources;
    }
  }

  /**
   The partition. A plan is made exactly when it is acceptable, and then the parts add up to every
   installment and to every invoice, tile each invoice without gap or overlap in due-date order,
   and are as few as the staircase allows.
   */
  method CreatePaymentPlan(sources: seq<int>, installments: seq<Installment>) returns (r: Outcome)
    ensures r.Planned? <==> Acceptable(sources, installments)
    ensures r.Planned? ==> Exact(r.parts, sources, Amounts(installments))
    ensures r.Planned? ==> Tiled(r.parts) && Ordered(r.parts)
    ensures r.Planned? ==> LaidOut(r.parts, sources, installments)
    ensures r.Planned? ==> |r.parts| <= |sources| + |installments| - 1
  {
    hide OfInstallment, OfSource, Total, Tiled, Ordered, IsOverlap;
    var ok := CheckPlan(sources, installments);
    if !ok {
      return Refused;
    }
    ghost var due := Amounts(installments);
    var parts := [];
    var i, index, used := 0, 0, 0;
    NothingYet(sources, installments);
    while i < |installments|
      invariant i <= |installments|
      invariant i < |installments| ==>
          var place := Place(i, installments[i].amount, index, used);
          At(place, sources, due) && Covered(parts, place, sources, due) && Behind(parts, place, installments)
      invariant Ordered(parts) && Tiled(parts) && LaidOut(parts, sources, installments)
      invariant i < |installments| ==> |parts| <= i + index
      invariant i == |installments| ==> Exact(parts, sources, due) && |parts| <= |sources| + |installments| - 1
    {
      var left := installments[i].amount;
      while left > 0
        invariant At(Place(i, left, index, used), sources, due)
        invariant Covered(parts, Place(i, left, index, used), sources, due)
        invariant Behind(parts, Place(i, left, index, used), installments)
        invariant Ordered(parts) && Tiled(parts) && LaidOut(parts, sources, installments)
        invariant |parts| <= i + index + if left == 0 && index == |sources| then 0 else Closed(left)
        decreases left
      {
        ghost var place := Place(i, left, index, used);
        SourcesLast(place, sources, installments);
        CutKeepsPlace(place, sources, installments);
        CutKeepsSums(parts, place, sources, installments);
        CutKeepsShape(parts, place, sources, installments);
        var available := sources[index] - used;
        var amount := if left > available then available else left;
        parts := parts + [Part(i, index, installments[i].due, amount, used)];
        left := left - amount;
        used := used + amount;
        if used == sources[index] {
          index, used := index + 1, 0;
        }
      }
      LastCutClosesBoth(Place(i, left, index, used), sources, installments);
      MoveOn(parts, i, index, used, sources, installments);
      i := i + 1;
    }
    return Planned(parts);
  }

  lemma NothingYet(sources: seq<int>, installments: seq<Installment>)
    requires Acceptable(sources, installments)
    ensures var place := Place(0, installments[0].amount, 0, 0);
            && At(place, sources, Amounts(installments)) && Covered([], place, sources, Amounts(installments))
            && Behind([], place, installments) && Ordered([]) && Tiled([])
  {
    TotalSplit(Amounts(installments), 0);
  }

  /** A closed installment hands over to the next one, or the plan is complete. */
  lemma MoveOn(parts: seq<Part>, i: nat, index: nat, used: int, sources: seq<int>, installments: seq<Installment>)
    requires Acceptable(sources, installments) && i < |installments|
    requires At(Place(i, 0, index, used), sources, Amounts(installments))
    requires Covered(parts, Place(i, 0, index, used), sources, Amounts(installments))
    requires Behind(parts, Place(i, 0, index, used), installments)
    ensures i + 1 < |installments| ==>
        var next := Place(i + 1, installments[i + 1].amount, index, used);
        && At(next, sources, Amounts(installments)) && Covered(parts, next, sources, Amounts(installments))
        && Behind(parts, next, installments)
    ensures i + 1 == |installments| ==> Exact(parts, sources, Amounts(installments))
  {
    hide OfInstallment, OfSource;
    var due := Amounts(installments);
    if i + 1 < |installments| {
      TotalSplit(due, i + 1);
    } else {
      LastCutClosesBoth(Place(i, 0, index, used), sources, installments);
    }
  }

  lemma NothingBefore(amounts: seq<int>)
    ensures Before(amounts, 0) == 0
  {
  }

  /** validatePlan's rules on the installments and the checks of the open balances. */
  method CheckPlan(sources: seq<int>, installments: seq<Installment>) returns (ok: bool)
    ensures ok <==> Acceptable(sources, installments)
  {
    hide Total;
    NothingBefore(Amounts(installments));
    NothingBefore(sources);
    if |sources| < 1 || |sources| > 100 || |installments| < 1 || |installments| > 120 {
      return false;
    }
    ghost var due := Amounts(installments);
    var total, previous := 0, installments[0].due;
    for i := 0 to |installments|
      invariant total == Before(due, i)
      invariant i > 0 ==> previous == installments[i - 1].due
      invariant i == 0 ==> previous == installments[0].due
      invariant forall j :: 0 <= j < i ==> due[j] > 0 && installments[j].due <= previous
      invariant Chronological(installments[..i])
    {
      TotalSplit(due, i);
      if installments[i].due < previous || installments[i].amount <= 0 {
        assert due[i] == installments[i].amount;
        return false;
      }
      total, previous := total + installments[i].amount, installments[i].due;
    }
    assert due[..|installments|] == due && installments[..|installments|] == installments;
    var open := 0;
    for s := 0 to |sources|
      invariant open == Before(sources, s)
      invariant forall j :: 0 <= j < s ==> sources[j] > 0
    {
      TotalSplit(sources, s);
      if sources[s] <= 0 {
        return false;
      }
      open := open + sources[s];
    }
    assert sources[..|sources|] == sources;
    ok := total == open;
  }
}
