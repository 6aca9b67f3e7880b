/**
 Leads, call lists and their items as values: what one call does to them and what every reachable
 state obeys (internal/crm/model.go, internal/crm/calllists.go and 000164's tables). Times are
 minutes; an item's number is also its place in the queue.
 */
module CallQueue {

  import opened Wrappers

  datatype LeadStatus = New | Contacted | Qualified | Disqualified | Converted

  datatype Lead = Lead(status: LeadStatus, doNotCall: bool, attempts: nat, owner: Option<nat>,
                       nextAction: Option<int>, phone: string)

  datatype ItemStatus = Pending | Callback | Finished | Skipped
  datatype Claim = Claim(user: nat, until: int)
  datatype Item = Item(list: nat, lead: nat, status: ItemStatus, attempts: nat, availableAt: int, claim: Option<Claim>)
  datatype CallList = CallList(active: bool, maxAttempts: int, retry: int)

  datatype Outcome =
    | NoAnswer | Busy | Voicemail | WrongNumber | CallBack | NotInterested | Interested | MeetingSet | DoNotCall

  predicate Unanswered(outcome: Outcome) {
    outcome.NoAnswer? || outcome.Busy? || outcome.Voicemail?
  }

  predicate Open(i: Item) {
    i.status.Pending? || i.status.Callback?
  }

  predicate Barred(l: Lead) {
    l.doNotCall || l.status.Converted?
  }

  ghost predicate CallRefused(lead: Lead, outcome: Outcome, callbackAt: Option<int>) {
    Barred(lead) || (outcome.CallBack? && callbackAt.None?)
  }

  /** ApplyCall: the lead after a call that is not refused. */
  function ApplyCall(lead: Lead, outcome: Outcome, callbackAt: Option<int>): (r: Lead)
    requires !CallRefused(lead, outcome, callbackAt)
    ensures r.attempts == lead.attempts + 1
    ensures r.doNotCall <==> outcome.DoNotCall?
    ensures !r.status.Converted? && (r.status.New? ==> lead.status.New?)
    ensures r.owner == lead.owner && r.phone == lead.phone
    // nobody was reached: the lead stays what it was
    ensures Unanswered(outcome) || outcome.WrongNumber? ==>
              r.status == lead.status && r.nextAction == if callbackAt.Some? then callbackAt else lead.nextAction
    // a conversation decides what happens next
    ensures outcome.CallBack? || outcome.Interested? || outcome.MeetingSet? ==> r.nextAction == callbackAt
    ensures outcome.CallBack? ==> r.nextAction.Some?
    ensures outcome.CallBack? ==> r.status == if lead.status.New? then Contacted else lead.status
    ensures outcome.NotInterested? || outcome.DoNotCall? ==> r.status.Disqualified? && r.nextAction == None
    ensures outcome.Interested? || outcome.MeetingSet? ==> r.status.Qualified?
  {
    var called := lead.(attempts := lead.attempts + 1);
    match outcome
    case CallBack =>
      called.(nextAction := callbackAt, status := if lead.status.New? then Contacted else lead.status)
    case Interested => called.(status := Qualified, nextAction := callbackAt)
    case MeetingSet => called.(status := Qualified, nextAction := callbackAt)
    case NotInterested => called.(status := Disqualified, nextAction := None)
    case DoNotCall => called.(status := Disqualified, doNotCall := true, nextAction := None)
    case _ => if callbackAt.Some? then called.(nextAction := callbackAt) else called
  }

  /** NextItemState: where an item goes after a call; `attempts` includes this call. */
  function NextItemState(outcome: Outcome, attempts: nat, limit: int, retry: int, now: int, callbackAt: Option<int>)
    : (r: (ItemStatus, int))
    ensures Unanswered(outcome) ==> (r.0.Finished? <==> attempts >= limit)
    ensures r.0.Callback? <==> outcome.CallBack?
    ensures r.0.Pending? ==> Unanswered(outcome)
    ensures !r.0.Skipped?
    // a time the caller picked wins over the list's own interval
    ensures r.1 == if r.0.Finished? then now else if callbackAt.Some? then callbackAt.value else now + retry
  {
    match outcome
    case CallBack => (Callback, if callbackAt.Some? then callbackAt.value else now + retry)
    case NoAnswer => Retry(attempts, limit, retry, now, callbackAt)
    case Busy => Retry(attempts, limit, retry, now, callbackAt)
    case Voicemail => Retry(attempts, limit, retry, now, callbackAt)
    case _ => (Finished, now)
  }

  function Retry(attempts: nat, limit: int, retry: int, now: int, callbackAt: Option<int>): (ItemStatus, int) {
    if attempts >= limit then (Finished, now)
    else if callbackAt.Some? then (Pending, callbackAt.value)
    else (Pending, now + retry)
  }

  /** An open item of the called lead, after the call. */
  function Called(i: Item, list: CallList, outcome: Outcome, now: int, callbackAt: Option<int>): (r: Item)
    ensures r.claim.None? && r.list == i.list && r.lead == i.lead && r.attempts == i.attempts + 1
    // it waits on while unanswered calls are left, or for the time it was put off to; anything else closes it
    ensures r.status.Pending? <==> Unanswered(outcome) && r.attempts < list.maxAttempts
    ensures r.status.Callback? <==> outcome.CallBack?
    ensures if Open(r) then r.availableAt == if callbackAt.Some? then callbackAt.value else now + list.retry
            else r.status.Finished? && r.availableAt == now
  {
    var next := NextItemState(outcome, i.attempts + 1, list.maxAttempts, list.retry, now, callbackAt);
    i.(status := next.0, attempts := i.attempts + 1, availableAt := next.1, claim := None)
  }

  // ----- what every reachable state obeys

  predicate Live(i: Item, now: int) {
    i.claim.Some? && i.claim.value.until > now
  }

  /** All unexpired claims on one lead, over all lists, are one user's. */
  ghost predicate OneHolder(items: map<nat, Item>, now: int) {
    forall i, j :: i in items && j in items && SameLeadLive(items[i], items[j], now)
      ==> items[i].claim.value.user == items[j].claim.value.user
  }

  predicate SameLeadLive(a: Item, b: Item, now: int) {
    a.lead == b.lead && Live(a, now) && Live(b, now)
  }

  /** A user is the claimant of at most one item of a list, expired or not. */
  ghost predicate OnePerList(items: map<nat, Item>) {
    forall i, j :: i in items && j in items && i != j && SameClaimList(items[i], items[j])
      ==> items[i].claim.value.user != items[j].claim.value.user
  }

  predicate SameClaimList(a: Item, b: Item) {
    a.list == b.list && a.claim.Some? && b.claim.Some?
  }

  /** A lead is on a list at most once, and every list allows a call. */
  ghost predicate Listed(items: map<nat, Item>, lists: map<nat, CallList>) {
    && (forall i, j :: i in items && j in items && i != j && items[i].lead == items[j].lead ==>
          items[i].list != items[j].list)
    && (forall l :: l in lists ==> lists[l].maxAttempts >= 1)
  }

  // ----- calls

  /** A call as it is recorded. */
  datatype Call = Call(lead: nat, outcome: Outcome)

  function CallsTo(calls: seq<Call>, lead: nat): nat {
    if calls == [] then 0
    else CallsTo(calls[..|calls| - 1], lead) + if calls[|calls| - 1].lead == lead then 1 else 0
  }

  function UnansweredTo(calls: seq<Call>, lead: nat): (n: nat)
    ensures n <= CallsTo(calls, lead)
  {
    if calls == [] then 0
    else
      var last := calls[|calls| - 1];
      UnansweredTo(calls[..|calls| - 1], lead) + if last.lead == lead && Unanswered(last.outcome) then 1 else 0
  }

  lemma {:induction false} CallsAppend(x: seq<Call>, y: seq<Call>, lead: nat)
    ensures CallsTo(x + y, lead) == CallsTo(x, lead) + CallsTo(y, lead)
  {
    if y == [] {
      assert x + y == x;
    } else {
      var n := |y| - 1;
      CallsAppend(x, y[..n], lead);
      assert (x + y)[..|x| + n] == x + y[..n];
    }
  }

  /** One more call. */
  lemma CallsGrow(calls: seq<Call>, since: nat, c: Call, lead: nat)
    requires since <= |calls|
    ensures var one := if c.lead == lead then 1 else 0;
            && CallsTo((calls + [c])[since..], lead) == CallsTo(calls[since..], lead) + one
            && UnansweredTo((calls + [c])[since..], lead)
               == UnansweredTo(calls[since..], lead) + if Unanswered(c.outcome) then one else 0
  {
    var tail := (calls + [c])[since..];
    assert tail[..|tail| - 1] == calls[since..];
  }

  lemma {:induction false} NeverCalled(calls: seq<Call>, lead: nat)
    requires forall k :: 0 <= k < |calls| ==> calls[k].lead != lead
    ensures CallsTo(calls, lead) == 0
  {
    if calls != [] {
      NeverCalled(calls[..|calls| - 1], lead);
    }
  }

  /** Every lead has counted its calls. */
  ghost predicate Counted(leads: map<nat, Lead>, calls: seq<Call>) {
    && (forall l :: l in leads ==> leads[l].attempts == CallsTo(calls, l))
    && (forall k :: 0 <= k < |calls| ==> calls[k].lead in leads)
  }

  /**
   One item against its lead and list: a closed item is nobody's; a lead that must not be called,
   or is a customer by now, has no open item; an open item has counted exactly the calls made to
   its lead since it was queued, and fewer of them went unanswered than its list allows attempts.
   */
  ghost predicate ItemOk(i: Item, lead: Lead, list: CallList, calls: seq<Call>, since: nat) {
    && (!Open(i) ==> i.claim.None?)
    && (Barred(lead) ==> !Open(i))
    && since <= |calls|
    && (Open(i) ==>
          i.attempts == CallsTo(calls[since..], i.lead) && UnansweredTo(calls[since..], i.lead) < list.maxAttempts)
  }

  ghost predicate ItemsOk(items: map<nat, Item>, leads: map<nat, Lead>, lists: map<nat, CallList>,
                          calls: seq<Call>, since: map<nat, nat>)
  {
    forall i :: i in items ==>
      && i in since && items[i].lead in leads && items[i].list in lists
      && ItemOk(items[i], leads[items[i].lead], lists[items[i].list], calls, since[i])
  }

  // ----- steps that only take claims away

  ghost predicate ClaimsShrink(before: map<nat, Item>, after: map<nat, Item>) {
    forall i :: i in after && after[i].claim.Some? ==>
      && i in before && before[i].claim == after[i].claim
      && before[i].list == after[i].list && before[i].lead == after[i].lead
  }

  lemma ShrinkingKeepsHolders(before: map<nat, Item>, after: map<nat, Item>, now: int, later: int)
    requires OneHolder(before, now) && OnePerList(before) && ClaimsShrink(before, after) && now <= later
    ensures OneHolder(after, later) && OnePerList(after)
  {
    forall i, j | i in after && j in after && SameLeadLive(after[i], after[j], later)
      ensures after[i].claim.value.user == after[j].claim.value.user
    {
      assert Live(before[i], now) && Live(before[j], now);
    }
  }

  /** What a later state is compared with; `since` says how many calls there were when an item was queued. */
  datatype Record = Record(items: map<nat, Item>, leads: map<nat, Lead>, next: nat, calls: seq<Call>,
                           since: map<nat, nat>)

  function NewCalls(a: Record, b: Record): seq<Call> {
    if |a.calls| <= |b.calls| then b.calls[|a.calls|..] else []
  }

  /** An item of both states: what is over stays over, and an open item has gained the calls its lead has gained. */
  ghost predicate ItemContinues(i: nat, a: Record, b: Record)
    requires i in a.items && i in b.items
  {
    && b.items[i].list == a.items[i].list && b.items[i].lead == a.items[i].lead
    && (!Open(a.items[i]) ==> b.items[i].status == a.items[i].status && b.items[i].attempts == a.items[i].attempts)
    && (Open(a.items[i]) && Open(b.items[i]) ==>
          b.items[i].attempts == a.items[i].attempts + CallsTo(NewCalls(a, b), a.items[i].lead))
    && (i in a.since ==> i in b.since && b.since[i] == a.since[i])
  }

  /** Customers stay customers, and a lead has gained the calls made to it. */
  ghost predicate LeadContinues(l: nat, a: Record, b: Record)
    requires l in a.leads
    ensures LeadContinues(l, a, b) ==> l in b.leads
  {
    && l in b.leads && (a.leads[l].status.Converted? ==> b.leads[l].status.Converted?)
    && b.leads[l].attempts == a.leads[l].attempts + CallsTo(NewCalls(a, b), l)
  }

  /** Nothing that is over comes back, no call is forgotten and none is counted twice. */
  ghost predicate Continues(a: Record, b: Record) {
    && a.next <= b.next && a.calls <= b.calls
    && (forall i :: i in b.items && i !in a.items ==>
          i >= a.next && i in b.since && |a.calls| <= b.since[i] <= |b.calls|)
    && (forall i :: i in b.items && i in a.items ==> ItemContinues(i, a, b))
    && (forall l :: l in a.leads ==> LeadContinues(l, a, b))
  }

  lemma ContinuesOn(a: Record, b: Record, c: Record)
    requires Continues(a, b) && Continues(b, c) && forall i :: i in a.items ==> i < a.next
    ensures Continues(a, c)
  {
    hide ItemContinues, LeadContinues;
    forall i | i in c.items && i !in a.items
      ensures i >= a.next && i in c.since && |a.calls| <= c.since[i] <= |c.calls|
    {
      if i in b.items {
        SinceStays(i, b, c);
      }
    }
    forall i | i in c.items && i in a.items ensures ItemContinues(i, a, c) {
      assert i in b.items;
      ItemContinuesOn(i, a, b, c);
    }
    forall l | l in a.leads ensures LeadContinues(l, a, c) {
      LeadContinuesOn(l, a, b, c);
    }
  }

  lemma SinceStays(i: nat, a: Record, b: Record)
    requires i in a.items && i in b.items && i in a.since && ItemContinues(i, a, b)
    ensures i in b.since && b.since[i] == a.since[i]
  {
  }

  lemma NewCallsAdd(a: Record, b: Record, c: Record, lead: nat)
    requires a.calls <= b.calls <= c.calls
    ensures CallsTo(NewCalls(a, c), lead) == CallsTo(NewCalls(a, b), lead) + CallsTo(NewCalls(b, c), lead)
  {
    assert NewCalls(a, c) == NewCalls(a, b) + NewCalls(b, c);
    CallsAppend(NewCalls(a, b), NewCalls(b, c), lead);
  }

  lemma ItemContinuesOn(i: nat, a: Record, b: Record, c: Record)
    requires a.calls <= b.calls <= c.calls && i in a.items && i in b.items && i in c.items
    requires ItemContinues(i, a, b) && ItemContinues(i, b, c)
    ensures ItemContinues(i, a, c)
  {
    hide NewCalls, CallsTo;
    NewCallsAdd(a, b, c, a.items[i].lead);
  }

  lemma LeadContinuesOn(l: nat, a: Record, b: Record, c: Record)
    requires a.calls <= b.calls <= c.calls && l in a.leads && l in b.leads
    requires LeadContinues(l, a, b) && LeadContinues(l, b, c)
    ensures LeadContinues(l, a, c)
  {
    hide NewCalls, CallsTo;
    NewCallsAdd(a, b, c, l);
  }

  // ----- claiming

  ghost predicate Callable(i: Item, l: Lead, now: int) {
    Open(i) && i.availableAt <= now && !Barred(l) && !l.status.Disqualified?
  }

  predicate Visible(l: Lead, user: nat, seesAll: bool) {
    seesAll || l.owner.None? || l.owner.value == user
  }

  ghost predicate Mine(i: Item, user: nat, now: int) {
    i.claim.Some? && i.claim.value.user == user && i.claim.value.until >= now
  }

  /** Free for this user: unclaimed, expired or their own. */
  ghost predicate Free(i: Item, user: nat, now: int) {
    i.claim.None? || i.claim.value.until < now || i.claim.value.user == user
  }

  /** Somebody else holds another item of the same lead. */
  ghost predicate HeldElsewhere(items: map<nat, Item>, k: nat, user: nat, now: int)
    requires k in items
  {
    exists h :: && h in items && h != k && items[h].lead == items[k].lead
                && Live(items[h], now) && items[h].claim.value.user != user
  }

  /** The item may be handed to this user. */
  ghost predicate Candidate(items: map<nat, Item>, leads: map<nat, Lead>, k: nat, list: nat, user: nat, seesAll: bool,
                            now: int) {
    && k in items && items[k].list == list && items[k].lead in leads
    && Callable(items[k], leads[items[k].lead], now) && Visible(leads[items[k].lead], user, seesAll)
    && Free(items[k], user, now) && !HeldElsewhere(items, k, user, now)
  }

  /** The queue order: one's own claim, then callbacks, then by due time and place. */
  ghost predicate Sooner(items: map<nat, Item>, j: nat, k: nat, user: nat, now: int)
    requires j in items && k in items
  {
    var a, b := items[j], items[k];
    if Mine(a, user, now) != Mine(b, user, now) then Mine(a, user, now)
    else if a.status.Callback? != b.status.Callback? then a.status.Callback?
    else if a.availableAt != b.availableAt then a.availableAt < b.availableAt
    else j < k
  }

  lemma SoonerIsTransitive(items: map<nat, Item>, i: nat, j: nat, k: nat, user: nat, now: int)
    requires i in items && j in items && k in items
    requires Sooner(items, i, j, user, now) && Sooner(items, j, k, user, now)
    ensures Sooner(items, i, k, user, now)
  {
  }

  /**
   What that order means for whoever works through a list: nothing goes before what one holds oneself;
   no fresh lead goes before a callback that is due; and within either kind the one due first goes
   first, of those due together the one queued first.
   */
  ghost predicate WorkedBefore(items: map<nat, Item>, j: nat, k: nat, user: nat, now: int)
    requires j in items && k in items
  {
    var a, b := items[j], items[k];
    || (exists until :: until >= now && a.claim == Some(Claim(user, until)))
    || (&& (forall until :: until >= now ==> b.claim != Some(Claim(user, until)))
        && (b.status == Callback ==> a.status == Callback)
        && ((a.status == Callback <==> b.status == Callback) ==>
              a.availableAt < b.availableAt || (a.availableAt == b.availableAt && j < k)))
  }

  lemma OrderOfWork(items: map<nat, Item>, j: nat, k: nat, user: nat, now: int)
    requires j in items && k in items && Sooner(items, j, k, user, now)
    ensures WorkedBefore(items, j, k, user, now)
  {
    if Mine(items[j], user, now) {
      assert items[j].claim == Some(Claim(user, items[j].claim.value.until));
    }
  }

  /** The claim on k, and every other claim of the user in that list given up. */
  function Claimed(items: map<nat, Item>, k: nat, user: nat, until: int): map<nat, Item>
    requires k in items
  {
    map i | i in items ::
      if i == k then items[i].(claim := Some(Claim(user, until)))
      else if items[i].list == items[k].list && items[i].claim.Some? && items[i].claim.value.user == user
      then items[i].(claim := None)
      else items[i]
  }

  lemma ClaimKeepsHolders(items: map<nat, Item>, leads: map<nat, Lead>, k: nat, list: nat, user: nat, seesAll: bool,
                          now: int, until: int)
    requires OneHolder(items, now) && OnePerList(items)
    requires Candidate(items, leads, k, list, user, seesAll, now)
    ensures OneHolder(Claimed(items, k, user, until), now) && OnePerList(Claimed(items, k, user, until))
  {
    hide Callable, Visible;
    var after := Claimed(items, k, user, until);
    forall i, j | i in after && j in after && SameLeadLive(after[i], after[j], now)
      ensures after[i].claim.value.user == after[j].claim.value.user
    {
      if i != k && after[j].lead == items[k].lead {
        assert Live(items[i], now) && items[i].claim.value.user == user;
      }
      if j != k && after[i].lead == items[k].lead {
        assert Live(items[j], now) && items[j].claim.value.user == user;
      }
    }
  }

  /** Whoever holds a callable item is first in line for it. */
  lemma HolderIsFirst(items: map<nat, Item>, leads: map<nat, Lead>, k: nat, list: nat, user: nat, seesAll: bool,
                      now: int)
    requires OneHolder(items, now) && OnePerList(items)
    requires k in items && items[k].list == list && items[k].lead in leads
    requires Callable(items[k], leads[items[k].lead], now) && Visible(leads[items[k].lead], user, seesAll)
    requires Live(items[k], now) && items[k].claim.value.user == user
    ensures Candidate(items, leads, k, list, user, seesAll, now)
    ensures forall j :: j in items && j != k && items[j].list == list ==> Sooner(items, k, j, user, now)
  {
    hide Callable, Visible;
  }
}
