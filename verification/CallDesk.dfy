/**
 The operations on call lists (internal/crm/calllists.go, service.go, pipeline.go and imports.go),
 each transaction one atomic step, and every run of them.
 */
module CallDesk {

  import opened CallQueue
  import opened Wrappers

  const CLAIM_MINUTES := 15

  ghost predicate Sane(items: map<nat, Item>, leads: map<nat, Lead>, lists: map<nat, CallList>, now: int,
                       calls: seq<Call>, since: map<nat, nat>)
  {
    && OneHolder(items, now) && OnePerList(items) && Listed(items, lists)
    && ItemsOk(items, leads, lists, calls, since) && Counted(leads, calls)
  }

  // ----- steps on values

  /** closeLeadItems: every open item of a lead ends in the given state. */
  function Closing(items: map<nat, Item>, lead: nat, status: ItemStatus): map<nat, Item> {
    map i | i in items ::
      if items[i].lead == lead && Open(items[i]) then items[i].(status := status, claim := None) else items[i]
  }

  lemma ClosingKeeps(items: map<nat, Item>, leads: map<nat, Lead>, lists: map<nat, CallList>, now: int,
                     calls: seq<Call>, since: map<nat, nat>, lead: nat, changed: Lead, status: ItemStatus)
    requires Sane(items, leads, lists, now, calls, since)
    requires lead in leads && (status.Finished? || status.Skipped?)
    requires changed.attempts == leads[lead].attempts
    ensures Sane(Closing(items, lead, status), leads[lead := changed], lists, now, calls, since)
  {
    hide OneHolder, OnePerList, Listed, ItemsOk;
    var after, later := Closing(items, lead, status), leads[lead := changed];
    ShrinkingKeepsHolders(items, after, now, now);
    ListedKeeps(items, after, lists);
    assert ItemsOk(after, later, lists, calls, since) by {
      forall i | i in after ensures ItemIsOk(i, after, later, lists, calls, since) {
        OneItem(i, items, leads, lists, calls, since);
      }
      TogetherOk(after, later, lists, calls, since);
    }
  }

  ghost predicate ItemIsOk(i: nat, items: map<nat, Item>, leads: map<nat, Lead>, lists: map<nat, CallList>,
                           calls: seq<Call>, since: map<nat, nat>)
    requires i in items
  {
    && i in since && items[i].lead in leads && items[i].list in lists
    && ItemOk(items[i], leads[items[i].lead], lists[items[i].list], calls, since[i])
  }

  lemma OneItem(i: nat, items: map<nat, Item>, leads: map<nat, Lead>, lists: map<nat, CallList>,
                calls: seq<Call>, since: map<nat, nat>)
    requires ItemsOk(items, leads, lists, calls, since) && i in items
    ensures ItemIsOk(i, items, leads, lists, calls, since)
  {
  }

  lemma TogetherOk(items: map<nat, Item>, leads: map<nat, Lead>, lists: map<nat, CallList>,
                   calls: seq<Call>, since: map<nat, nat>)
    requires forall i :: i in items ==> ItemIsOk(i, items, leads, lists, calls, since)
    ensures ItemsOk(items, leads, lists, calls, since)
  {
    hide ItemOk;
    forall i | i in items
      ensures && i in since && items[i].lead in leads && items[i].list in lists
              && ItemOk(items[i], leads[items[i].lead], lists[items[i].list], calls, since[i])
    {
      assert ItemIsOk(i, items, leads, lists, calls, since);
    }
  }

  /** Items that go, or stay where they are, leave no lead twice on a list. */
  lemma ListedKeeps(items: map<nat, Item>, after: map<nat, Item>, lists: map<nat, CallList>)
    requires Listed(items, lists)
    requires forall i :: i in after ==> i in items && after[i].list == items[i].list && after[i].lead == items[i].lead
    ensures Listed(after, lists)
  {
  }

  /** advanceCallListItem: a call counts in every list the lead waits in. */
  function AfterCall(items: map<nat, Item>, lists: map<nat, CallList>, lead: nat, outcome: Outcome, now: int,
                     callbackAt: Option<int>): map<nat, Item>
  {
    map i | i in items ::
      if items[i].lead == lead && Open(items[i]) && items[i].list in lists
      then Called(items[i], lists[items[i].list], outcome, now, callbackAt) else items[i]
  }

  lemma CalledIsOk(i: Item, lead: Lead, changed: Lead, list: CallList, calls: seq<Call>, since: nat, called: nat,
                   outcome: Outcome, now: int, callbackAt: Option<int>)
    requires ItemOk(i, lead, list, calls, since)
    requires i.lead == called ==> (Barred(changed) ==> outcome.DoNotCall?)
    requires i.lead != called ==> changed == lead
    ensures var more := calls + [Call(called, outcome)];
            if i.lead == called && Open(i)
            then ItemOk(Called(i, list, outcome, now, callbackAt), changed, list, more, since)
            else ItemOk(i, changed, list, more, since)
  {
    hide NextItemState;
    CallsGrow(calls, since, Call(called, outcome), i.lead);
    if i.lead == called && Open(i) {
      CalledStaysBelow(i, list, outcome, now, callbackAt);
    }
  }

  /** An item still open after a call has room for another unanswered one. */
  lemma CalledStaysBelow(i: Item, list: CallList, outcome: Outcome, now: int, callbackAt: Option<int>)
    ensures var after := Called(i, list, outcome, now, callbackAt);
            && (Open(after) && Unanswered(outcome) ==> i.attempts + 1 < list.maxAttempts)
            && (outcome.DoNotCall? ==> !Open(after))
  {
  }

  lemma CallKeepsItems(items: map<nat, Item>, leads: map<nat, Lead>, lists: map<nat, CallList>, now: int,
                       calls: seq<Call>, since: map<nat, nat>, lead: nat, outcome: Outcome,
                       callbackAt: Option<int>, changed: Lead)
    requires ItemsOk(items, leads, lists, calls, since) && lead in leads
    requires Barred(changed) ==> outcome.DoNotCall?
    ensures ItemsOk(AfterCall(items, lists, lead, outcome, now, callbackAt), leads[lead := changed], lists,
                    calls + [Call(lead, outcome)], since)
  {
    hide ItemsOk, ItemOk, Called;
    var after, later := AfterCall(items, lists, lead, outcome, now, callbackAt), leads[lead := changed];
    var more := calls + [Call(lead, outcome)];
    forall i | i in after ensures ItemIsOk(i, after, later, lists, more, since) {
      OneItem(i, items, leads, lists, calls, since);
      CalledIsOk(items[i], leads[items[i].lead], later[items[i].lead], lists[items[i].list], calls, since[i], lead,
                 outcome, now, callbackAt);
    }
    TogetherOk(after, later, lists, more, since);
  }

  lemma CallKeepsCount(leads: map<nat, Lead>, calls: seq<Call>, lead: nat, changed: Lead, outcome: Outcome)
    requires Counted(leads, calls) && lead in leads && changed.attempts == leads[lead].attempts + 1
    ensures Counted(leads[lead := changed], calls + [Call(lead, outcome)])
  {
    var c := Call(lead, outcome);
    assert (calls + [c])[..|calls|] == calls;
  }

  lemma CallKeeps(items: map<nat, Item>, leads: map<nat, Lead>, lists: map<nat, CallList>, now: int,
                  calls: seq<Call>, since: map<nat, nat>, lead: nat, outcome: Outcome,
                  callbackAt: Option<int>, changed: Lead)
    requires Sane(items, leads, lists, now, calls, since)
    requires lead in leads && changed.attempts == leads[lead].attempts + 1
    requires Barred(changed) ==> outcome.DoNotCall?
    ensures Sane(AfterCall(items, lists, lead, outcome, now, callbackAt), leads[lead := changed], lists, now,
                 calls + [Call(lead, outcome)], since)
  {
    hide OneHolder, OnePerList, Listed, ItemsOk, Called, Counted;
    var after := AfterCall(items, lists, lead, outcome, now, callbackAt);
    ShrinkingKeepsHolders(items, after, now, now);
    ListedKeeps(items, after, lists);
    CallKeepsItems(items, leads, lists, now, calls, since, lead, outcome, callbackAt, changed);
    CallKeepsCount(leads, calls, lead, changed, outcome);
  }

  /** A lead joins a list. */
  lemma QueueingKeeps(items: map<nat, Item>, leads: map<nat, Lead>, lists: map<nat, CallList>, now: int,
                      calls: seq<Call>, since: map<nat, nat>, number: nat, list: nat, lead: nat)
    requires Sane(items, leads, lists, now, calls, since) && number !in items
    requires lead in leads && list in lists && !Barred(leads[lead])
    requires forall i :: i in items && items[i].list == list ==> items[i].lead != lead
    ensures Sane(items[number := Item(list, lead, Pending, 0, now, None)], leads, lists, now,
                 calls, since[number := |calls|])
  {
    hide OneHolder, OnePerList;
    var after := items[number := Item(list, lead, Pending, 0, now, None)];
    ShrinkingKeepsHolders(items, after, now, now);
  }

  /** A step that only drops items or claims, or closes items. */
  lemma DroppingKeeps(items: map<nat, Item>, leads: map<nat, Lead>, lists: map<nat, CallList>, now: int,
                      calls: seq<Call>, since: map<nat, nat>, after: map<nat, Item>, later: int)
    requires Sane(items, leads, lists, now, calls, since) && now <= later
    requires forall i :: i in after ==> i in items && Dropped(items[i], after[i])
    ensures Sane(after, leads, lists, later, calls, since)
  {
    hide OneHolder, OnePerList, Listed, ItemsOk;
    ShrinkingKeepsHolders(items, after, now, later);
    ListedKeeps(items, after, lists);
    assert ItemsOk(after, leads, lists, calls, since) by {
      forall i | i in after ensures ItemIsOk(i, after, leads, lists, calls, since) {
        OneItem(i, items, leads, lists, calls, since);
      }
      TogetherOk(after, leads, lists, calls, since);
    }
  }

  predicate Dropped(before: Item, after: Item) {
    && after.list == before.list && after.lead == before.lead && after.attempts == before.attempts
    && (after.claim == before.claim || after.claim.None?)
    && (if Open(after) then Open(before) else after.claim.None?)
    && (!Open(before) ==> after.status == before.status)
  }

  lemma DroppingContinues(r: Record, after: map<nat, Item>)
    requires forall i :: i in after ==> i in r.items && Dropped(r.items[i], after[i])
    ensures Continues(r, r.(items := after))
  {
    UnchangedContinues(r);
  }

  lemma ClaimContinues(r: Record, k: nat, user: nat, until: int)
    requires k in r.items
    ensures Continues(r, r.(items := Claimed(r.items, k, user, until)))
    ensures Claimed(r.items, k, user, until).Keys == r.items.Keys
  {
    UnchangedContinues(r);
  }

  lemma CallContinues(r: Record, lists: map<nat, CallList>, lead: nat, outcome: Outcome, now: int,
                      callbackAt: Option<int>, changed: Lead)
    requires lead in r.leads && !r.leads[lead].status.Converted? && changed.attempts == r.leads[lead].attempts + 1
    requires forall i :: i in r.items ==> r.items[i].list in lists
    ensures Continues(r, r.(items := AfterCall(r.items, lists, lead, outcome, now, callbackAt),
                            leads := r.leads[lead := changed], calls := r.calls + [Call(lead, outcome)]))
  {
    hide Called, CallsTo, ItemContinues, LeadContinues;
    var c := Call(lead, outcome);
    var items := AfterCall(r.items, lists, lead, outcome, now, callbackAt);
    var after := r.(items := items, leads := r.leads[lead := changed], calls := r.calls + [c]);
    assert NewCalls(r, after) == [c];
    OneCall(c);
    forall i | i in r.items ensures ItemContinues(i, r, after) {
      ItemAfterCall(r, after, i, lists, c, now, callbackAt);
    }
    forall l | l in r.leads ensures LeadContinues(l, r, after) {
      LeadAfterCall(r, after, l, c);
    }
  }

  lemma ItemAfterCall(r: Record, after: Record, i: nat, lists: map<nat, CallList>, c: Call, now: int,
                      callbackAt: Option<int>)
    requires i in r.items && i in after.items && r.items[i].list in lists && after.since == r.since
    requires NewCalls(r, after) == [c] && CallsTo([c], r.items[i].lead) == if r.items[i].lead == c.lead then 1 else 0
    requires after.items[i] == if r.items[i].lead == c.lead && Open(r.items[i])
                               then Called(r.items[i], lists[r.items[i].list], c.outcome, now, callbackAt)
                               else r.items[i]
    ensures ItemContinues(i, r, after)
  {
    hide CallsTo, NewCalls;
  }

  lemma LeadAfterCall(r: Record, after: Record, l: nat, c: Call)
    requires l in r.leads && l in after.leads && NewCalls(r, after) == [c]
    requires CallsTo([c], l) == if l == c.lead then 1 else 0
    requires if l == c.lead then !r.leads[l].status.Converted? && after.leads[l].attempts == r.leads[l].attempts + 1
             else after.leads[l] == r.leads[l]
    ensures LeadContinues(l, r, after)
  {
    hide CallsTo, NewCalls;
  }

  lemma OneCall(c: Call)
    ensures forall l :: CallsTo([c], l) == if l == c.lead then 1 else 0
  {
    assert [c][..0] == [];
  }

  /** A step that changes a lead without barring it or counting a call. */
  lemma LeadChangeKeeps(items: map<nat, Item>, leads: map<nat, Lead>, lists: map<nat, CallList>, now: int,
                        calls: seq<Call>, since: map<nat, nat>, lead: nat, changed: Lead)
    requires Sane(items, leads, lists, now, calls, since)
    requires if lead in leads then changed.attempts == leads[lead].attempts && (Barred(changed) ==> Barred(leads[lead]))
             else changed.attempts == 0
    ensures Sane(items, leads[lead := changed], lists, now, calls, since)
  {
    hide OneHolder, OnePerList, Listed;
    if lead !in leads {
      NeverCalled(calls, lead);
    }
  }

  lemma ClaimKeeps(items: map<nat, Item>, leads: map<nat, Lead>, lists: map<nat, CallList>, now: int,
                   calls: seq<Call>, since: map<nat, nat>, k: nat, list: nat, user: nat, seesAll: bool,
                   until: int)
    requires Sane(items, leads, lists, now, calls, since)
    requires Candidate(items, leads, k, list, user, seesAll, now)
    ensures Sane(Claimed(items, k, user, until), leads, lists, now, calls, since)
  {
    hide OneHolder, OnePerList, HeldElsewhere, Listed, ItemsOk, Visible, Free;
    var after := Claimed(items, k, user, until);
    ClaimKeepsHolders(items, leads, k, list, user, seesAll, now, until);
    ListedKeeps(items, after, lists);
    assert ItemsOk(after, leads, lists, calls, since) by {
      forall i | i in after ensures ItemIsOk(i, after, leads, lists, calls, since) {
        OneItem(i, items, leads, lists, calls, since);
      }
      TogetherOk(after, leads, lists, calls, since);
    }
  }

  // ----- the operations

  datatype NewLead = NewLead(status: LeadStatus, doNotCall: bool, owner: Option<nat>, phone: string)

  /** An edit of a lead; `wellFormed` stands for the checks on its other fields, `current` for the version it names. */
  datatype LeadEdit = LeadEdit(status: LeadStatus, owner: Option<nat>, nextAction: Option<int>, phone: string,
                               allowDuplicate: bool, wellFormed: bool, current: bool)

  /** A lead may be queued here: it can be called, is in no open list, and is fresh or due. */
  ghost predicate Addable(items: map<nat, Item>, leads: map<nat, Lead>, lists: map<nat, CallList>, lead: nat, list: nat,
                    includeCalled: bool, now: int)
  {
    && lead in leads && !Barred(leads[lead]) && !leads[lead].status.Disqualified?
    && (forall i :: i in items && items[i].lead == lead ==>
          && items[i].list != list
          && !(items[i].list in lists && lists[items[i].list].active && Open(items[i])))
    && (includeCalled || leads[lead].attempts == 0
        || (leads[lead].nextAction.Some? && leads[lead].nextAction.value <= now))
  }

  datatype Step =
    | Tick(minutes: nat)
    | NewList(maxAttempts: int, retry: int)
    | AddLeads(list: nat, candidates: seq<nat>, includeCalled: bool)
    | ImportLeads(into: Option<nat>, rows: seq<NewLead>, allowDuplicates: bool)
    | ClaimNext(user: nat, seesAll: bool, list: nat)
    | ReleaseItem(user: nat, manager: bool, list: nat, item: nat, skip: bool)
    | LogCall(user: nat, seesAll: bool, lead: nat, fromItem: Option<nat>, outcome: Outcome, callbackAt: Option<int>)
    | SetDoNotCall(lead: nat, mark: bool)
    | UpdateLead(user: nat, seesAll: bool, manages: bool, lead: nat, edit: LeadEdit)
    | ConvertLead(lead: nat)
    | Archive(list: nat, archived: bool)
    | RemoveItems(list: nat, numbers: set<nat>)
    | DeleteList(list: nat)

  class Desk {
    var now: int
    var leads: map<nat, Lead>
    var lists: map<nat, CallList>
    var items: map<nat, Item>
    var nextItem: nat
    var nextLead: nat
    var nextList: nat
    var calls: seq<Call>            // the calls recorded as activities, oldest first
    ghost var since: map<nat, nat>  // how many there were when an item was queued

    ghost predicate Valid()
      reads this
    {
      && Sane(items, leads, lists, now, calls, since)
      && (forall i :: i in items ==> i < nextItem)
      && (forall l :: l in leads ==> l < nextLead)
      && (forall l :: l in lists ==> l < nextList)
    }

    constructor (now: int)
      ensures Valid() && items == map[] && leads == map[] && lists == map[] && calls == []
    {
      this.now := now;
      leads, lists, items := map[], map[], map[];
      nextItem, nextLead, nextList := 0, 0, 0;
      calls, since := [], map[];
    }

    ghost function Snapshot(): Record
      reads this
    {
      Record(items, leads, nextItem, calls, since)
    }

    ghost function Tables(): State
      reads this
    {
      State(now, lists, nextLead, nextList, Snapshot())
    }

    /** What is over at this point stays over in the later state, and calls add up. */
    twostate predicate Continued()
      reads this
    {
      Continues(old(Snapshot()), Snapshot())
    }

    method Wait(minutes: nat)
      requires Valid()
      modifies this`now
      ensures Valid() && now == old(now) + minutes
    {
      hide Sane, Dropped;
      HoldersOf(items, leads, lists, now, calls, since);
      SameIsDropped(items);
      DroppingKeeps(items, leads, lists, now, calls, since, items, now + minutes);
      now := now + minutes;
    }

    /** Whether the item may be handed to this user: open and due, its lead callable and visible, nobody else on it. */
    method Offers(k: nat, list: nat, user: nat, seesAll: bool) returns (ok: bool)
      requires k in items
      ensures ok <==> Candidate(items, leads, k, list, user, seesAll, now)
    {
      var i := items[k];
      if i.list != list || i.lead !in leads || !(i.status.Pending? || i.status.Callback?) || i.availableAt > now {
        return false;
      }
      var l := leads[i.lead];
      if l.doNotCall || l.status.Converted? || l.status.Disqualified? {
        return false;
      }
      if !seesAll && l.owner.Some? && l.owner.value != user {
        return false;
      }
      if i.claim.Some? && i.claim.value.until >= now && i.claim.value.user != user {
        return false;
      }
      ok := !exists h :: && h in items && h != k && items[h].lead == i.lead && items[h].claim.Some?
                         && items[h].claim.value.until > now && items[h].claim.value.user != user;
    }

    /** Whether j goes before k. */
    method ComesFirst(j: nat, k: nat, user: nat) returns (first: bool)
      requires j in items && k in items
      ensures first <==> Sooner(items, j, k, user, now)
    {
      var a, b := items[j], items[k];
      var mine := a.claim.Some? && a.claim.value.user == user && a.claim.value.until >= now;
      var theirs := b.claim.Some? && b.claim.value.user == user && b.claim.value.until >= now;
      if mine != theirs {
        return mine;
      }
      if a.status.Callback? != b.status.Callback? {
        return a.status.Callback?;
      }
      return a.availableAt < b.availableAt || (a.availableAt == b.availableAt && j < k);
    }

    /** The next item of the list for this user; one's own unexpired claim always comes back first. */
    method Pick(list: nat, user: nat, seesAll: bool) returns (r: Option<nat>)
      requires Valid()
      ensures r.None? <==> forall k :: !Candidate(items, leads, k, list, user, seesAll, now)
      ensures r.Some? ==> Candidate(items, leads, r.value, list, user, seesAll, now)
      ensures r.Some? ==> forall k :: k != r.value && Candidate(items, leads, k, list, user, seesAll, now)
                                      ==> Sooner(items, r.value, k, user, now)
    {
      hide Sane, Callable, Visible, Free, HeldElsewhere, Sooner;
      r := None;
      var todo := items.Keys;
      while todo != {}
        invariant todo <= items.Keys
        invariant r.Some? ==> r.value !in todo && Candidate(items, leads, r.value, list, user, seesAll, now)
        invariant forall k :: k in items && k !in todo && Candidate(items, leads, k, list, user, seesAll, now) ==>
                                r.Some? && (k == r.value || Sooner(items, r.value, k, user, now))
      {
        var k :| k in todo;
        todo := todo - {k};
        var offered := Offers(k, list, user, seesAll);
        if offered && r.None? {
          r := Some(k);
        } else if offered {
          var sooner := ComesFirst(k, r.value, user);
          if sooner {
            forall j | j in items && j != r.value && Sooner(items, r.value, j, user, now)
              ensures Sooner(items, k, j, user, now)
            {
              SoonerIsTransitive(items, k, r.value, j, user, now);
            }
            r := Some(k);
          } else {
            OneIsSooner(items, k, r.value, user, now);
          }
        }
      }
    }

    method ClaimNext(list: nat, user: nat, seesAll: bool) returns (r: Option<nat>)
      requires Valid()
      modifies this`items
      ensures Valid() && Continued()
      ensures r.None? ==> items == old(items)
      ensures r.Some? ==>
                old(list in lists && lists[list].active && Candidate(items, leads, r.value, list, user, seesAll, now))
      // what is handed out is open and due, its lead may be called, and nobody else is on that lead
      ensures r.Some? ==>
                && r.value in old(items) && old(items)[r.value].lead in leads
                && var i, l := old(items)[r.value], leads[old(items)[r.value].lead];
                && i.list == list && (i.status == Pending || i.status == Callback) && i.availableAt <= now
                && !l.doNotCall && l.status != Converted && l.status != Disqualified
                && (seesAll || l.owner == None || l.owner == Some(user))
                && forall h, u, until :: h in old(items) && old(items)[h].lead == i.lead && until > now ==>
                     (old(items)[h].claim == Some(Claim(u, until)) ==> u == user)
      // and it goes before everything else on offer
      ensures r.Some? ==>
                forall k :: k in old(items) && k != r.value && Candidate(old(items), leads, k, list, user, seesAll, now)
                  ==> WorkedBefore(old(items), r.value, k, user, now)
      ensures r.Some? ==> items == Claimed(old(items), r.value, user, now + CLAIM_MINUTES)
      // it is the user's from now on, their other claims in the list end, and nothing else changes
      ensures r.Some? ==>
                && items.Keys == old(items.Keys)
                && forall i :: i in items ==>
                     items[i] == if i == r.value then old(items)[i].(claim := Some(Claim(user, now + 15)))
                                 else if old(items)[i].list == list && ClaimedBy(old(items)[i], user)
                                      then old(items)[i].(claim := None)
                                 else old(items)[i]
      ensures r.None? <==> list !in lists || !lists[list].active
                           || forall k :: !Candidate(old(items), leads, k, list, user, seesAll, now)
      ensures list in lists && lists[list].active ==>
                forall k :: k in old(items) && HoldsCallable(old(items), k, list, user, seesAll) ==> r == Some(k)
    {
      hide Sane, Candidate, Sooner, OneHolder, OnePerList, Listed, ItemsOk, Continues, Claimed, WorkedBefore;
      UnchangedContinues(Snapshot());
      if list !in lists || !lists[list].active {
        return None;
      }
      r := Pick(list, user, seesAll);
      forall k | k in items && HoldsCallable(items, k, list, user, seesAll) ensures r == Some(k) {
        HoldersOf(items, leads, lists, now, calls, since);
        HolderIsFirst(items, leads, k, list, user, seesAll, now);
        if r != Some(k) {
          InList(items, leads, r.value, list, user, seesAll, now);
          NotBothSooner(items, k, r.value, user, now);
        }
      }
      if r.Some? {
        InList(items, leads, r.value, list, user, seesAll, now);
        WhatIsOffered(items, leads, r.value, list, user, seesAll, now);
        forall k | k in items && k != r.value && Candidate(items, leads, k, list, user, seesAll, now)
          ensures WorkedBefore(items, r.value, k, user, now)
        {
          OrderOfWork(items, r.value, k, user, now);
        }
        ClaimKeeps(items, leads, lists, now, calls, since, r.value, list, user, seesAll, now + CLAIM_MINUTES);
        ClaimContinues(Snapshot(), r.value, user, now + CLAIM_MINUTES);
        WhatIsClaimed(items, r.value, user, now + CLAIM_MINUTES);
        items := Claimed(items, r.value, user, now + CLAIM_MINUTES);
      }
    }

    /** A claimed lead goes back uncalled, or leaves the queue for good. */
    method ReleaseItem(user: nat, manager: bool, list: nat, item: nat, skip: bool) returns (ok: bool)
      requires Valid()
      modifies this`items
      ensures Valid() && Continued()
      ensures ok <==> && item in old(items) && old(items)[item].list == list
                      && ((manager && Open(old(items)[item])) || ClaimedBy(old(items)[item], user))
      ensures items == if ok then old(items)[item := Released(old(items)[item], skip)] else old(items)
      // a skipped item is closed for good; any other is as it was, and nobody's
      ensures ok ==> items[item].claim == None && (items[item].status == Skipped <==> skip)
      ensures ok && !skip ==> items[item] == old(items)[item].(claim := None) && Open(items[item])
    {
      hide Sane, Continues;
      if item !in items || items[item].list != list
         || !((manager && Open(items[item])) || ClaimedBy(items[item], user)) {
        UnchangedContinues(Snapshot());
        return false;
      }
      HoldersOf(items, leads, lists, now, calls, since);
      var after := items[item := Released(items[item], skip)];
      SameIsDropped(items);
      DroppingKeeps(items, leads, lists, now, calls, since, after, now);
      DroppingContinues(Snapshot(), after);
      items := after;
      return true;
    }

    /** Whether the call may be recorded. */
    method TakesCall(user: nat, seesAll: bool, lead: nat, fromItem: Option<nat>, outcome: Outcome,
                     callbackAt: Option<int>)
      returns (ok: bool)
      ensures ok <==>
                && lead in leads && Visible(leads[lead], user, seesAll)
                && !CallRefused(leads[lead], outcome, callbackAt)
                && (fromItem.Some? ==> WaitsIn(items, fromItem.value, lead))
    {
      if lead !in leads || !Visible(leads[lead], user, seesAll) {
        return false;
      }
      if leads[lead].doNotCall || leads[lead].status.Converted? || (outcome.CallBack? && callbackAt.None?) {
        return false;
      }
      if fromItem.Some?
         && (fromItem.value !in items || items[fromItem.value].lead != lead
             || !(items[fromItem.value].status.Pending? || items[fromItem.value].status.Callback?)) {
        return false;
      }
      return true;
    }

    /** A call: the lead is updated, and the call counts in every list the lead waits in. */
    method LogCall(user: nat, seesAll: bool, lead: nat, fromItem: Option<nat>, outcome: Outcome,
                   callbackAt: Option<int>)
      returns (ok: bool)
      requires Valid()
      modifies this`leads, this`items, this`calls
      ensures Valid() && Continued()
      ensures ok <==>
                && lead in old(leads) && Visible(old(leads)[lead], user, seesAll)
                && !CallRefused(old(leads)[lead], outcome, callbackAt)
                && (fromItem.Some? ==> WaitsIn(old(items), fromItem.value, lead))
      ensures calls == if ok then old(calls) + [Call(lead, outcome)] else old(calls)
      ensures !ok ==> leads == old(leads) && items == old(items)
      ensures ok ==> leads == old(leads)[lead := Owned(ApplyCall(old(leads)[lead], outcome, callbackAt), user)]
      ensures ok ==> leads[lead].owner == if old(leads)[lead].owner.None? then Some(user) else old(leads)[lead].owner
      ensures ok ==> items == AfterCall(old(items), lists, lead, outcome, now, callbackAt)
    {
      hide Sane, ApplyCall, Called, AfterCall, Continues, Closing, Visible, WaitsIn;
      UnchangedContinues(Snapshot());
      ok := TakesCall(user, seesAll, lead, fromItem, outcome, callbackAt);
      if !ok {
        return;
      }
      var changed := Owned(ApplyCall(leads[lead], outcome, callbackAt), user);
      HoldersOf(items, leads, lists, now, calls, since);
      CallKeeps(items, leads, lists, now, calls, since, lead, outcome, callbackAt, changed);
      CallContinues(Snapshot(), lists, lead, outcome, now, callbackAt, changed);
      KeysOfCall(items, lists, lead, outcome, now, callbackAt);
      leads := leads[lead := changed];
      AdvanceItems(lead, outcome, callbackAt);
      calls := calls + [Call(lead, outcome)];
      if changed.doNotCall {
        NothingLeftToClose(old(items), lists, lead, outcome, now, callbackAt);
        items := Closing(items, lead, Skipped);
      }
      return true;
    }

    /** The loop over the lead's open items. */
    method AdvanceItems(lead: nat, outcome: Outcome, callbackAt: Option<int>)
      requires forall i :: i in items ==> items[i].list in lists
      modifies this`items
      ensures items == AfterCall(old(items), lists, lead, outcome, now, callbackAt)
    {
      hide Called;
      var todo := set i | i in items && items[i].lead == lead && Open(items[i]);
      ghost var all := todo;
      while todo != {}
        invariant todo <= all && items.Keys == old(items).Keys
        invariant forall i :: i in todo ==> items[i] == old(items)[i]
        invariant forall i :: i in items ==>
                    items[i] == if i in all - todo
                                then Called(old(items)[i], lists[old(items)[i].list], outcome, now, callbackAt)
                                else old(items)[i]
      {
        var i :| i in todo;
        items := items[i := Called(items[i], lists[items[i].list], outcome, now, callbackAt)];
        todo := todo - {i};
      }
    }

    method SetDoNotCall(lead: nat, mark: bool)
      requires Valid()
      modifies this`leads, this`items
      ensures Valid() && Continued()
      ensures lead !in old(leads) ==> leads == old(leads) && items == old(items)
      ensures lead in old(leads) ==> leads == old(leads)[lead := Marked(old(leads)[lead], mark)]
      ensures lead in old(leads) ==>
                && leads[lead].doNotCall == mark && leads[lead].status == old(leads)[lead].status
                && leads[lead].nextAction == if mark then None else old(leads)[lead].nextAction
      // nothing of another lead is touched
      ensures forall i :: i in items && items[i].lead != lead ==> i in old(items) && items[i] == old(items)[i]
      ensures lead in leads && mark ==> forall i :: i in items && items[i].lead == lead ==> !Open(items[i])
      ensures lead in old(leads) ==> items == if mark then Closing(old(items), lead, Skipped) else old(items)
    {
      hide Sane;
      if lead in leads {
        var changed := Marked(leads[lead], mark);
        if mark {
          ClosingKeeps(items, leads, lists, now, calls, since, lead, changed, Skipped);
          items := Closing(items, lead, Skipped);
        } else {
          LeadChangeKeeps(items, leads, lists, now, calls, since, lead, changed);
        }
        leads := leads[lead := changed];
      }
    }

    /** A user may set any status but CONVERTED, and a converted lead keeps its status. */
    method UpdateLead(user: nat, seesAll: bool, manages: bool, lead: nat, edit: LeadEdit) returns (ok: bool)
      requires Valid()
      modifies this`leads
      ensures Valid() && Continued()
      ensures ok <==> Editable(old(leads), user, seesAll, manages, lead, edit)
      ensures leads == if ok then old(leads)[lead := Edited(old(leads)[lead], edit)] else old(leads)
      ensures ok ==>
                && leads[lead].owner == edit.owner && leads[lead].nextAction == edit.nextAction
                && leads[lead].phone == edit.phone && leads[lead].doNotCall == old(leads)[lead].doNotCall
                && (leads[lead].status == edit.status || old(leads)[lead].status == leads[lead].status == Converted)
    {
      hide Sane, Continues;
      UnchangedContinues(Snapshot());
      if lead !in leads || !Visible(leads[lead], user, seesAll) {
        return false;
      }
      if !edit.wellFormed || (edit.status.Converted? && !leads[lead].status.Converted?) {
        return false;
      }
      if edit.owner != leads[lead].owner && !manages && !(leads[lead].owner.None? && edit.owner == Some(user)) {
        return false;
      }
      if !edit.allowDuplicate && edit.phone != leads[lead].phone && |edit.phone| >= 7
         && exists l :: l in leads && l != lead && leads[l].phone == edit.phone {
        return false;
      }
      if !edit.current {
        return false;
      }
      var changed := Edited(leads[lead], edit);
      LeadChangeKeeps(items, leads, lists, now, calls, since, lead, changed);
      LeadChangeContinues(Snapshot(), lead, changed);
      leads := leads[lead := changed];
      return true;
    }

    method ConvertLead(lead: nat) returns (ok: bool)
      requires Valid()
      modifies this`leads, this`items
      ensures Valid() && Continued()
      ensures ok <==> lead in old(leads) && !old(leads)[lead].status.Converted?
      ensures !ok ==> leads == old(leads) && items == old(items)
      ensures ok ==> leads == old(leads)[lead := old(leads)[lead].(status := Converted, nextAction := None)]
      ensures ok ==> items == Closing(old(items), lead, Finished)
    {
      hide Sane;
      if lead !in leads || leads[lead].status.Converted? {
        return false;
      }
      var changed := leads[lead].(status := Converted, nextAction := None);
      ClosingKeeps(items, leads, lists, now, calls, since, lead, changed, Finished);
      items := Closing(items, lead, Finished);
      leads := leads[lead := changed];
      return true;
    }

    /** Taking a list out of use, or back, gives up every claim in it. */
    method ArchiveCallList(list: nat, archived: bool)
      requires Valid()
      modifies this`lists, this`items
      ensures Valid() && Continued() && lists.Keys == old(lists.Keys)
      ensures lists == if list in old(lists) then old(lists)[list := old(lists)[list].(active := !archived)]
                       else old(lists)
      ensures items == if list in old(lists) then GivenUp(old(items), list) else old(items)
      // every claim in the list is given up, and nothing else about an item changes
      ensures items.Keys == old(items.Keys) && (list in lists ==> forall i :: i in items && items[i].list == list ==>
                items[i].claim == None)
      ensures forall i :: i in items ==>
                items[i] == old(items)[i]
                || (items[i].list == list && list in lists && items[i] == old(items)[i].(claim := None))
    {
      hide Sane, Continues;
      UnchangedContinues(Snapshot());
      if list in lists {
        HoldersOf(items, leads, lists, now, calls, since);
        DroppingKeeps(items, leads, lists, now, calls, since, GivenUp(items, list), now);
        DroppingContinues(Snapshot(), GivenUp(items, list));
        items := GivenUp(items, list);
        SameLimits(items, leads, lists, now, calls, since, list, lists[list].(active := !archived));
        lists := lists[list := lists[list].(active := !archived)];
      }
    }

    method RemoveItems(list: nat, numbers: set<nat>)
      requires Valid()
      modifies this`items
      ensures Valid() && Continued()
      ensures items == map i | i in old(items) && !(old(items)[i].list == list && i in numbers) :: old(items)[i]
    {
      hide Sane, Continues, Dropped;
      HoldersOf(items, leads, lists, now, calls, since);
      SameIsDropped(items);
      var kept := map i | i in items && !(items[i].list == list && i in numbers) :: items[i];
      DroppingKeeps(items, leads, lists, now, calls, since, kept, now);
      DroppingContinues(Snapshot(), kept);
      items := kept;
    }

    method DeleteCallList(list: nat)
      requires Valid()
      modifies this`items, this`lists
      ensures Valid() && Continued() && lists == old(lists) - {list}
      ensures items == map i | i in old(items) && old(items)[i].list != list :: old(items)[i]
    {
      hide Sane, Continues, Dropped;
      HoldersOf(items, leads, lists, now, calls, since);
      SameIsDropped(items);
      var kept := map i | i in items && items[i].list != list :: items[i];
      DroppingKeeps(items, leads, lists, now, calls, since, kept, now);
      DroppingContinues(Snapshot(), kept);
      items := kept;
      ListGone(items, leads, lists, now, calls, since, list);
      lists := lists - {list};
    }

    /** Zero asks for the default. */
    method CreateCallList(maxAttempts: int, retry: int) returns (ok: bool)
      requires Valid()
      modifies this`lists, this`nextList
      ensures Valid() && (ok <==> 0 <= maxAttempts <= 20 && (retry == 0 || 5 <= retry <= 10080))
      ensures !ok ==> lists == old(lists) && nextList == old(nextList)
      ensures ok ==> nextList == old(nextList) + 1
      ensures ok ==> lists == old(lists)[old(nextList) := CallList(true, Default(maxAttempts, 5), Default(retry, 120))]
    {
      hide OneHolder, OnePerList, ItemOk;
      var attempts, minutes := Default(maxAttempts, 5), Default(retry, 120);
      ok := 1 <= attempts <= 20 && 5 <= minutes <= 10080;
      if ok {
        lists := lists[nextList := CallList(true, attempts, minutes)];
        nextList := nextList + 1;
      }
    }

    /** One lead at the end of one list. */
    method Enqueue(list: nat, lead: nat)
      requires Valid() && lead in leads && list in lists && !Barred(leads[lead])
      requires forall i :: i in items && items[i].list == list ==> items[i].lead != lead
      modifies this`items, this`nextItem, this`since
      ensures Valid() && Continued() && nextItem == old(nextItem) + 1
      ensures items == old(items)[old(nextItem) := Item(list, lead, Pending, 0, now, None)]
      ensures since == old(since)[old(nextItem) := |calls|]
    {
      hide Sane;
      QueueingKeeps(items, leads, lists, now, calls, since, nextItem, list, lead);
      items := items[nextItem := Item(list, lead, Pending, 0, now, None)];
      since := since[nextItem := |calls|];
      nextItem := nextItem + 1;
    }

    /** Whether the lead may join the list. */
    method MayQueue(lead: nat, list: nat, includeCalled: bool) returns (ok: bool)
      ensures ok <==> Addable(items, leads, lists, lead, list, includeCalled, now)
    {
      if lead !in leads {
        return false;
      }
      var l := leads[lead];
      if l.doNotCall || l.status.Converted? || l.status.Disqualified? {
        return false;
      }
      if exists i :: i in items && items[i].lead == lead
                     && (items[i].list == list
                         || (items[i].list in lists && lists[items[i].list].active
                             && (items[i].status.Pending? || items[i].status.Callback?))) {
        return false;
      }
      ok := includeCalled || l.attempts == 0 || (l.nextAction.Some? && l.nextAction.value <= now);
    }

    /** Queues the candidates that may be queued, in the order given, and touches nothing else. */
    method AddLeads(list: nat, candidates: seq<nat>, includeCalled: bool) returns (ok: bool)
      requires Valid() && forall a, b :: 0 <= a < b < |candidates| ==> candidates[a] != candidates[b]
      modifies this`items, this`nextItem, this`since
      ensures Valid() && Continued()
      ensures ok <==> list in lists && lists[list].active
      ensures !ok ==> items == old(items)
      ensures ok ==> Filled(old(items), items, leads, lists, Members(candidates), list, includeCalled, now)
    {
      hide Sane, Continues, Addable, Filled;
      UnchangedContinues(Snapshot());
      if list !in lists || !lists[list].active {
        return false;
      }
      NothingFilled(items, leads, lists, list, includeCalled, now);
      ghost var done: set<nat> := {};
      for a := 0 to |candidates|
        invariant Valid() && Continued() && list in lists
        invariant forall b :: 0 <= b < a ==> candidates[b] in done
        invariant forall b :: a <= b < |candidates| ==> candidates[b] !in done
        invariant forall lead :: lead in done ==> lead in candidates
        invariant Filled(old(items), items, leads, lists, done, list, includeCalled, now)
      {
        var lead := candidates[a];
        var addable := MayQueue(lead, list, includeCalled);
        if addable {
          FilledMore(old(items), items, leads, lists, done, lead, list, includeCalled, now, nextItem);
          AddableMeans(items, leads, lists, lead, list, includeCalled, now);
          ghost var before := Snapshot();
          Enqueue(list, lead);
          ContinuesOn(old(Snapshot()), before, Snapshot());
        } else {
          FilledAsIs(old(items), items, leads, lists, done, lead, list, includeCalled, now);
        }
        done := done + {lead};
      }
      assert done == Members(candidates);
      return true;
    }

    /**
     ImportLeads: exactly the rows taken become leads, in order, and of those exactly the ones worth
     calling join the list, in order, behind what is there.
     */
    method ImportLeads(into: Option<nat>, rows: seq<NewLead>, allowDuplicates: bool) returns (ok: bool)
      requires Valid()
      modifies this`leads, this`nextLead, this`items, this`nextItem, this`since
      ensures Valid() && Continued()
      ensures ok <==> (into.Some? ==> into.value in lists)
      ensures !ok ==> leads == old(leads) && items == old(items)
      ensures ok ==>
                var created := NewLeads(rows, old(leads), allowDuplicates, |rows|);
                && Grown(old(leads), leads, old(nextLead), created)
                && Grown(old(items), items, old(nextItem), NewItems(created, old(nextLead), into, now))
    {
      hide Sane, Continues, Grown, NewLeads, NewItems, Met, Worth, Created;
      UnchangedContinues(Snapshot());
      if into.Some? && into.value !in lists {
        return false;
      }
      NothingGrown(leads, nextLead);
      NothingGrown(items, nextItem);
      NothingImported(rows, leads, allowDuplicates, nextLead, into, now);
      var known := leads;
      var seen: set<string> := {};
      ghost var created: seq<Lead>, waiting: seq<Item> := [], [];
      for a := 0 to |rows|
        invariant Valid() && Continued() && (into.Some? ==> into.value in lists)
        invariant forall p :: p in seen <==> p != "" && Met(rows, a, p)
        invariant created == NewLeads(rows, known, allowDuplicates, a)
        invariant waiting == NewItems(created, old(nextLead), into, now)
        invariant nextLead == old(nextLead) + |created| && Grown(known, leads, old(nextLead), created)
        invariant nextItem == old(nextItem) + |waiting| && Grown(old(items), items, old(nextItem), waiting)
      {
        var row := rows[a];
        MetMore(rows, a);
        NewLeadsMore(rows, known, allowDuplicates, a);
        if row.status.Converted? || (row.phone != "" && row.phone in seen) {
          continue;
        }
        if row.phone != "" {
          seen := seen + {row.phone};
        }
        if row.phone != "" && exists l :: && l in known && known[l].phone == row.phone
                                          && (known[l].doNotCall || !allowDuplicates) {
          continue;
        }
        ghost var before := Snapshot();
        ImportRow(into, row);
        ContinuesOn(old(Snapshot()), before, Snapshot());
        GrownMore(known, before.leads, old(nextLead), created, Created(row));
        NewItemsMore(created, Created(row), old(nextLead), into, now);
        if into.Some? && Worth(Created(row)) {
          ghost var item := Item(into.value, old(nextLead) + |created|, Pending, 0, now, None);
          GrownMore(old(items), before.items, old(nextItem), waiting, item);
          waiting := waiting + [item];
        }
        created := created + [Created(row)];
      }
      return true;
    }

    /** One row: a lead and, if it is worth calling, its item. */
    method ImportRow(into: Option<nat>, row: NewLead)
      requires Valid() && !row.status.Converted? && (into.Some? ==> into.value in lists)
      modifies this`leads, this`nextLead, this`items, this`nextItem, this`since
      ensures Valid() && Continued() && nextLead == old(nextLead) + 1
      ensures leads == old(leads)[old(nextLead) := Created(row)]
      ensures if into.Some? && Worth(Created(row))
              then nextItem == old(nextItem) + 1
                   && items == old(items)[old(nextItem) := Item(into.value, old(nextLead), Pending, 0, now, None)]
              else items == old(items) && nextItem == old(nextItem)
    {
      hide Sane, Continues;
      var id := AddLead(row);
      if into.Some? && !leads[id].doNotCall && !leads[id].status.Disqualified? {
        ghost var before := Snapshot();
        Enqueue(into.value, id);
        ContinuesOn(old(Snapshot()), before, Snapshot());
      }
    }

    method AddLead(row: NewLead) returns (id: nat)
      requires Valid() && !row.status.Converted?
      modifies this`leads, this`nextLead
      ensures Valid() && Continued() && id == old(nextLead) && nextLead == id + 1 && id !in old(leads)
      ensures leads == old(leads)[id := Created(row)]
      ensures leads[id].doNotCall == row.doNotCall && leads[id].owner == row.owner && leads[id].phone == row.phone
      ensures leads[id].status == if row.doNotCall then Disqualified else row.status
      ensures forall i :: i in items ==> items[i].lead != id
    {
      hide Sane;
      id := nextLead;
      var created := Created(row);
      HoldersOf(items, leads, lists, now, calls, since);
      LeadChangeKeeps(items, leads, lists, now, calls, since, id, created);
      leads := leads[id := created];
      nextLead := nextLead + 1;
    }

    /** A step that changes lists and what is on them. */
    method PerformOnLists(step: Step)
      requires Valid() && (step.NewList? || step.AddLeads? || step.ImportLeads? || step.ReleaseItem? || step.Archive?
                           || step.RemoveItems? || step.DeleteList?)
      modifies this
      ensures Valid() && Continued() && Stepped(step, old(Tables()), Tables())
    {
      hide Sane, Continues, Filled, Grown, NewLeads, NewItems, GivenUp, Released, ClaimedBy, Default, Members;
      UnchangedContinues(Snapshot());
      match step {
        case NewList(maxAttempts, retry) => var _ := CreateCallList(maxAttempts, retry);
        case AddLeads(list, candidates, includeCalled) =>
          if forall a, b :: 0 <= a < b < |candidates| ==> candidates[a] != candidates[b] {
            var _ := AddLeads(list, candidates, includeCalled);
          }
        case ImportLeads(into, rows, allowDuplicates) => var _ := ImportLeads(into, rows, allowDuplicates);
        case ReleaseItem(user, manager, list, item, skip) => var _ := ReleaseItem(user, manager, list, item, skip);
        case Archive(list, archived) => ArchiveCallList(list, archived);
        case RemoveItems(list, numbers) => RemoveItems(list, numbers);
        case DeleteList(list) => DeleteCallList(list);
      }
    }

    method Perform(step: Step)
      requires Valid()
      modifies this
      ensures Valid() && Continued() && Stepped(step, old(Tables()), Tables())
    {
      hide Sane, Continues, Claimed, Closing, AfterCall, Candidate, Called, ApplyCall, Editable, Edited, CallRefused,
        Visible, WaitsIn, WorkedBefore, Marked, Owned, ClaimedBy;
      UnchangedContinues(Snapshot());
      match step {
        case Tick(minutes) => Wait(minutes);
        case ClaimNext(user, seesAll, list) =>
          var r := ClaimNext(list, user, seesAll);
          assert r.Some? ==> First(old(items), leads, r.value, list, user, seesAll, now);
        case LogCall(user, seesAll, lead, fromItem, outcome, callbackAt) =>
          var _ := LogCall(user, seesAll, lead, fromItem, outcome, callbackAt);
        case SetDoNotCall(lead, mark) => SetDoNotCall(lead, mark);
        case UpdateLead(user, seesAll, manages, lead, edit) => var _ := UpdateLead(user, seesAll, manages, lead, edit);
        case ConvertLead(lead) => var _ := ConvertLead(lead);
        case _ => PerformOnLists(step);
      }
    }

    /**
     Every run of these steps keeps all of it: claims, closed items and customers, and the counts of
     calls. `states` are the states between the steps.
     */
    method Run(steps: seq<Step>) returns (ghost states: seq<State>)
      requires Valid()
      modifies this
      ensures Valid() && Continued()
      ensures |states| == |steps| + 1 && states[0] == old(Tables()) && states[|steps|] == Tables()
      ensures forall k :: 0 <= k < |steps| ==> Stepped(steps[k], states[k], states[k + 1])
      ensures OneHolder(items, now) && OnePerList(items) && Counted(leads, calls)
      ensures forall i :: i in items ==>
                && items[i].lead in leads && items[i].list in lists && i in since
                && ItemOk(items[i], leads[items[i].lead], lists[items[i].list], calls, since[i])
    {
      hide Continues, OneHolder, OnePerList, Listed, ItemOk, Stepped;
      UnchangedContinues(Snapshot());
      states := [Tables()];
      for k := 0 to |steps|
        invariant Valid() && Continued()
        invariant |states| == k + 1 && states[0] == old(Tables()) && states[k] == Tables()
        invariant forall j :: 0 <= j < k ==> Stepped(steps[j], states[j], states[j + 1])
      {
        ghost var before := Snapshot();
        Perform(steps[k]);
        ContinuesOn(old(Snapshot()), before, Snapshot());
        states := states + [Tables()];
      }
    }

    /** The user holds this item of the list and it can be called. */
    ghost predicate HoldsCallable(at: map<nat, Item>, k: nat, list: nat, user: nat, seesAll: bool)
      requires k in at
      reads this
    {
      && at[k].list == list && at[k].lead in leads
      && Callable(at[k], leads[at[k].lead], now) && Visible(leads[at[k].lead], user, seesAll)
      && Live(at[k], now) && at[k].claim.value.user == user
    }
  }

  /** A call that is recorded: the lead is one this user sees and may call, and waits in the item named. */
  ghost predicate Accepted(step: Step, a: State)
    requires step.LogCall?
  {
    && step.lead in a.record.leads && Visible(a.record.leads[step.lead], step.user, step.seesAll)
    && !CallRefused(a.record.leads[step.lead], step.outcome, step.callbackAt)
    && (step.fromItem.Some? ==> WaitsIn(a.record.items, step.fromItem.value, step.lead))
  }

  ghost predicate Distinct(candidates: seq<nat>) {
    forall a, b :: 0 <= a < b < |candidates| ==> candidates[a] != candidates[b]
  }

  /** Of everything on offer to the user this goes first. */
  ghost predicate First(items: map<nat, Item>, leads: map<nat, Lead>, k: nat, list: nat, user: nat, seesAll: bool,
                        now: int)
  {
    && Candidate(items, leads, k, list, user, seesAll, now)
    && forall j :: j in items && j != k && Candidate(items, leads, j, list, user, seesAll, now)
         ==> WorkedBefore(items, k, j, user, now)
  }

  /** All of a desk's tables. */
  datatype State = State(now: int, lists: map<nat, CallList>, nextLead: nat, nextList: nat, record: Record)

  /** What one step makes of the tables. */
  ghost predicate Stepped(step: Step, a: State, b: State) {
    var r, r' := a.record, b.record;
    && (b.now == if step.Tick? then a.now + step.minutes else a.now)
    && (r'.calls == if step.LogCall? && Accepted(step, a) then r.calls + [Call(step.lead, step.outcome)] else r.calls)
    && (step.AddLeads? || step.ImportLeads? || r'.next == r.next)
    && (step.ImportLeads? || b.nextLead == a.nextLead)
    && match step
       case Tick(_) => r' == r && b.lists == a.lists
       case NewList(maxAttempts, retry) =>
         r' == r && b.lists == if 0 <= maxAttempts <= 20 && (retry == 0 || 5 <= retry <= 10080)
                               then a.lists[a.nextList := CallList(true, Default(maxAttempts, 5), Default(retry, 120))]
                               else a.lists
       case AddLeads(list, candidates, includeCalled) =>
         && r'.leads == r.leads && b.lists == a.lists
         && if Distinct(candidates) && list in a.lists && a.lists[list].active
            then Filled(r.items, r'.items, r.leads, a.lists, Members(candidates), list, includeCalled, a.now)
            else r'.items == r.items
       case ImportLeads(into, rows, allowDuplicates) =>
         && b.lists == a.lists
         && var created := NewLeads(rows, r.leads, allowDuplicates, |rows|);
         if into.None? || into.value in a.lists
         then Grown(r.leads, r'.leads, a.nextLead, created)
              && Grown(r.items, r'.items, r.next, NewItems(created, a.nextLead, into, a.now))
         else r'.leads == r.leads && r'.items == r.items
       case ClaimNext(user, seesAll, list) =>
         && r'.leads == r.leads && b.lists == a.lists
         && if list in a.lists && a.lists[list].active
               && exists k :: Candidate(r.items, r.leads, k, list, user, seesAll, a.now)
            then exists k :: First(r.items, r.leads, k, list, user, seesAll, a.now)
                             && r'.items == Claimed(r.items, k, user, a.now + CLAIM_MINUTES)
            else r'.items == r.items
       case ReleaseItem(user, manager, list, item, skip) =>
         && r'.leads == r.leads && b.lists == a.lists
         && r'.items == if && item in r.items && r.items[item].list == list
                           && ((manager && Open(r.items[item])) || ClaimedBy(r.items[item], user))
                        then r.items[item := Released(r.items[item], skip)]
                        else r.items
       case LogCall(user, seesAll, lead, fromItem, outcome, callbackAt) =>
         && b.lists == a.lists
         && if Accepted(step, a)
            then r'.leads == r.leads[lead := Owned(ApplyCall(r.leads[lead], outcome, callbackAt), user)]
                 && r'.items == AfterCall(r.items, a.lists, lead, outcome, a.now, callbackAt)
            else r'.leads == r.leads && r'.items == r.items
       case SetDoNotCall(lead, mark) =>
         && b.lists == a.lists
         && r'.leads == (if lead in r.leads then r.leads[lead := Marked(r.leads[lead], mark)] else r.leads)
         && r'.items == if lead in r.leads && mark then Closing(r.items, lead, Skipped) else r.items
       case UpdateLead(user, seesAll, manages, lead, edit) =>
         && b.lists == a.lists && r'.items == r.items
         && r'.leads == if Editable(r.leads, user, seesAll, manages, lead, edit)
                        then r.leads[lead := Edited(r.leads[lead], edit)] else r.leads
       case ConvertLead(lead) =>
         && b.lists == a.lists
         && if lead in r.leads && !r.leads[lead].status.Converted?
            then r'.leads == r.leads[lead := r.leads[lead].(status := Converted, nextAction := None)]
                 && r'.items == Closing(r.items, lead, Finished)
            else r'.leads == r.leads && r'.items == r.items
       case Archive(list, archived) =>
         && r'.leads == r.leads
         && if list in a.lists
            then b.lists == a.lists[list := a.lists[list].(active := !archived)] && r'.items == GivenUp(r.items, list)
            else b.lists == a.lists && r'.items == r.items
       case RemoveItems(list, numbers) =>
         && r'.leads == r.leads && b.lists == a.lists
         && r'.items == map i | i in r.items && !(r.items[i].list == list && i in numbers) :: r.items[i]
       case DeleteList(list) =>
         && r'.leads == r.leads && b.lists == a.lists - {list}
         && r'.items == map i | i in r.items && r.items[i].list != list :: r.items[i]
  }

  predicate ClaimedBy(i: Item, user: nat) {
    i.claim.Some? && i.claim.value.user == user
  }

  function Released(i: Item, skip: bool): Item {
    i.(claim := None, status := if skip then Skipped else i.status)
  }

  ghost predicate WaitsIn(items: map<nat, Item>, item: nat, lead: nat) {
    item in items && items[item].lead == lead && Open(items[item])
  }

  /** An unassigned lead becomes the caller's. */
  function Owned(l: Lead, user: nat): Lead {
    if l.owner.None? then l.(owner := Some(user)) else l
  }

  function Marked(l: Lead, mark: bool): Lead {
    l.(doNotCall := mark, nextAction := if mark then None else l.nextAction)
  }

  function Edited(l: Lead, edit: LeadEdit): Lead {
    l.(status := if l.status.Converted? then Converted else edit.status, owner := edit.owner,
    nextAction := edit.nextAction, phone := edit.phone)
  }

  /** checkOwnerChange: an owner stays, an unassigned lead may be taken, anything else is a manager's call. */
  ghost predicate MayAssign(user: nat, manages: bool, owner: Option<nat>, next: Option<nat>) {
    next == owner || manages || (owner.None? && next == Some(user))
  }

  /** Another lead has this number, which is long enough to be one. */
  ghost predicate HasDuplicate(leads: map<nat, Lead>, lead: nat, phone: string) {
    |phone| >= 7 && exists l :: l in leads && l != lead && leads[l].phone == phone
  }

  /** The edit is one the caller may make: never into CONVERTED, never onto a number in use unless asked for. */
  ghost predicate Editable(leads: map<nat, Lead>, user: nat, seesAll: bool, manages: bool, lead: nat, edit: LeadEdit) {
    && lead in leads && Visible(leads[lead], user, seesAll) && edit.wellFormed && edit.current
    && (edit.status.Converted? ==> leads[lead].status.Converted?)
    && MayAssign(user, manages, leads[lead].owner, edit.owner)
    && (edit.allowDuplicate || edit.phone == leads[lead].phone || !HasDuplicate(leads, lead, edit.phone))
  }

  function Default(value: int, default: int): int {
    if value == 0 then default else value
  }

  function GivenUp(items: map<nat, Item>, list: nat): map<nat, Item> {
    map i | i in items :: if items[i].list == list then items[i].(claim := None) else items[i]
  }

  /** A request not to be called closes every item by itself. */
  lemma NothingLeftToClose(items: map<nat, Item>, lists: map<nat, CallList>, lead: nat, outcome: Outcome, now: int,
                           callbackAt: Option<int>)
    requires outcome.DoNotCall? && forall i :: i in items ==> items[i].list in lists
    ensures var after := AfterCall(items, lists, lead, outcome, now, callbackAt);
            Closing(after, lead, Skipped) == after
  {
  }

  lemma KeysOfCall(items: map<nat, Item>, lists: map<nat, CallList>, lead: nat, outcome: Outcome, now: int,
                   callbackAt: Option<int>)
    ensures AfterCall(items, lists, lead, outcome, now, callbackAt).Keys == items.Keys
  {
    hide Called;
  }

  lemma UnchangedContinues(r: Record)
    ensures Continues(r, r)
  {
    assert r.calls[|r.calls|..] == [];
  }

  lemma LeadChangeContinues(r: Record, lead: nat, changed: Lead)
    requires lead in r.leads && changed.attempts == r.leads[lead].attempts
    requires r.leads[lead].status.Converted? ==> changed.status.Converted?
    ensures Continues(r, r.(leads := r.leads[lead := changed]))
  {
    UnchangedContinues(r);
  }

  lemma SameLimits(items: map<nat, Item>, leads: map<nat, Lead>, lists: map<nat, CallList>, now: int,
                   calls: seq<Call>, since: map<nat, nat>, list: nat, changed: CallList)
    requires Sane(items, leads, lists, now, calls, since)
    requires list in lists && changed.maxAttempts == lists[list].maxAttempts
    ensures Sane(items, leads, lists[list := changed], now, calls, since)
  {
    hide OneHolder, OnePerList;
  }

  lemma ListGone(items: map<nat, Item>, leads: map<nat, Lead>, lists: map<nat, CallList>, now: int,
                 calls: seq<Call>, since: map<nat, nat>, list: nat)
    requires Sane(items, leads, lists, now, calls, since)
    requires forall i :: i in items ==> items[i].list != list
    ensures Sane(items, leads, lists - {list}, now, calls, since)
  {
    hide OneHolder, OnePerList, ItemOk;
  }

  /**
   The old items are unchanged; the others are fresh, in this list, for candidates that may be
   queued; and every such candidate is on the list.
   */
  ghost predicate Filled(before: map<nat, Item>, items: map<nat, Item>, leads: map<nat, Lead>,
                         lists: map<nat, CallList>,
                         candidates: set<nat>, list: nat, includeCalled: bool, now: int)
  {
    && (forall i :: i in before ==> i in items && items[i] == before[i])
    && (forall i :: i in items && i !in before ==>
          && items[i].lead in candidates && items[i] == Item(list, items[i].lead, Pending, 0, now, None)
          && Addable(before, leads, lists, items[i].lead, list, includeCalled, now))
    && (forall lead :: lead in candidates && Addable(before, leads, lists, lead, list, includeCalled, now)
          ==> OnList(items, list, lead))
  }

  /** A lead that was just queued waits in no other list in use: nobody else is offered it. */
  lemma QueuedLeadsWaitOnce(before: map<nat, Item>, items: map<nat, Item>, leads: map<nat, Lead>,
                            lists: map<nat, CallList>, candidates: set<nat>, list: nat, includeCalled: bool, now: int,
                            i: nat, j: nat)
    requires Filled(before, items, leads, lists, candidates, list, includeCalled, now) && Listed(items, lists)
    requires i in items && i !in before && j in items && j != i && items[j].lead == items[i].lead
    ensures j in before && items[j].list != list
    ensures Open(items[j]) && items[j].list in lists ==> !lists[items[j].list].active
  {
    hide OnList;
    assert items[i].list == list;
  }

  lemma NothingFilled(items: map<nat, Item>, leads: map<nat, Lead>, lists: map<nat, CallList>, list: nat,
                      includeCalled: bool, now: int)
    ensures Filled(items, items, leads, lists, {}, list, includeCalled, now)
  {
  }

  lemma FilledMore(before: map<nat, Item>, items: map<nat, Item>, leads: map<nat, Lead>, lists: map<nat, CallList>,
                   done: set<nat>, lead: nat, list: nat, includeCalled: bool, now: int, number: nat)
    requires number !in items && lead !in done && Filled(before, items, leads, lists, done, list, includeCalled, now)
    requires Addable(items, leads, lists, lead, list, includeCalled, now)
    ensures Filled(before, items[number := Item(list, lead, Pending, 0, now, None)], leads, lists,
                   done + {lead}, list, includeCalled, now)
  {
    SameVerdict(before, items, leads, lists, done, lead, list, includeCalled, now);
    hide Addable, OnList;
    OnListGrows(items, number, list, lead, now);
  }

  lemma OnListGrows(items: map<nat, Item>, number: nat, list: nat, lead: nat, now: int)
    requires number !in items
    ensures var more := items[number := Item(list, lead, Pending, 0, now, None)];
            OnList(more, list, lead) && forall l :: OnList(items, list, l) ==> OnList(more, list, l)
  {
    var more := items[number := Item(list, lead, Pending, 0, now, None)];
    assert more[number].list == list && more[number].lead == lead;
    forall l | OnList(items, list, l) ensures OnList(more, list, l) {
      var i :| i in items && items[i].list == list && items[i].lead == l;
      assert more[i] == items[i];
    }
  }

  lemma FilledAsIs(before: map<nat, Item>, items: map<nat, Item>, leads: map<nat, Lead>, lists: map<nat, CallList>,
                   done: set<nat>, lead: nat, list: nat, includeCalled: bool, now: int)
    requires lead !in done && Filled(before, items, leads, lists, done, list, includeCalled, now)
    requires !Addable(items, leads, lists, lead, list, includeCalled, now)
    ensures Filled(before, items, leads, lists, done + {lead}, list, includeCalled, now)
  {
    SameVerdict(before, items, leads, lists, done, lead, list, includeCalled, now);
    hide Addable, OnList;
  }

  /** The verdict on a later candidate is still the one it had at the start. */
  lemma SameVerdict(before: map<nat, Item>, items: map<nat, Item>, leads: map<nat, Lead>, lists: map<nat, CallList>,
                    done: set<nat>, lead: nat, list: nat, includeCalled: bool, now: int)
    requires lead !in done && Filled(before, items, leads, lists, done, list, includeCalled, now)
    ensures Addable(items, leads, lists, lead, list, includeCalled, now)
            <==> Addable(before, leads, lists, lead, list, includeCalled, now)
  {
    assert forall i :: i in items && items[i].lead == lead ==> i in before;
  }

  ghost function Members(s: seq<nat>): set<nat> {
    set x | x in s
  }

  ghost predicate OnList(items: map<nat, Item>, list: nat, lead: nat) {
    exists i :: i in items && items[i].list == list && items[i].lead == lead
  }

  lemma AddableMeans(items: map<nat, Item>, leads: map<nat, Lead>, lists: map<nat, CallList>, lead: nat, list: nat,
                     includeCalled: bool, now: int)
    requires Addable(items, leads, lists, lead, list, includeCalled, now)
    ensures lead in leads && !Barred(leads[lead])
    ensures forall i :: i in items && items[i].list == list ==> items[i].lead != lead
  {
  }

  // ----- imports

  /** The number is unknown, or known only from leads that may be called and duplicates are allowed. */
  ghost predicate Welcome(leads: map<nat, Lead>, phone: string, allowDuplicates: bool) {
    phone == "" || forall l :: l in leads && leads[l].phone == phone ==> allowDuplicates && !leads[l].doNotCall
  }

  /** A usable row before the k-th has this number. */
  ghost predicate Met(rows: seq<NewLead>, k: nat, phone: string) {
    exists j :: 0 <= j < k && j < |rows| && !rows[j].status.Converted? && rows[j].phone == phone
  }

  /** The k-th row becomes a lead. */
  ghost predicate Taken(rows: seq<NewLead>, known: map<nat, Lead>, allowDuplicates: bool, k: nat)
    requires k < |rows|
  {
    && !rows[k].status.Converted? && (rows[k].phone == "" || !Met(rows, k, rows[k].phone))
    && Welcome(known, rows[k].phone, allowDuplicates)
  }

  lemma MetMore(rows: seq<NewLead>, k: nat)
    requires k < |rows|
    ensures forall p :: Met(rows, k + 1, p) <==> Met(rows, k, p) || (!rows[k].status.Converted? && rows[k].phone == p)
  {
    forall p | Met(rows, k, p) || (!rows[k].status.Converted? && rows[k].phone == p) ensures Met(rows, k + 1, p) {
      var j :| 0 <= j <= k && !rows[j].status.Converted? && rows[j].phone == p;
    }
  }

  lemma NothingImported(rows: seq<NewLead>, known: map<nat, Lead>, allowDuplicates: bool, first: nat,
                        into: Option<nat>, now: int)
    ensures NewLeads(rows, known, allowDuplicates, 0) == [] && NewItems([], first, into, now) == []
    ensures forall p :: !Met(rows, 0, p)
  {
  }

  function Created(row: NewLead): Lead {
    Lead(if row.doNotCall then Disqualified else row.status, row.doNotCall, 0, row.owner, None, row.phone)
  }

  /** The leads the first k rows make. */
  ghost function NewLeads(rows: seq<NewLead>, known: map<nat, Lead>, allowDuplicates: bool, k: nat): seq<Lead>
    requires k <= |rows|
  {
    if k == 0 then []
    else NewLeads(rows, known, allowDuplicates, k - 1)
         + if Taken(rows, known, allowDuplicates, k - 1) then [Created(rows[k - 1])] else []
  }

  lemma NewLeadsMore(rows: seq<NewLead>, known: map<nat, Lead>, allowDuplicates: bool, k: nat)
    requires k < |rows|
    ensures NewLeads(rows, known, allowDuplicates, k + 1)
            == if Taken(rows, known, allowDuplicates, k)
               then NewLeads(rows, known, allowDuplicates, k) + [Created(rows[k])]
               else NewLeads(rows, known, allowDuplicates, k)
  {
    hide Taken;
  }

  /** A new lead that may be called and is not out of the question. */
  ghost predicate Worth(l: Lead) {
    !l.doNotCall && !l.status.Disqualified?
  }

  /** The items the leads numbered from `first` on are queued under. */
  ghost function NewItems(created: seq<Lead>, first: nat, into: Option<nat>, now: int): seq<Item> {
    if created == [] || into.None? then []
    else
      var n := |created| - 1;
      NewItems(created[..n], first, into, now)
      + if Worth(created[n]) then [Item(into.value, first + n, Pending, 0, now, None)] else []
  }

  lemma NewItemsMore(created: seq<Lead>, l: Lead, first: nat, into: Option<nat>, now: int)
    ensures NewItems(created + [l], first, into, now)
            == NewItems(created, first, into, now)
               + if into.Some? && Worth(l) then [Item(into.value, first + |created|, Pending, 0, now, None)] else []
  {
    assert (created + [l])[..|created|] == created;
  }

  /** These items are one for each lead worth calling, in order. */
  ghost predicate OneEach(waiting: seq<Item>, created: seq<Lead>, first: nat, list: nat, now: int) {
    && (forall q :: 0 <= q < |waiting| ==> WaitsFor(waiting[q], created, first, list, now))
    && (forall q, r :: 0 <= q < r < |waiting| ==> waiting[q].lead < waiting[r].lead)
    && (forall j :: 0 <= j < |created| && Worth(created[j]) ==> Queued(waiting, first + j))
  }

  lemma OneMoreEach(waiting: seq<Item>, created: seq<Lead>, first: nat, list: nat, now: int, l: Lead)
    requires OneEach(waiting, created, first, list, now)
    ensures var more := if Worth(l) then waiting + [Item(list, first + |created|, Pending, 0, now, None)] else waiting;
            OneEach(more, created + [l], first, list, now)
  {
    hide Worth;
    var more := if Worth(l) then waiting + [Item(list, first + |created|, Pending, 0, now, None)] else waiting;
    var all := created + [l];
    forall q | 0 <= q < |waiting| ensures WaitsFor(waiting[q], all, first, list, now) {
      assert WaitsFor(waiting[q], created, first, list, now);
    }
    forall j | 0 <= j < |all| && Worth(all[j]) ensures Queued(more, first + j) {
      if j < |created| {
        assert Worth(created[j]);
        var q :| 0 <= q < |waiting| && waiting[q].lead == first + j;
        assert more[q] == waiting[q];
      } else {
        assert more[|waiting|].lead == first + j;
      }
    }
  }

  /** A created lead waits in the list exactly when it is worth calling, and then under one item. */
  lemma {:induction false} WorthyLeadsWait(created: seq<Lead>, first: nat, list: nat, now: int)
    ensures OneEach(NewItems(created, first, Some(list), now), created, first, list, now)
  {
    hide OneEach, Worth;
    if created == [] {
      NoneEach(first, list, now);
    } else {
      var n := |created| - 1;
      WorthyLeadsWait(created[..n], first, list, now);
      var before := NewItems(created[..n], first, Some(list), now);
      assert created == created[..n] + [created[n]] && before + [] == before;
      OneMoreEach(before, created[..n], first, list, now, created[n]);
    }
  }

  lemma NoneEach(first: nat, list: nat, now: int)
    ensures OneEach([], [], first, list, now)
  {
  }

  ghost predicate WaitsFor(i: Item, created: seq<Lead>, first: nat, list: nat, now: int) {
    && first <= i.lead < first + |created| && Worth(created[i.lead - first])
    && i == Item(list, i.lead, Pending, 0, now, None)
  }

  ghost predicate Queued(waiting: seq<Item>, lead: nat) {
    exists q :: 0 <= q < |waiting| && waiting[q].lead == lead
  }

  /** Exactly these were added, numbered from `next` on. */
  ghost predicate Grown<T>(before: map<nat, T>, after: map<nat, T>, next: nat, added: seq<T>) {
    && (forall l :: l in after <==> l in before || next <= l < next + |added|)
    && (forall l :: l in before ==> l < next && after[l] == before[l])
    && (forall j :: 0 <= j < |added| ==> after[next + j] == added[j])
  }

  lemma NothingGrown<T>(m: map<nat, T>, next: nat)
    requires forall l :: l in m ==> l < next
    ensures Grown(m, m, next, [])
  {
  }

  lemma GrownMore<T>(before: map<nat, T>, after: map<nat, T>, next: nat, added: seq<T>, one: T)
    requires Grown(before, after, next, added)
    ensures Grown(before, after[next + |added| := one], next, added + [one])
  {
  }

  lemma SameIsDropped(items: map<nat, Item>)
    ensures forall i :: i in items && (Open(items[i]) || items[i].claim.None?) ==> Dropped(items[i], items[i])
  {
  }

  lemma OneIsSooner(items: map<nat, Item>, j: nat, k: nat, user: nat, now: int)
    requires j in items && k in items && j != k && !Sooner(items, j, k, user, now)
    ensures Sooner(items, k, j, user, now)
  {
  }

  lemma NotBothSooner(items: map<nat, Item>, j: nat, k: nat, user: nat, now: int)
    requires j in items && k in items
    ensures !(Sooner(items, j, k, user, now) && Sooner(items, k, j, user, now))
  {
  }

  lemma InList(items: map<nat, Item>, leads: map<nat, Lead>, k: nat, list: nat, user: nat, seesAll: bool, now: int)
    requires Candidate(items, leads, k, list, user, seesAll, now)
    ensures k in items && items[k].list == list
  {
  }

  lemma WhatIsClaimed(items: map<nat, Item>, k: nat, user: nat, until: int)
    requires k in items
    ensures var after := Claimed(items, k, user, until);
            && after.Keys == items.Keys
            && forall i :: i in items ==>
                 after[i] == if i == k then items[i].(claim := Some(Claim(user, until)))
                             else if items[i].list == items[k].list && ClaimedBy(items[i], user)
                                  then items[i].(claim := None)
                             else items[i]
  {
  }

  /** What may be handed out, over the fields of the items and the lead. */
  lemma WhatIsOffered(items: map<nat, Item>, leads: map<nat, Lead>, k: nat, list: nat, user: nat, seesAll: bool,
                      now: int)
    requires Candidate(items, leads, k, list, user, seesAll, now)
    ensures items[k].lead in leads && items[k].list == list
    ensures (items[k].status == Pending || items[k].status == Callback) && items[k].availableAt <= now
    ensures var l := leads[items[k].lead];
            && !l.doNotCall && l.status != Converted && l.status != Disqualified
            && (seesAll || l.owner == None || l.owner == Some(user))
    ensures forall h, u, until :: h in items && items[h].lead == items[k].lead && until > now ==>
              (items[h].claim == Some(Claim(u, until)) ==> u == user)
  {
  }

  lemma HoldersOf(items: map<nat, Item>, leads: map<nat, Lead>, lists: map<nat, CallList>, now: int,
                  calls: seq<Call>, since: map<nat, nat>)
    requires Sane(items, leads, lists, now, calls, since)
    ensures OneHolder(items, now) && OnePerList(items)
    ensures forall i :: i in items && !Open(items[i]) ==> items[i].claim.None?
    ensures forall i :: i in items ==> items[i].lead in leads && items[i].list in lists
    ensures forall i :: i in items && Open(items[i]) ==> !Barred(leads[items[i].lead])
  {
  }
}
