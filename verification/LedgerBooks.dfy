/**
 The rows of the cash and bank ledger, what they add up to, and what every posted ledger obeys
 (internal/finance/account_core.go and the constraints in 000001_baseline.sql). Amounts are ticks
 of 0.0001, rates ticks of 0.0000000001; a row's id is its position.
 */
module LedgerBooks {

  import opened Wrappers

  type Id = string

  const RATE_ONE := 10_000_000_000

  datatype Direction = In | Out
  datatype Kind = OpeningBalance | ManualIn | ManualOut | TransferLeg | EmployeeAdvance | Payroll

  datatype Account = Account(currency: string, active: bool)

  datatype Movement = Movement(account: Id, kind: Kind, direction: Direction, currency: string, amount: int,
                               date: int, key: string, description: string, reference: string,
                               rate: int, base: int, reversalOf: Option<nat>)

  datatype Transfer = Transfer(from: Id, to: Id, outId: nat, inId: nat, amount: int, date: int,
                               key: string, description: string, reference: string, reversalOf: Option<nat>)

  /** ROUND(amount * rate, 4) of positive amounts. */
  function Convert(amount: int, rate: int): int {
    (amount * rate + RATE_ONE / 2) / RATE_ONE
  }

  /** The converted amount is the nearest tick. */
  lemma ConvertIsNearest(amount: int, rate: int)
    ensures -10_000_000_000 <= 2 * (Convert(amount, rate) * 10_000_000_000 - amount * rate) <= 10_000_000_000
  {
  }

  // ----- balances

  function Signed(m: Movement): int {
    if m.direction.In? then m.amount else -m.amount
  }

  function SignedBase(m: Movement): int {
    if m.direction.In? then m.base else -m.base
  }

  function Balance(ms: seq<Movement>, account: Id): int {
    if ms == [] then 0
    else
      var n := |ms| - 1;
      Balance(ms[..n], account) + if ms[n].account == account then Signed(ms[n]) else 0
  }

  function BaseBalance(ms: seq<Movement>, account: Id): int {
    if ms == [] then 0
    else
      var n := |ms| - 1;
      BaseBalance(ms[..n], account) + if ms[n].account == account then SignedBase(ms[n]) else 0
  }

  /** What went one way, in the account's currency and in the base currency. */
  ghost function Flow(ms: seq<Movement>, account: Id, way: Direction): (int, int) {
    if ms == [] then (0, 0)
    else
      var rest, m := Flow(ms[1..], account, way), ms[0];
      if m.account == account && m.direction == way then (rest.0 + m.amount, rest.1 + m.base) else rest
  }

  /** A balance is what came in less what went out. */
  lemma {:induction false} BalanceIsInLessOut(ms: seq<Movement>, account: Id)
    ensures Balance(ms, account) == Flow(ms, account, In).0 - Flow(ms, account, Out).0
    ensures BaseBalance(ms, account) == Flow(ms, account, In).1 - Flow(ms, account, Out).1
  {
    if ms != [] {
      var n := |ms| - 1;
      BalanceIsInLessOut(ms[..n], account);
      FlowAppend(ms[..n], ms[n], account, In);
      FlowAppend(ms[..n], ms[n], account, Out);
      assert ms[..n] + [ms[n]] == ms;
    }
  }

  lemma {:induction false} FlowAppend(ms: seq<Movement>, m: Movement, account: Id, way: Direction)
    ensures var before := Flow(ms, account, way);
            Flow(ms + [m], account, way)
            == if m.account == account && m.direction == way then (before.0 + m.amount, before.1 + m.base) else before
  {
    if ms == [] {
      assert ([] + [m])[1..] == [];
    } else {
      FlowAppend(ms[1..], m, account, way);
      assert (ms + [m])[1..] == ms[1..] + [m];
    }
  }

  lemma Posted(ms: seq<Movement>, m: Movement, account: Id)
    ensures Balance(ms + [m], account) == Balance(ms, account) + if m.account == account then Signed(m) else 0
    ensures BaseBalance(ms + [m], account)
            == BaseBalance(ms, account) + if m.account == account then SignedBase(m) else 0
  {
    assert (ms + [m])[..|ms|] == ms;
  }

  ghost function SumOfBalances(ms: seq<Movement>, accounts: set<Id>): int {
    if accounts == {} then 0
    else
      var a :| a in accounts;
      Balance(ms, a) + SumOfBalances(ms, accounts - {a})
  }

  ghost function SumOfBaseBalances(ms: seq<Movement>, accounts: set<Id>): int {
    if accounts == {} then 0
    else
      var a :| a in accounts;
      BaseBalance(ms, a) + SumOfBaseBalances(ms, accounts - {a})
  }

  lemma {:induction false} SumPosted(ms: seq<Movement>, m: Movement, accounts: set<Id>)
    ensures SumOfBalances(ms + [m], accounts)
            == SumOfBalances(ms, accounts) + if m.account in accounts then Signed(m) else 0
    ensures SumOfBaseBalances(ms + [m], accounts)
            == SumOfBaseBalances(ms, accounts) + if m.account in accounts then SignedBase(m) else 0
    decreases accounts
  {
    hide Balance, BaseBalance;
    if accounts != {} {
      forall a | a in accounts
        ensures Balance(ms + [m], a) == Balance(ms, a) + if m.account == a then Signed(m) else 0
        ensures BaseBalance(ms + [m], a) == BaseBalance(ms, a) + if m.account == a then SignedBase(m) else 0
        ensures SumOfBalances(ms + [m], accounts - {a})
                == SumOfBalances(ms, accounts - {a}) + if m.account in accounts - {a} then Signed(m) else 0
        ensures SumOfBaseBalances(ms + [m], accounts - {a})
                == SumOfBaseBalances(ms, accounts - {a}) + if m.account in accounts - {a} then SignedBase(m) else 0
      {
        Posted(ms, m, a);
        SumPosted(ms, m, accounts - {a});
      }
    }
  }

  /** Two legs of one transfer: same amount and rate, opposite directions. */
  ghost predicate Legs(o: Movement, i: Movement) {
    && o.direction.Out? && i.direction.In? && o.amount == i.amount && o.rate == i.rate && o.base == i.base
    && o.account != i.account && o.currency == i.currency
  }

  /** A transfer moves money and makes none, in the account currency and in the base currency. */
  lemma TransferConserves(ms: seq<Movement>, o: Movement, i: Movement, accounts: set<Id>)
    requires Legs(o, i) && o.account in accounts && i.account in accounts
    ensures SumOfBalances(ms + [o, i], accounts) == SumOfBalances(ms, accounts)
    ensures SumOfBaseBalances(ms + [o, i], accounts) == SumOfBaseBalances(ms, accounts)
  {
    assert ms + [o, i] == (ms + [o]) + [i];
    SumPosted(ms, o, accounts);
    SumPosted(ms + [o], i, accounts);
  }

  // ----- what a posted ledger obeys

  ghost predicate UniqueKeys(ms: seq<Movement>) {
    forall i, j :: 0 <= i < j < |ms| ==> ms[i].key != ms[j].key
  }

  /** An opening balance is the first movement of its account. */
  ghost predicate OpeningsFirst(ms: seq<Movement>) {
    forall i, j :: 0 <= i < j < |ms| && ms[i].account == ms[j].account ==> !ms[j].kind.OpeningBalance?
  }

  /** The checks of the table, and the text a manual row needs. */
  ghost predicate Sound(m: Movement) {
    && m.amount > 0 && m.rate > 0 && m.base > 0 && m.base == Convert(m.amount, m.rate)
    && m.key != "" && (m.kind.ManualIn? || m.kind.ManualOut? ==> m.description != "")
    && (m.kind.ManualIn? ==> m.direction.In?) && (m.kind.ManualOut? ==> m.direction.Out?)
  }

  ghost predicate AllSound(ms: seq<Movement>) {
    forall i :: 0 <= i < |ms| ==> Sound(ms[i])
  }

  /** A movement is reversed by at most one other (unique reversal_of_id). */
  ghost predicate ReversedOnce(ms: seq<Movement>) {
    forall i, j :: 0 <= i < j < |ms| && ms[i].reversalOf.Some? ==> ms[i].reversalOf != ms[j].reversalOf
  }

  ghost predicate MovementsOk(ms: seq<Movement>) {
    UniqueKeys(ms) && OpeningsFirst(ms) && AllSound(ms) && ReversedOnce(ms)
  }

  ghost predicate PairOk(ms: seq<Movement>, t: Transfer) {
    && t.outId < |ms| && t.inId < |ms| && t.from != t.to
    && var o, i := ms[t.outId], ms[t.inId];
    && Legs(o, i) && o.account == t.from && i.account == t.to && o.amount == t.amount
    && o.kind.TransferLeg? && i.kind.TransferLeg? && SameTexts(o, t) && SameTexts(i, t)
    && t.key != "" && t.description != ""
  }

  /** A leg carries the date and the texts of its transfer, and reverses no row itself. */
  ghost predicate SameTexts(m: Movement, t: Transfer) {
    m.date == t.date && m.description == t.description && m.reference == t.reference && m.reversalOf.None?
  }

  /** The reversal sends the same amount back, at the rate of the original. */
  ghost predicate Undoes(ms: seq<Movement>, r: Transfer, t: Transfer)
    requires PairOk(ms, r) && PairOk(ms, t)
  {
    && t.reversalOf.None? && r.from == t.to && r.to == t.from && r.amount == t.amount && r.date >= t.date
    && r.reference == t.reference && ms[r.outId].rate == ms[t.outId].rate
  }

  ghost predicate TransfersOk(ms: seq<Movement>, ts: seq<Transfer>) {
    && (forall i :: 0 <= i < |ts| ==> PairOk(ms, ts[i]))
    && (forall i, j :: 0 <= i < j < |ts| ==> ts[i].key != ts[j].key)
    && (forall i :: 0 <= i < |ts| && ts[i].reversalOf.Some? ==>
          ts[i].reversalOf.value < i && Undoes(ms, ts[i], ts[ts[i].reversalOf.value]))
    && (forall i, j :: 0 <= i < j < |ts| && ts[i].reversalOf.Some? ==> ts[i].reversalOf != ts[j].reversalOf)
  }

  ghost predicate Solvent(ms: seq<Movement>) {
    forall account :: Balance(ms, account) >= 0
  }

  // ----- what one transfer contributes to an account

  function Effect(ms: seq<Movement>, t: Transfer, account: Id): (int, int)
    requires t.outId < |ms| && t.inId < |ms|
  {
    var o, i := ms[t.outId], ms[t.inId];
    ((if o.account == account then Signed(o) else 0) + (if i.account == account then Signed(i) else 0),
     (if o.account == account then SignedBase(o) else 0) + (if i.account == account then SignedBase(i) else 0))
  }

  /** A reversed transfer leaves nothing behind in any account, in either currency. */
  lemma ReversalLeavesNothing(ms: seq<Movement>, ts: seq<Transfer>, i: nat, account: Id)
    requires AllSound(ms) && TransfersOk(ms, ts) && i < |ts| && ts[i].reversalOf.Some?
    ensures var t := ts[i].reversalOf.value;
            && t < i && ts[t].reversalOf.None?
            && var before, after := Effect(ms, ts[t], account), Effect(ms, ts[i], account);
            before.0 + after.0 == 0 && before.1 + after.1 == 0
  {
    hide Convert;
    assert Undoes(ms, ts[i], ts[ts[i].reversalOf.value]);
  }

  /** No transfer has two reversals, and no reversal has one. */
  lemma ReversalsAreFinal(ms: seq<Movement>, ts: seq<Transfer>, i: nat, j: nat)
    requires TransfersOk(ms, ts) && i < |ts| && j < |ts| && ts[j].reversalOf == Some(i)
    ensures ts[i].reversalOf.None?
    ensures forall k :: 0 <= k < |ts| && ts[k].reversalOf == Some(i) ==> k == j
  {
    assert Undoes(ms, ts[j], ts[i]);
  }

  /** An account has at most one opening balance. */
  lemma OneOpening(ms: seq<Movement>, i: nat, j: nat)
    requires OpeningsFirst(ms) && i < |ms| && j < |ms| && ms[i].account == ms[j].account
    requires ms[i].kind.OpeningBalance? && ms[j].kind.OpeningBalance?
    ensures i == j && forall k :: 0 <= k < i ==> ms[k].account != ms[i].account
  {
  }

  // ----- posting one row

  predicate HasKey(ms: seq<Movement>, key: string) {
    exists i :: 0 <= i < |ms| && ms[i].key == key
  }

  predicate HasMovements(ms: seq<Movement>, account: Id) {
    exists i :: 0 <= i < |ms| && ms[i].account == account
  }

  predicate Reversed(ms: seq<Movement>, id: nat) {
    exists i :: 0 <= i < |ms| && ms[i].reversalOf == Some(id)
  }

  /** What lets a row into the table. */
  ghost predicate Fits(ms: seq<Movement>, m: Movement) {
    && Sound(m) && !HasKey(ms, m.key)
    && (m.kind.OpeningBalance? ==> !HasMovements(ms, m.account))
    && (m.reversalOf.Some? ==> !Reversed(ms, m.reversalOf.value))
  }

  lemma PostedRowKeepsOrder(ms: seq<Movement>, m: Movement)
    requires MovementsOk(ms) && Fits(ms, m)
    ensures MovementsOk(ms + [m])
  {
    hide Sound;
    var more := ms + [m];
    forall i, j | 0 <= i < j < |more|
      ensures more[i].key != more[j].key
      ensures more[i].account == more[j].account ==> !more[j].kind.OpeningBalance?
      ensures more[i].reversalOf.Some? ==> more[i].reversalOf != more[j].reversalOf
    {
      assert more[i] == ms[i];
    }
  }

  lemma TransfersStay(ms: seq<Movement>, m: Movement, ts: seq<Transfer>)
    requires TransfersOk(ms, ts)
    ensures TransfersOk(ms + [m], ts)
  {
    hide Legs;
    forall i | 0 <= i < |ts| ensures PairOk(ms + [m], ts[i]) {
      assert PairOk(ms, ts[i]);
    }
    forall i | 0 <= i < |ts| && ts[i].reversalOf.Some?
      ensures ts[i].reversalOf.value < i && Undoes(ms + [m], ts[i], ts[ts[i].reversalOf.value])
    {
      assert Undoes(ms, ts[i], ts[ts[i].reversalOf.value]);
    }
  }

  lemma SolventAfter(ms: seq<Movement>, m: Movement)
    requires Solvent(ms) && m.amount > 0
    requires m.direction.In? || Balance(ms, m.account) >= m.amount
    ensures Solvent(ms + [m])
  {
    hide Balance;
    forall account ensures Balance(ms + [m], account) >= 0 {
      assert Balance(ms, account) >= 0;
      Posted(ms, m, account);
    }
  }

  ghost predicate NewTransferOk(ms: seq<Movement>, ts: seq<Transfer>, t: Transfer) {
    && PairOk(ms, t)
    && (forall i :: 0 <= i < |ts| ==> ts[i].key != t.key)
    && (t.reversalOf.Some? ==>
          && t.reversalOf.value < |ts|
          && PairOk(ms, ts[t.reversalOf.value])
          && Undoes(ms, t, ts[t.reversalOf.value])
          && forall i :: 0 <= i < |ts| ==> ts[i].reversalOf != t.reversalOf)
  }

  lemma TransferAdded(ms: seq<Movement>, ts: seq<Transfer>, t: Transfer)
    requires TransfersOk(ms, ts) && NewTransferOk(ms, ts, t)
    ensures TransfersOk(ms, ts + [t])
  {
    hide PairOk, Undoes;
    var more := ts + [t];
    forall i, j | 0 <= i < j < |more|
      ensures more[i].key != more[j].key
      ensures more[i].reversalOf.Some? ==> more[i].reversalOf != more[j].reversalOf
    {
      assert more[i] == ts[i];
    }
    forall i | 0 <= i < |more| && more[i].reversalOf.Some?
      ensures more[i].reversalOf.value < i && Undoes(ms, more[i], more[more[i].reversalOf.value])
    {
      if i < |ts| {
        assert ts[i].reversalOf.value < i && Undoes(ms, ts[i], ts[ts[i].reversalOf.value]);
      }
    }
  }
}
