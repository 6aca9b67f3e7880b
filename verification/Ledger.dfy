/** The posting commands of the cash and bank ledger (internal/finance/account_core.go). */
module Ledger {

  import opened LedgerBooks
  import opened Wrappers

  const REVERSAL_PREFIX := "Ters kayıt: "
  const TRANSFER_TEXT := "Hesaplar arası transfer"
  const LIRA := "TRY"

  datatype Policy = Allow | Warn | Block

  datatype Refusal =
    | Invalid | Conflict | Forbidden | Inactive | CurrencyMismatch | OpeningExists
    | NotEnough | RateRequired | AlreadyReversed | Constraint

  datatype Outcome = Done(id: nat) | Refused(why: Refusal)

  /**
   What the call meets: whether its date is allowed and its period open, whether the caller may
   override the balance rule and gave a reason, and the rate stored for the date.
   */
  datatype Surroundings = Surroundings(dateOk: bool, mayOverride: bool, rate: Option<int>)

  datatype MovementInput = MovementInput(account: Id, opening: bool, direction: Direction, amount: int,
                                         date: int, key: string, description: string, reference: string)

  /** An employee advance or a payroll payment posted from the HR side. */
  datatype StaffInput = StaffInput(account: Id, payroll: bool, direction: Direction, amount: int,
                                   date: int, key: string, description: string, reference: string,
                                   reversalOf: Option<nat>)

  datatype TransferInput = TransferInput(from: Id, to: Id, amount: int, date: int,
                                         key: string, description: string, reference: string)

  datatype Command =
    | OpenAccount(id: Id, currency: string)
    | SetActive(id: Id, active: bool)
    | Post(movement: MovementInput, at: Surroundings)
    | PostStaff(staff: StaffInput, at: Surroundings)
    | PostTransfer(transfer: TransferInput, at: Surroundings)
    | ReverseTransfer(original: nat, key: string, reason: string, date: int, at: Surroundings)

  // ----- rows and rules as values

  function KindOf(input: MovementInput): Kind {
    if input.opening then OpeningBalance else if input.direction.Out? then ManualOut else ManualIn
  }

  function Row(input: MovementInput, currency: string, rate: int): Movement {
    Movement(input.account, KindOf(input), input.direction, currency, input.amount, input.date, input.key,
             input.description, input.reference, rate, Convert(input.amount, rate), None)
  }

  function StaffRow(input: StaffInput, rate: int): Movement {
    Movement(input.account, if input.payroll then Payroll else EmployeeAdvance, input.direction, LIRA,
             input.amount, input.date, input.key, input.description, input.reference, rate,
             Convert(input.amount, rate), input.reversalOf)
  }

  /** The row tells the whole payload. */
  ghost predicate Records(m: Movement, input: StaffInput) {
    input == StaffInput(m.account, m.kind.Payroll?, m.direction, m.amount, m.date, m.key, m.description, m.reference,
                        m.reversalOf)
    && (m.kind.Payroll? || m.kind.EmployeeAdvance?) && m.currency == LIRA
  }

  function OutKey(key: string): string { "transfer:" + key + ":out" }
  function InKey(key: string): string { "transfer:" + key + ":in" }

  function OutLeg(input: TransferInput, currency: string, rate: int): Movement {
    Movement(input.from, TransferLeg, Out, currency, input.amount, input.date, OutKey(input.key),
             input.description, input.reference, rate, Convert(input.amount, rate), None)
  }

  function InLeg(input: TransferInput, currency: string, rate: int): Movement {
    Movement(input.to, TransferLeg, In, currency, input.amount, input.date, InKey(input.key),
             input.description, input.reference, rate, Convert(input.amount, rate), None)
  }

  function TransferRow(input: TransferInput, outId: nat, reversalOf: Option<nat>): Transfer {
    Transfer(input.from, input.to, outId, outId + 1, input.amount, input.date, input.key,
             input.description, input.reference, reversalOf)
  }

  /** The comparison a repeated key has to pass. */
  predicate SameMovement(m: Movement, input: MovementInput) {
    && m.account == input.account && m.kind == KindOf(input) && m.direction == input.direction
    && m.amount == input.amount && m.date == input.date
    && m.description == input.description && m.reference == input.reference
  }

  /**
   What that comparison decides: of two payloads under one key the second passes against the first's
   record exactly when nothing in it differs.
   */
  lemma ComparesPayload(m: Movement, first: MovementInput, again: MovementInput)
    requires SameMovement(m, first)
    ensures SameMovement(m, again) <==> again == first.(key := again.key)
  {
  }

  lemma RowComparesPayload(first: MovementInput, currency: string, rate: int, again: MovementInput)
    ensures SameMovement(Row(first, currency, rate), again) <==> again == first.(key := again.key)
  {
    hide Convert;
  }

  predicate SameTransfer(t: Transfer, input: TransferInput) {
    && t.from == input.from && t.to == input.to && t.amount == input.amount
    && t.description == input.description && t.reference == input.reference && t.date == input.date
  }

  function Described(input: TransferInput): TransferInput {
    if input.description == "" then input.(description := TRANSFER_TEXT) else input
  }

  /** The two transfers differ in nothing but, perhaps, that one spells out the text the other leaves to the default. */
  ghost predicate SameRequest(first: TransferInput, again: TransferInput) {
    && again == first.(description := again.description, key := again.key)
    && (again.description == first.description
        || (first.description == "" && again.description == TRANSFER_TEXT)
        || (first.description == TRANSFER_TEXT && again.description == ""))
  }

  lemma ComparesTransfers(t: Transfer, first: TransferInput, again: TransferInput)
    requires SameTransfer(t, Described(first))
    ensures SameTransfer(t, Described(again)) <==> SameRequest(first, again)
  {
    hide TRANSFER_TEXT;
  }

  lemma TransferComparesPayload(first: TransferInput, outId: nat, reversalOf: Option<nat>, again: TransferInput)
    ensures SameTransfer(TransferRow(Described(first), outId, reversalOf), Described(again))
            <==> SameRequest(first, again)
  {
    hide TRANSFER_TEXT;
  }

  ghost predicate MayTakeOut(policy: Policy, ms: seq<Movement>, account: Id, amount: int, mayOverride: bool) {
    Balance(ms, account) - amount >= 0 || policy.Allow? || (policy.Warn? && mayOverride)
  }

  predicate UsableRate(rate: Option<int>, amount: int) {
    rate.Some? && rate.value > 0 && Convert(amount, rate.value) != 0
  }

  ghost predicate WellFormed(input: MovementInput) {
    input.amount > 0 && input.key != "" && (input.opening || input.description != "")
  }

  /** When a movement under a new key is let in. */
  ghost predicate Postable(policy: Policy, accounts: map<Id, Account>, ms: seq<Movement>, input: MovementInput,
                     at: Surroundings) {
    && at.dateOk && input.account in accounts && accounts[input.account].active
    && (input.opening ==> !HasMovements(ms, input.account))
    && (input.direction.Out? ==> MayTakeOut(policy, ms, input.account, input.amount, at.mayOverride))
    && UsableRate(at.rate, input.amount)
  }

  ghost predicate StaffPostable(policy: Policy, accounts: map<Id, Account>, ms: seq<Movement>, input: StaffInput,
                          at: Surroundings) {
    && input.amount > 0 && input.amount % 100 == 0 && input.key != ""
    && at.dateOk && input.account in accounts && accounts[input.account] == Account(LIRA, true)
    && (input.direction.Out? ==> MayTakeOut(policy, ms, input.account, input.amount, at.mayOverride))
    && UsableRate(at.rate, input.amount)
    && !HasKey(ms, input.key)
    && (input.reversalOf.Some? ==> input.reversalOf.value < |ms| && !Reversed(ms, input.reversalOf.value))
  }

  ghost predicate Transferable(policy: Policy, accounts: map<Id, Account>, ms: seq<Movement>, input: TransferInput,
                         dateOk: bool, mayOverride: bool, rate: Option<int>)
  {
    && dateOk && input.from in accounts && input.to in accounts
    && accounts[input.from].active && accounts[input.to].active
    && accounts[input.from].currency == accounts[input.to].currency
    && MayTakeOut(policy, ms, input.from, input.amount, mayOverride)
    && UsableRate(rate, input.amount)
    && !HasKey(ms, OutKey(input.key)) && !HasKey(ms, InKey(input.key))
  }

  predicate HasTransferKey(ts: seq<Transfer>, key: string) {
    exists i :: 0 <= i < |ts| && ts[i].key == key
  }

  predicate TransferReversed(ts: seq<Transfer>, id: nat) {
    exists i :: 0 <= i < |ts| && ts[i].reversalOf == Some(id)
  }

  /** The transfer that sends the money of another one back. */
  function Back(t: Transfer, key: string, reason: string, date: int): TransferInput {
    TransferInput(t.to, t.from, t.amount, date, key, REVERSAL_PREFIX + reason, t.reference)
  }

  lemma LegKeysDiffer(key: string)
    ensures OutKey(key) != InKey(key) && OutKey(key) != "" && InKey(key) != ""
  {
    assert |OutKey(key)| == |InKey(key)| + 1;
  }

  lemma ConvertedIsPositive(amount: int, rate: int)
    requires amount > 0 && rate > 0 && Convert(amount, rate) != 0
    ensures Convert(amount, rate) > 0
  {
    assert amount * rate > 0;
  }

  /** Under BLOCK nobody, and under WARN nobody without the right to override, takes out more than there is. */
  ghost predicate NoOverdraft(policy: Policy, mayOverride: bool) {
    policy.Block? || (policy.Warn? && !mayOverride)
  }

  /** No command of the run overrides the rule. */
  ghost predicate Cautious(commands: seq<Command>, policy: Policy) {
    forall k :: 0 <= k < |commands| ==> NoOverdraft(policy, MayOverride(commands[k]))
  }

  ghost predicate MayOverride(c: Command) {
    match c
    case Post(_, at) => at.mayOverride
    case PostStaff(_, at) => at.mayOverride
    case PostTransfer(_, at) => at.mayOverride
    case _ => false
  }

  ghost predicate CurrenciesOk(accounts: map<Id, Account>, ms: seq<Movement>) {
    forall i :: 0 <= i < |ms| ==> ms[i].account in accounts && ms[i].currency == accounts[ms[i].account].currency
  }

  /** What is in the three tables. */
  datatype Books = Books(accounts: map<Id, Account>, movements: seq<Movement>, transfers: seq<Transfer>)

  /** What sends back an earlier transfer, for the first time. */
  ghost predicate SendsBack(ts: seq<Transfer>, input: TransferInput, id: nat) {
    && id < |ts| && !TransferReversed(ts, id)
    && var t := ts[id];
    && t.reversalOf.None? && t.from == input.to && t.to == input.from && t.amount == input.amount
    && input.date >= t.date && input.reference == t.reference
  }

  /** A reversal takes the rate of the original, anything else the stored one. */
  function RateFor(ms: seq<Movement>, ts: seq<Transfer>, reversalOf: Option<nat>, stored: Option<int>): Option<int> {
    if reversalOf.Some? && reversalOf.value < |ts| && ts[reversalOf.value].outId < |ms|
    then Some(ms[ts[reversalOf.value].outId].rate) else stored
  }

  /** The books with the three rows of this transfer. */
  ghost function Moved(b: Books, input: TransferInput, rate: int, reversalOf: Option<nat>): Books
    requires input.from in b.accounts
  {
    var currency := b.accounts[input.from].currency;
    Books(b.accounts, b.movements + [OutLeg(input, currency, rate), InLeg(input, currency, rate)],
          b.transfers + [TransferRow(input, |b.movements|, reversalOf)])
  }

  /** What one command makes of the books. */
  ghost function After(policy: Policy, b: Books, c: Command): Books {
    match c
    case OpenAccount(id, currency) =>
      if id in b.accounts then b else b.(accounts := b.accounts[id := Account(currency, true)])
    case SetActive(id, active) =>
      if id in b.accounts then b.(accounts := b.accounts[id := b.accounts[id].(active := active)]) else b
    case Post(input, at) =>
      if WellFormed(input) && !HasKey(b.movements, input.key)
         && Postable(policy, b.accounts, b.movements, input, at)
      then b.(movements := b.movements + [Row(input, b.accounts[input.account].currency, at.rate.value)])
      else b
    case PostStaff(input, at) =>
      if StaffPostable(policy, b.accounts, b.movements, input, at)
      then b.(movements := b.movements + [StaffRow(input, at.rate.value)])
      else b
    case PostTransfer(given, at) =>
      var input := Described(given);
      if given.from != given.to && given.key != "" && given.amount > 0 && !HasTransferKey(b.transfers, given.key)
         && Transferable(policy, b.accounts, b.movements, input, at.dateOk, at.mayOverride, at.rate)
      then Moved(b, input, at.rate.value, None)
      else b
    case ReverseTransfer(id, key, reason, date, at) =>
      if reason == "" || key == "" || id >= |b.transfers| || HasTransferKey(b.transfers, key) then b
      else
        var input := Back(b.transfers[id], key, reason, date);
        var rate := RateFor(b.movements, b.transfers, Some(id), at.rate);
        if SendsBack(b.transfers, input, id)
           && Transferable(policy, b.accounts, b.movements, input, at.dateOk, false, rate)
        then Moved(b, input, rate.value, Some(id))
        else b
  }

  ghost function AfterAll(policy: Policy, b: Books, commands: seq<Command>): Books {
    if commands == [] then b
    else After(policy, AfterAll(policy, b, commands[..|commands| - 1]), commands[|commands| - 1])
  }

  class Ledger {
    const policy: Policy
    var accounts: map<Id, Account>
    var movements: seq<Movement>
    var transfers: seq<Transfer>

    ghost predicate Valid()
      reads this
    {
      && MovementsOk(movements) && TransfersOk(movements, transfers) && CurrenciesOk(accounts, movements)
      && (policy.Block? ==> Solvent(movements))
    }

    ghost function Now(): Books
      reads this
    {
      Books(accounts, movements, transfers)
    }

    constructor (policy: Policy)
      ensures Valid() && this.policy == policy && movements == [] && transfers == [] && accounts == map[]
    {
      this.policy := policy;
      accounts, movements, transfers := map[], [], [];
    }

    /** One row enters the table. */
    method Insert(m: Movement)
      requires Valid() && Fits(movements, m)
      requires m.account in accounts && accounts[m.account].currency == m.currency
      requires policy.Block? && m.direction.Out? ==> Balance(movements, m.account) >= m.amount
      modifies this`movements
      ensures Valid() && movements == old(movements) + [m]
      ensures old(Solvent(movements)) && (m.direction.Out? ==> old(Balance(movements, m.account)) >= m.amount) ==>
                Solvent(movements)
    {
      hide MovementsOk, TransfersOk, Solvent, Balance, HasKey, HasMovements, Reversed;
      PostedRowKeepsOrder(movements, m);
      TransfersStay(movements, m, transfers);
      FittingIsPositive(movements, m);
      if Solvent(movements) && (m.direction.Out? ==> Balance(movements, m.account) >= m.amount) {
        SolventAfter(movements, m);
      }
      movements := movements + [m];
    }

    /** enforceNegativeBalanceTx. */
    method EnforceNegativeBalance(account: Id, amount: int, mayOverride: bool) returns (ok: bool)
      ensures ok <==> MayTakeOut(policy, movements, account, amount, mayOverride)
      ensures ok && NoOverdraft(policy, mayOverride) ==> Balance(movements, account) >= amount
    {
      hide Balance;
      var remaining := Balance(movements, account) - amount;
      if remaining >= 0 || policy.Allow? {
        return true;
      }
      if policy.Block? {
        return false;
      }
      return mayOverride;
    }

    /** postAccountMovement, behind PostOpeningBalance and PostManualAccountMovement. */
    method PostMovement(input: MovementInput, at: Surroundings) returns (r: Outcome)
      requires Valid()
      modifies this`movements
      ensures Valid()
      ensures !WellFormed(input) ==> r.Refused? && movements == old(movements)
      ensures WellFormed(input) && old(HasKey(movements, input.key)) ==>
                && movements == old(movements)
                && exists i :: 0 <= i < |movements| && movements[i].key == input.key
                               && r == if SameMovement(movements[i], input) then Done(i) else Refused(Conflict)
      ensures WellFormed(input) && !old(HasKey(movements, input.key)) ==>
                && (r.Done? <==> old(Postable(policy, accounts, movements, input, at)))
                && (r.Done? ==>
                      && r.id == old(|movements|)
                      && movements == old(movements) + [Row(input, accounts[input.account].currency, at.rate.value)])
                && (r.Refused? ==> movements == old(movements))
      ensures r.Done? ==> r.id < |movements| && movements[r.id].key == input.key && SameMovement(movements[r.id], input)
      // a new row keeps the rate found for its date; only a withdrawal that is not covered needs more than that
      ensures r.Done? && r.id == old(|movements|) ==>
                at.rate == Some(movements[r.id].rate) && movements[r.id].reversalOf.None?
      ensures r == Refused(NotEnough) ==>
                && input.direction.Out? && old(Balance(movements, input.account)) < input.amount
                && (policy.Block? || (policy.Warn? && !at.mayOverride))
      ensures NoOverdraft(policy, at.mayOverride) && old(Solvent(movements)) ==> Solvent(movements)
    {
      hide MovementsOk, TransfersOk, Solvent, Balance, CurrenciesOk, Convert;
      if input.amount <= 0 || input.key == "" || (!input.opening && input.description == "") {
        return Refused(Invalid);
      }
      if i :| 0 <= i < |movements| && movements[i].key == input.key {
        return if SameMovement(movements[i], input) then Done(i) else Refused(Conflict);
      }
      if !at.dateOk {
        return Refused(Invalid);
      }
      if input.account !in accounts {
        return Refused(Forbidden);
      }
      if !accounts[input.account].active {
        return Refused(Inactive);
      }
      if input.opening && HasMovements(movements, input.account) {
        return Refused(OpeningExists);
      }
      if input.direction.Out? {
        var covered := EnforceNegativeBalance(input.account, input.amount, at.mayOverride);
        if !covered {
          return Refused(NotEnough);
        }
      }
      if at.rate.None? || at.rate.value <= 0 {
        return Refused(RateRequired);
      }
      if Convert(input.amount, at.rate.value) == 0 {
        return Refused(Invalid);
      }
      ConvertedIsPositive(input.amount, at.rate.value);
      Insert(Row(input, accounts[input.account].currency, at.rate.value));
      return Done(|movements| - 1);
    }

    /** PostEmployeeAdvanceMovementTx and PostPayrollPaymentMovementTx. */
    method PostStaffMovement(input: StaffInput, at: Surroundings) returns (r: Outcome)
      requires Valid()
      modifies this`movements
      ensures Valid()
      ensures r.Done? <==> old(StaffPostable(policy, accounts, movements, input, at))
      ensures r.Done? ==> r.id == old(|movements|) && movements == old(movements) + [StaffRow(input, at.rate.value)]
      ensures r.Refused? ==> movements == old(movements)
      ensures r.Done? ==> Records(movements[r.id], input) && at.rate == Some(movements[r.id].rate)
      ensures r == Refused(NotEnough) ==>
                && input.direction.Out? && old(Balance(movements, input.account)) < input.amount
                && (policy.Block? || (policy.Warn? && !at.mayOverride))
      ensures NoOverdraft(policy, at.mayOverride) && old(Solvent(movements)) ==> Solvent(movements)
    {
      hide MovementsOk, TransfersOk, Solvent, Balance, CurrenciesOk, Convert, HasKey, Reversed;
      if input.amount <= 0 || input.amount % 100 != 0 || input.key == "" || !at.dateOk {
        return Refused(Invalid);
      }
      if input.account !in accounts {
        return Refused(Forbidden);
      }
      if !accounts[input.account].active {
        return Refused(Inactive);
      }
      if accounts[input.account].currency != LIRA {
        return Refused(CurrencyMismatch);
      }
      if input.direction.Out? {
        var covered := EnforceNegativeBalance(input.account, input.amount, at.mayOverride);
        if !covered {
          return Refused(NotEnough);
        }
      }
      if !UsableRate(at.rate, input.amount) {
        return Refused(RateRequired);
      }
      if HasKey(movements, input.key)
         || (input.reversalOf.Some?
             && (input.reversalOf.value >= |movements| || Reversed(movements, input.reversalOf.value))) {
        return Refused(Constraint);
      }
      ConvertedIsPositive(input.amount, at.rate.value);
      Insert(StaffRow(input, at.rate.value));
      return Done(|movements| - 1);
    }

    /**
     postFinanceTransfer after its key was found new: two legs and the transfer, or nothing. A
     reversal takes the rate of the original's outgoing leg, not the stored one.
     */
    method AddTransfer(input: TransferInput, reversalOf: Option<nat>, at: Surroundings) returns (r: Outcome)
      requires Valid() && input.amount > 0 && input.from != input.to && !HasTransferKey(transfers, input.key)
      requires input.key != "" && input.description != ""
      requires reversalOf.Some? ==> SendsBack(transfers, input, reversalOf.value)
      modifies this`movements, this`transfers
      ensures Valid()
      ensures r.Done? <==> old(Transferable(policy, accounts, movements, input, at.dateOk, at.mayOverride,
                                            RateFor(movements, transfers, reversalOf, at.rate)))
      ensures r.Done? ==>
                && r.id == old(|transfers|)
                && var currency := accounts[input.from].currency;
                && var rate := RateFor(old(movements), old(transfers), reversalOf, at.rate).value;
                && movements == old(movements) + [OutLeg(input, currency, rate), InLeg(input, currency, rate)]
                && transfers == old(transfers) + [TransferRow(input, old(|movements|), reversalOf)]
      ensures r.Refused? ==> movements == old(movements) && transfers == old(transfers)
      ensures r == Refused(NotEnough) ==>
                && old(Balance(movements, input.from)) < input.amount
                && (policy.Block? || (policy.Warn? && !at.mayOverride))
      ensures NoOverdraft(policy, at.mayOverride) && old(Solvent(movements)) ==> Solvent(movements)
    {
      hide MovementsOk, TransfersOk, Solvent, Balance, CurrenciesOk, Convert, OutKey, InKey;
      if !at.dateOk {
        return Refused(Invalid);
      }
      if input.from !in accounts || input.to !in accounts {
        return Refused(Forbidden);
      }
      if !accounts[input.from].active || !accounts[input.to].active {
        return Refused(Inactive);
      }
      var currency := accounts[input.from].currency;
      if currency != accounts[input.to].currency {
        return Refused(CurrencyMismatch);
      }
      var covered := EnforceNegativeBalance(input.from, input.amount, at.mayOverride);
      if !covered {
        return Refused(NotEnough);
      }
      OldPairStays(movements, movements, transfers, reversalOf);
      var found := RateFor(movements, transfers, reversalOf, at.rate);
      if !UsableRate(found, input.amount) {
        return Refused(RateRequired);
      }
      var rate := found.value;
      if HasKey(movements, OutKey(input.key)) || HasKey(movements, InKey(input.key)) {
        return Refused(Constraint);
      }
      WriteTransfer(input, reversalOf, currency, rate);
      return Done(|transfers| - 1);
    }

    /** The three rows of an admitted transfer. */
    method WriteTransfer(input: TransferInput, reversalOf: Option<nat>, currency: string, rate: int)
      requires Valid() && input.amount > 0 && rate > 0 && Convert(input.amount, rate) != 0
      requires input.from != input.to && !HasTransferKey(transfers, input.key)
      requires input.from in accounts && input.to in accounts
      requires accounts[input.from].currency == accounts[input.to].currency == currency
      requires policy.Block? ==> Balance(movements, input.from) >= input.amount
      requires input.key != "" && input.description != ""
      requires !HasKey(movements, OutKey(input.key)) && !HasKey(movements, InKey(input.key))
      requires reversalOf.Some? ==> Reverses(input, rate, reversalOf.value)
      modifies this`movements, this`transfers
      ensures Valid()
      ensures movements == old(movements) + [OutLeg(input, currency, rate), InLeg(input, currency, rate)]
      ensures transfers == old(transfers) + [TransferRow(input, old(|movements|), reversalOf)]
      ensures old(Solvent(movements)) && old(Balance(movements, input.from)) >= input.amount ==> Solvent(movements)
    {
      hide MovementsOk, TransfersOk, Solvent, Balance, CurrenciesOk, Convert, OutKey, InKey;
      ConvertedIsPositive(input.amount, rate);
      LegKeysDiffer(input.key);
      var outId := |movements|;
      Insert(OutLeg(input, currency, rate));
      Insert(InLeg(input, currency, rate));
      var t := TransferRow(input, outId, reversalOf);
      OldPairStays(old(movements), movements, transfers, reversalOf);
      TransferAdded(movements, transfers, t);
      transfers := transfers + [t];
    }

    /** The transfer sends back what another one moved, at its rate, for the first time. */
    ghost predicate Reverses(input: TransferInput, rate: int, id: nat)
      reads this
    {
      && SendsBack(transfers, input, id)
      && transfers[id].outId < |movements| && movements[transfers[id].outId].rate == rate
    }

    /** PostFinanceTransfer. */
    method PostTransfer(given: TransferInput, at: Surroundings) returns (r: Outcome)
      requires Valid()
      modifies this`movements, this`transfers
      ensures Valid()
      ensures r.Refused? ==> movements == old(movements) && transfers == old(transfers)
      ensures given.from == given.to || given.key == "" || given.amount <= 0 ==> r.Refused?
      ensures given.from != given.to && given.key != "" && given.amount > 0 ==>
                var input := Described(given);
                if old(HasTransferKey(transfers, input.key)) then
                  && movements == old(movements) && transfers == old(transfers)
                  && exists i :: 0 <= i < |transfers| && transfers[i].key == input.key
                                 && r == if SameTransfer(transfers[i], input) then Done(i) else Refused(Conflict)
                else
                  && (r.Done? <==>
                      old(Transferable(policy, accounts, movements, input, at.dateOk, at.mayOverride, at.rate)))
                  && (r.Done? ==> input.from in accounts && Now() == Moved(old(Now()), input, at.rate.value, None))
      ensures r.Done? ==> r.id < |transfers| && transfers[r.id].key == given.key
                          && SameTransfer(transfers[r.id], Described(given))
      ensures r.Done? && r.id == old(|transfers|) ==>
                && transfers[r.id].outId < |movements| && at.rate == Some(movements[transfers[r.id].outId].rate)
                && transfers[r.id].reversalOf.None?
      ensures r == Refused(NotEnough) ==>
                && old(Balance(movements, given.from)) < given.amount
                && (policy.Block? || (policy.Warn? && !at.mayOverride))
      ensures NoOverdraft(policy, at.mayOverride) && old(Solvent(movements)) ==> Solvent(movements)
      ensures SumOfBalances(movements, accounts.Keys) == old(SumOfBalances(movements, accounts.Keys))
      ensures SumOfBaseBalances(movements, accounts.Keys) == old(SumOfBaseBalances(movements, accounts.Keys))
    {
      hide MovementsOk, TransfersOk, Solvent, Balance, CurrenciesOk, Convert, OutKey, InKey, SumOfBalances,
        SumOfBaseBalances, HasKey, MayTakeOut;
      DescribedKeepsKey(given);
      var input := Described(given);
      if input.from == input.to || input.key == "" || input.amount <= 0 {
        return Refused(Invalid);
      }
      if i :| 0 <= i < |transfers| && transfers[i].key == input.key {
        return if SameTransfer(transfers[i], input) then Done(i) else Refused(Conflict);
      }
      r := AddTransfer(input, None, at);
      if r.Done? {
        var currency, rate := accounts[input.from].currency, at.rate.value;
        TransferConserves(old(movements), OutLeg(input, currency, rate), InLeg(input, currency, rate), accounts.Keys);
      }
    }

    /**
     ReverseFinanceTransfer. A repeated key is answered from the transfer and the reason alone: the
     date of the repetition is not compared.
     */
    method Reverse(id: nat, key: string, reason: string, date: int, at: Surroundings) returns (r: Outcome)
      requires Valid()
      modifies this`movements, this`transfers
      ensures Valid()
      ensures r.Refused? ==> movements == old(movements) && transfers == old(transfers)
      ensures reason == "" || key == "" || id >= old(|transfers|) ==> r.Refused?
      ensures reason != "" && key != "" && id < old(|transfers|) ==>
                var input := Back(old(transfers)[id], key, reason, date);
                if old(HasTransferKey(transfers, key)) then
                  && movements == old(movements) && transfers == old(transfers)
                  && exists i :: 0 <= i < |transfers| && transfers[i].key == key
                                 && r == if transfers[i].reversalOf == Some(id)
                                            && transfers[i].description == input.description
                                         then Done(i) else Refused(Conflict)
                else
                  && (r.Done? <==>
                        && old(SendsBack(transfers, input, id))
                        && old(Transferable(policy, accounts, movements, input, at.dateOk, false,
                                            RateFor(movements, transfers, Some(id), at.rate))))
                  && (r.Done? ==>
                        && input.from in accounts
                        && Now() == Moved(old(Now()), input,
                                          RateFor(old(movements), old(transfers), Some(id), at.rate).value, Some(id)))
      ensures r.Done? ==> r.id < |transfers| && transfers[r.id].key == key && transfers[r.id].reversalOf == Some(id)
                          && transfers[r.id].description == REVERSAL_PREFIX + reason
      ensures r.Done? && r.id == old(|transfers|) ==>
                transfers[r.id].date == date && transfers[r.id].reference == transfers[id].reference
      ensures r == Refused(NotEnough) ==>
                id < old(|transfers|) && !policy.Allow?
                && old(Balance(movements, transfers[id].to)) < old(transfers)[id].amount
      // a reversal cannot be overridden
      ensures !policy.Allow? && old(Solvent(movements)) ==> Solvent(movements)
      ensures SumOfBalances(movements, accounts.Keys) == old(SumOfBalances(movements, accounts.Keys))
      ensures SumOfBaseBalances(movements, accounts.Keys) == old(SumOfBaseBalances(movements, accounts.Keys))
    {
      hide MovementsOk, TransfersOk, Solvent, Balance, CurrenciesOk, Convert, OutKey, InKey, SumOfBalances,
        SumOfBaseBalances, HasKey, MayTakeOut, REVERSAL_PREFIX;
      if reason == "" || key == "" || id >= |transfers| {
        return Refused(Forbidden);
      }
      var original := transfers[id];
      var input := Back(original, key, reason, date);
      if i :| 0 <= i < |transfers| && transfers[i].key == key {
        return if transfers[i].reversalOf == Some(id) && transfers[i].description == input.description
               then Done(i) else Refused(Conflict);
      }
      if original.reversalOf.Some? || TransferReversed(transfers, id) {
        return Refused(AlreadyReversed);
      }
      if date < original.date {
        return Refused(Invalid);
      }
      OldPairStays(movements, movements, transfers, Some(id));
      OriginalIsPositive(movements, original);
      r := AddTransfer(input, Some(id), at.(mayOverride := false));
      if r.Done? {
        var currency, rate := accounts[input.from].currency, movements[original.outId].rate;
        TransferConserves(old(movements), OutLeg(input, currency, rate), InLeg(input, currency, rate), accounts.Keys);
      }
    }

    /** An account's currency never changes; it can be switched off and on. */
    method Administer(id: Id, currency: string, active: bool)
      requires Valid()
      modifies this`accounts
      ensures Valid() && accounts.Keys == old(accounts.Keys) + {id}
      ensures forall a :: a in old(accounts) && a != id ==> accounts[a] == old(accounts)[a]
      ensures accounts[id] == Account(if id in old(accounts) then old(accounts)[id].currency else currency, active)
    {
      hide MovementsOk, TransfersOk, Solvent;
      accounts := accounts[id := Account(if id in accounts then accounts[id].currency else currency, active)];
    }

    /**
     Any run of commands, each taking its effect in turn. Rows are only ever added; under the BLOCK
     policy, and under WARN while nobody overrides it, no balance is ever negative; keys stay unique,
     openings first and reversals single (all part of Valid).
     */
    method Run(commands: seq<Command>)
      requires Valid()
      modifies this
      ensures Valid() && old(movements) <= movements && old(transfers) <= transfers
      ensures Now() == AfterAll(policy, old(Now()), commands)
      ensures policy.Block? ==> Solvent(movements)
      ensures old(Solvent(movements)) && Cautious(commands, policy) ==> Solvent(movements)
    {
      hide MovementsOk, TransfersOk, Solvent, CurrenciesOk, Transferable, StaffPostable, Postable, HasKey,
        HasTransferKey, SumOfBalances, SumOfBaseBalances, Moved, Row, StaffRow, SameMovement, SameTransfer,
        Described, Back, NoOverdraft, MayOverride;
      for k := 0 to |commands|
        invariant Valid() && old(movements) <= movements && old(transfers) <= transfers
        invariant Now() == AfterAll(policy, old(Now()), commands[..k])
        invariant old(Solvent(movements)) && Cautious(commands, policy) ==> Solvent(movements)
      {
        Step(commands[k]);
        assert commands[..k + 1][..k] == commands[..k];
      }
      assert commands[..|commands|] == commands;
    }

    method Step(c: Command)
      requires Valid()
      modifies this
      ensures Valid() && old(movements) <= movements && old(transfers) <= transfers
      ensures Now() == After(policy, old(Now()), c)
      ensures old(Solvent(movements)) && NoOverdraft(policy, MayOverride(c)) ==> Solvent(movements)
    {
      hide MovementsOk, TransfersOk, Solvent, CurrenciesOk, Transferable, StaffPostable, Postable,
        SumOfBalances, SumOfBaseBalances, Row, StaffRow, SameMovement, SameTransfer, Back, Convert;
      match c {
        case OpenAccount(id, currency) =>
          if id !in accounts { Administer(id, currency, true); }
        case SetActive(id, active) =>
          if id in accounts { Administer(id, accounts[id].currency, active); }
        case Post(input, at) => var _ := PostMovement(input, at);
        case PostStaff(input, at) => var _ := PostStaffMovement(input, at);
        case PostTransfer(input, at) => var _ := PostTransfer(input, at);
        case ReverseTransfer(id, key, reason, date, at) => var _ := Reverse(id, key, reason, date, at);
      }
    }

    /**
     Repeating a key, whatever happened in between: the same payload gets the first record again and
     any other payload a conflict, and neither adds a row.
     */
    method PostAgain(first: MovementInput, at: Surroundings, between: seq<Command>, again: MovementInput,
                     later: Surroundings)
      returns (r: Outcome, s: Outcome)
      requires Valid() && first.key == again.key && WellFormed(again)
      modifies this
      ensures Valid()
      ensures r.Done? ==> s == if again == first then r else Refused(Conflict)
      ensures r.Done? ==> Now() == AfterAll(policy, After(policy, old(Now()), Post(first, at)), between)
    {
      hide TransfersOk, Solvent, CurrenciesOk, Postable, OpeningsFirst, AllSound, ReversedOnce, Row;
      r := PostMovement(first, at);
      ghost var posted := movements;
      assert Now() == After(policy, old(Now()), Post(first, at));
      Run(between);
      assert r.Done? ==> movements[r.id] == posted[r.id];
      if r.Done? {
        ComparesPayload(movements[r.id], first, again);
      }
      s := PostMovement(again, later);
    }

    method TransferAgain(first: TransferInput, at: Surroundings, between: seq<Command>, again: TransferInput,
                         later: Surroundings)
      returns (r: Outcome, s: Outcome)
      requires Valid() && first.key == again.key
      requires again.from != again.to && again.key != "" && again.amount > 0
      modifies this
      ensures Valid()
      ensures r.Done? ==> s == if SameRequest(first, again) then r else Refused(Conflict)
      ensures r.Done? ==> Now() == AfterAll(policy, After(policy, old(Now()), Command.PostTransfer(first, at)), between)
    {
      hide MovementsOk, PairOk, Undoes, Solvent, CurrenciesOk, Transferable, Moved, SumOfBalances, SumOfBaseBalances,
        Described;
      DescribedKeepsKey(first);
      DescribedKeepsKey(again);
      r := PostTransfer(first, at);
      ghost var posted := transfers;
      assert Now() == After(policy, old(Now()), Command.PostTransfer(first, at));
      Run(between);
      assert r.Done? ==> transfers[r.id] == posted[r.id];
      if r.Done? {
        ComparesTransfers(transfers[r.id], first, again);
      }
      s := PostTransfer(again, later);
    }

    /** The repetition of a reversal is recognised by transfer and reason, on any date. */
    method ReverseAgain(id: nat, key: string, reason: string, date: int, at: Surroundings, between: seq<Command>,
                        laterReason: string, laterDate: int, later: Surroundings)
      returns (r: Outcome, s: Outcome)
      requires Valid() && laterReason != ""
      modifies this
      ensures Valid()
      ensures r.Done? ==> s == if laterReason == reason then r else Refused(Conflict)
      ensures r.Done? ==>
                Now() == AfterAll(policy, After(policy, old(Now()), ReverseTransfer(id, key, reason, date, at)),
                                  between)
    {
      hide MovementsOk, PairOk, Undoes, Solvent, CurrenciesOk, Transferable, Moved, SumOfBalances, SumOfBaseBalances,
        SendsBack, RateFor;
      r := Reverse(id, key, reason, date, at);
      ghost var posted := transfers;
      assert Now() == After(policy, old(Now()), ReverseTransfer(id, key, reason, date, at));
      Run(between);
      assert r.Done? ==> transfers[r.id] == posted[r.id];
      PrefixCancels(reason, laterReason);
      s := Reverse(id, key, laterReason, laterDate, later);
    }

    /** A transfer and its reversal leave every balance as it was, whatever rates are stored by then. */
    method TransferAndReverse(input: TransferInput, at: Surroundings, key: string, reason: string, date: int,
                              later: Surroundings)
      returns (r: Outcome, s: Outcome)
      requires Valid() && !HasTransferKey(transfers, input.key) && !HasTransferKey(transfers, key) && key != input.key
      modifies this`movements, this`transfers
      ensures Valid()
      ensures r.Done? && s.Done? ==>
                && (forall a :: Balance(movements, a) == old(Balance(movements, a)))
                && (forall a :: BaseBalance(movements, a) == old(BaseBalance(movements, a)))
    {
      hide MovementsOk, TransfersOk, Solvent, CurrenciesOk, MayTakeOut, HasKey, SumOfBalances, SumOfBaseBalances,
        SendsBack, Balance, BaseBalance, Convert, OutKey, InKey, REVERSAL_PREFIX, Described;
      DescribedKeepsKey(input);
      r := PostTransfer(input, at);
      if r.Refused? {
        return r, r;
      }
      var there := Described(input);
      s := Reverse(r.id, key, reason, date, later);
      if s.Done? {
        var currency, rate := accounts[there.from].currency, at.rate.value;
        var back := Back(TransferRow(there, |old(movements)|, None), key, reason, date);
        forall a ensures Balance(movements, a) == old(Balance(movements, a))
                         && BaseBalance(movements, a) == old(BaseBalance(movements, a)) {
          FourLegs(old(movements), there, back, currency, rate, a);
        }
      }
    }

  }

  lemma OldPairStays(before: seq<Movement>, after: seq<Movement>, ts: seq<Transfer>, id: Option<nat>)
    requires TransfersOk(before, ts) && TransfersOk(after, ts) && before <= after
    requires id.Some? ==> id.value < |ts|
    ensures id.Some? ==> PairOk(after, ts[id.value]) && after[ts[id.value].outId] == before[ts[id.value].outId]
  {
    if id.Some? { assert PairOk(before, ts[id.value]); }
  }

  lemma OriginalIsPositive(ms: seq<Movement>, t: Transfer)
    requires MovementsOk(ms) && PairOk(ms, t)
    ensures t.amount > 0
  {
    hide Convert;
    assert Sound(ms[t.outId]);
  }

  lemma DescribedKeepsKey(input: TransferInput)
    ensures var d := Described(input);
            && d.key == input.key && d.from == input.from && d.to == input.to && d.amount == input.amount
            && d.description != ""
  {
    assert TRANSFER_TEXT[0] == 'H';
  }

  lemma PrefixCancels(a: string, b: string)
    ensures REVERSAL_PREFIX + a == REVERSAL_PREFIX + b <==> a == b
  {
    if REVERSAL_PREFIX + a == REVERSAL_PREFIX + b {
      assert a == (REVERSAL_PREFIX + a)[|REVERSAL_PREFIX|..] && b == (REVERSAL_PREFIX + b)[|REVERSAL_PREFIX|..];
    }
  }

  lemma FourLegs(ms: seq<Movement>, there: TransferInput, back: TransferInput, currency: string, rate: int, a: Id)
    requires back.from == there.to && back.to == there.from && back.amount == there.amount
    ensures var after := ms + [OutLeg(there, currency, rate), InLeg(there, currency, rate)]
                            + [OutLeg(back, currency, rate), InLeg(back, currency, rate)];
            Balance(after, a) == Balance(ms, a) && BaseBalance(after, a) == BaseBalance(ms, a)
  {
    hide Balance, BaseBalance, Convert, OutKey, InKey;
    var w, x := OutLeg(there, currency, rate), InLeg(there, currency, rate);
    var y, z := OutLeg(back, currency, rate), InLeg(back, currency, rate);
    assert ms + [w, x] + [y, z] == ms + [w] + [x] + [y] + [z];
    Posted(ms, w, a);
    Posted(ms + [w], x, a);
    Posted(ms + [w] + [x], y, a);
    Posted(ms + [w] + [x] + [y], z, a);
  }

  lemma FittingIsPositive(ms: seq<Movement>, m: Movement)
    requires Fits(ms, m)
    ensures m.amount > 0
  {
  }
}
