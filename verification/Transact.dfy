/** Transaction execution: validation, up-front charge, the top action, refunds and fees. */
module Transact {
  import opened Primitives
  import opened WorldState
  import opened Externalities
  import opened Executive
  import CallTree
  import CallStack

  datatype Action =
    | Create
    | Call(address: Address)
    | PrivateToPrivate
    | PublicToPrivate
    | PrivateCall(address: Address)
  {
    predicate IsInputPrivate() {
      PrivateToPrivate? || PrivateCall?
    }
  }

  datatype Transaction = Transaction(
    sender: Address,
    isUnsigned: bool,
    nonce: U256,
    gas: U256,
    gasPrice: U256,
    value: U256,
    data: Bytes,
    action: Action
  )

  /** The block a transaction runs in; `oldBalance` is the balance with which an account was loaded. */
  datatype Context = Context(
    env: Env,
    author: Address,
    gasUsed: nat,
    gasLimit: nat,
    scheme: CreateContractAddress,
    outputFromCreate: bool,
    oldBalance: Address -> Option<U256>
  )

  datatype Executed = Executed(
    exception: Option<VmError>,
    gas: nat,
    gasUsed: nat,
    refunded: nat,
    cumulativeGasUsed: nat,
    logs: seq<LogEntry>,
    contractsCreated: seq<Address>,
    output: Bytes
  )

  datatype ExecutionError =
    | NotEnoughBaseGas | SenderMustExist | InvalidNonce | BlockGasLimitReached | NotEnoughCash
    | TransactionMalformed | InternalError

  datatype ExecutionResult = Success(executed: Executed) | Failure(error: ExecutionError)

  // ----- base gas

  function DataGas(data: Bytes, schedule: Schedule): nat {
    if data == [] then 0
    else (if data[0] == 0 then schedule.txDataZeroGas else schedule.txDataNonZeroGas) + DataGas(data[1..], schedule)
  }

  function GasRequired(t: Transaction, schedule: Schedule): nat {
    (if t.action.Create? then schedule.txCreateGas else schedule.txGas) + DataGas(t.data, schedule)
  }

  function Cost(gas: nat, price: nat): nat {
    gas * price
  }

  // ----- validation

  function Validate(c: Context, w: World, t: Transaction, checkNonce: bool): Option<ExecutionError> {
    if t.gas < GasRequired(t, c.env.schedule) then Some(NotEnoughBaseGas)
    else if !t.isUnsigned && checkNonce && c.env.schedule.killDust != Off && !w.Exists(t.sender) then
      Some(SenderMustExist)
    else if checkNonce && t.nonce != w.Nonce(t.sender) then Some(InvalidNonce)
    else if c.gasUsed + t.gas > c.gasLimit then Some(BlockGasLimitReached)
    else if w.Balance(t.sender) < t.value + Cost(t.gas, t.gasPrice) && !t.action.IsInputPrivate() then
      Some(NotEnoughCash)
    else None
  }

  // ----- the top action

  function BumpNonce(c: Context, w: World, t: Transaction): World {
    if (!c.env.schedule.keepUnsignedNonce || !t.isUnsigned) && !t.action.IsInputPrivate() then w.IncNonce(t.sender)
    else w
  }

  function Charge(c: Context, w: World, t: Transaction): World
    requires Validate(c, w, t, false).None?
  {
    var w' := BumpNonce(c, w, t);
    if t.action.IsInputPrivate() then w' else w'.SubBalance(t.sender, Cost(t.gas, t.gasPrice))
  }

  function ChargeTouches(c: Context, w: World, t: Transaction): Substate {
    if t.action.IsInputPrivate() then NEW_SUBSTATE
    else NEW_SUBSTATE.Touch(w.TouchedBySub(t.sender, c.env.schedule.CleanupMode()))
  }

  function CallTo(w: World, t: Transaction, sender: Address, to: Address, gas: nat, fromPrivate: bool,
                  toPrivate: bool): ActionParams {
    ActionParams(
      codeAddress := to, address := to, sender := sender, origin := sender, gas := gas, gasPrice := t.gasPrice,
      value := ActionValue.Transfer(t.value), code := w.Code(to), data := Some(t.data), callType := CallType.Call,
      isInputPrivate := fromPrivate, isOutputPrivate := toPrivate)
  }

  /** The executive that carries out the transaction; `w` is the charged state and `nonce` the sender's
      nonce before the charge. */
  function TopAction(c: Context, w: World, t: Transaction, nonce: nat): (e: CallCreateExecutive)
    requires GasRequired(t, c.env.schedule) <= t.gas
    ensures e.Fresh() && BuiltinKnown(c.env, e) && e.gas == t.gas - GasRequired(t, c.env.schedule)
    ensures !e.isCreate ==> e.kind.params.value == ActionValue.Transfer(t.value)
    ensures !e.isStatic && (e.isCreate <==> t.action.Create?)
  {
    var gas := t.gas - GasRequired(t, c.env.schedule);
    match t.action
    case Create =>
      var address := c.env.contractAddress(c.scheme, t.sender, nonce, t.data);
      NewCreateRaw(
        ActionParams(
          codeAddress := address, address := address, sender := t.sender, origin := t.sender,
          gas := gas, gasPrice := t.gasPrice,
          value := ActionValue.Transfer(t.value), code := Some(t.data), data := None, callType := NoCall,
          isInputPrivate := false, isOutputPrivate := false),
        0, false)
    case Call(address) => NewCallRaw(c.env, CallTo(w, t, t.sender, address, gas, false, false), 0, false)
    case PrivateToPrivate =>
      NewCallRaw(c.env, CallTo(w, t, PRIVATE_EXECUTIVE_ADDRESS, PRIVATE_EXECUTIVE_ADDRESS, gas, true, true), 0, false)
    case PublicToPrivate =>
      NewCallRaw(c.env, CallTo(w, t, t.sender, PRIVATE_EXECUTIVE_ADDRESS, gas, false, true), 0, false)
    case PrivateCall(address) =>
      NewCallRaw(c.env, CallTo(w, t, PRIVATE_EXECUTIVE_ADDRESS, address, gas, true, false), 0, false)
  }

  /** The affordability check covers the value after the gas has been paid. */
  lemma TopActionAffordable(c: Context, w: World, t: Transaction, nonce: nat)
    requires Validate(c, w, t, false).None?
    ensures var w' := Charge(c, w, t); Affordable(w', TopAction(c, w', t, nonce).kind.params)
  {
  }

  function Perform(c: Context, w: World, t: Transaction): Outcome
    requires c.env.Terminating() && Validate(c, w, t, false).None?
  {
    var w' := Charge(c, w, t);
    TopActionAffordable(c, w, t, w.Nonce(t.sender));
    Direct(c.env, w', ChargeTouches(c, w, t), TopAction(c, w', t, w.Nonce(t.sender)))
  }

  // ----- settlement

  datatype Settlement = Settlement(refunded: nat, gasLeft: nat, gasUsed: nat, refundValue: nat, feesValue: nat) {
    predicate Overflows() {
      refundValue > MAX_U256 || feesValue > MAX_U256
    }
  }

  function GasLeftBeforeRefund(r: VmResult): nat {
    if r.Ok? then r.value.gasLeft else 0
  }

  function Settle(schedule: Schedule, t: Transaction, s: Substate, r: VmResult): Settlement
    requires s.sstoreClearsRefund >= 0 && GasLeftBeforeRefund(r) <= t.gas
  {
    var bound := s.sstoreClearsRefund % TWO_64 + schedule.suicideRefundGas * |s.suicides|;
    var before := GasLeftBeforeRefund(r);
    var refunded := Min(bound, (t.gas - before) / 2);
    var gasLeft := before + refunded;
    var gasUsed := t.gas - gasLeft;
    Settlement(refunded, gasLeft, gasUsed, Cost(gasLeft, t.gasPrice), Cost(gasUsed, t.gasPrice))
  }

  function Refundee(t: Transaction): Address {
    if t.action.IsInputPrivate() then PRIVATE_EXECUTIVE_ADDRESS else t.sender
  }

  function PayOut(c: Context, w: World, t: Transaction, x: Settlement): World {
    w.AddBalance(Refundee(t), x.refundValue, NoEmpty).AddBalance(c.author, x.feesValue, c.env.schedule.CleanupMode())
  }

  function PayOutTouches(c: Context, w: World, t: Transaction, x: Settlement): set<Address> {
    w.AddBalance(Refundee(t), x.refundValue, NoEmpty).TouchedByAdd(c.author, x.feesValue, c.env.schedule.CleanupMode())
  }

  function KillAll(w: World, addresses: set<Address>): World {
    w.(accounts := w.accounts - addresses)
  }

  /** Touched accounts that are null, or that fell below the dust limit. */
  function Garbage(c: Context, t: Transaction, w: World, touched: set<Address>): set<Address> {
    var schedule := c.env.schedule;
    var limit := Cost(schedule.txGas, t.gasPrice) % TWO_256;
    set a | a in touched && a in w.accounts &&
            (|| (schedule.killEmpty && w.accounts[a].IsNull())
             || (schedule.killDust != Off
                  && IsDust(w.accounts[a], limit, c.oldBalance(a), schedule.killDust == WithCodeAndStorage)))
  }

  /** A balance that has decreased below the limit, in an account without code or in any. */
  predicate IsDust(account: Account, limit: nat, oldBalance: Option<U256>, killContracts: bool) {
    && (account.code == [] || killContracts)
    && account.balance < limit
    && oldBalance.Some? && account.balance < oldBalance.value
  }

  /** The state after refund, fees, suicides and garbage collection. */
  function AfterSettlement(c: Context, w: World, t: Transaction, s: Substate, x: Settlement): World {
    var w' := KillAll(PayOut(c, w, t, x), s.suicides);
    KillAll(w', Garbage(c, t, w', s.Touch(PayOutTouches(c, w, t, x)).touched))
  }

  function Report(c: Context, t: Transaction, s: Substate, r: VmResult, x: Settlement): ExecutionResult {
    match r
    case Err(Internal) => Failure(InternalError)
    case Err(error) => Success(Executed(Some(error), t.gas, t.gas, 0, c.gasUsed + t.gas, [], [], []))
    case Ok(value) =>
      Success(Executed(
        if value.applyState then None else Some(Reverted),
        t.gas, x.gasUsed, x.refunded, c.gasUsed + x.gasUsed, s.logs, s.contractsCreated,
        if t.action.Create? && !c.outputFromCreate then [] else value.returnData))
  }

  function Finalized(c: Context, w: World, t: Transaction, s: Substate, r: VmResult): (World, ExecutionResult)
    requires s.sstoreClearsRefund >= 0 && GasLeftBeforeRefund(r) <= t.gas
  {
    var x := Settle(c.env.schedule, t, s, r);
    if x.Overflows() then
      (w, Failure(TransactionMalformed))
    else
      (AfterSettlement(c, w, t, s, x), Report(c, t, s, r, x))
  }

  /** What the source asserts or assumes of a finished top action. */
  ghost predicate Settleable(c: Context, w: World, t: Transaction)
    requires c.env.Terminating() && Validate(c, w, t, false).None?
  {
    var o := Perform(c, w, t);
    o.substate.sstoreClearsRefund >= 0 && GasLeftBeforeRefund(o.result) <= t.gas
  }

  lemma GasSuffices(c: Context, w: World, t: Transaction)
    requires c.env.Terminating() && CallTree.GasMetered(c.env) && Validate(c, w, t, false).None?
    ensures GasLeftBeforeRefund(Perform(c, w, t).result) <= t.gas - GasRequired(t, c.env.schedule)
  {
    hide Direct;
    var w' := Charge(c, w, t);
    TopActionAffordable(c, w, t, w.Nonce(t.sender));
    CallTree.ActionStaysWithinGas(c.env, w', ChargeTouches(c, w, t), TopAction(c, w', t, w.Nonce(t.sender)));
  }

  // ----- laws of a whole transaction

  /** Execute a valid transaction. */
  function Applied(c: Context, w: World, t: Transaction): (World, ExecutionResult)
    requires c.env.Terminating() && Validate(c, w, t, false).None? && Settleable(c, w, t)
  {
    var o := Perform(c, w, t);
    Finalized(c, o.world, t, o.substate, o.result)
  }

  function SettlementOf(c: Context, w: World, t: Transaction): Settlement
    requires c.env.Terminating() && Validate(c, w, t, false).None? && Settleable(c, w, t)
  {
    var o := Perform(c, w, t);
    Settle(c.env.schedule, t, o.substate, o.result)
  }

  lemma SettlementSplitsGasCost(schedule: Schedule, t: Transaction, s: Substate, r: VmResult)
    requires s.sstoreClearsRefund >= 0 && GasLeftBeforeRefund(r) <= t.gas
    ensures var x := Settle(schedule, t, s, r);
            && x.gasLeft + x.gasUsed == t.gas
            && x.refundValue + x.feesValue == Cost(t.gas, t.gasPrice)
            && t.gas - GasLeftBeforeRefund(r) <= 2 * x.gasUsed
  {
    hide Cost;
    var x := Settle(schedule, t, s, r);
    CostAdds(x.gasLeft, x.gasUsed, t.gasPrice);
  }

  lemma CostAdds(x: nat, y: nat, price: nat)
    ensures Cost(x, price) + Cost(y, price) == Cost(x + y, price)
  {
  }

  /** The overflow error can only hit a transaction with private input whose gas cost exceeds the word
      size; for every other transaction the affordability check rules it out. */
  lemma OverflowNeedsPrivateInput(c: Context, w: World, t: Transaction)
    requires c.env.Terminating() && Validate(c, w, t, false).None? && Settleable(c, w, t)
    ensures Applied(c, w, t).1 == Failure(TransactionMalformed) <==> SettlementOf(c, w, t).Overflows()
    ensures SettlementOf(c, w, t).Overflows() ==> t.action.IsInputPrivate() && Cost(t.gas, t.gasPrice) > MAX_U256
  {
    hide Perform;
    var o := Perform(c, w, t);
    SettlementSplitsGasCost(c.env.schedule, t, o.substate, o.result);
  }

  /** Above twice the largest word the error is certain, however the run splits the gas. In between it is
      decided by the gas that the run leaves (see `OverflowDependsOnRun`). */
  lemma OverflowIsCertain(c: Context, w: World, t: Transaction)
    requires c.env.Terminating() && Validate(c, w, t, false).None? && Settleable(c, w, t)
    requires Cost(t.gas, t.gasPrice) > 2 * MAX_U256
    ensures t.action.IsInputPrivate() && Applied(c, w, t).1 == Failure(TransactionMalformed)
  {
    hide Perform, Cost, Validate;
    var o := Perform(c, w, t);
    SettlementSplitsGasCost(c.env.schedule, t, o.substate, o.result);
    OverflowNeedsPrivateInput(c, w, t);
  }

  /** What a transaction leaves behind that is refused after its validation: the overflow error keeps what
      the action did, unsettled, and an internal error keeps it settled. No other error comes that late. */
  lemma RefusedLate(c: Context, w: World, t: Transaction)
    requires c.env.Terminating() && Validate(c, w, t, false).None? && Settleable(c, w, t)
    requires Applied(c, w, t).1.Failure?
    ensures var (w', r), o := Applied(c, w, t), Perform(c, w, t);
            if SettlementOf(c, w, t).Overflows() then r.error == TransactionMalformed && w' == o.world
            else
              && r.error == InternalError && o.result == Err(Internal)
              && w' == AfterSettlement(c, o.world, t, o.substate, SettlementOf(c, w, t))
  {
    hide Perform, Cost, Validate;
  }

  /** A top action that failed or reverted leaves the charged state, and a substate that only knows
      touched accounts. */
  lemma FailedTopAction(c: Context, w: World, t: Transaction)
    requires c.env.Terminating() && Validate(c, w, t, false).None?
    requires Rejects(Perform(c, w, t).result)
    ensures var o := Perform(c, w, t);
            o.world == Charge(c, w, t) && o.substate == NEW_SUBSTATE.(touched := o.substate.touched)
  {
    hide Direct;
    var w' := Charge(c, w, t);
    TopActionAffordable(c, w, t, w.Nonce(t.sender));
    CallTree.FailedActionLeavesNoTrace(c.env, w', ChargeTouches(c, w, t), TopAction(c, w', t, w.Nonce(t.sender)));
  }

  /** The gas that the receipt reports is the gas that the author is paid for, in every outcome; a failed
      transaction reports no log and no contract. */
  lemma ReportedGasIsPaid(c: Context, w: World, t: Transaction)
    requires c.env.Terminating() && Validate(c, w, t, false).None? && Settleable(c, w, t)
    requires Applied(c, w, t).1.Success?
    ensures var x, executed := SettlementOf(c, w, t), Applied(c, w, t).1.executed;
            && executed.gasUsed == x.gasUsed
            && Cost(executed.gasUsed, t.gasPrice) == x.feesValue
            && executed.cumulativeGasUsed == c.gasUsed + x.gasUsed
            && (executed.exception.Some? ==>
                 executed.refunded == 0 && executed.logs == [] && executed.contractsCreated == [])
  {
    hide Perform, Cost, Validate, PayOut, PayOutTouches, KillAll;
    var o := Perform(c, w, t);
    if Rejects(o.result) {
      FailedTopAction(c, w, t);
    }
  }

  /** Every receipt stays within the block gas limit and pays at least half of the base gas. */
  lemma GasUsedBounds(c: Context, w: World, t: Transaction)
    requires c.env.Terminating() && CallTree.GasMetered(c.env) && Validate(c, w, t, false).None? && Settleable(c, w, t)
    requires Applied(c, w, t).1.Success?
    ensures var executed := Applied(c, w, t).1.executed;
            && GasRequired(t, c.env.schedule) <= 2 * executed.gasUsed
            && executed.gasUsed <= t.gas
            && executed.cumulativeGasUsed == c.gasUsed + executed.gasUsed <= c.gasLimit
  {
    ReportedGasIsPaid(c, w, t);
    GasSuffices(c, w, t);
    hide Perform;
    var o := Perform(c, w, t);
    SettlementSplitsGasCost(c.env.schedule, t, o.substate, o.result);
  }

  /** A transaction whose action failed or reverted only bumps the nonce and pays for its gas. */
  lemma FailedTransactionOnlyPays(c: Context, w: World, t: Transaction)
    requires c.env.Terminating() && Validate(c, w, t, false).None? && Settleable(c, w, t)
    requires Rejects(Perform(c, w, t).result) && !SettlementOf(c, w, t).Overflows()
    ensures var x, s := SettlementOf(c, w, t), Perform(c, w, t).substate;
            var paid := PayOut(c, Charge(c, w, t), t, x);
            Applied(c, w, t).0
            == KillAll(paid, Garbage(c, t, paid, s.Touch(PayOutTouches(c, Charge(c, w, t), t, x)).touched))
    ensures SettlementOf(c, w, t).gasLeft == GasLeftBeforeRefund(Perform(c, w, t).result)
  {
    hide Perform, Cost, Validate, PayOut, PayOutTouches, Charge;
    FailedTopAction(c, w, t);
    var paid := PayOut(c, Charge(c, w, t), t, SettlementOf(c, w, t));
    assert KillAll(paid, {}) == paid;
  }

  /** The accounts of `m` that are killed. */
  function Among(m: Accounts, killed: set<Address>): Accounts {
    map a | a in m && a in killed :: m[a]
  }

  lemma {:induction false} SupplyKillAll(m: Accounts, killed: set<Address>)
    ensures Supply(m - killed) + Supply(Among(m, killed)) == Supply(m)
    decreases killed
  {
    if killed == {} {
      assert m - killed == m && Among(m, killed) == map[];
    } else {
      var a :| a in killed;
      SupplyKill(m, a);
      SupplyKillAll(m - {a}, killed - {a});
      assert m - killed == m - {a} - (killed - {a});
      SupplyKill(Among(m, killed), a);
      assert Among(m, killed) - {a} == Among(m - {a}, killed - {a});
    }
  }

  lemma {:induction false} SupplyOfNothing(m: Accounts)
    requires forall a | a in m :: m[a].balance == 0
    ensures Supply(m) == 0
    decreases m.Keys
  {
    if m != map[] {
      var a :| a in m;
      SupplyKill(m, a);
      SupplyOfNothing(m - {a});
    }
  }

  /** With dust cleaning off, garbage collection only removes accounts without balance. */
  lemma GarbageIsEmpty(c: Context, t: Transaction, w: World, touched: set<Address>)
    requires c.env.schedule.killDust == Off
    ensures forall a | a in Garbage(c, t, w, touched) && a in w.accounts :: w.accounts[a].balance == 0
  {
  }

  /** Public money that the transaction creates: gas refunds and fees of a transaction with private
      input are paid without having been charged. */
  function MintedGas(t: Transaction): nat {
    if t.action.IsInputPrivate() then Cost(t.gas, t.gasPrice) else 0
  }

  function Inflow(t: Transaction, r: VmResult): int {
    if Rejects(r) then 0
    else if t.action.PrivateCall? then t.value
    else if t.action.PublicToPrivate? then -(t.value as int)
    else 0
  }

  lemma ChargeSupply(c: Context, w: World, t: Transaction)
    requires Validate(c, w, t, false).None?
    ensures Supply(Charge(c, w, t).accounts) == Supply(w.accounts) - Cost(t.gas, t.gasPrice) + MintedGas(t)
  {
    hide Supply;
    var w' := BumpNonce(c, w, t);
    var account := w.Required(t.sender);
    CallTree.PutSameBalance(w, t.sender, account.(nonce := SaturatingAdd(account.nonce, 1)));
    if !t.action.IsInputPrivate() {
      SupplySub(w', t.sender, Cost(t.gas, t.gasPrice));
    }
  }

  /** The total supply, with what a private sender may bring in, fits the word size. */
  ghost predicate SupplyFits(w: World, t: Transaction) {
    Supply(w.accounts) + MintedGas(t) + (if t.action.IsInputPrivate() then t.value else 0) <= MAX_U256
  }

  /** What accounts that destroyed themselves in favour of themselves burnt. */
  ghost function Burnt(c: Context, w: World, t: Transaction): nat
    requires c.env.Terminating() && Validate(c, w, t, false).None?
  {
    var w' := Charge(c, w, t);
    TopActionAffordable(c, w, t, w.Nonce(t.sender));
    CallTree.BurntByAction(c.env, w', ChargeTouches(c, w, t), TopAction(c, w', t, w.Nonce(t.sender)))
  }

  /** What the killed accounts still held when they were removed. */
  ghost function Destroyed(c: Context, w: World, t: Transaction): nat
    requires c.env.Terminating() && Validate(c, w, t, false).None? && Settleable(c, w, t)
  {
    var o, x := Perform(c, w, t), SettlementOf(c, w, t);
    var paid := PayOut(c, o.world, t, x);
    var kept := KillAll(paid, o.substate.suicides);
    var collected := Garbage(c, t, kept, o.substate.Touch(PayOutTouches(c, o.world, t, x)).touched);
    Supply(Among(paid.accounts, o.substate.suicides)) + Supply(Among(kept.accounts, collected))
  }

  lemma PerformConserves(c: Context, w: World, t: Transaction)
    requires c.env.Terminating() && CallTree.FreshAddresses(c.env) && Validate(c, w, t, false).None?
    requires SupplyFits(w, t)
    ensures var o := Perform(c, w, t);
            CallTree.Conserves(Charge(c, w, t), o.world, o.substate.suicides, Burnt(c, w, t), Inflow(t, o.result))
  {
    hide Direct, Supply, CallTree.BurntByAction;
    ChargeSupply(c, w, t);
    TopActionAffordable(c, w, t, w.Nonce(t.sender));
    var w' := Charge(c, w, t);
    var e := TopAction(c, w', t, w.Nonce(t.sender));
    CallTree.ActionConserves(c.env, w', ChargeTouches(c, w, t), e);
  }

  lemma PayOutSupply(c: Context, w: World, t: Transaction, x: Settlement)
    requires Supply(w.accounts) + x.refundValue + x.feesValue <= MAX_U256
    ensures Supply(PayOut(c, w, t, x).accounts) == Supply(w.accounts) + x.refundValue + x.feesValue
  {
    hide Supply;
    SupplyAdd(w, Refundee(t), x.refundValue, NoEmpty);
    BalanceBelowSupply(w, Refundee(t));
    var w' := w.AddBalance(Refundee(t), x.refundValue, NoEmpty);
    SupplyAdd(w', c.author, x.feesValue, c.env.schedule.CleanupMode());
    BalanceBelowSupply(w', c.author);
  }

  /** A supply that fits the word size rules the overflow error out. */
  lemma NoOverflow(c: Context, w: World, t: Transaction)
    requires c.env.Terminating() && Validate(c, w, t, false).None? && Settleable(c, w, t) && SupplyFits(w, t)
    ensures !SettlementOf(c, w, t).Overflows()
  {
    hide Perform, Supply, Cost, Validate;
    OverflowNeedsPrivateInput(c, w, t);
  }

  lemma PayOutCredits(c: Context, w: World, t: Transaction, x: Settlement, a: Address)
    requires Supply(w.accounts) + x.refundValue + x.feesValue <= MAX_U256
    ensures var w' := PayOut(c, w, t, x);
            var payer := if t.action.IsInputPrivate() then PRIVATE_EXECUTIVE_ADDRESS else t.sender;
            && w'.Balance(a) == w.Balance(a) + (if a == payer then x.refundValue else 0)
                                + (if a == c.author then x.feesValue else 0)
            && Read(w', a) == Read(w, a).(balance := w'.Balance(a))
            && (a != payer && a != c.author ==> Get(w'.accounts, a) == Get(w.accounts, a))
  {
    hide Supply;
    BalanceBelowSupply(w, a);
  }

  /** Who is paid at the end, on top of what the action left: the unused gas goes back to the sender, or to
      the private side when the input is private, and the author gets the price of the reported gas. Nobody
      else gains or loses, unless the account is destroyed or collected. */
  lemma SettlementPays(c: Context, w: World, t: Transaction, a: Address)
    requires c.env.Terminating() && CallTree.FreshAddresses(c.env) && Validate(c, w, t, false).None?
    requires Settleable(c, w, t) && SupplyFits(w, t) && Applied(c, w, t).1.Success?
    ensures var (w', r), o := Applied(c, w, t), Perform(c, w, t);
            var payer := if t.action.IsInputPrivate() then PRIVATE_EXECUTIVE_ADDRESS else t.sender;
            && r.executed.gasUsed <= t.gas
            && (a in w'.accounts ==>
                 && w'.Balance(a) == o.world.Balance(a)
                                     + (if a == payer then Cost(t.gas - r.executed.gasUsed, t.gasPrice) else 0)
                                     + (if a == c.author then Cost(r.executed.gasUsed, t.gasPrice) else 0)
                 && Read(w', a) == Read(o.world, a).(balance := w'.Balance(a)))
            && (a !in w'.accounts && a in o.world.accounts ==>
                 a in o.substate.suicides || Collected(c, t, o, SettlementOf(c, w, t), a))
            && (a in o.substate.suicides ==> a !in w'.accounts)
  {
    hide Perform, Supply, PayOut, Garbage, Cost, Validate, Charge, Burnt;
    NoOverflow(c, w, t);
    ReportedGasIsPaid(c, w, t);
    PerformConserves(c, w, t);
    ChargeSupply(c, w, t);
    var o := Perform(c, w, t);
    var x := SettlementOf(c, w, t);
    SettlementSplitsGasCost(c.env.schedule, t, o.substate, o.result);
    PayOutCredits(c, o.world, t, x, a);
    PayOutKeeps(c, o.world, t, x, a);
  }

  /** The account is among what garbage collection finds after the payments. */
  ghost predicate Collected(c: Context, t: Transaction, o: Outcome, x: Settlement, a: Address) {
    var kept := KillAll(PayOut(c, o.world, t, x), o.substate.suicides);
    a in Garbage(c, t, kept, o.substate.Touch(PayOutTouches(c, o.world, t, x)).touched)
  }

  lemma PayOutKeeps(c: Context, w: World, t: Transaction, x: Settlement, a: Address)
    ensures a in w.accounts ==> a in PayOut(c, w, t, x).accounts
  {
  }

  /** A sender with public input gets the unused gas back: it ends with what the action left it and the price
      of the gas that was not used; after a rejected action it has paid for the used gas and nothing else. */
  lemma SenderIsRefunded(c: Context, w: World, t: Transaction)
    requires c.env.Terminating() && CallTree.FreshAddresses(c.env) && Validate(c, w, t, false).None?
    requires Settleable(c, w, t) && SupplyFits(w, t) && Applied(c, w, t).1.Success?
    requires !t.action.PrivateToPrivate? && !t.action.PrivateCall? && t.sender != c.author
    requires t.sender in Applied(c, w, t).0.accounts
    ensures var (w', r), o := Applied(c, w, t), Perform(c, w, t);
            && r.executed.gasUsed <= t.gas
            && w'.Balance(t.sender) == o.world.Balance(t.sender) + Cost(t.gas - r.executed.gasUsed, t.gasPrice)
            && (r.executed.exception.Some? ==>
                 w'.Balance(t.sender) == w.Balance(t.sender) - Cost(r.executed.gasUsed, t.gasPrice))
  {
    hide Perform, Supply, Garbage, Cost, AfterSettlement, Charge;
    SettlementPays(c, w, t, t.sender);
    NoOverflow(c, w, t);
    var o, r := Perform(c, w, t), Applied(c, w, t).1;
    if r.executed.exception.Some? {
      FailedTopAction(c, w, t);
      ChargedSender(c, w, t);
      CostAdds(r.executed.gasUsed, t.gas - r.executed.gasUsed, t.gasPrice);
    }
  }

  lemma ChargedSender(c: Context, w: World, t: Transaction)
    requires Validate(c, w, t, false).None? && !t.action.IsInputPrivate()
    ensures Charge(c, w, t).Balance(t.sender) == w.Balance(t.sender) - Cost(t.gas, t.gasPrice)
  {
    hide Cost;
  }

  /** With private input the unused gas goes to the account of the private side. */
  lemma PrivateSideIsRefunded(c: Context, w: World, t: Transaction)
    requires c.env.Terminating() && CallTree.FreshAddresses(c.env) && Validate(c, w, t, false).None?
    requires Settleable(c, w, t) && SupplyFits(w, t) && Applied(c, w, t).1.Success?
    requires (t.action.PrivateToPrivate? || t.action.PrivateCall?) && PRIVATE_EXECUTIVE_ADDRESS != c.author
    requires PRIVATE_EXECUTIVE_ADDRESS in Applied(c, w, t).0.accounts
    ensures var (w', r), o := Applied(c, w, t), Perform(c, w, t);
            && r.executed.gasUsed <= t.gas
            && w'.Balance(PRIVATE_EXECUTIVE_ADDRESS)
               == o.world.Balance(PRIVATE_EXECUTIVE_ADDRESS) + Cost(t.gas - r.executed.gasUsed, t.gasPrice)
  {
    hide Perform, Supply, Garbage, Cost, AfterSettlement, Validate;
    SettlementPays(c, w, t, PRIVATE_EXECUTIVE_ADDRESS);
  }

  /** The author really receives the reported gas times the price, on top of what the action left and of
      the refund if it is the author's own; and keeps it, unless the account is destroyed or collected. */
  lemma AuthorIsCredited(c: Context, w: World, t: Transaction)
    requires c.env.Terminating() && CallTree.FreshAddresses(c.env) && Validate(c, w, t, false).None?
    requires Settleable(c, w, t) && SupplyFits(w, t) && Applied(c, w, t).1.Success?
    ensures var o, executed := Perform(c, w, t), Applied(c, w, t).1.executed;
            var payer := if t.action.IsInputPrivate() then PRIVATE_EXECUTIVE_ADDRESS else t.sender;
            var paid := PayOut(c, o.world, t, SettlementOf(c, w, t));
            && executed.gasUsed <= t.gas
            && paid.Balance(c.author) == o.world.Balance(c.author) + Cost(executed.gasUsed, t.gasPrice)
                 + (if c.author == payer then Cost(t.gas - executed.gasUsed, t.gasPrice) else 0)
            && (c.author in Applied(c, w, t).0.accounts ==>
                 Applied(c, w, t).0.Balance(c.author) == paid.Balance(c.author))
  {
    hide Perform, Supply, PayOut, Garbage, Cost, Validate, Charge, Burnt;
    NoOverflow(c, w, t);
    ReportedGasIsPaid(c, w, t);
    PerformConserves(c, w, t);
    ChargeSupply(c, w, t);
    var o := Perform(c, w, t);
    var x := SettlementOf(c, w, t);
    SettlementSplitsGasCost(c.env.schedule, t, o.substate, o.result);
    PayOutCredits(c, o.world, t, x, c.author);
  }

  /** A transaction changes the sum of all balances by exactly what crosses the private border and what
      private gas mints, less what is burnt and what killed accounts held. Without suicides and with dust
      cleaning off nothing is burnt or destroyed, so for a public call or create the change is zero. */
  lemma TransactionConserves(c: Context, w: World, t: Transaction)
    requires c.env.Terminating() && CallTree.FreshAddresses(c.env) && Validate(c, w, t, false).None?
    requires Settleable(c, w, t) && SupplyFits(w, t)
    ensures !SettlementOf(c, w, t).Overflows()
    ensures var o := Perform(c, w, t);
            var before, after := Supply(w.accounts), Supply(Applied(c, w, t).0.accounts);
            && after + Burnt(c, w, t) + Destroyed(c, w, t) == before + MintedGas(t) + Inflow(t, o.result)
            && (o.substate.suicides == {} ==> Burnt(c, w, t) == 0)
            && (o.substate.suicides == {} && c.env.schedule.killDust == Off ==> Destroyed(c, w, t) == 0)
  {
    hide Perform, Supply, PayOut, Garbage, Cost, Burnt, Validate, Charge;
    NoOverflow(c, w, t);
    PerformConserves(c, w, t);
    ChargeSupply(c, w, t);
    var o := Perform(c, w, t);
    var x := SettlementOf(c, w, t);
    SettlementSplitsGasCost(c.env.schedule, t, o.substate, o.result);
    PayOutSupply(c, o.world, t, x);
    var paid := PayOut(c, o.world, t, x);
    SupplyKillAll(paid.accounts, o.substate.suicides);
    var kept := KillAll(paid, o.substate.suicides);
    var touched := o.substate.Touch(PayOutTouches(c, o.world, t, x)).touched;
    SupplyKillAll(kept.accounts, Garbage(c, t, kept, touched));
    if o.substate.suicides == {} {
      SupplyOfNothing(Among(paid.accounts, {}));
    }
    if c.env.schedule.killDust == Off {
      GarbageIsEmpty(c, t, kept, touched);
      SupplyOfNothing(Among(kept.accounts, Garbage(c, t, kept, touched)));
    }
  }

  lemma ValidateIgnoresLoaded(c: Context, c': Context, w: World, t: Transaction, checkNonce: bool)
    requires c' == c.(oldBalance := c'.oldBalance)
    ensures Validate(c, w, t, checkNonce) == Validate(c', w, t, checkNonce)
  {
  }

  /** Only dust cleaning reads the loaded balances. */
  lemma AppliedIgnoresLoaded(c: Context, c': Context, w: World, t: Transaction)
    requires c' == c.(oldBalance := c'.oldBalance) && c.env.schedule.killDust == Off
    requires c.env.Terminating() && Validate(c, w, t, false).None? && Settleable(c, w, t)
    ensures Validate(c', w, t, false).None? && Settleable(c', w, t)
    ensures Applied(c, w, t) == Applied(c', w, t)
  {
    hide Direct, AfterSettlement;
    var o := Perform(c, w, t);
    assert Perform(c', w, t) == o;
    forall x
      ensures AfterSettlement(c, o.world, t, o.substate, x) == AfterSettlement(c', o.world, t, o.substate, x)
    {
      SettlementIgnoresLoaded(c, c', o.world, t, o.substate, x);
    }
  }

  lemma SettlementIgnoresLoaded(c: Context, c': Context, w: World, t: Transaction, s: Substate, x: Settlement)
    requires c' == c.(oldBalance := c'.oldBalance) && c.env.schedule.killDust == Off
    ensures AfterSettlement(c, w, t, s, x) == AfterSettlement(c', w, t, s, x)
  {
    hide Cost;
    var w' := KillAll(PayOut(c, w, t, x), s.suicides);
    var touched := s.Touch(PayOutTouches(c, w, t, x)).touched;
    assert Garbage(c, t, w', touched) == Garbage(c', t, w', touched);
  }

  /** Every checkpoint that a transaction opens is closed again. */
  lemma AppliedKeepsCheckpoints(c: Context, w: World, t: Transaction)
    requires c.env.Terminating() && Validate(c, w, t, false).None? && Settleable(c, w, t)
    ensures Applied(c, w, t).0.snapshots == w.snapshots
  {
    hide Direct;
    TopActionAffordable(c, w, t, w.Nonce(t.sender));
    var w' := Charge(c, w, t);
    CallTree.DirectKeepsCheckpoints(c.env, w', ChargeTouches(c, w, t), TopAction(c, w', t, w.Nonce(t.sender)));
  }

  // ----- execution in place

  /** The transaction executor over the state it borrows. */
  class TransactionExecutor {
    var world: World

    constructor (w: World)
      ensures world == w
    {
      world := w;
    }

    /** Executes a transaction in place: one refused by validation leaves the state alone, any other has the
        effect and the report of `Applied`, which may refuse it too late to leave the state alone. */
    method TransactWithTracer(c: Context, t: Transaction, checkNonce: bool) returns (r: ExecutionResult)
      requires c.env.Terminating()
      requires Validate(c, world, t, checkNonce).None? ==> Settleable(c, world, t)
      modifies this
      ensures match Validate(c, old(world), t, checkNonce)
              case Some(error) => world == old(world) && r == Failure(error)
              case None => Validate(c, old(world), t, false).None? && (world, r) == Applied(c, old(world), t)
    {
      hide Direct;
      match Validate(c, world, t, checkNonce) {
        case Some(error) => return Failure(error);
        case None =>
      }
      ghost var start := world;
      var nonce := world.Nonce(t.sender);
      TopActionAffordable(c, world, t, nonce);
      var substate := ChargeTouches(c, world, t);
      world := BumpNonce(c, world, t);
      if !t.action.IsInputPrivate() {
        world := world.SubBalance(t.sender, Cost(t.gas, t.gasPrice));
      }
      var action := TopAction(c, world, t, nonce);
      var machine := new CallStack.Machine(world, substate);
      var result := machine.Consume(c.env, action);
      world := machine.world;
      assert Outcome(world, machine.substate, result, Perform(c, start, t).calls) == Perform(c, start, t);
      r := Finalize(c, t, machine.substate, result);
    }

    /** Refunds, fees, suicides and garbage collection. */
    method Finalize(c: Context, t: Transaction, s: Substate, result: VmResult) returns (r: ExecutionResult)
      requires s.sstoreClearsRefund >= 0 && GasLeftBeforeRefund(result) <= t.gas
      modifies this
      ensures (world, r) == Finalized(c, old(world), t, s, result)
    {
      var x := Settle(c.env.schedule, t, s, result);
      if x.Overflows() {
        return Failure(TransactionMalformed);
      }
      var touched := PayOutTouches(c, world, t, x);
      world := world.AddBalance(Refundee(t), x.refundValue, NoEmpty);
      world := world.AddBalance(c.author, x.feesValue, c.env.schedule.CleanupMode());
      KillAccounts(s.suicides);
      KillAccounts(Garbage(c, t, world, s.Touch(touched).touched));
      r := Report(c, t, s, result, x);
    }

    method KillAccounts(addresses: set<Address>)
      modifies this
      ensures world == KillAll(old(world), addresses)
    {
      ghost var start := world;
      var left := addresses;
      while left != {}
        invariant left <= addresses
        invariant world == KillAll(start, addresses - left)
        decreases left
      {
        var address :| address in left;
        world := world.KillAccount(address);
        assert start.accounts - (addresses - left) - {address} == start.accounts - (addresses - (left - {address}));
        left := left - {address};
      }
      assert addresses - {} == addresses;
    }
  }
}
