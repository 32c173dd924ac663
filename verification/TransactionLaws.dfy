/** What a transaction means for its sender, its receipt and the accounts it leaves: nonces, base gas,
    refunds, reports and the final sweep. */
module TransactionLaws {
  import opened Primitives
  import opened WorldState
  import opened Externalities
  import opened Executive
  import CallTree
  import opened CallEvents
  import opened Transact

  // ----- base gas and validation

  /** Every zero byte and every other byte of the data has its price. */
  lemma {:induction false} DataGasCounts(data: Bytes, schedule: Schedule)
    ensures var zeros := multiset(data)[0];
            zeros <= |data| &&
            DataGas(data, schedule) == zeros * schedule.txDataZeroGas + (|data| - zeros) * schedule.txDataNonZeroGas
  {
    if data != [] {
      DataGasCounts(data[1..], schedule);
      assert data == [data[0]] + data[1..];
      var zeros := multiset(data[1..])[0];
      if data[0] == 0 {
        assert multiset(data)[0] == zeros + 1;
        MulNext(zeros, schedule.txDataZeroGas);
      } else {
        assert multiset(data)[0] == zeros;
        MulNext(|data| - 1 - zeros, schedule.txDataNonZeroGas);
      }
    }
  }

  lemma MulNext(n: nat, price: nat)
    ensures (n + 1) * price == n * price + price
  {
  }

  /** Why a transaction is refused, and that it is not refused without a reason. */
  lemma ValidIff(c: Context, w: World, t: Transaction, checkNonce: bool)
    ensures var schedule, balance := c.env.schedule, w.Balance(t.sender);
            var base := (if t.action == Create then schedule.txCreateGas else schedule.txGas)
                        + DataGas(t.data, schedule);
            var private := t.action.PrivateToPrivate? || t.action.PrivateCall?;
            && (Validate(c, w, t, checkNonce).None? <==>
                 && base <= t.gas <= c.gasLimit - c.gasUsed
                 && (private || t.value + Cost(t.gas, t.gasPrice) <= balance)
                 && (checkNonce ==> t.nonce == w.Nonce(t.sender))
                 && (checkNonce && !t.isUnsigned && schedule.killDust != Off ==> t.sender in w.accounts))
            && match Validate(c, w, t, checkNonce)
               case None => true
               case Some(NotEnoughBaseGas) => t.gas < base
               case Some(SenderMustExist) => schedule.killDust != Off && t.sender !in w.accounts
               case Some(InvalidNonce) => t.nonce != w.Nonce(t.sender)
               case Some(BlockGasLimitReached) => c.gasUsed + t.gas > c.gasLimit
               case Some(NotEnoughCash) => !private && balance < t.value + Cost(t.gas, t.gasPrice)
               case Some(_) => false
  {
    hide Cost, DataGas;
  }

  /** The charge takes the price of all the gas from the sender and one nonce, and touches nobody else; with
      private input it takes nothing. */
  lemma ChargeMoves(c: Context, w: World, t: Transaction, a: Address)
    requires Validate(c, w, t, false).None?
    ensures var w', private := Charge(c, w, t), t.action.PrivateToPrivate? || t.action.PrivateCall?;
            && (private ==> w' == w)
            && (a != t.sender ==> Get(w'.accounts, a) == Get(w.accounts, a))
            && (!private ==>
                 && w'.Balance(t.sender) == w.Balance(t.sender) - Cost(t.gas, t.gasPrice)
                 && w'.Nonce(t.sender) == (if c.env.schedule.keepUnsignedNonce && t.isUnsigned then w.Nonce(t.sender)
                                           else Min(w.Nonce(t.sender) + 1, MAX_U256)))
            && Read(w', a) == Read(w, a).(balance := w'.Balance(a), nonce := w'.Nonce(a))
  {
    hide Cost;
  }

  // ----- nonces

  /** The account exists, and its nonce is at least `k`. */
  predicate NonceFrom(w: World, a: Address, k: nat) {
    a in w.accounts && k <= w.Nonce(a) && k <= MAX_U256
  }

  lemma RequestKeepsNonce(env: Env, w: World, s: Substate, f: Frame, a: Address, k: nat)
    requires NonceFrom(w, a, k)
    ensures NonceFrom(Interact(env, w, s, f).world, a, k)
  {
  }

  lemma PrologueKeepsNonce(env: Env, w: World, s: Substate, e: CallCreateExecutive, a: Address, k: nat)
    requires e.Fresh() && Affordable(w, e.kind.params) && BuiltinKnown(env, e) && NonceFrom(w, a, k)
    ensures NonceFrom(Prepare(env, w, s, e).world, a, k)
  {
    hide TransferExecBalance, TransferExecBalanceAndInitContract;
    var p := e.kind.params;
    TransferKeepsNonce(env, w, s, p, a);
    TransferKeepsNonce(env, w.Checkpoint(), s, p, a);
    CallTree.PrepareCheckpoints(env, w, s, e);
    if e.isCreate && !w.HasCodeOrNonce(p.address) {
      EndowmentKeepsNonce(env, w.Checkpoint(), s, p, a);
    }
  }

  lemma TransferKeepsNonce(env: Env, w: World, s: Substate, p: ActionParams, a: Address)
    requires Affordable(w, p)
    ensures TransferExecBalance(env, w, s, p).0.Nonce(a) == w.Nonce(a)
    ensures a in w.accounts ==> a in TransferExecBalance(env, w, s, p).0.accounts
  {
  }

  lemma EndowmentKeepsNonce(env: Env, w: World, s: Substate, p: ActionParams, a: Address)
    requires Affordable(w, p) && !w.HasCodeOrNonce(p.address)
    ensures w.Nonce(a) <= TransferExecBalanceAndInitContract(env, w, s, p).0.Nonce(a)
    ensures a in w.accounts ==> a in TransferExecBalanceAndInitContract(env, w, s, p).0.accounts
  {
  }

  /** In a whole call tree no account disappears and no nonce falls: a contract is only created where there
      was none. */
  lemma {:induction false} ActionKeepsNonce(env: Env, w: World, s: Substate, e: CallCreateExecutive, a: Address, k: nat)
    requires env.Terminating() && NonceFrom(w, a, k)
    requires e.Fresh() && Affordable(w, e.kind.params) && BuiltinKnown(env, e)
    ensures NonceFrom(Direct(env, w, s, e).world, a, k)
    decreases DepthLeft(env, e.depth), 1, 0
  {
    hide Interact, Prepare, DirectFrame;
    PrologueKeepsNonce(env, w, s, e, a, k);
    CallTree.PrepareCheckpoints(env, w, s, e);
    var p := Prepare(env, w, s, e);
    if p.Started? {
      FrameKeepsNonce(env, p.world, e.kind.unconfirmed, p.frame, a, k);
      CallTree.DirectFrameKeepsCheckpoints(env, p.world, e.kind.unconfirmed, p.frame);
    }
  }

  lemma {:induction false} FrameKeepsNonce(env: Env, w: World, s: Substate, f: Frame, a: Address, k: nat)
    requires env.Terminating() && NonceFrom(w, a, k)
    ensures NonceFrom(DirectFrame(env, w, s, f).world, a, k)
    decreases DepthLeft(env, f.depth), 0, StepsLeft(env, f)
  {
    hide Interact, Prepare, Direct, NonceFrom;
    RequestKeepsNonce(env, w, s, f, a, k);
    match Interact(env, w, s, f)
    case Answer(w', s', r) => FrameKeepsNonce(env, w', s', f.Answered(r), a, k);
    case Halt(_, _, _) =>
    case WantCall(w', s', p) =>
      var e := NewCallRaw(env, p, f.depth + 1, f.isStatic);
      ActionKeepsNonce(env, w', s', e, a, k);
      var o := Direct(env, w', s', e);
      FrameKeepsNonce(env, o.world, o.substate, f.Answered(CallResponse(IntoMessageCallResult(o.result))), a, k);
    case WantCreate(w', s', p, address) =>
      var e := NewCreateRaw(p, f.depth + 1, f.isStatic);
      ActionKeepsNonce(env, w', s', e, a, k);
      var o := Direct(env, w', s', e);
      var (c, s'') := IntoContractCreateResult(o.result, address, o.substate);
      FrameKeepsNonce(env, o.world, s'', f.Answered(CreateResponse(c)), a, k);
  }

  /** The transaction takes a nonce of its sender: it is public, and signed or of a sort that counts. */
  predicate TakesNonce(c: Context, t: Transaction) {
    !t.action.PrivateToPrivate? && !t.action.PrivateCall? && !(c.env.schedule.keepUnsignedNonce && t.isUnsigned)
  }

  lemma PerformTakesNonce(c: Context, w: World, t: Transaction)
    requires c.env.Terminating() && Validate(c, w, t, false).None? && TakesNonce(c, t)
    ensures NonceFrom(Perform(c, w, t).world, t.sender, Min(w.Nonce(t.sender) + 1, MAX_U256))
  {
    hide Direct, Validate, Cost;
    ChargeMoves(c, w, t, t.sender);
    TopActionAffordable(c, w, t, w.Nonce(t.sender));
    var w' := Charge(c, w, t);
    ActionKeepsNonce(c.env, w', ChargeTouches(c, w, t), TopAction(c, w', t, w.Nonce(t.sender)), t.sender,
                     Min(w.Nonce(t.sender) + 1, MAX_U256));
  }

  /** The final sweep and the payments change no nonce of an account that stays. */
  lemma SettlementKeepsNonce(c: Context, w: World, t: Transaction, s: Substate, x: Settlement, a: Address)
    requires a in AfterSettlement(c, w, t, s, x).accounts
    ensures AfterSettlement(c, w, t, s, x).Nonce(a) == w.Nonce(a)
  {
    hide Garbage;
  }

  /** With dust cleaning off, only its own suicide removes an account with a nonce. */
  lemma NumberedIsKept(c: Context, w: World, t: Transaction, s: Substate, x: Settlement, a: Address)
    requires c.env.schedule.killDust == Off && NonceFrom(w, a, 1) && a !in s.suicides
    ensures a in AfterSettlement(c, w, t, s, x).accounts
  {
    hide Cost;
  }

  lemma AppliedWorld(c: Context, w: World, t: Transaction)
    requires c.env.Terminating() && Validate(c, w, t, false).None? && Settleable(c, w, t)
    ensures var (w', r), o := Applied(c, w, t), Perform(c, w, t);
            && (w' == o.world || w' == AfterSettlement(c, o.world, t, o.substate, SettlementOf(c, w, t)))
            && w'.startNonce == w.startNonce
  {
    hide Direct, Cost;
    TopActionAffordable(c, w, t, w.Nonce(t.sender));
    var w' := Charge(c, w, t);
    CallTree.DirectKeepsCheckpoints(c.env, w', ChargeTouches(c, w, t), TopAction(c, w', t, w.Nonce(t.sender)));
    hide Perform;
  }

  /** What a valid transaction meets when it is tried again under the same schedule. */
  lemma TriedAgain(c: Context, w: World, t: Transaction, c': Context, w': World)
    requires Validate(c, w, t, true).None? && c'.env.schedule == c.env.schedule
    ensures t.nonce == w.Nonce(t.sender) && Validate(c, w, t, false).None?
    ensures !t.isUnsigned && c.env.schedule.killDust != Off && t.sender !in w'.accounts ==>
              Validate(c', w', t, true) == Some(SenderMustExist)
    ensures t.sender in w'.accounts && t.nonce != w'.Nonce(t.sender) ==> Validate(c', w', t, true) == Some(InvalidNonce)
  {
    hide Cost, DataGas;
  }

  /** The nonce of a sender that is still there after its transaction. */
  lemma SenderNonce(c: Context, w: World, t: Transaction)
    requires c.env.Terminating() && Validate(c, w, t, false).None? && Settleable(c, w, t) && TakesNonce(c, t)
    ensures var w', k := Applied(c, w, t).0, Min(w.Nonce(t.sender) + 1, MAX_U256);
            && (t.sender in w'.accounts ==> w'.Nonce(t.sender) == Perform(c, w, t).world.Nonce(t.sender) >= k)
            && (t.sender !in w'.accounts ==> w'.Nonce(t.sender) == w.startNonce)
            && (t.sender !in w'.accounts && c.env.schedule.killDust == Off ==>
                 t.sender in Perform(c, w, t).substate.suicides)
  {
    hide Perform, Applied, AfterSettlement, Validate, Env.Terminating, SettlementOf, TakesNonce;
    PerformTakesNonce(c, w, t);
    AppliedWorld(c, w, t);
    var o, x := Perform(c, w, t), SettlementOf(c, w, t);
    if t.sender in AfterSettlement(c, o.world, t, o.substate, x).accounts {
      SettlementKeepsNonce(c, o.world, t, o.substate, x, t.sender);
    } else if c.env.schedule.killDust == Off && t.sender !in o.substate.suicides {
      NumberedIsKept(c, o.world, t, o.substate, x, t.sender);
    }
  }

  /** A transaction that was applied had its sender's nonce, and cannot be applied again on top of itself
      while its sender exists, unless its nonce is the largest word: the same transaction is then refused
      for its nonce, in whatever block with the same schedule. */
  lemma NotReplayed(c: Context, w: World, t: Transaction, c': Context)
    requires c.env.Terminating() && Validate(c, w, t, true).None? && Settleable(c, w, t) && TakesNonce(c, t)
    requires t.nonce < MAX_U256 && t.sender in Applied(c, w, t).0.accounts
    requires c'.env.schedule == c.env.schedule
    ensures t.nonce == w.Nonce(t.sender)
    ensures Validate(c', Applied(c, w, t).0, t, true) == Some(InvalidNonce)
  {
    hide Perform, Applied, Validate, Env.Terminating, TakesNonce;
    TriedAgain(c, w, t, c, w);
    TriedAgain(c, w, t, c', Applied(c, w, t).0);
    SenderNonce(c, w, t);
  }

  /** A sender that does not exist any more is refused where dust is cleaned. Where it is not, only
      destroying itself can have removed it, and its nonce starts again. */
  lemma ReplayWithoutSender(c: Context, w: World, t: Transaction, c': Context)
    requires c.env.Terminating() && Validate(c, w, t, true).None? && Settleable(c, w, t) && TakesNonce(c, t)
    requires t.sender !in Applied(c, w, t).0.accounts && !t.isUnsigned && c'.env.schedule == c.env.schedule
    ensures var w' := Applied(c, w, t).0;
            if c.env.schedule.killDust != Off then Validate(c', w', t, true) == Some(SenderMustExist)
            else w'.Nonce(t.sender) == w.startNonce && t.sender in Perform(c, w, t).substate.suicides
  {
    hide Perform, Applied, Validate, Env.Terminating, TakesNonce;
    TriedAgain(c, w, t, c, w);
    TriedAgain(c, w, t, c', Applied(c, w, t).0);
    SenderNonce(c, w, t);
  }

  /** The largest word is no accident: nonces saturate, so a failed transaction with that nonce leaves it in
      place and passes the nonce check again, and with any other nonce it does not. */
  lemma FailedReplayIff(c: Context, w: World, t: Transaction)
    requires c.env.Terminating() && Validate(c, w, t, true).None? && Settleable(c, w, t) && TakesNonce(c, t)
    requires Rejects(Perform(c, w, t).result) && t.sender in Applied(c, w, t).0.accounts
    ensures Applied(c, w, t).0.Nonce(t.sender) == t.nonce <==> t.nonce == MAX_U256
  {
    hide Perform, Applied, Validate, Env.Terminating, Charge, Cost;
    TriedAgain(c, w, t, c, w);
    ChargeMoves(c, w, t, t.sender);
    FailedTopAction(c, w, t);
    SenderNonce(c, w, t);
  }

  // ----- refunds

  /** The refund is the largest amount that the counters allow and whose double is within the gas used. */
  lemma RefundIsLargest(schedule: Schedule, t: Transaction, s: Substate, r: VmResult, amount: nat)
    requires s.sstoreClearsRefund >= 0 && GasLeftBeforeRefund(r) <= t.gas
    ensures var refunded := Settle(schedule, t, s, r).refunded;
            var allowed := s.sstoreClearsRefund % TWO_64 + schedule.suicideRefundGas * |s.suicides|;
            var used := t.gas - (if r.Ok? then r.value.gasLeft else 0);
            && refunded <= allowed && 2 * refunded <= used
            && (amount <= allowed && 2 * amount <= used ==> amount <= refunded)
  {
    hide Cost;
  }

  // ----- the report

  /** What the call tree of a transaction reports. */
  ghost function TransactionEvents(c: Context, w: World, t: Transaction): seq<CallEvent>
    requires c.env.Terminating() && Validate(c, w, t, false).None?
  {
    var w' := Charge(c, w, t);
    TopActionAffordable(c, w, t, w.Nonce(t.sender));
    ActionEvents(c.env, w', ChargeTouches(c, w, t), TopAction(c, w', t, w.Nonce(t.sender)))
  }

  lemma PerformAdds(c: Context, w: World, t: Transaction)
    requires c.env.Terminating() && Validate(c, w, t, false).None?
    ensures var s, events := Perform(c, w, t).substate, TransactionEvents(c, w, t);
            && s.logs == LogsOf(events) && s.contractsCreated == ContractsOf(events)
            && s.sstoreClearsRefund == RefundOf(events) && s.suicides == DestroyedIn(events)
  {
    hide Direct, ActionEvents, LogsOf, ContractsOf, RefundOf, DestroyedIn, Charge, TopAction;
    var w' := Charge(c, w, t);
    TopActionAffordable(c, w, t, w.Nonce(t.sender));
    ActionAdds(c.env, w', ChargeTouches(c, w, t), TopAction(c, w', t, w.Nonce(t.sender)));
  }

  /** The report of an executed transaction tells how its action ended. If it ended well, the logs and the
      contracts are those of the call tree, in order, and the output is that of the action; else there are
      none. */
  lemma ReportTells(c: Context, w: World, t: Transaction)
    requires c.env.Terminating() && Validate(c, w, t, false).None? && Settleable(c, w, t)
    requires Applied(c, w, t).1.Success?
    ensures var r, executed, events := Perform(c, w, t).result, Applied(c, w, t).1.executed, TransactionEvents(c, w, t);
            && (executed.exception.None? <==> Accepts(r))
            && (r.Err? ==> executed.exception == Some(r.error))
            && (r.Ok? && !r.value.applyState ==> executed.exception == Some(Reverted))
            && executed.logs == (if Accepts(r) then LogsOf(events) else [])
            && executed.contractsCreated == (if Accepts(r) then ContractsOf(events) else [])
            && executed.gas == t.gas
            && (Accepts(r) ==> executed.refunded == SettlementOf(c, w, t).refunded)
            && (r.Ok? && !t.action.Create? ==> executed.output == r.value.returnData)
            && (t.action.Create? && !c.outputFromCreate ==> executed.output == [])
  {
    PerformAdds(c, w, t);
    if Rejects(Perform(c, w, t).result) {
      FailedTopAction(c, w, t);
    }
    hide Perform, TransactionEvents, AfterSettlement, Cost, Validate;
  }

  // ----- the final sweep

  /** Garbage collection takes touched accounts only: empty ones where the schedule says so, and where dust is
      cleaned those that have fallen below the price of a plain transaction and below the balance they were
      loaded with. Contracts are spared unless the schedule names them. */
  lemma CollectedIff(c: Context, w: World, t: Transaction, touched: set<Address>, a: Address)
    ensures var schedule, loaded := c.env.schedule, c.oldBalance(a);
            a in Garbage(c, t, w, touched) <==>
              && a in touched && w.Exists(a)
              && (|| (schedule.killEmpty && w.Balance(a) == 0 && w.Nonce(a) == 0 && w.Code(a) == Some([]))
                  || (&& schedule.killDust != Off && (w.Code(a) != Some([]) ==> schedule.killDust == WithCodeAndStorage)
                      && w.Balance(a) < (schedule.txGas * t.gasPrice) % TWO_256
                      && loaded.Some? && w.Balance(a) < loaded.value))
  {
  }

  /** Where empty accounts are cleaned, no transaction leaves a touched account empty (EIP-161), and no
      transaction leaves an account that destroyed itself. */
  lemma SweepLeavesNoEmpty(c: Context, w: World, t: Transaction, a: Address)
    requires c.env.Terminating() && Validate(c, w, t, false).None? && Settleable(c, w, t)
    requires !SettlementOf(c, w, t).Overflows() && a in Applied(c, w, t).0.accounts
    ensures var o, w' := Perform(c, w, t), Applied(c, w, t).0;
            && a !in o.substate.suicides
            && (c.env.schedule.killEmpty && a in o.substate.touched ==>
                 !(w'.Balance(a) == 0 && w'.Nonce(a) == 0 && w'.Code(a) == Some([])))
  {
    hide Perform, Cost, Validate, PayOut, PayOutTouches;
  }

  /** Whether the schedule collects anything: empty accounts or dust. */
  predicate Tracks(schedule: Schedule) {
    schedule.killDust != Off || (schedule.noEmpty && schedule.killEmpty)
  }

  /** A sender that pays for its gas is looked at by the final sweep. */
  lemma SenderIsTouched(c: Context, w: World, t: Transaction)
    requires c.env.Terminating() && Validate(c, w, t, false).None? && Tracks(c.env.schedule)
    requires !t.action.PrivateToPrivate? && !t.action.PrivateCall?
    ensures t.sender in Perform(c, w, t).substate.touched
  {
    hide Direct, TopAction, Charge;
    var w' := Charge(c, w, t);
    TopActionAffordable(c, w, t, w.Nonce(t.sender));
    ActionTouches(c.env, w', ChargeTouches(c, w, t), TopAction(c, w', t, w.Nonce(t.sender)), t.sender);
  }

  /** Paying nothing: a refund of zero creates no account; a fee of zero creates a missing author before EIP-161
      only, and an author that exists is then looked at by the final sweep. */
  lemma PayingNothing(c: Context, w: World, t: Transaction, x: Settlement)
    requires x.refundValue == x.feesValue == 0
    ensures var w', author := PayOut(c, w, t, x), c.author;
            && w'.accounts - {author} == w.accounts - {author}
            && (author in w'.accounts <==>
                 author in w.accounts || (!c.env.schedule.noEmpty && c.env.schedule.killDust == Off))
            && (author in PayOutTouches(c, w, t, x) <==> author in w.accounts && Tracks(c.env.schedule))
  {
  }
}
