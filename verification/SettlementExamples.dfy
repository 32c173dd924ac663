/** Concrete transactions at the edges of settlement. */
module SettlementExamples {
  import opened Primitives
  import opened WorldState
  import opened Externalities
  import opened Executive
  import opened CallTree
  import opened Transact

  const SCHEDULE := Schedule(
    maxDepth := 1024, noEmpty := true, killEmpty := true, killDust := Off, keepUnsignedNonce := false,
    exceptionalFailedCodeDeposit := true, createDataGas := 200, createDataLimit := 24576, suicideRefundGas := 24000,
    txGas := 21000, txCreateGas := 53000, txDataZeroGas := 4, txDataNonZeroGas := 68)

  /** A machine that stops at once, keeping all its gas, or fails at once. */
  function EnvOf(fails: bool): Env {
    Env(
      schedule := SCHEDULE,
      nextRequest := (p: ActionParams, _, _) => if fails then Fail(OutOfGas) else Stop(Known(p.gas)),
      stepBound := _ => 0,
      builtin := _ => None,
      blockNumber := 1,
      lastHash := _ => 0,
      codeHash := _ => 0,
      contractAddress := (_, sender, _, _) => sender + 1)
  }

  function ContextOf(fails: bool): Context {
    Context(
      env := EnvOf(fails), author := 1, gasUsed := 0, gasLimit := 1_000_000, scheme := FromSenderAndNonce,
      outputFromCreate := false, oldBalance := _ => None)
  }

  function TransactionOf(action: Action, gas: U256, gasPrice: U256, value: U256): Transaction {
    Transaction(
      sender := 2, isUnsigned := false, nonce := 0, gas := gas, gasPrice := gasPrice, value := value, data := [],
      action := action)
  }

  lemma EnvKeepsContracts(fails: bool)
    ensures EnvOf(fails).Terminating() && GasMetered(EnvOf(fails)) && FreshAddresses(EnvOf(fails))
  {
  }

  const PRICE: U256 := 0x2_0000_0000_0000_0000_0000_0000_0000_0000_0000_0000_0000_0000_0000_0000_0000

  /** 42000 gas at a price of 2^241, sent to private code. */
  const SPLIT := TransactionOf(PrivateToPrivate, 42000, PRICE, 0)

  const WITH_CODE := World(map[PRIVATE_EXECUTIVE_ADDRESS := Account(0, 1, [1], map[])], [], 0)

  lemma SplitIsValid(fails: bool)
    ensures Validate(ContextOf(fails), WITH_CODE, SPLIT, true).None?
    ensures Validate(ContextOf(fails), WITH_CODE, SPLIT, false).None?
    ensures GasRequired(SPLIT, SCHEDULE) == 21000
    ensures MAX_U256 < Cost(42000, PRICE) <= 2 * MAX_U256 && Cost(21000, PRICE) <= MAX_U256
  {
  }

  function VerdictOf(fails: bool): VmResult {
    if fails then Err(OutOfGas) else Ok(FinalizationResult(21000, [], true))
  }

  function TopOf(fails: bool): CallCreateExecutive {
    SplitIsValid(fails);
    TopAction(ContextOf(fails), WITH_CODE, SPLIT, 0)
  }

  lemma SplitStarts(fails: bool)
    ensures var e := TopOf(fails);
            && e.Fresh() && e.kind.ExecCall? && e.kind.unconfirmed == NEW_SUBSTATE && e.kind.params.gas == 21000
            && e.depth == 0 && !e.isStatic && !e.isCreate
            && Affordable(WITH_CODE, e.kind.params) && BuiltinKnown(EnvOf(fails), e)
            && Prepare(EnvOf(fails), WITH_CODE, NEW_SUBSTATE, e)
               == Started(WITH_CODE.Checkpoint(), NEW_SUBSTATE, Frame(e.kind.params, 0, false, false, []))
  {
    SplitIsValid(fails);
    hide GasRequired;
  }

  lemma MachineEnds(fails: bool, w: World, f: Frame)
    requires f.params.gas == 21000
    ensures Interact(EnvOf(fails), w, NEW_SUBSTATE, f) == Halt(w, NEW_SUBSTATE, VerdictOf(fails))
  {
  }

  /** An action whose machine ends with its first request. */
  lemma EndsAtOnce(env: Env, w: World, s: Substate, e: CallCreateExecutive, r: VmResult)
    requires env.Terminating() && e.Fresh() && Affordable(w, e.kind.params) && BuiltinKnown(env, e)
    requires Prepare(env, w, s, e).Started?
    requires var p := Prepare(env, w, s, e);
             Interact(env, p.world, e.kind.unconfirmed, p.frame) == Halt(p.world, e.kind.unconfirmed, r)
    ensures var o, p := Direct(env, w, s, e), Prepare(env, w, s, e);
            o.result == r && o.substate == EnactResult(r, p.world, p.substate, e.kind.unconfirmed).1
  {
    hide Interact, Prepare, Env.Terminating;
  }

  /** Nothing to refund for. */
  predicate NoRefunds(s: Substate) {
    s.suicides == {} && s.sstoreClearsRefund == 0
  }

  lemma NothingToEnact(r: VmResult, w: World, s: Substate, u: Substate)
    requires NoRefunds(s) && NoRefunds(u)
    ensures NoRefunds(EnactResult(r, w, s, u).1)
  {
    assert s.Accrue(u).suicides == s.suicides + u.suicides == {};
  }

  lemma SplitRuns(fails: bool)
    requires EnvOf(fails).Terminating()
    requires var e := TopOf(fails); e.Fresh() && Affordable(WITH_CODE, e.kind.params) && BuiltinKnown(EnvOf(fails), e)
    ensures var o := Direct(EnvOf(fails), WITH_CODE, NEW_SUBSTATE, TopOf(fails));
            o.result == VerdictOf(fails) && NoRefunds(o.substate)
  {
    hide Interact, Prepare, TopOf, EnvOf, Direct, Env.Terminating, Affordable, BuiltinKnown;
    SplitStarts(fails);
    MachineEnds(fails, WITH_CODE.Checkpoint(), Frame(TopOf(fails).kind.params, 0, false, false, []));
    NothingToEnact(VerdictOf(fails), WITH_CODE.Checkpoint(), NEW_SUBSTATE, NEW_SUBSTATE);
    hide EnactResult, NoRefunds;
    EndsAtOnce(EnvOf(fails), WITH_CODE, NEW_SUBSTATE, TopOf(fails), VerdictOf(fails));
  }

  /** The machine's own verdict is that of the whole action. */
  lemma SplitPerforms(fails: bool)
    requires EnvOf(fails).Terminating() && Validate(ContextOf(fails), WITH_CODE, SPLIT, false).None?
    ensures var o := Perform(ContextOf(fails), WITH_CODE, SPLIT);
            o.result == VerdictOf(fails) && NoRefunds(o.substate)
  {
    hide Direct, Validate, TopAction, EnvOf;
    assert Charge(ContextOf(fails), WITH_CODE, SPLIT) == WITH_CODE;
    SplitStarts(fails);
    SplitRuns(fails);
  }

  lemma SplitSettles(fails: bool, s: Substate)
    requires NoRefunds(s)
    ensures GasLeftBeforeRefund(VerdictOf(fails)) <= SPLIT.gas
    ensures Settle(SCHEDULE, SPLIT, s, VerdictOf(fails)).Overflows() <==> fails
  {
    SplitIsValid(fails);
    hide Cost;
    var x := Settle(SCHEDULE, SPLIT, s, VerdictOf(fails));
    assert x.gasUsed == (if fails then 42000 else 21000) && x.gasLeft == (if fails then 0 else 21000);
    assert Cost(0, PRICE) == 0 by {
      FreeGas();
    }
  }

  lemma FreeGas()
    ensures Cost(0, PRICE) == 0
  {
  }

  /** Between one and two largest words the error depends on the run: one transaction in one state, which
      a machine that fails makes overflow and a machine that stops does not. */
  lemma OverflowDependsOnRun(fails: bool)
    ensures EnvOf(fails).Terminating() && Validate(ContextOf(fails), WITH_CODE, SPLIT, true).None?
    ensures Settleable(ContextOf(fails), WITH_CODE, SPLIT)
    ensures MAX_U256 < Cost(SPLIT.gas, SPLIT.gasPrice) <= 2 * MAX_U256
    ensures Applied(ContextOf(fails), WITH_CODE, SPLIT).1 == Failure(TransactionMalformed) <==> fails
    ensures Applied(ContextOf(fails), WITH_CODE, SPLIT).1.Success? <==> !fails
  {
    hide Perform, Cost, Validate, Settle, AfterSettlement, EnvOf, Env.Terminating;
    EnvKeepsContracts(fails);
    SplitIsValid(fails);
    SplitPerforms(fails);
    SplitSettles(fails, Perform(ContextOf(fails), WITH_CODE, SPLIT).substate);
    assert ContextOf(fails).env.schedule == SCHEDULE by {
      SameSchedule(fails);
    }
  }

  lemma SameSchedule(fails: bool)
    ensures ContextOf(fails).env.schedule == SCHEDULE
  {
  }

  /** A private call that pays 1 to a public account, at a price that must overflow. */
  const PAYS_OUT := TransactionOf(PrivateCall(7), 21000, MAX_U256, 1)

  const NO_ACCOUNTS := World(map[], [], 0)

  lemma PayoutIsValid()
    ensures Validate(ContextOf(false), NO_ACCOUNTS, PAYS_OUT, true).None?
    ensures Validate(ContextOf(false), NO_ACCOUNTS, PAYS_OUT, false).None?
    ensures GasRequired(PAYS_OUT, SCHEDULE) == 21000
    ensures Cost(PAYS_OUT.gas, PAYS_OUT.gasPrice) > 2 * MAX_U256
  {
  }

  function PayoutTop(): CallCreateExecutive {
    PayoutIsValid();
    TopAction(ContextOf(false), NO_ACCOUNTS, PAYS_OUT, 0)
  }

  lemma PayoutTransfers()
    ensures var e := PayoutTop();
            && e.Fresh() && Affordable(NO_ACCOUNTS, e.kind.params) && BuiltinKnown(EnvOf(false), e)
            && var r := Prepare(EnvOf(false), NO_ACCOUNTS, NEW_SUBSTATE, e);
               && r.Settled? && r.result == Ok(FinalizationResult(0, [], true)) && r.world.Balance(7) == 1
               && r.substate.sstoreClearsRefund == 0
  {
    PayoutIsValid();
    hide GasRequired;
  }

  lemma PayoutPerforms()
    requires EnvOf(false).Terminating() && Validate(ContextOf(false), NO_ACCOUNTS, PAYS_OUT, false).None?
    ensures var o := Perform(ContextOf(false), NO_ACCOUNTS, PAYS_OUT);
            && o.result == Ok(FinalizationResult(0, [], true)) && o.world.Balance(7) == 1
            && o.substate.sstoreClearsRefund == 0
  {
    hide Prepare, Validate, TopAction, EnvOf, DirectFrame, Env.Terminating;
    assert Charge(ContextOf(false), NO_ACCOUNTS, PAYS_OUT) == NO_ACCOUNTS;
    PayoutTransfers();
  }

  /** Refusal after validation is not atomic: the transaction is refused, and its payment stays. */
  lemma RefusalKeepsPayment()
    ensures EnvOf(false).Terminating() && Validate(ContextOf(false), NO_ACCOUNTS, PAYS_OUT, true).None?
    ensures Settleable(ContextOf(false), NO_ACCOUNTS, PAYS_OUT)
    ensures var (w, r) := Applied(ContextOf(false), NO_ACCOUNTS, PAYS_OUT);
            r == Failure(TransactionMalformed) && NO_ACCOUNTS.Balance(7) == 0 && w.Balance(7) == 1
  {
    hide Perform, Cost, Validate, Settle, AfterSettlement, EnvOf, Env.Terminating, Applied;
    EnvKeepsContracts(false);
    PayoutIsValid();
    PayoutPerforms();
    OverflowIsCertain(ContextOf(false), NO_ACCOUNTS, PAYS_OUT);
    RefusedLate(ContextOf(false), NO_ACCOUNTS, PAYS_OUT);
    OverflowNeedsPrivateInput(ContextOf(false), NO_ACCOUNTS, PAYS_OUT);
  }
}
